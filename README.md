# flowlog in Dafny

A model of the three loops that form the core of `flowlog`. The tool tags
network flow-log records and counts them.

- **Protocol registry.** `buildProtolMap` reads the host's protocol registry
  (`/etc/protocols`) into a map from protocol number to protocol name.
- **Lookup table.** `LoadLookupTable` reads a CSV lookup table. After the
  header, each row maps the key `"<port>,<protocol>"` to a tag.
- **Flow logs.** `ProcessFlowLogs` scans the flow log one line at a time. For
  every record with at least eight fields it forms the key from the
  destination port (field 6) and the name of the protocol number (field 7).
  It then updates the `Counters`:
  - the count of the key's tag, or else the untagged count;
  - the count of the key itself.

The model has eight modules:

- `Wrappers` is the I/O boundary. A file that is opened or read whole becomes
  a `Result`. A reader or scanner becomes the sequence of outcomes of its
  successive calls (`Step`). The reader yields items until its first error;
  `Intact` and `Delivered` give those items.
- `Text` gives the string functions the loops use, over ASCII:
  - `strings.Split` and its inverse `Join`;
  - `strings.Fields`, `strings.TrimSpace` and `strings.ToLower`.
- `Assignments` is the shared shape of both map builders. It is a sequence of
  `m[k] = v` statements, some skipped, where the last write to a key wins.
- `Protocols` covers `buildProtolMap` and the lookup `protocolNumberMap[n]`.
- `Lookup` covers `LoadLookupTable`.
- `Classifier` has `Counters` as a class whose fields the method
  `ProcessFlowLogs` updates in place. A value-level specification
  (`Judge`, `Count`, `Classify`) models one pass over the lines.
- `Csv` models how the program's `encoding/csv` reader hands out records, and
  what that does to the lookup table (see Findings).
- `Scenarios` works through concrete inputs: an example protocol registry,
  lookup tables with padded and mixed-case fields, and a short flow log with
  tagged, untagged and too-short records, each with the result it yields.

The registry map is a package-level variable in the program. In the model it
is a value:
- `BuildProtocolMap` receives the map as it was before the call and returns
  the filled map;
- `ProcessFlowLogs` and `Judge` receive the map as a parameter.

## Model

| member | source | states |
|---|---|---|
| Wrappers.DeliveredStopsAtError | main.go:75-79 | A reader's items are those before its first error; nothing after the error is handed out. |
| Text.Split | main.go:32-38 | `strings.Split` on one separator character: the pieces between separators, always at least one. |
| Text.Fields | main.go:111 | `strings.Fields`: the maximal runs of non-white-space characters. A non-empty string starting with a non-space has a first field starting with that character. |
| Text.TrimSpace | main.go:85-87 | `strings.TrimSpace`: the string without its leading and trailing white space. |
| Text.ToLower | main.go:86 | `strings.ToLower` over ASCII: each upper-case letter replaced by its lower-case letter. |
| Text.JoinSplit | main.go:32 | Joining the pieces of `strings.Split` with the separator gives back the string. |
| Text.SplitJoin | main.go:32 | Splitting a join of separator-free pieces gives back the pieces. |
| Text.SplitPiecesLackSeparator | main.go:38 | No piece of a split contains the separator. |
| Text.SplitHasTwoPieces | main.go:38-41 | A split yields two or more pieces exactly when the separator occurs in the string. |
| Text.SplitFree | main.go:38 | A string without the separator splits into itself. |
| Text.SplitPrefix | main.go:38 | Splitting `w + sep + t`, where `w` has no separator, gives `w` followed by the pieces of `t`. |
| Text.FieldsAreWords | main.go:111 | Every field of `strings.Fields` is non-empty and has no white space. |
| Text.FieldsAroundSpace | main.go:111 | A white-space character separates the fields on its two sides. |
| Text.FieldsOfWord | main.go:111 | A non-empty word without white space is its own only field. |
| Text.FieldsOfJoin | main.go:111 | `Fields` undoes a join of words with a white-space separator. |
| Text.TrimLeftPadded | main.go:85-87 | Leading white space before a word that starts with a non-space is what the left trim removes. |
| Text.TrimRightPadded | main.go:85-87 | Trailing white space after a word that ends with a non-space is what the right trim removes. |
| Text.TrimSpacePadded | main.go:85-87 | `TrimSpace` of white space + trimmed word + white space is the word. |
| Text.TrimLeftShape | main.go:85-87 | The left trim is a suffix of its input, the part cut off is all white space, and the result starts with a non-space. |
| Text.TrimRightShape | main.go:85-87 | The right trim is a prefix of its input, the part cut off is all white space, and the result ends with a non-space. |
| Text.TrimSpaceShape | main.go:85-87 | `TrimSpace` is a slice of its input with only white space on either side, and the slice is itself trimmed. |
| Text.ToLowerShape | main.go:86 | `ToLower` keeps the length, leaves no upper-case letter and changes only upper-case letters. |
| Text.ToLowerEqual | main.go:86 | Two strings have the same lower-case form if and only if they have the same length and differ only in letter case. |
| Text.ToLowerConcat | main.go:86 | Lower-casing works character by character over a concatenation. |
| Text.ToLowerOfSpace | main.go:86 | Lower-casing leaves white space unchanged. |
| Text.TrimSpaceToLower | main.go:86 | Trimming then lower-casing gives the same result as lower-casing then trimming. |
| Assignments.PerformAllSnoc | main.go:33-43 | One more iteration of a map-building loop performs its write on the map built so far. |
| Assignments.PerformAllUntouched | main.go:42 | A key that no iteration writes keeps its presence and its value. |
| Assignments.PerformAllLastWins | main.go:89 | The last write to a key decides its value. |
| Assignments.PerformAllKeys | main.go:42 | The keys afterwards are the earlier keys plus the keys written. |
| Assignments.PerformAllWithoutSkip | main.go:80-84 | A skipped iteration can be removed without changing the map. |
| Protocols.RegistryWrite | main.go:34-42 | What one registry line does to the map: nothing for a line starting with `#` or with fewer than two tab-separated parts, otherwise it maps the second part to the first. |
| Protocols.Registered | main.go:32-43 | The map after every line of the registry text has been processed in order. |
| Protocols.BuildProtocolMap | main.go:25-46 | A read error is returned and the map is not touched. Otherwise the result is the map after processing every line of the registry text in order. |
| Protocols.RegistryLineSkipped | main.go:34-41 | A registry line is skipped if and only if it starts with `#` or contains no tab. |
| Protocols.RegistryLineEntry | main.go:38-42 | An accepted line does not start with `#`. It maps the text between its first and second tab (the number) to the text before its first tab (the name). Neither contains a tab. |
| Protocols.RegistryLineOf | main.go:34-42 | Conversely, tab-separated tab-free fields, the first not starting with `#`, make a line that maps the second field to the first. |
| Protocols.RegistryLastWins | main.go:33-43 | A number's name comes from the last accepted line carrying that number. |
| Protocols.RegistryKeepsOthers | main.go:21-42 | A number that no accepted line carries keeps its earlier entry, or stays absent. |
| Protocols.RegistryKeys | main.go:33-43 | The numbers known afterwards are the earlier ones plus those of accepted lines. |
| Protocols.Resolve | main.go:118 | `protocolNumberMap[n]`: the name stored for the number, or Go's zero value, the empty string, when the number is unknown. |
| Lookup.Key | main.go:88 | The composite key: port, a comma, and protocol. |
| Lookup.RowKey | main.go:85-88 | The key of a three-field row: the trimmed port and the lower-cased, trimmed protocol. |
| Lookup.RowWrite | main.go:80-89 | What one data row does to the table: nothing when it does not have exactly three fields, otherwise the row's key maps to the trimmed tag. |
| Lookup.TableOf | main.go:75-90 | The table after the data rows have been processed in order, starting from an empty one. |
| Lookup.LoadLookupTable | main.go:59-93 | The outcomes are: the open error is returned; an empty file or a failed header read is an error; otherwise the table is built from the data rows read before the first read error. |
| Lookup.KeySplit | main.go:169 | A key splits at its comma back into port and protocol when neither contains a comma. |
| Lookup.RowKeyNormalised | main.go:85-88 | A row's key is the trimmed port, a comma and the protocol. The protocol is lower-cased and trimmed (in either order), with no upper-case letter and no surrounding space. |
| Lookup.RowKeyIgnoresCase | main.go:85-89 | Rows whose protocols differ only in letter case write the same key. The tag is stored trimmed, with its case kept. |
| Lookup.TableKeys | main.go:80-89 | A key is in the table if and only if some three-field row has that key. |
| Lookup.TableLastWins | main.go:89 | With duplicate keys, the tag of the last row with that key is stored. |
| Lookup.MalformedRowIgnored | main.go:80-84 | A row with other than three fields can be removed without changing the table. |
| Lookup.TableStopsAtError | main.go:69-79 | The header never reaches the table. Rows from the first read error onward do not either. |
| Csv.StrictReads | main.go:68-76 | The read outcomes of the reader `csv.NewReader` creates: a record with the header's number of fields is handed out, any other record is a field-count error. |
| Csv.LenientReads | main.go:75-76 | The read outcomes with field counts unchecked: every record is handed out. |
| Csv.LoadedTable | main.go:75-92 | The table `LoadLookupTable` returns for read outcomes whose first record, the header, was read. |
| Csv.StrictStopsAtArityChange | main.go:68-79 | With the reader as created, the table holds only the rows before the first row whose field count differs from the header's. |
| Csv.StrictRowsHaveHeaderArity | main.go:68-84 | With the reader as created, every row that reaches the table has the header's arity. With a header of other than three fields the table is empty. |
| Csv.LenientDeliversAll | main.go:75-79 | A reader that does not check field counts hands every data row to the loop. |
| Csv.LenientIgnoresMalformedRow | main.go:80-84 | With such a reader, removing a malformed row leaves the loaded table unchanged. |
| Classifier.Incremented | main.go:123-129 | Go's `m[k]++` on a map of counts: a missing key counts as 0 and is added with count 1. |
| Classifier.Judge | main.go:111-126 | The fate of one flow-log line: skipped with fewer than eight fields, otherwise tagged with the table's tag for key `<field 6>,<name of protocol field 7>`, or untagged when the table lacks that key. |
| Classifier.Count | main.go:122-129 | Counting one verdict: a tagged line increments its tag and its key, an untagged line increments the untagged count and its key, a skipped line changes nothing. |
| Classifier.Classify | main.go:109-130 | The counters after counting every line in order, starting from empty ones. |
| Classifier.Counters.constructor | main.go:97-100 | New counters are empty. |
| Classifier.Counters.Record | main.go:111-129 | Counting one line in place: the new counters are the old ones with the line's verdict counted. |
| Classifier.ProcessFlowLogs | main.go:96-137 | The open error is returned. A scanner error other than end of file is returned and the counters are dropped. Otherwise the new counters equal the classification of the lines read. Untagged plus the tag counts, and the port/protocol counts, both add up to the number of records with at least eight fields. |
| Classifier.ClassifyNextLine | main.go:109-110 | The next line a scanner hands out is counted on top of the lines before it. |
| Classifier.ClassifySnoc | main.go:109-130 | One more line counts that line on top of the counters so far. |
| Classifier.SumIncremented | main.go:123-129 | `m[k]++` adds exactly one to the total of a count map, whether or not `k` was present. |
| Classifier.ClassifyConserves | main.go:109-130 | Conservation: untagged plus the tag totals, and the port/protocol totals, both equal the number of records with at least eight fields. |
| Classifier.ClassifyCounts | main.go:111-129 | Each counter against an independent count of the lines. The count of key `k` is the number of records with key `k`. The count of tag `g` is the number of records tagged `g`. The untagged count is the number of records whose key the table lacks. A key or tag is stored if and only if it occurred. |
| Classifier.ClassifyPositive | main.go:122-129 | Every stored count is positive, so the keys of the two maps, one output row each, are exactly the keys and tags that occurred. |
| Classifier.CountLine | main.go:111-129 | For one line: fewer than eight fields changes nothing. Otherwise exactly one of the tag's count or the untagged count grows by one, no other tag count changes, and the key's port/protocol count grows by one either way. |
| Classifier.UnresolvedProtocol | main.go:117-126 | A protocol number missing from the map leaves an empty protocol part, key `"<port>,"`. The record is still counted, and it is untagged unless the table holds exactly that key. |
| Scenarios.JudgeFlowRecord | main.go:111-126 | An eight-field record whose protocol number resolves to `name` is judged by the key `<port>,<name>`: tagged with the table's tag when the table holds it, untagged otherwise. |
| Scenarios.TableA | main.go:85-89 | Rows `443,tcp,web` and `53, UDP,dns ` give the table `{443,tcp: web, 53,udp: dns}`. |
| Scenarios.ScenarioA | main.go:96-137 | Three web flows, two DNS flows and a five-field line give tag counts web 3 and dns 2. They give no untagged flows, and port/protocol counts `443,tcp` 3 and `53,udp` 2. |
| Scenarios.ScenarioB | main.go:122-129 | One more flow to port 9999 over protocol 6 adds untagged 1 and `9999,tcp` 1. The tag counts are unchanged. |
| Scenarios.ScenarioC | main.go:80-89 | Given the rows in full, a two-field row between them is ignored, and the other rows are loaded. |
| Scenarios.ScenarioCAsWritten | main.go:68-79 | With the reader as created, that two-field row ends the table: only `443,tcp` is loaded. |
| Scenarios.ScenarioCCorrected | main.go:75-89 | With a reader that does not check field counts, the same file loads both other rows. |
| Scenarios.EntryLines | main.go:38-42 | The lines `tcp\t6\tTCP` and `udp\t17\tUDP` map `6` to `tcp` and `17` to `udp`. |
| Scenarios.RegistryScenario | main.go:32-43 | A registry consisting of a comment, `tcp\t6\tTCP`, `udp\t17\tUDP` and an empty line gives `{6: tcp, 17: udp}`. |

## Left out

- File access is not modelled: `os.ReadFile`, `os.Open`, closing files, and the failure of a file to open. These appear as the `Result` and `Step` values that the file layer produced.
- `bufio.Scanner`'s line splitting and its token size limit are not modelled. The scanner is the sequence of lines it hands out, ending in the error, if any, that stopped it.
- `encoding/csv` tokenisation (quoting, escaped commas, multi-line fields) is not modelled. The `Csv` module models only the field-count check.
- Command-line flags, `main`, logging (`log.Printf` of malformed rows) and `WriteOutput` are left out. They do I/O and formatting only. `Lookup.KeySplit` states the one fact `WriteOutput` relies on.
- `strings.Fields`, `strings.TrimSpace` and `strings.ToLower` are modelled over ASCII. Unicode white space and Unicode case mapping are not modelled.
- Classifier.Counters: counts are unbounded naturals. Go's `int` counts would wrap only after more than 2^63−1 records on 64-bit targets (2^31−1 on 32-bit ones).
- Classifier.ProcessFlowLogs: the program allocates the counters before opening the file. The model allocates them after, which cannot be observed by a caller.

## Findings

| source | as written | input that shows it | evidently intended | confidence | as-written member | corrected member |
|---|---|---|---|---|---|---|
| main.go:68-84 | `csv.NewReader` leaves `FieldsPerRecord` at 0, so every record must have the header's field count. A row with a different count comes back with `ErrFieldCount`, and the loop breaks on any error. The malformed row therefore ends the table, all rows after it are lost, and the `len(row) != 3` branch can only fire when the header does not have three fields. | header `dstport,protocol,tag`, then `443,tcp,web`, `80,tcp`, `53, UDP,dns ` loads only `443,tcp` | the two-field row is logged and skipped (the branch's own comment), and `53,udp` is loaded too | high, not executed | Scenarios.ScenarioCAsWritten | Scenarios.ScenarioCCorrected |
