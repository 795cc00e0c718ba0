/**
 The protocol resolver: the map from protocol number to protocol name read
 from the host's protocol registry (/etc/protocols), whose lines are
 `name<TAB>number<TAB>...`. In the program the map is a package-level variable
 filled in place; here the map as it was before the call is a parameter and
 the filled map is the result, so that the classifier receives it explicitly.
 */
module Protocols {
  import opened Text
  import opened Wrappers
  import opened Assignments

  /** Protocol number (as text) to protocol name. */
  type ProtocolMap = map<string, string>

  /** What one registry line does to the map: comments and lines without a tab are skipped. */
  function RegistryWrite(line: string): Write<string, string>
  {
    if StartsWith(line, '#') then Skip
    else
      var parts := Split(line, '\t');
      if |parts| < 2 then Skip else Put(parts[1], parts[0])
  }

  function RegistryWrites(lines: seq<string>): seq<Write<string, string>>
  {
    seq(|lines|, i requires 0 <= i < |lines| => RegistryWrite(lines[i]))
  }

  /** The map after reading the registry text into numbers. */
  function Registered(numbers: ProtocolMap, text: string): ProtocolMap
  {
    PerformAll(numbers, RegistryWrites(Split(text, '\n')))
  }

  /**
   buildProtolMap: registry is what reading the file produced, numbers the map
   before the call. A read error is handed back and no entry is written.
   */
  method BuildProtocolMap(registry: Result<string>, numbers: ProtocolMap) returns (r: Result<ProtocolMap>)
    ensures registry.Err? ==> r == Err(registry.error)
    ensures registry.Ok? ==> r == Ok(Registered(numbers, registry.value))
  {
    if registry.Err? {
      return Err(registry.error);
    }
    var lines := Split(registry.value, '\n');
    var m := numbers;
    for i := 0 to |lines|
      invariant m == PerformAll(numbers, RegistryWrites(lines[..i]))
    {
      var line := lines[i];
      assert RegistryWrites(lines[..i + 1]) == RegistryWrites(lines[..i]) + [RegistryWrite(line)];
      PerformAllSnoc(numbers, RegistryWrites(lines[..i]), RegistryWrite(line));
      if StartsWith(line, '#') {
        continue;
      }
      var parts := Split(line, '\t');
      if |parts| < 2 {
        continue;
      }
      m := m[parts[1] := parts[0]];
    }
    assert lines[..|lines|] == lines;
    return Ok(m);
  }

  /** protocolNumberMap[number]: an unknown number yields Go's zero value, the empty string. */
  function Resolve(protocols: ProtocolMap, number: string): (name: string)
  {
    if number in protocols then protocols[number] else ""
  }

  // ---------------------------------------------------------------------
  // Properties

  /** A line is skipped exactly when it is a comment or has no tab. */
  lemma RegistryLineSkipped(line: string)
    ensures RegistryWrite(line) == Skip <==> StartsWith(line, '#') || '\t' !in line
  {
    SplitHasTwoPieces(line, '\t');
  }

  /**
   An accepted line maps the text between its first and second tab (the number)
   to the text before its first tab (the name).
   */
  lemma RegistryLineEntry(line: string)
    requires RegistryWrite(line).Put?
    ensures !StartsWith(line, '#')
    ensures var w := RegistryWrite(line);
      '\t' !in w.key && '\t' !in w.value &&
      (line == w.value + ['\t'] + w.key || w.value + ['\t'] + w.key + ['\t'] <= line)
  {
    var parts := Split(line, '\t');
    JoinSplit(line, '\t');
    SplitPiecesLackSeparator(line, '\t');
    assert '\t' !in parts[0] && '\t' !in parts[1];
    var tail := parts[1..];
    assert line == parts[0] + ['\t'] + Join(tail, '\t');
    if |tail| > 1 {
      assert Join(tail, '\t') == parts[1] + ['\t'] + Join(tail[1..], '\t');
      assert line == (parts[0] + ['\t'] + parts[1] + ['\t']) + Join(tail[1..], '\t');
    }
  }

  /**
   Conversely, tab-separated fields, the first not starting with `#`, make a
   line that maps the second field to the first.
   */
  lemma RegistryLineOf(fields: seq<string>)
    requires |fields| >= 2 && !StartsWith(fields[0], '#')
    requires forall k :: 0 <= k < |fields| ==> '\t' !in fields[k]
    ensures RegistryWrite(Join(fields, '\t')) == Put(fields[1], fields[0])
  {
    SplitJoin(fields, '\t');
    var line := Join(fields, '\t');
    assert line == fields[0] + ['\t'] + Join(fields[1..], '\t');
    assert !StartsWith(line, '#') by {
      if |fields[0]| == 0 {
        assert line[0] == '\t';
      } else {
        assert line[0] == fields[0][0];
      }
    }
  }

  /** The name recorded for a number comes from the last accepted line carrying that number. */
  lemma RegistryLastWins(numbers: ProtocolMap, text: string, j: nat)
    requires var lines := Split(text, '\n');
      j < |lines| && RegistryWrite(lines[j]).Put? &&
      forall i :: j < i < |lines| ==> !Writes(RegistryWrite(lines[i]), RegistryWrite(lines[j]).key)
    ensures var w := RegistryWrite(Split(text, '\n')[j]);
      w.key in Registered(numbers, text) && Registered(numbers, text)[w.key] == w.value
  {
    var ws := RegistryWrites(Split(text, '\n'));
    PerformAllLastWins(numbers, ws, j);
  }

  /** A number that no accepted line carries keeps its earlier entry, or stays absent. */
  lemma RegistryKeepsOthers(numbers: ProtocolMap, text: string, k: string)
    requires forall i :: 0 <= i < |Split(text, '\n')| ==> !Writes(RegistryWrite(Split(text, '\n')[i]), k)
    ensures k in Registered(numbers, text) <==> k in numbers
    ensures k in numbers ==> Registered(numbers, text)[k] == numbers[k]
  {
    var lines := Split(text, '\n');
    var ws := RegistryWrites(lines);
    forall i | 0 <= i < |ws| ensures !Writes(ws[i], k) {
      assert ws[i] == RegistryWrite(lines[i]);
    }
    PerformAllUntouched(numbers, ws, k);
  }

  /** Some accepted line among lines carries the number k. */
  predicate Carries(lines: seq<string>, k: string)
  {
    exists i :: 0 <= i < |lines| && Writes(RegistryWrite(lines[i]), k)
  }

  /** The numbers known afterwards are the earlier ones and those of accepted lines. */
  lemma RegistryKeys(numbers: ProtocolMap, text: string, k: string)
    ensures k in Registered(numbers, text) <==> k in numbers || Carries(Split(text, '\n'), k)
  {
    var lines := Split(text, '\n');
    var ws := RegistryWrites(lines);
    PerformAllKeys(numbers, ws, k);
    assert Registered(numbers, text) == PerformAll(numbers, ws);
    assert (exists i :: 0 <= i < |ws| && Writes(ws[i], k)) <==> Carries(lines, k) by {
      assert |ws| == |lines|;
      forall i | 0 <= i < |lines| ensures ws[i] == RegistryWrite(lines[i]) {}
    }
  }
}
