/**
 Worked examples: a protocol registry, a lookup
 table with a mixed-case protocol and padded fields, and a short flow log with
 tagged, untagged and too-short records, each with the counters it yields.
 */
module Scenarios {
  import opened Text
  import opened Assignments
  import opened Lookup
  import opened Protocols
  import opened Classifier
  import opened Csv

  const Numbers: ProtocolMap := map["6" := "tcp", "17" := "udp"]

  function FlowRecord(port: string, proto: string): string
  {
    Join(["2", "123", "eni-0a", "10.0.0.1", "10.0.0.2", "49153", port, proto], ' ')
  }

  /**
   An example record is judged by the port and the name its protocol number
   resolves to.
   */
  lemma JudgeFlowRecord(port: string, proto: string, name: string, key: string, protocols: ProtocolMap, table: LookupTable)
    requires |port| > 0 && NoSpace(port) && |proto| > 0 && NoSpace(proto)
    requires Resolve(protocols, proto) == name && Key(port, name) == key
    ensures Judge(FlowRecord(port, proto), protocols, table) == if key in table then Tagged(key, table[key]) else Untagged(key)
  {
    FieldsOfJoin(["2", "123", "eni-0a", "10.0.0.1", "10.0.0.2", "49153", port, proto], ' ');
  }

  lemma TrimWord(w: string)
    requires Trimmed(w)
    ensures TrimSpace(w) == w
  {
    TrimSpacePadded("", w, "");
    assert "" + w + "" == w;
  }

  lemma RowWeb()
    ensures RowWrite(["443", "tcp", "web"]) == Put("443,tcp", "web")
  {
    var r1 := ["443", "tcp", "web"];
    TrimWord("443"); TrimWord("tcp"); TrimWord("web");
    assert ToLower("tcp") == "tcp";
    assert TrimSpace(ToLower(r1[1])) == "tcp";
    assert Key("443", "tcp") == "443,tcp";
  }

  lemma RowDns()
    ensures RowWrite(["53", " UDP", "dns "]) == Put("53,udp", "dns")
  {
    var r2 := ["53", " UDP", "dns "];
    TrimWord("53");
    assert ToLower(" UDP") == " udp";
    TrimSpacePadded(" ", "udp", "");
    assert " " + "udp" + "" == " udp";
    TrimSpacePadded("", "dns", " ");
    assert "" + "dns" + " " == "dns ";
    assert TrimSpace(ToLower(r2[1])) == "udp";
    assert TrimSpace(r2[2]) == "dns";
    assert Key("53", "udp") == "53,udp";
  }

  lemma TableWeb()
    ensures TableOf([["443", "tcp", "web"]]) == map["443,tcp" := "web"]
  {
    RowWeb();
    var ws := RowWrites([["443", "tcp", "web"]]);
    assert ws == [Put("443,tcp", "web")];
    var empty: LookupTable := map[];
    PerformAllSnoc(empty, [], Put("443,tcp", "web"));
    assert [] + [Put("443,tcp", "web")] == ws;
  }

  /** Two rows, one with a padded, upper-case protocol and a padded tag. */
  lemma TableA()
    ensures TableOf([["443", "tcp", "web"], ["53", " UDP", "dns "]]) == map["443,tcp" := "web", "53,udp" := "dns"]
  {
    RowWeb();
    RowDns();
    var ws := RowWrites([["443", "tcp", "web"], ["53", " UDP", "dns "]]);
    assert ws == [Put("443,tcp", "web"), Put("53,udp", "dns")];
    TableWeb();
    assert ws[..1] == RowWrites([["443", "tcp", "web"]]);
    PerformAllSnoc(map[], ws[..1], Put("53,udp", "dns"));
    assert ws[..1] + [Put("53,udp", "dns")] == ws;
  }

  const Table: LookupTable := map["443,tcp" := "web", "53,udp" := "dns"]

  lemma JudgeWeb()
    ensures Judge(FlowRecord("443", "6"), Numbers, Table) == Tagged("443,tcp", "web")
  {
    assert Key("443", "tcp") == "443,tcp";
    JudgeFlowRecord("443", "6", "tcp", "443,tcp", Numbers, Table);
  }

  lemma JudgeDns()
    ensures Judge(FlowRecord("53", "17"), Numbers, Table) == Tagged("53,udp", "dns")
  {
    assert Key("53", "udp") == "53,udp";
    JudgeFlowRecord("53", "17", "udp", "53,udp", Numbers, Table);
  }

  lemma JudgeOther()
    ensures Judge(FlowRecord("9999", "6"), Numbers, Table) == Untagged("9999,tcp")
  {
    assert Key("9999", "tcp") == "9999,tcp";
    JudgeFlowRecord("9999", "6", "tcp", "9999,tcp", Numbers, Table);
  }

  const Short: string := Join(["2", "123", "eni-0a", "10.0.0.1", "ACCEPT"], ' ')

  lemma JudgeShort()
    ensures Judge(Short, Numbers, Table) == Skipped
  {
    FieldsOfJoin(["2", "123", "eni-0a", "10.0.0.1", "ACCEPT"], ' ');
  }

  lemma ScenarioA()
    ensures var web, dns := FlowRecord("443", "6"), FlowRecord("53", "17");
      Classify([web, web, Short, web, dns, dns], Numbers, Table)
        == Tally(map["web" := 3, "dns" := 2], map["443,tcp" := 3, "53,udp" := 2], 0)
  {
    JudgeWeb();
    JudgeDns();
    JudgeShort();
    CountScenarioA(FlowRecord("443", "6"), FlowRecord("53", "17"), Short, Numbers, Table);
  }

  lemma CountScenarioA(web: string, dns: string, short: string, protocols: ProtocolMap, table: LookupTable)
    requires Judge(web, protocols, table) == Tagged("443,tcp", "web")
    requires Judge(dns, protocols, table) == Tagged("53,udp", "dns")
    requires Judge(short, protocols, table) == Skipped
    ensures Classify([web, web, short, web, dns, dns], protocols, table)
        == Tally(map["web" := 3, "dns" := 2], map["443,tcp" := 3, "53,udp" := 2], 0)
  {
    var w := Tagged("443,tcp", "web");
    var d := Tagged("53,udp", "dns");
    var t1 := Count(Tally(map[], map[], 0), w);
    var t2 := Count(t1, w);
    var t4 := Count(t2, w);
    var t5 := Count(t4, d);
    var t6 := Count(t5, d);
    assert t6 == Tally(map["web" := 3, "dns" := 2], map["443,tcp" := 3, "53,udp" := 2], 0);
    ClassifySnoc([], web, protocols, table);
    assert [] + [web] == [web];
    assert Classify([web], protocols, table) == t1;
    ClassifySnoc([web], web, protocols, table);
    assert [web] + [web] == [web, web];
    assert Classify([web, web], protocols, table) == t2;
    ClassifySnoc([web, web], short, protocols, table);
    assert [web, web] + [short] == [web, web, short];
    assert Classify([web, web, short], protocols, table) == t2;
    ClassifySnoc([web, web, short], web, protocols, table);
    assert [web, web, short] + [web] == [web, web, short, web];
    assert Classify([web, web, short, web], protocols, table) == t4;
    ClassifySnoc([web, web, short, web], dns, protocols, table);
    assert [web, web, short, web] + [dns] == [web, web, short, web, dns];
    assert Classify([web, web, short, web, dns], protocols, table) == t5;
    ClassifySnoc([web, web, short, web, dns], dns, protocols, table);
    assert [web, web, short, web, dns] + [dns] == [web, web, short, web, dns, dns];
  }

  lemma ScenarioB()
    ensures var web, dns := FlowRecord("443", "6"), FlowRecord("53", "17");
      Classify([web, web, Short, web, dns, dns, FlowRecord("9999", "6")], Numbers, Table)
        == Tally(map["web" := 3, "dns" := 2], map["443,tcp" := 3, "53,udp" := 2, "9999,tcp" := 1], 1)
  {
    ScenarioA();
    JudgeOther();
    CountScenarioB(FlowRecord("443", "6"), FlowRecord("53", "17"), Short, FlowRecord("9999", "6"), Numbers, Table);
  }

  lemma CountScenarioB(web: string, dns: string, short: string, other: string, protocols: ProtocolMap, table: LookupTable)
    requires Classify([web, web, short, web, dns, dns], protocols, table)
        == Tally(map["web" := 3, "dns" := 2], map["443,tcp" := 3, "53,udp" := 2], 0)
    requires Judge(other, protocols, table) == Untagged("9999,tcp")
    ensures Classify([web, web, short, web, dns, dns, other], protocols, table)
        == Tally(map["web" := 3, "dns" := 2], map["443,tcp" := 3, "53,udp" := 2, "9999,tcp" := 1], 1)
  {
    var a := [web, web, short, web, dns, dns];
    ClassifySnoc(a, other, protocols, table);
    assert a + [other] == [web, web, short, web, dns, dns, other];
  }

  lemma ScenarioC()
    ensures TableOf([["443", "tcp", "web"], ["80", "tcp"], ["53", " UDP", "dns "]]) == map["443,tcp" := "web", "53,udp" := "dns"]
  {
    var rows := [["443", "tcp", "web"], ["80", "tcp"], ["53", " UDP", "dns "]];
    MalformedRowIgnored(rows, 1);
    assert rows[..1] + rows[2..] == [["443", "tcp", "web"], ["53", " UDP", "dns "]];
    TableA();
  }

  const Header: Row := ["dstport", "protocol", "tag"]

  /**
   Scenario C as written: the reader rejects the two-field row with a
   field-count error, which ends the table; the row after it is lost.
   */
  lemma ScenarioCAsWritten()
    ensures var records := [Header, ["443", "tcp", "web"], ["80", "tcp"], ["53", " UDP", "dns "]];
      LoadedTable(StrictReads(records)) == map["443,tcp" := "web"]
  {
    var records := [Header, ["443", "tcp", "web"], ["80", "tcp"], ["53", " UDP", "dns "]];
    StrictStopsAtArityChange(records, 2);
    assert records[1..2] == [["443", "tcp", "web"]];
    TableWeb();
  }

  /** Scenario C with a lenient reader: the two-field row is ignored and the others are loaded. */
  lemma ScenarioCCorrected()
    ensures var records := [Header, ["443", "tcp", "web"], ["80", "tcp"], ["53", " UDP", "dns "]];
      LoadedTable(LenientReads(records)) == Table
  {
    var records := [Header, ["443", "tcp", "web"], ["80", "tcp"], ["53", " UDP", "dns "]];
    LenientIgnoresMalformedRow(records, 2);
    var shorter := records[..2] + records[3..];
    assert shorter == [Header, ["443", "tcp", "web"], ["53", " UDP", "dns "]];
    LenientDeliversAll(shorter);
    assert shorter[1..] == [["443", "tcp", "web"], ["53", " UDP", "dns "]];
    TableA();
  }

  const RegistryLines: seq<string> := ["# Internet protocols", "tcp\t6\tTCP", "udp\t17\tUDP", ""]

  lemma RegistryLineWrites(lines: seq<string>)
    requires lines == RegistryLines
    ensures var ws := RegistryWrites(lines);
      |ws| == 4 && ws[0] == Skip && ws[1] == Put("6", "tcp") && ws[2] == Put("17", "udp") && ws[3] == Skip
  {
    EntryLines();
    CommentLine();
    EmptyLine();
    var ws := RegistryWrites(lines);
    assert ws[0] == RegistryWrite("# Internet protocols");
    assert ws[1] == RegistryWrite("tcp\t6\tTCP");
    assert ws[2] == RegistryWrite("udp\t17\tUDP");
    assert ws[3] == RegistryWrite("");
  }

  lemma CommentLine()
    ensures RegistryWrite("# Internet protocols") == Skip
  {
  }

  lemma EmptyLine()
    ensures RegistryWrite("") == Skip
  {
  }

  /** The two entry lines of the example registry. */
  lemma EntryLines()
    ensures RegistryWrite("tcp\t6\tTCP") == Put("6", "tcp")
    ensures RegistryWrite("udp\t17\tUDP") == Put("17", "udp")
  {
    assert Join(["tcp", "6", "TCP"], '\t') == "tcp\t6\tTCP";
    RegistryLineOf(["tcp", "6", "TCP"]);
    assert Join(["udp", "17", "UDP"], '\t') == "udp\t17\tUDP";
    RegistryLineOf(["udp", "17", "UDP"]);
  }

  lemma RegistryScenario()
    ensures Registered(map[], Join(RegistryLines, '\n')) == Numbers
  {
    SplitJoin(RegistryLines, '\n');
    RegistryLineWrites(RegistryLines);
    RegisteredOf(RegistryWrites(RegistryLines));
  }

  lemma RegisteredOf(ws: seq<Write<string, string>>)
    requires |ws| == 4 && ws[0] == Skip && ws[1] == Put("6", "tcp") && ws[2] == Put("17", "udp") && ws[3] == Skip
    ensures PerformAll(map[], ws) == Numbers
  {
    var empty: ProtocolMap := map[];
    assert PerformAll(empty, ws[..1]) == empty by {
      assert ws[..1][..0] == [];
    }
    assert PerformAll(empty, ws[..2]) == map["6" := "tcp"] by {
      assert ws[..2][..1] == ws[..1];
    }
    assert PerformAll(empty, ws[..3]) == Numbers by {
      assert ws[..3][..2] == ws[..2];
    }
    assert ws[..4][..3] == ws[..3];
    assert ws[..4] == ws;
  }

}
