/**
 The flow classifier: one pass over the flow log, forming for every record
 the key "<dstport>,<protocol name>" and updating the counters: the tag count
 of the key's tag (or the untagged count) and the port/protocol count of the
 key.
 */
module Classifier {
  import opened Text
  import opened Wrappers
  import opened Protocols
  import opened Lookup

  // ---------------------------------------------------------------------
  // Specification

  /** Go's m[k]++ on a map of counts: a missing key counts as 0. */
  function Incremented(m: map<string, nat>, k: string): map<string, nat>
  {
    m[k := (if k in m then m[k] else 0) + 1]
  }

  /** The count stored for k, 0 when there is none (Go's zero value). */
  function Get(m: map<string, nat>, k: string): nat
  {
    if k in m then m[k] else 0
  }

  /** The fate of one flow-log line. */
  datatype Verdict = Skipped | Tagged(key: string, tag: string) | Untagged(key: string)

  /**
   A line with fewer than eight fields is skipped; otherwise field 6 (the
   destination port) and the name of the protocol numbered by field 7 form the
   key, which the lookup table may tag.
   */
  function Judge(line: string, protocols: ProtocolMap, table: LookupTable): Verdict
  {
    var parts := Fields(line);
    if |parts| < 8 then Skipped
    else
      var key := Key(parts[6], Resolve(protocols, parts[7]));
      if key in table then Tagged(key, table[key]) else Untagged(key)
  }

  function Verdicts(lines: seq<string>, protocols: ProtocolMap, table: LookupTable): seq<Verdict>
  {
    seq(|lines|, i requires 0 <= i < |lines| => Judge(lines[i], protocols, table))
  }

  /** The three counters as values. */
  datatype Tally = Tally(tags: map<string, nat>, ports: map<string, nat>, untagged: nat)

  /** Counting one line. */
  function Count(t: Tally, v: Verdict): Tally
  {
    match v
    case Skipped => t
    case Tagged(key, tag) => Tally(Incremented(t.tags, tag), Incremented(t.ports, key), t.untagged)
    case Untagged(key) => Tally(t.tags, Incremented(t.ports, key), t.untagged + 1)
  }

  /** The counters after the lines, starting from empty ones. */
  function Classify(lines: seq<string>, protocols: ProtocolMap, table: LookupTable): Tally
    decreases |lines|
  {
    if |lines| == 0 then Tally(map[], map[], 0)
    else Count(Classify(lines[..|lines| - 1], protocols, table), Judge(lines[|lines| - 1], protocols, table))
  }

  /** How many verdicts satisfy keep. */
  function CountIf(vs: seq<Verdict>, keep: Verdict -> bool): nat
    decreases |vs|
  {
    if |vs| == 0 then 0 else CountIf(vs[..|vs| - 1], keep) + (if keep(vs[|vs| - 1]) then 1 else 0)
  }

  /** The sum of the counts in a map. */
  ghost function Sum(m: map<string, nat>): nat
  {
    SumOver(m, m.Keys)
  }

  ghost function SumOver(m: map<string, nat>, keys: set<string>): nat
    requires keys <= m.Keys
    decreases keys
  {
    if keys == {} then 0
    else
      var k :| k in keys;
      m[k] + SumOver(m, keys - {k})
  }

  // ---------------------------------------------------------------------
  // The counters and the classification loop

  /** The Counters record the classifier fills in place. */
  class Counters {
    var tagCounts: map<string, nat>
    var portProtocolCounts: map<string, nat>
    var untaggedCount: nat

    /** Fresh counters are empty. */
    constructor ()
      ensures tagCounts == map[] && portProtocolCounts == map[] && untaggedCount == 0
    {
      tagCounts := map[];
      portProtocolCounts := map[];
      untaggedCount := 0;
    }

    function Snapshot(): Tally
      reads this
    {
      Tally(tagCounts, portProtocolCounts, untaggedCount)
    }

    /**
     The loop body of ProcessFlowLogs: a line with fewer than eight fields is
     skipped; otherwise the key's tag count (or the untagged count) and the
     key's port/protocol count go up by one.
     */
    method Record(line: string, protocols: ProtocolMap, table: LookupTable)
      modifies this
      ensures Snapshot() == Count(old(Snapshot()), Judge(line, protocols, table))
    {
      var parts := Fields(line);
      if |parts| < 8 {
        return;
      }
      var dstport := parts[6];
      var protocol := Resolve(protocols, parts[7]);
      var key := Key(dstport, protocol);
      if key in table {
        var tag := table[key];
        tagCounts := Incremented(tagCounts, tag);
      } else {
        untaggedCount := untaggedCount + 1;
      }
      portProtocolCounts := Incremented(portProtocolCounts, key);
    }
  }

  /**
   ProcessFlowLogs: log is what opening the file produced, and then the outcome
   of each line scan. Lines are counted until the scanner stops; if it stopped
   on an error other than the end of the file, the error is returned and the
   counters are discarded (a scanner reports the end of the file as no error).
   */
  method ProcessFlowLogs(log: Result<seq<Step<string>>>, protocols: ProtocolMap, table: LookupTable)
    returns (r: Result<Counters>)
    ensures log.Err? ==> r == Err(log.error)
    ensures log.Ok? && Intact(log.value) < |log.value| && log.value[Intact(log.value)].error != EndOfFile ==>
      r == Err(log.value[Intact(log.value)].error)
    ensures log.Ok? && (Intact(log.value) == |log.value| || log.value[Intact(log.value)].error == EndOfFile) ==>
      r.Ok? && fresh(r.value)
    ensures r.Ok? ==> log.Ok? && r.value.Snapshot() == Classify(Delivered(log.value), protocols, table)
    ensures r.Ok? ==>
      var c := r.value;
      c.untaggedCount + Sum(c.tagCounts) == Sum(c.portProtocolCounts) ==
      CountIf(Verdicts(Delivered(log.value), protocols, table), (v: Verdict) => !v.Skipped?)
  {
    if log.Err? {
      return Err(log.error);
    }
    var counters := new Counters();
    var lines := log.value;
    var i := 0;
    while i < |lines| && lines[i].Item?
      invariant 0 <= i <= |lines|
      invariant forall k :: 0 <= k < i ==> lines[k].Item?
      invariant counters.Snapshot() == Classify(Delivered(lines[..i]), protocols, table)
    {
      var line := lines[i].value;
      ClassifyNextLine(lines, i, protocols, table);
      i := i + 1;
      counters.Record(line, protocols, table);
    }
    if i < |lines| {
      DeliveredStopsAtError(lines, i);
      if lines[i].error != EndOfFile {
        return Err(lines[i].error);
      }
    } else {
      assert lines[..i] == lines;
    }
    ClassifyConserves(Delivered(lines), protocols, table);
    return Ok(counters);
  }

  // ---------------------------------------------------------------------
  // Properties

  /** One more line. */
  lemma ClassifySnoc(lines: seq<string>, line: string, protocols: ProtocolMap, table: LookupTable)
    ensures Classify(lines + [line], protocols, table) == Count(Classify(lines, protocols, table), Judge(line, protocols, table))
  {
    assert (lines + [line])[..|lines|] == lines;
  }

  /** The next line a scanner hands out, counted on top of the earlier ones. */
  lemma ClassifyNextLine(steps: seq<Step<string>>, i: nat, protocols: ProtocolMap, table: LookupTable)
    requires i < |steps| && forall k :: 0 <= k <= i ==> steps[k].Item?
    ensures Classify(Delivered(steps[..i + 1]), protocols, table) ==
      Count(Classify(Delivered(steps[..i]), protocols, table), Judge(steps[i].value, protocols, table))
  {
    assert steps[..i + 1] == steps[..i] + [Item(steps[i].value)];
    DeliveredSnoc(steps[..i], steps[i].value);
    ClassifySnoc(Delivered(steps[..i]), steps[i].value, protocols, table);
  }

  /** Taking any key out of the sum leaves the rest. */
  lemma {:induction false} SumOverRemove(m: map<string, nat>, keys: set<string>, k: string)
    requires keys <= m.Keys && k in keys
    ensures SumOver(m, keys) == m[k] + SumOver(m, keys - {k})
    decreases keys
  {
    var j :| j in keys && SumOver(m, keys) == m[j] + SumOver(m, keys - {j});
    if j != k {
      SumOverRemove(m, keys - {j}, k);
      SumOverRemove(m, keys - {k}, j);
      assert keys - {j} - {k} == keys - {k} - {j};
    }
  }

  /** The sum over keys depends only on the counts of those keys. */
  lemma {:induction false} SumOverAgree(m: map<string, nat>, n: map<string, nat>, keys: set<string>)
    requires keys <= m.Keys && keys <= n.Keys
    requires forall x :: x in keys ==> m[x] == n[x]
    ensures SumOver(m, keys) == SumOver(n, keys)
    decreases keys
  {
    if keys != {} {
      var j :| j in keys && SumOver(m, keys) == m[j] + SumOver(m, keys - {j});
      SumOverAgree(m, n, keys - {j});
      SumOverRemove(n, keys, j);
    }
  }

  /** m[k]++ adds one to the sum. */
  lemma SumIncremented(m: map<string, nat>, k: string)
    ensures Sum(Incremented(m, k)) == Sum(m) + 1
  {
    var n := Incremented(m, k);
    SumOverRemove(n, n.Keys, k);
    var rest := m.Keys - {k};
    assert n.Keys - {k} == rest;
    SumOverAgree(m, n, rest);
    if k in m {
      SumOverRemove(m, m.Keys, k);
    } else {
      assert m.Keys == rest;
    }
  }

  /**
   The conservation invariant: the untagged count plus the tag counts and the
   port/protocol counts both add up to the number of lines with at least eight
   fields.
   */
  lemma {:induction false} ClassifyConserves(lines: seq<string>, protocols: ProtocolMap, table: LookupTable)
    ensures var t := Classify(lines, protocols, table);
      t.untagged + Sum(t.tags) == Sum(t.ports) == CountIf(Verdicts(lines, protocols, table), (v: Verdict) => !v.Skipped?)
    decreases |lines|
  {
    if |lines| == 0 {
      assert Sum(map[]) == 0;
    } else {
      var n := |lines| - 1;
      ClassifyConserves(lines[..n], protocols, table);
      assert Verdicts(lines, protocols, table)[..n] == Verdicts(lines[..n], protocols, table);
      var t := Classify(lines[..n], protocols, table);
      match Judge(lines[n], protocols, table)
      case Skipped =>
      case Tagged(key, tag) =>
        SumIncremented(t.tags, tag);
        SumIncremented(t.ports, key);
      case Untagged(key) =>
        SumIncremented(t.ports, key);
    }
  }

  /**
   Each counter against an independent count of the lines: the port/protocol
   count of k is the number of records with key k, the tag count of g the number
   of records tagged g, the untagged count the number of records whose key the
   table lacks.
   */
  lemma {:induction false} ClassifyCounts(lines: seq<string>, protocols: ProtocolMap, table: LookupTable, k: string, g: string)
    ensures var t := Classify(lines, protocols, table);
      var vs := Verdicts(lines, protocols, table);
      && Get(t.ports, k) == CountIf(vs, (v: Verdict) => !v.Skipped? && v.key == k)
      && Get(t.tags, g) == CountIf(vs, (v: Verdict) => v.Tagged? && v.tag == g)
      && t.untagged == CountIf(vs, (v: Verdict) => v.Untagged?)
      && (k in t.ports <==> CountIf(vs, (v: Verdict) => !v.Skipped? && v.key == k) > 0)
      && (g in t.tags <==> CountIf(vs, (v: Verdict) => v.Tagged? && v.tag == g) > 0)
    decreases |lines|
  {
    ClassifyPositive(lines, protocols, table);
    if |lines| > 0 {
      var n := |lines| - 1;
      ClassifyCounts(lines[..n], protocols, table, k, g);
      assert Verdicts(lines, protocols, table)[..n] == Verdicts(lines[..n], protocols, table);
    }
  }

  /**
   Every stored count is positive, so the keys of the two maps (one output row
   each) are exactly the keys and the tags that occurred.
   */
  lemma {:induction false} ClassifyPositive(lines: seq<string>, protocols: ProtocolMap, table: LookupTable)
    ensures var t := Classify(lines, protocols, table);
      && (forall x :: x in t.ports ==> t.ports[x] > 0)
      && (forall x :: x in t.tags ==> t.tags[x] > 0)
    decreases |lines|
  {
    if |lines| > 0 {
      var n := |lines| - 1;
      ClassifyPositive(lines[..n], protocols, table);
      assert Classify(lines, protocols, table) == Count(Classify(lines[..n], protocols, table), Judge(lines[n], protocols, table));
    }
  }

  /**
   One line: a line with fewer than eight fields changes nothing; otherwise
   exactly one of the key's tag count and the untagged count grows by one, no
   other tag count changes, and the key's port/protocol count grows by one
   whether or not the key is tagged.
   */
  lemma CountLine(t: Tally, line: string, protocols: ProtocolMap, table: LookupTable)
    ensures |Fields(line)| < 8 ==> Count(t, Judge(line, protocols, table)) == t
    ensures |Fields(line)| >= 8 ==>
      var key := Key(Fields(line)[6], Resolve(protocols, Fields(line)[7]));
      var u := Count(t, Judge(line, protocols, table));
      && (key in table ==> Get(u.tags, table[key]) == Get(t.tags, table[key]) + 1 && u.untagged == t.untagged)
      && (key !in table ==> u.untagged == t.untagged + 1)
      && (forall g :: (key !in table || g != table[key]) ==> Get(u.tags, g) == Get(t.tags, g))
      && Get(u.ports, key) == Get(t.ports, key) + 1
      && (forall k :: k != key ==> Get(u.ports, k) == Get(t.ports, k))
  {
  }

  /**
   A protocol number missing from the protocol map leaves the protocol part of
   the key empty; the line is still counted under that key, and it is untagged
   unless the table holds exactly that key.
   */
  lemma UnresolvedProtocol(line: string, protocols: ProtocolMap, table: LookupTable)
    requires |Fields(line)| >= 8 && Fields(line)[7] !in protocols
    ensures var v := Judge(line, protocols, table);
      !v.Skipped? && v.key == Fields(line)[6] + "," &&
      (v.Untagged? <==> Fields(line)[6] + "," !in table)
  {
  }
}
