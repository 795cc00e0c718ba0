/**
 A map built by a sequence of `m[key] = value` statements, some of which are
 skipped: the shape shared by the protocol map and the lookup table. The fold
 is stated once here, with the facts both builders rely on: a key's final
 value comes from the last write to it, and a key nobody writes keeps its
 value.
 */
module Assignments {

  /** One loop iteration: either skipped, or the assignment m[key] = value. */
  datatype Write<K, V> = Skip | Put(key: K, value: V)

  predicate Writes<K(==), V>(w: Write<K, V>, k: K)
  {
    w.Put? && w.key == k
  }

  function Perform<K(==), V>(m: map<K, V>, w: Write<K, V>): map<K, V>
  {
    match w
    case Skip => m
    case Put(k, v) => m[k := v]
  }

  /** The map after performing the writes ws, in order, on m. */
  function PerformAll<K(==), V>(m: map<K, V>, ws: seq<Write<K, V>>): map<K, V>
    decreases |ws|
  {
    if |ws| == 0 then m else Perform(PerformAll(m, ws[..|ws| - 1]), ws[|ws| - 1])
  }

  /** One more iteration of the loop. */
  lemma PerformAllSnoc<K, V>(m: map<K, V>, ws: seq<Write<K, V>>, w: Write<K, V>)
    ensures PerformAll(m, ws + [w]) == Perform(PerformAll(m, ws), w)
  {
    assert (ws + [w])[..|ws|] == ws;
  }

  /** A key that no write names keeps its presence and value. */
  lemma {:induction false} PerformAllUntouched<K, V>(m: map<K, V>, ws: seq<Write<K, V>>, k: K)
    requires forall i :: 0 <= i < |ws| ==> !Writes(ws[i], k)
    ensures k in PerformAll(m, ws) <==> k in m
    ensures k in m ==> PerformAll(m, ws)[k] == m[k]
    decreases |ws|
  {
    if |ws| > 0 {
      PerformAllUntouched(m, ws[..|ws| - 1], k);
    }
  }

  /** The last write to a key decides its value. */
  lemma {:induction false} PerformAllLastWins<K, V>(m: map<K, V>, ws: seq<Write<K, V>>, j: nat)
    requires j < |ws| && ws[j].Put?
    requires forall i :: j < i < |ws| ==> !Writes(ws[i], ws[j].key)
    ensures ws[j].key in PerformAll(m, ws)
    ensures PerformAll(m, ws)[ws[j].key] == ws[j].value
    decreases |ws|
  {
    var n := |ws| - 1;
    if j < n {
      PerformAllLastWins(m, ws[..n], j);
    }
  }

  /** The keys of the result are those of m and those written. */
  lemma {:induction false} PerformAllKeys<K, V>(m: map<K, V>, ws: seq<Write<K, V>>, k: K)
    ensures k in PerformAll(m, ws) <==> k in m || exists i :: 0 <= i < |ws| && Writes(ws[i], k)
    decreases |ws|
  {
    if |ws| > 0 {
      var n := |ws| - 1;
      PerformAllKeys(m, ws[..n], k);
      if exists i :: 0 <= i < n && Writes(ws[..n][i], k) {
        var i :| 0 <= i < n && Writes(ws[..n][i], k);
        assert Writes(ws[i], k);
      }
      if exists i :: 0 <= i < |ws| && Writes(ws[i], k) {
        var i :| 0 <= i < |ws| && Writes(ws[i], k);
        if i < n {
          assert Writes(ws[..n][i], k);
        }
      }
    }
  }

  /** A skipped iteration can be left out without changing the result. */
  lemma {:induction false} PerformAllWithoutSkip<K, V>(m: map<K, V>, ws: seq<Write<K, V>>, j: nat)
    requires j < |ws| && ws[j] == Skip
    ensures PerformAll(m, ws) == PerformAll(m, ws[..j] + ws[j + 1..])
    decreases |ws|
  {
    var n := |ws| - 1;
    if j == n {
      assert ws[..j] + ws[j + 1..] == ws[..n];
    } else {
      var front := ws[..n];
      PerformAllWithoutSkip(m, front, j);
      assert ws[..j] + ws[j + 1..] == (front[..j] + front[j + 1..]) + [ws[n]];
      PerformAllSnoc(m, front[..j] + front[j + 1..], ws[n]);
    }
  }
}
