/**
 The I/O boundary of the program. Files are not opened or read here: the
 caller supplies what the file layer produced, either as a Result (opening a
 file, reading a whole file) or as the sequence of outcomes of successive read
 calls (a CSV reader's Read, a line scanner's Scan).
 */
module Wrappers {

  /**
   A failure reported by the file layer: the end of the input, a CSV record
   whose number of fields is not the expected one (encoding/csv's
   ErrFieldCount), or any other error.
   */
  datatype Error = EndOfFile | FieldCount | IoFailure(reason: string)

  datatype Result<T> = Ok(value: T) | Err(error: Error)

  /** The outcome of one read call: the next item, or the error that ends reading. */
  datatype Step<T> = Item(value: T) | Broken(error: Error)

  /** The number of leading read calls that delivered an item. */
  function Intact<T>(steps: seq<Step<T>>): (n: nat)
    ensures n <= |steps|
    ensures forall i :: 0 <= i < n ==> steps[i].Item?
    ensures n < |steps| ==> steps[n].Broken?
  {
    if |steps| == 0 || steps[0].Broken? then 0 else 1 + Intact(steps[1..])
  }

  /** The items a reader hands out before its first error. */
  function Delivered<T>(steps: seq<Step<T>>): (items: seq<T>)
  {
    seq(Intact(steps), i requires 0 <= i < Intact(steps) => steps[i].value)
  }

  /** A read error at position j hides everything from j on. */
  lemma {:induction false} DeliveredStopsAtError<T>(steps: seq<Step<T>>, j: nat)
    requires j < |steps| && steps[j].Broken?
    ensures |Delivered(steps)| <= j
    ensures Delivered(steps) == Delivered(steps[..j])
  {
  }

  /** While no error has occurred, each read call adds its item. */
  lemma DeliveredSnoc<T>(steps: seq<Step<T>>, x: T)
    requires forall k :: 0 <= k < |steps| ==> steps[k].Item?
    ensures Delivered(steps + [Item(x)]) == Delivered(steps) + [x]
  {
    var s := steps + [Item(x)];
    assert forall k :: 0 <= k < |s| ==> s[k].Item?;
  }
}
