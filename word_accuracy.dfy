/** `WordAccuracy`, the Keras metric reported while a CTC model trains: the share of
    captchas in the batches seen so far whose greedy CTC decoding matches the label
    exactly. The decoder is outside the model: each batch arrives as the label rows and the
    decoded rows, which `tf.sparse.to_dense` pads with -1 to the wider of the two. */
module WordAccuracy {
  import opened Wrappers

  /** A row padded with -1 to `width` entries. */
  function Padded(row: seq<int>, width: nat): (r: seq<int>)
    ensures |r| == if |row| < width then width else |row|
  {
    if |row| < width then row + seq(width - |row|, _ => -1) else row
  }

  predicate NonNegative(row: seq<int>) {
    forall k :: 0 <= k < |row| ==> row[k] >= 0
  }

  /** Padding hides no difference between rows of class indices: two such rows agree once
      padded exactly when they are equal. */
  lemma PaddedEqual(a: seq<int>, b: seq<int>, width: nat)
    requires NonNegative(a) && NonNegative(b) && |a| <= width && |b| <= width
    ensures Padded(a, width) == Padded(b, width) <==> a == b
  {
    var pa, pb := Padded(a, width), Padded(b, width);
    PaddedEntries(a, width);
    PaddedEntries(b, width);
    if pa == pb {
      var m := if |a| < |b| then |a| else |b|;
      if m < width {
        assert pa[m] == pb[m];
      }
      assert |a| == |b|;
      assert a == pa[..|a|] && b == pb[..|b|];
    }
  }

  lemma PaddedEntries(row: seq<int>, width: nat)
    ensures forall k :: 0 <= k < |row| ==> Padded(row, width)[k] == row[k]
    ensures forall k :: |row| <= k < width ==> Padded(row, width)[k] == -1
  {
  }

  /** A width no row exceeds: the widest row of the batch. The source pads both batches to
      `max_width`, the larger of the label width and the length of the logits' time axis;
      any width at least every row's length gives the same mismatch count
      (`MismatchesAnyWidth`), so this one stands for it. */
  function Width(rows: seq<seq<int>>): (r: nat)
    ensures forall k :: 0 <= k < |rows| ==> |rows[k]| <= r
  {
    if rows == [] then 0
    else
      var w := Width(rows[..|rows| - 1]);
      var last := |rows[|rows| - 1]|;
      assert forall k :: 0 <= k < |rows| - 1 ==> rows[k] == rows[..|rows| - 1][k];
      if w < last then last else w
  }

  /** `reduce_any(not_equal(y_true, y_pred), axis=1)`: for each row, whether the label and
      its decoding differ once both are padded to `width`. */
  function RowsDiffer(truth: seq<seq<int>>, decoded: seq<seq<int>>, width: nat): (r: seq<bool>)
    requires |truth| == |decoded|
    ensures |r| == |truth|
  {
    seq(|truth|, k requires 0 <= k < |truth| => Padded(truth[k], width) != Padded(decoded[k], width))
  }

  /** `reduce_sum` of a boolean vector cast to integers: the entries that hold. */
  function CountTrue(bs: seq<bool>): (r: nat)
    ensures r <= |bs|
  {
    if bs == [] then 0 else (if bs[0] then 1 else 0) + CountTrue(bs[1..])
  }

  /** Nothing is counted exactly when no entry holds. */
  lemma {:induction false} CountTrueZero(bs: seq<bool>)
    ensures CountTrue(bs) == 0 <==> forall k :: 0 <= k < |bs| ==> !bs[k]
  {
    if bs != [] {
      CountTrueZero(bs[1..]);
      assert forall k :: 1 <= k < |bs| ==> bs[1..][k - 1] == bs[k];
    }
  }

  /** The rows that differ once both are padded to `width`. */
  function Mismatches(truth: seq<seq<int>>, decoded: seq<seq<int>>, width: nat): (r: nat)
    requires |truth| == |decoded|
    ensures r <= |truth|
  {
    CountTrue(RowsDiffer(truth, decoded, width))
  }

  /** A batch of class-index rows has no mismatch exactly when every decoding equals its
      label. */
  lemma {:induction false} NoMismatchIffAllRight(truth: seq<seq<int>>, decoded: seq<seq<int>>)
    requires |truth| == |decoded|
    requires forall k :: 0 <= k < |truth| ==> NonNegative(truth[k]) && NonNegative(decoded[k])
    ensures Mismatches(truth, decoded, Width(truth + decoded)) == 0 <==> truth == decoded
  {
    var w := Width(truth + decoded);
    var differ := RowsDiffer(truth, decoded, w);
    CountTrueZero(differ);
    forall k | 0 <= k < |truth|
      ensures !differ[k] <==> truth[k] == decoded[k]
    {
      assert (truth + decoded)[k] == truth[k] && (truth + decoded)[|truth| + k] == decoded[k];
      PaddedEqual(truth[k], decoded[k], w);
    }
    if truth != decoded {
      var k :| 0 <= k < |truth| && truth[k] != decoded[k];
    }
  }

  /** Class-index rows give the same mismatch count under any two widths that every row
      fits in. */
  lemma MismatchesAnyWidth(truth: seq<seq<int>>, decoded: seq<seq<int>>, w1: nat, w2: nat)
    requires |truth| == |decoded|
    requires forall k :: 0 <= k < |truth| ==> NonNegative(truth[k]) && NonNegative(decoded[k])
    requires forall k :: 0 <= k < |truth| ==> |truth[k]| <= w1 && |truth[k]| <= w2
    requires forall k :: 0 <= k < |decoded| ==> |decoded[k]| <= w1 && |decoded[k]| <= w2
    ensures Mismatches(truth, decoded, w1) == Mismatches(truth, decoded, w2)
  {
    forall k | 0 <= k < |truth|
      ensures RowsDiffer(truth, decoded, w1)[k] == RowsDiffer(truth, decoded, w2)[k]
    {
      PaddedEqual(truth[k], decoded[k], w1);
      PaddedEqual(truth[k], decoded[k], w2);
    }
    assert RowsDiffer(truth, decoded, w1) == RowsDiffer(truth, decoded, w2);
  }

  /** The metric's two `int32` weights. */
  class WordAccuracy {
    var total: int
    var count: int

    ghost predicate Valid()
      reads this
    {
      0 <= count <= total
    }

    /** `__init__`: both weights start at zero. */
    constructor ()
      ensures Valid() && total == 0 && count == 0
    {
      total := 0;
      count := 0;
    }

    /** `update_state`: the batch size joins the total, and the rows decoded right join the
        count. */
    method UpdateState(truth: seq<seq<int>>, decoded: seq<seq<int>>)
      requires Valid() && |truth| == |decoded|
      modifies this
      ensures Valid()
      ensures total == old(total) + |truth|
      ensures count == old(count) + |truth| - Mismatches(truth, decoded, Width(truth + decoded))
    {
      var b := |truth|;
      var values := Mismatches(truth, decoded, Width(truth + decoded));
      total := total + b;
      count := count + (b - values);
    }

    /** `result`: `count / total`, which is not a number before any batch. */
    function Result(): (r: Option<real>)
      requires Valid()
      reads this
      ensures r.None? <==> total == 0
      ensures r.Some? ==> 0.0 <= r.value <= 1.0
    {
      if total == 0 then None else Some(count as real / total as real)
    }

    /** `reset_states`: both weights back to zero. */
    method ResetStates()
      modifies this
      ensures Valid() && total == 0 && count == 0
    {
      count := 0;
      total := 0;
    }
  }
}
