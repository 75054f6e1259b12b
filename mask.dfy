/**
 * The list-masking helper `apply_mask_to_list`: values and mask are paired
 * position by position (pairing stops at the shorter of the two, as Python's
 * `zip` does) and a value is kept when its paired mask entry is true.
 */
module MaskFilter {

  function Min(a: nat, b: nat): (m: nat) {
    if a <= b then a else b
  }

  /** The number of positions the mask and the values have in common. */
  function Paired<T>(values: seq<T>, mask: seq<bool>): (n: nat) {
    Min(|values|, |mask|)
  }

  /** `[value for value, m in zip(values, mask) if m]` */
  function ApplyMask<T>(values: seq<T>, mask: seq<bool>): (r: seq<T>)
    ensures |r| <= |values| && |r| <= |mask|
  {
    if |values| == 0 || |mask| == 0 then []
    else if mask[0] then [values[0]] + ApplyMask(values[1..], mask[1..])
    else ApplyMask(values[1..], mask[1..])
  }

  /** Number of true entries of a mask. */
  function CountTrue(mask: seq<bool>): (n: nat) {
    if mask == [] then 0 else (if mask[0] then 1 else 0) + CountTrue(mask[1..])
  }

  /**
   * `r` is obtained from `values` by keeping, in their original order, exactly
   * the paired positions whose mask entry is true; `idx` lists those positions.
   */
  ghost predicate IsSelection<T>(values: seq<T>, mask: seq<bool>, r: seq<T>, idx: seq<nat>) {
    Picks(values, mask, r, idx) && Increasing(idx) && Covers(values, mask, idx)
  }

  /** Each `r[k]` is the value at paired position `idx[k]`, whose mask entry is true. */
  ghost predicate Picks<T>(values: seq<T>, mask: seq<bool>, r: seq<T>, idx: seq<nat>) {
    && |idx| == |r|
    && forall k :: 0 <= k < |idx| ==>
         idx[k] < |values| && idx[k] < |mask| && mask[idx[k]] && r[k] == values[idx[k]]
  }

  ghost predicate Increasing(idx: seq<nat>) {
    forall k, l :: 0 <= k < l < |idx| ==> idx[k] < idx[l]
  }

  /** Every paired position whose mask entry is true is listed. */
  ghost predicate Covers<T>(values: seq<T>, mask: seq<bool>, idx: seq<nat>) {
    forall i :: 0 <= i < |values| && i < |mask| && mask[i] ==> i in idx
  }

  /** Every position moved one place to the right. */
  function Shift(idx: seq<nat>): (s: seq<nat>) {
    seq(|idx|, k requires 0 <= k < |idx| => idx[k] + 1)
  }

  /** Every position moved one place to the left; only positions after 0 can move. */
  function Unshift(idx: seq<nat>): (s: seq<nat>)
    requires forall k :: 0 <= k < |idx| ==> idx[k] >= 1
  {
    seq(|idx|, k requires 0 <= k < |idx| => idx[k] - 1)
  }

  /** The paired positions whose mask entry is true, in increasing order. */
  function SelectedPositions<T>(values: seq<T>, mask: seq<bool>): (idx: seq<nat>)
    ensures |idx| == |ApplyMask(values, mask)|
  {
    if |values| == 0 || |mask| == 0 then []
    else (if mask[0] then [0] else []) + Shift(SelectedPositions(values[1..], mask[1..]))
  }

  lemma {:induction false} PicksSelectedPositions<T>(values: seq<T>, mask: seq<bool>)
    ensures Picks(values, mask, ApplyMask(values, mask), SelectedPositions(values, mask))
  {
    if |values| > 0 && |mask| > 0 {
      PicksSelectedPositions(values[1..], mask[1..]);
      var rest, idx' := ApplyMask(values[1..], mask[1..]), SelectedPositions(values[1..], mask[1..]);
      var r, idx := ApplyMask(values, mask), SelectedPositions(values, mask);
      var start := if mask[0] then 1 else 0;
      forall k | start <= k < |idx|
        ensures idx[k] < |values| && idx[k] < |mask| && mask[idx[k]] && r[k] == values[idx[k]]
      {
        assert idx[k] == idx'[k - start] + 1;
        assert r[k] == rest[k - start];
      }
    }
  }

  lemma {:induction false} SelectedPositionsIncreasing<T>(values: seq<T>, mask: seq<bool>)
    ensures Increasing(SelectedPositions(values, mask))
  {
    if |values| > 0 && |mask| > 0 {
      SelectedPositionsIncreasing(values[1..], mask[1..]);
    }
  }

  lemma {:induction false} SelectedPositionsCover<T>(values: seq<T>, mask: seq<bool>)
    ensures Covers(values, mask, SelectedPositions(values, mask))
  {
    if |values| > 0 && |mask| > 0 {
      SelectedPositionsCover(values[1..], mask[1..]);
      var idx', idx := SelectedPositions(values[1..], mask[1..]), SelectedPositions(values, mask);
      var start := if mask[0] then 1 else 0;
      forall i | 0 < i < |values| && i < |mask| && mask[i]
        ensures i in idx
      {
        assert mask[1..][i - 1];
        var k :| 0 <= k < |idx'| && idx'[k] == i - 1;
        assert idx[k + start] == i;
      }
    }
  }

  /** The result of ApplyMask is a selection of `values` by `mask`. */
  lemma ApplyMaskIsSelection<T>(values: seq<T>, mask: seq<bool>)
    ensures IsSelection(values, mask, ApplyMask(values, mask), SelectedPositions(values, mask))
  {
    PicksSelectedPositions(values, mask);
    SelectedPositionsIncreasing(values, mask);
    SelectedPositionsCover(values, mask);
  }

  /**
   * In a selection over non-empty inputs, position 0 is listed first exactly
   * when its mask entry is true, and every other listed position is at least 1.
   */
  lemma SelectionHead<T>(values: seq<T>, mask: seq<bool>, r: seq<T>, idx: seq<nat>)
    requires |values| > 0 && |mask| > 0 && IsSelection(values, mask, r, idx)
    ensures mask[0] ==> |idx| > 0 && idx[0] == 0 && r[0] == values[0]
    ensures forall k :: (if mask[0] then 1 else 0) <= k < |idx| ==> idx[k] >= 1
  {
  }

  /** Dropping the first `start` picks and moving the rest one position left picks from the tails. */
  lemma TailPicks<T>(values: seq<T>, mask: seq<bool>, r: seq<T>, idx: seq<nat>, start: nat)
    requires |values| > 0 && |mask| > 0 && Picks(values, mask, r, idx) && start <= |idx|
    requires forall k :: start <= k < |idx| ==> idx[k] >= 1
    ensures Picks(values[1..], mask[1..], r[start..], Unshift(idx[start..]))
  {
  }

  /** The moved positions stay strictly increasing. */
  lemma TailIncreasing(idx: seq<nat>, start: nat)
    requires Increasing(idx) && start <= |idx|
    requires forall k :: start <= k < |idx| ==> idx[k] >= 1
    ensures Increasing(Unshift(idx[start..]))
  {
  }

  /** The moved positions still cover every true mask entry of the tails. */
  lemma TailCovers<T>(values: seq<T>, mask: seq<bool>, idx: seq<nat>, start: nat)
    requires |values| > 0 && |mask| > 0 && Covers(values, mask, idx) && start <= |idx|
    requires forall k :: 0 <= k < start ==> idx[k] == 0
    requires forall k :: start <= k < |idx| ==> idx[k] >= 1
    ensures Covers(values[1..], mask[1..], Unshift(idx[start..]))
  {
    var u := Unshift(idx[start..]);
    forall i | 0 <= i < |values[1..]| && i < |mask[1..]| && mask[1..][i]
      ensures i in u
    {
      assert mask[i + 1];
      var k :| 0 <= k < |idx| && idx[k] == i + 1;
      assert u[k - start] == i;
    }
  }

  /** Every picked position is a paired one, so nothing can be picked when nothing is paired. */
  lemma PicksBelowPaired<T>(values: seq<T>, mask: seq<bool>, r: seq<T>, idx: seq<nat>)
    requires Picks(values, mask, r, idx)
    ensures Paired(values, mask) == 0 ==> r == []
  {
    if |idx| > 0 {
      assert idx[0] < Paired(values, mask);
    }
  }

  /** Conversely, any selection of `values` by `mask` is what ApplyMask returns. */
  lemma {:induction false} SelectionIsApplyMask<T>(values: seq<T>, mask: seq<bool>, r: seq<T>, idx: seq<nat>)
    requires IsSelection(values, mask, r, idx)
    ensures r == ApplyMask(values, mask)
    decreases |values|
  {
    if |values| == 0 || |mask| == 0 {
      PicksBelowPaired(values, mask, r, idx);
    } else {
      SelectionHead(values, mask, r, idx);
      var start := if mask[0] then 1 else 0;
      TailPicks(values, mask, r, idx, start);
      TailIncreasing(idx, start);
      TailCovers(values, mask, idx, start);
      SelectionIsApplyMask(values[1..], mask[1..], r[start..], Unshift(idx[start..]));
      if mask[0] {
        assert r == [r[0]] + r[1..];
      }
    }
  }

  /**
   * ApplyMask is characterised by the selection property: it keeps exactly the
   * values paired with a true mask entry, in their original order.
   */
  lemma ApplyMaskCharacterised<T>(values: seq<T>, mask: seq<bool>, r: seq<T>)
    ensures r == ApplyMask(values, mask) <==> exists idx :: IsSelection(values, mask, r, idx)
  {
    if r == ApplyMask(values, mask) {
      ApplyMaskIsSelection(values, mask);
      assert IsSelection(values, mask, r, SelectedPositions(values, mask));
    }
    if exists idx :: IsSelection(values, mask, r, idx) {
      var idx :| IsSelection(values, mask, r, idx);
      SelectionIsApplyMask(values, mask, r, idx);
    }
  }

  /** A value occurs in the result iff it sits at a paired position whose mask entry is true. */
  lemma {:induction false} ApplyMaskMembership<T>(values: seq<T>, mask: seq<bool>, x: T)
    ensures x in ApplyMask(values, mask) <==>
              exists i :: 0 <= i < |values| && i < |mask| && mask[i] && values[i] == x
  {
    if |values| > 0 && |mask| > 0 {
      ApplyMaskMembership(values[1..], mask[1..], x);
      if exists i :: 0 <= i < |values| && i < |mask| && mask[i] && values[i] == x {
        var i :| 0 <= i < |values| && i < |mask| && mask[i] && values[i] == x;
        if i > 0 {
          assert mask[1..][i - 1] && values[1..][i - 1] == x;
        }
      }
      if x in ApplyMask(values[1..], mask[1..]) {
        var i :| 0 <= i < |values[1..]| && i < |mask[1..]| && mask[1..][i] && values[1..][i] == x;
        assert mask[i + 1] && values[i + 1] == x;
      }
    }
  }

  /** The result has one element per true mask entry among the paired positions. */
  lemma {:induction false} ApplyMaskLength<T>(values: seq<T>, mask: seq<bool>)
    ensures |ApplyMask(values, mask)| == CountTrue(mask[..Paired(values, mask)])
  {
    var n := Paired(values, mask);
    if n == 0 {
      assert mask[..n] == [];
    } else {
      ApplyMaskLength(values[1..], mask[1..]);
      assert mask[..n][1..] == mask[1..][..Paired(values[1..], mask[1..])];
    }
  }

  /** Pairing stops at the shorter sequence: the unpaired tail of either input is ignored. */
  lemma {:induction false} ApplyMaskTruncates<T>(values: seq<T>, mask: seq<bool>)
    ensures ApplyMask(values, mask)
         == ApplyMask(values[..Paired(values, mask)], mask[..Paired(values, mask)])
  {
    var n := Paired(values, mask);
    if n > 0 {
      ApplyMaskTruncates(values[1..], mask[1..]);
      assert values[..n][1..] == values[1..][..n - 1];
      assert mask[..n][1..] == mask[1..][..n - 1];
    }
  }

  /** A mask that is true everywhere keeps the paired prefix; if it covers every value, the values come back unchanged. */
  lemma {:induction false} ApplyMaskAllTrue<T>(values: seq<T>, mask: seq<bool>)
    requires forall i :: 0 <= i < |mask| ==> mask[i]
    ensures ApplyMask(values, mask) == values[..Paired(values, mask)]
    ensures |mask| >= |values| ==> ApplyMask(values, mask) == values
  {
    var n := Paired(values, mask);
    if n > 0 {
      ApplyMaskAllTrue(values[1..], mask[1..]);
      assert values[..n] == [values[0]] + values[1..][..n - 1];
    }
  }

  /** A mask that is false everywhere keeps nothing. */
  lemma {:induction false} ApplyMaskAllFalse<T>(values: seq<T>, mask: seq<bool>)
    requires forall i :: 0 <= i < |mask| ==> !mask[i]
    ensures ApplyMask(values, mask) == []
  {
    if |values| > 0 && |mask| > 0 {
      ApplyMaskAllFalse(values[1..], mask[1..]);
    }
  }

  /** Masking distributes over concatenation of position-aligned pieces. */
  lemma {:induction false} ApplyMaskAppend<T>(v1: seq<T>, m1: seq<bool>, v2: seq<T>, m2: seq<bool>)
    requires |v1| == |m1|
    ensures ApplyMask(v1 + v2, m1 + m2) == ApplyMask(v1, m1) + ApplyMask(v2, m2)
  {
    if |v1| > 0 {
      ApplyMaskAppend(v1[1..], m1[1..], v2, m2);
      assert (v1 + v2)[1..] == v1[1..] + v2;
      assert (m1 + m2)[1..] == m1[1..] + m2;
    } else {
      assert v1 + v2 == v2 && m1 + m2 == m2;
    }
  }
}
