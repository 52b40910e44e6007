/**
 * The two weighted-choice walks the content selector uses, stated over exact
 * real arithmetic. Both return the index of the chosen weight, or `None` when
 * the walk runs off the end and the caller's fallback applies.
 *
 * - the subtractive walk keeps subtracting weights from the draw and stops at
 *   the first weight the remainder is strictly below (`<`);
 * - the cumulative walk keeps a running total and stops at the first total the
 *   draw does not exceed (`<=`).
 */
module Sampling {
  import opened Wrappers

  function Sum(w: seq<real>): real
    decreases |w|
  {
    if |w| == 0 then 0.0 else w[0] + Sum(w[1..])
  }

  predicate NonNegative(w: seq<real>) {
    forall i :: 0 <= i < |w| ==> w[i] >= 0.0
  }

  predicate Positive(w: seq<real>) {
    forall i :: 0 <= i < |w| ==> w[i] > 0.0
  }

  /** Every weight divided by `total`. */
  function Normalize(w: seq<real>, total: real): (r: seq<real>)
    requires total != 0.0
    ensures |r| == |w|
    ensures forall i :: 0 <= i < |w| ==> r[i] == w[i] / total
    decreases |w|
  {
    if |w| == 0 then [] else [w[0] / total] + Normalize(w[1..], total)
  }

  function Shift(o: Option<nat>): Option<nat> {
    match o
    case None => None
    case Some(i) => Some(i + 1)
  }

  /** Subtract-and-compare walk with a strict `<`. */
  function SubtractiveWalk(w: seq<real>, r: real): (res: Option<nat>)
    ensures res.Some? ==> res.value < |w|
    decreases |w|
  {
    if |w| == 0 then None
    else if r < w[0] then Some(0)
    else Shift(SubtractiveWalk(w[1..], r - w[0]))
  }

  /** Running-total walk with `<=`, starting from the running total `acc`. */
  function CumulativeWalk(w: seq<real>, r: real, acc: real): (res: Option<nat>)
    ensures res.Some? ==> res.value < |w|
    decreases |w|
  {
    if |w| == 0 then None
    else if r <= acc + w[0] then Some(0)
    else Shift(CumulativeWalk(w[1..], r, acc + w[0]))
  }

  // ---------------------------------------------------------------------------
  // Prefix sums

  /** The total of the weights at indices 0 through `j`. */
  function Through(w: seq<real>, j: nat): real
    requires j < |w|
  {
    Sum(w[..j + 1])
  }

  lemma ThroughFirst(w: seq<real>)
    requires |w| > 0
    ensures Through(w, 0) == w[0]
  {
    var one := w[..1];
    assert one[1..] == [];
    assert Sum(one) == one[0] + Sum(one[1..]);
  }

  lemma ThroughStep(w: seq<real>, j: nat)
    requires 0 < j < |w|
    ensures Through(w, j) == w[0] + Through(w[1..], j - 1)
  {
    assert w[..j + 1][1..] == w[1..][..j];
  }

  lemma ThroughLast(w: seq<real>)
    requires |w| > 0
    ensures Through(w, |w| - 1) == Sum(w)
  {
    assert w[..|w|] == w;
  }

  lemma {:induction false} ThroughAtMostSum(w: seq<real>, j: nat)
    requires NonNegative(w) && j < |w|
    ensures Through(w, j) <= Sum(w)
    decreases |w|
  {
    if j == 0 {
      ThroughFirst(w);
      SumNonNegative(w[1..]);
    } else {
      ThroughStep(w, j);
      ThroughAtMostSum(w[1..], j - 1);
    }
  }

  lemma {:induction false} SumNonNegative(w: seq<real>)
    requires NonNegative(w)
    ensures Sum(w) >= 0.0
    decreases |w|
  {
    if |w| > 0 {
      SumNonNegative(w[1..]);
    }
  }

  lemma {:induction false} SumPositive(w: seq<real>)
    requires Positive(w) && |w| > 0
    ensures Sum(w) > 0.0
    decreases |w|
  {
    if |w| > 1 {
      SumPositive(w[1..]);
    }
  }

  lemma DivAdd(a: real, b: real, t: real)
    requires t != 0.0
    ensures a / t + b / t == (a + b) / t
  {
  }

  /** Normalising divides the total by the same amount. */
  lemma {:induction false} SumNormalize(w: seq<real>, total: real)
    requires total != 0.0
    ensures Sum(Normalize(w, total)) == Sum(w) / total
    decreases |w|
  {
    if |w| > 0 {
      var n := Normalize(w, total);
      assert n[1..] == Normalize(w[1..], total);
      SumNormalize(w[1..], total);
      DivAdd(w[0], Sum(w[1..]), total);
    }
  }

  /** Dividing non-negative weights by a positive total keeps them non-negative. */
  lemma NormalizeNonNegative(w: seq<real>, total: real)
    requires NonNegative(w) && total > 0.0
    ensures NonNegative(Normalize(w, total))
  {
    var n := Normalize(w, total);
    forall i | 0 <= i < |n| ensures n[i] >= 0.0 {
      assert n[i] == w[i] / total;
    }
  }

  // ---------------------------------------------------------------------------
  // What the walks compute

  /** `i` is the first index whose running total the draw is strictly below. */
  predicate FirstStrictlyBelow(w: seq<real>, r: real, i: nat) {
    && i < |w|
    && r < Through(w, i)
    && forall j :: 0 <= j < i ==> Through(w, j) <= r
  }

  /** `i` is the first index whose running total plus `acc` the draw does not exceed. */
  predicate FirstAtMost(w: seq<real>, r: real, acc: real, i: nat) {
    && i < |w|
    && r <= acc + Through(w, i)
    && forall j :: 0 <= j < i ==> acc + Through(w, j) < r
  }

  /**
   * Subtracting weights one by one is the same as comparing against running
   * totals: the walk returns the first `i` with `r < w[0] + ... + w[i]`, and
   * runs off the end exactly when no running total exceeds `r`.
   */
  lemma {:induction false} SubtractiveWalkIsPrefixSearch(w: seq<real>, r: real)
    ensures SubtractiveWalk(w, r).Some? ==> FirstStrictlyBelow(w, r, SubtractiveWalk(w, r).value)
    ensures SubtractiveWalk(w, r).None? <==> forall j :: 0 <= j < |w| ==> Through(w, j) <= r
    decreases |w|
  {
    if |w| > 0 {
      ThroughFirst(w);
      if r >= w[0] {
        var sub := SubtractiveWalk(w[1..], r - w[0]);
        SubtractiveWalkIsPrefixSearch(w[1..], r - w[0]);
        var n := if sub.None? then |w| else sub.value + 1;
        forall j | 0 < j < |w| ensures Through(w, j) == w[0] + Through(w[1..], j - 1) {
          ThroughStep(w, j);
        }
        forall j | 0 <= j < n ensures Through(w, j) <= r {
          if j > 0 {
            assert Through(w[1..], j - 1) <= r - w[0];
          }
        }
        if sub.Some? {
          assert r - w[0] < Through(w[1..], sub.value);
          assert r < Through(w, sub.value + 1);
        }
      }
    }
  }

  /** The running-total walk returns the first `i` with `r <= acc + w[0] + ... + w[i]`. */
  lemma {:induction false} CumulativeWalkIsPrefixSearch(w: seq<real>, r: real, acc: real)
    ensures CumulativeWalk(w, r, acc).Some? ==> FirstAtMost(w, r, acc, CumulativeWalk(w, r, acc).value)
    ensures CumulativeWalk(w, r, acc).None? <==> forall j :: 0 <= j < |w| ==> acc + Through(w, j) < r
    decreases |w|
  {
    if |w| > 0 {
      ThroughFirst(w);
      if r > acc + w[0] {
        var sub := CumulativeWalk(w[1..], r, acc + w[0]);
        CumulativeWalkIsPrefixSearch(w[1..], r, acc + w[0]);
        var n := if sub.None? then |w| else sub.value + 1;
        forall j | 0 < j < |w| ensures Through(w, j) == w[0] + Through(w[1..], j - 1) {
          ThroughStep(w, j);
        }
        forall j | 0 <= j < n ensures acc + Through(w, j) < r {
          if j > 0 {
            assert acc + w[0] + Through(w[1..], j - 1) < r;
          }
        }
        if sub.Some? {
          assert r <= acc + w[0] + Through(w[1..], sub.value);
          assert r <= acc + Through(w, sub.value + 1);
        }
      }
    }
  }

  /**
   * With non-negative weights, the subtractive walk falls through to the
   * caller's fallback exactly when the draw is at least the total weight.
   */
  lemma SubtractiveWalkFallsThroughIff(w: seq<real>, r: real)
    requires NonNegative(w) && |w| > 0
    ensures SubtractiveWalk(w, r).None? <==> r >= Sum(w)
  {
    SubtractiveWalkIsPrefixSearch(w, r);
    ThroughLast(w);
    if r >= Sum(w) {
      forall j | 0 <= j < |w| ensures Through(w, j) <= r {
        ThroughAtMostSum(w, j);
      }
    }
  }

  /**
   * With non-negative weights, the running-total walk started at 0 falls
   * through exactly when the draw exceeds the total weight.
   */
  lemma CumulativeWalkFallsThroughIff(w: seq<real>, r: real)
    requires NonNegative(w) && |w| > 0
    ensures CumulativeWalk(w, r, 0.0).None? <==> r > Sum(w)
  {
    CumulativeWalkIsPrefixSearch(w, r, 0.0);
    ThroughLast(w);
    if r > Sum(w) {
      forall j | 0 <= j < |w| ensures 0.0 + Through(w, j) < r {
        ThroughAtMostSum(w, j);
      }
    }
  }
}
