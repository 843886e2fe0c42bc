/**
 * Trailing rolling means, as pandas computes `series.rolling(w).mean()`
 * with its default `min_periods == w`: one entry per input value, the
 * first `w - 1` entries undefined (NaN, here `None`), every later entry the
 * arithmetic mean of the `w` values ending at, and including, that index.
 * Arithmetic is exact (`real`), not floating point.
 */
module Rolling {
  import opened Wrappers

  /** Sum of a sequence, accumulated from the left end. */
  function Sum(s: seq<real>): real
  {
    if |s| == 0 then 0.0 else Sum(s[..|s| - 1]) + s[|s| - 1]
  }

  lemma {:induction false} SumConcat(a: seq<real>, b: seq<real>)
    ensures Sum(a + b) == Sum(a) + Sum(b)
    decreases |b|
  {
    if |b| == 0 {
      assert a + b == a;
    } else {
      assert (a + b)[..|a + b| - 1] == a + b[..|b| - 1];
      SumConcat(a, b[..|b| - 1]);
    }
  }

  /** A sum of values that all lie in [lo, hi] lies in [|s|*lo, |s|*hi]. */
  lemma {:induction false} SumBetween(s: seq<real>, lo: real, hi: real)
    requires forall k :: 0 <= k < |s| ==> lo <= s[k] <= hi
    ensures (|s| as real) * lo <= Sum(s) <= (|s| as real) * hi
  {
    if |s| > 0 {
      SumBetween(s[..|s| - 1], lo, hi);
    }
  }

  /** The `w` values ending at index `i`, both ends included. */
  function Window(s: seq<real>, w: nat, i: nat): (r: seq<real>)
    requires 1 <= w && w - 1 <= i < |s|
    ensures |r| == w
  {
    s[i - w + 1..i + 1]
  }

  /** `rolling(w).mean()`: the trailing mean once `w` values exist, else undefined. */
  function Sma(s: seq<real>, w: nat): (r: seq<Option<real>>)
    requires w >= 1
    ensures |r| == |s|
  {
    seq(|s|, i requires 0 <= i < |s| =>
      if i < w - 1 then None else Some(Sum(Window(s, w, i)) / (w as real)))
  }

  /**
   * Entry `i` is undefined exactly during the warm-up (no shrinking window),
   * and otherwise it is the value whose `w`-fold is the sum of the window.
   */
  lemma SmaAt(s: seq<real>, w: nat, i: nat)
    requires w >= 1 && i < |s|
    ensures Sma(s, w)[i].None? <==> i < w - 1
    ensures i >= w - 1 ==> Sma(s, w)[i].value * (w as real) == Sum(s[i - w + 1..i + 1])
  {
  }

  /** The mean looks only backwards: a prefix of the input gives a prefix of the output. */
  lemma SmaCausal(s: seq<real>, w: nat, k: nat)
    requires w >= 1 && k <= |s|
    ensures Sma(s[..k], w) == Sma(s, w)[..k]
  {
    forall i | w - 1 <= i < k
      ensures Window(s[..k], w, i) == Window(s, w, i)
    {
    }
  }

  /** Consecutive defined entries differ by (entering value - leaving value) / w. */
  lemma SmaSliding(s: seq<real>, w: nat, i: nat)
    requires 1 <= w <= i < |s|
    ensures Sma(s, w)[i].Some? && Sma(s, w)[i - 1].Some?
    ensures Sma(s, w)[i].value * (w as real)
         == Sma(s, w)[i - 1].value * (w as real) + s[i] - s[i - w]
  {
    var both := s[i - w..i + 1];
    assert both == [s[i - w]] + Window(s, w, i);
    assert both == Window(s, w, i - 1) + [s[i]];
    SumConcat([s[i - w]], Window(s, w, i));
    SumConcat(Window(s, w, i - 1), [s[i]]);
    assert Sum([s[i - w]]) == s[i - w] by { assert [s[i - w]][..0] == []; }
    assert Sum([s[i]]) == s[i] by { assert [s[i]][..0] == []; }
    SmaAt(s, w, i);
    SmaAt(s, w, i - 1);
  }

  /** A defined mean lies between any bounds that hold for its window. */
  lemma SmaBetween(s: seq<real>, w: nat, i: nat, lo: real, hi: real)
    requires 1 <= w && w - 1 <= i < |s|
    requires forall k :: i - w + 1 <= k <= i ==> lo <= s[k] <= hi
    ensures Sma(s, w)[i].Some? && lo <= Sma(s, w)[i].value <= hi
  {
    var win := Window(s, w, i);
    forall k | 0 <= k < |win| ensures lo <= win[k] <= hi {
      assert win[k] == s[i - w + 1 + k];
    }
    SumBetween(win, lo, hi);
    MeanBetween(Sum(win), w as real, lo, hi);
  }

  lemma MeanBetween(total: real, n: real, lo: real, hi: real)
    requires n > 0.0 && n * lo <= total <= n * hi
    ensures lo <= total / n <= hi
  {
  }

  /** Over a flat stretch of `w` values the mean is that value. */
  lemma SmaConstant(s: seq<real>, w: nat, i: nat, c: real)
    requires 1 <= w && w - 1 <= i < |s|
    requires forall k :: i - w + 1 <= k <= i ==> s[k] == c
    ensures Sma(s, w)[i] == Some(c)
  {
    SmaBetween(s, w, i, c, c);
  }
}
