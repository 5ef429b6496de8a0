/** The beat detector's smoothing step (`smoothValue`): an exponential
    moving average over a whole history, written in the source as an
    explicit weighted sum that is recomputed on every call. */
module Ema {
  import opened Numeric

  /** The source's loop after its first `k` iterations: the sum over
      `i < k` of `h[i] * w * (1 - w)^(|h| - i - 1)`. */
  function Weighted(h: seq<real>, w: real, k: nat): real
    requires k <= |h|
  {
    if k == 0 then 0.0
    else Weighted(h, w, k - 1) + h[k - 1] * (w * Pow(1.0 - w, |h| - k))
  }

  /** Reference definition: the scalar recurrence `e := w * x + (1 - w) * e`
      run over the history from oldest to newest, starting from 0. */
  function Recurrence(h: seq<real>, w: real): real {
    if |h| == 0 then 0.0
    else w * h[|h| - 1] + (1.0 - w) * Recurrence(h[..|h| - 1], w)
  }

  /** The weight `2 / (N + 1)` the source uses for a history of length `N`. */
  function Weight(n: nat): (w: real)
    requires n > 0
    ensures 0.0 < w <= 1.0
  {
    2.0 / ((n + 1) as real)
  }

  predicate Within(h: seq<real>, lo: real, hi: real) {
    forall i :: 0 <= i < |h| ==> lo <= h[i] <= hi
  }

  /** Dropping the newest sample multiplies every older weight by `1 - w`. */
  lemma {:induction false} WeightedShift(h: seq<real>, w: real, k: nat)
    requires k < |h|
    ensures Weighted(h, w, k) == (1.0 - w) * Weighted(h[..|h| - 1], w, k)
  {
    var h' := h[..|h| - 1];
    if k == 0 {
      assert Weighted(h, w, k) == 0.0 == Weighted(h', w, k);
    } else {
      WeightedShift(h, w, k - 1);
      WeightedShiftStep(h, w, k);
    }
  }

  /** The inductive step of `WeightedShift`. */
  lemma WeightedShiftStep(h: seq<real>, w: real, k: nat)
    requires 0 < k < |h|
    requires Weighted(h, w, k - 1) == (1.0 - w) * Weighted(h[..|h| - 1], w, k - 1)
    ensures Weighted(h, w, k) == (1.0 - w) * Weighted(h[..|h| - 1], w, k)
  {
    var h' := h[..|h| - 1];
    var p := Pow(1.0 - w, |h'| - k);
    var vp := Pow(1.0 - w, |h| - k);
    assert |h'| - k + 1 == |h| - k;
    assert vp == (1.0 - w) * p;
    assert h'[k - 1] == h[k - 1];
    ShiftStep(1.0 - w, w, h[k - 1], p, vp, Weighted(h', w, k - 1),
              Weighted(h, w, k - 1), Weighted(h, w, k), Weighted(h', w, k));
  }

  /** The arithmetic of one `WeightedShift` step, with every function value
      named: the newest weight carries one more factor `v`. */
  lemma ShiftStep(v: real, w: real, x: real, p: real, vp: real, a: real, before: real, full: real, shorter: real)
    requires vp == v * p
    requires before == v * a
    requires full == before + x * (w * vp)
    requires shorter == a + x * (w * p)
    ensures full == v * shorter
  {
    var q := x * (w * p);
    assert x * (w * vp) == v * q;
  }

  /** The source's weighted sum and the scalar recurrence agree. */
  lemma {:induction false} WeightedIsRecurrence(h: seq<real>, w: real)
    ensures Weighted(h, w, |h|) == Recurrence(h, w)
  {
    if |h| > 0 {
      var h' := h[..|h| - 1];
      WeightedShift(h, w, |h| - 1);
      WeightedIsRecurrence(h', w);
      assert Weighted(h, w, |h|)
          == (1.0 - w) * Weighted(h', w, |h'|) + h[|h| - 1] * (w * 1.0);
    }
  }

  /** A convex blend of values in [0, m] stays in [0, m]. */
  lemma {:induction false} RecurrenceBounds(h: seq<real>, w: real, m: real)
    requires 0.0 <= w <= 1.0
    requires Within(h, 0.0, m)
    ensures 0.0 <= Recurrence(h, w) <= Max(0.0, m)
  {
    if |h| > 0 {
      var h' := h[..|h| - 1];
      assert Within(h', 0.0, m);
      RecurrenceBounds(h', w, m);
      var e := Recurrence(h', w);
      var x := h[|h| - 1];
      assert 0.0 <= x <= m;
      assert 0.0 <= e <= m;
      BlendBounds(w, x, e, m);
    }
  }

  lemma BlendBounds(w: real, x: real, e: real, m: real)
    requires 0.0 <= w <= 1.0
    requires 0.0 <= x <= m && 0.0 <= e <= m
    ensures 0.0 <= w * x + (1.0 - w) * e <= m
  {
    var v := 1.0 - w;
    assert 0.0 <= w * x <= w * m by {
      MulMono(w, x, m);
      MulNonneg(w, x);
    }
    assert 0.0 <= v * e <= v * m by {
      MulMono(v, e, m);
      MulNonneg(v, e);
    }
    assert w * m + v * m == (w + v) * m == m;
    SumBelow(w * x, v * e, w * m, v * m, m);
  }

  lemma SumBelow(a: real, b: real, c: real, d: real, m: real)
    requires 0.0 <= a <= c && 0.0 <= b <= d && c + d == m
    ensures 0.0 <= a + b <= m
  {
  }

  /** `smoothValue`: 0 for an empty history, otherwise the weighted sum
      capped at 1. */
  function Smooth(h: seq<real>): (r: real)
    ensures |h| == 0 ==> r == 0.0
    ensures Within(h, 0.0, 1.0) ==> 0.0 <= r <= 1.0
  {
    if |h| == 0 then 0.0
    else
      var w := Weight(|h|);
      WeightedIsRecurrence(h, w);
      if Within(h, 0.0, 1.0) then RecurrenceBounds(h, w, 1.0); Min(1.0, Weighted(h, w, |h|))
      else Min(1.0, Weighted(h, w, |h|))
  }

  /** The smoothed value of a non-negative history never exceeds any
      bound on its entries: the weights sum to at most 1. */
  lemma SmoothBounds(h: seq<real>, m: real)
    requires Within(h, 0.0, m)
    ensures 0.0 <= Smooth(h) <= Max(0.0, m)
  {
    if |h| > 0 {
      WeightedIsRecurrence(h, Weight(|h|));
      RecurrenceBounds(h, Weight(|h|), m);
    }
  }

  /** The source's own check that recent samples weigh more: for the
      history [0.1, 0.9] the smoothed value is above the plain mean. */
  lemma RecentSamplesWeighMore()
    ensures Smooth([0.1, 0.9]) > 0.5
  {
    var h := [0.1, 0.9];
    var w := Weight(2);
    assert w == 2.0 / 3.0;
    WeightedIsRecurrence(h, w);
    assert h[..1] == [0.1];
    assert [0.1][..0] == [];
    assert Recurrence([0.1], w) == w * 0.1;
  }
}
