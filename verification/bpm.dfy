/** Tempo tracking of the beat detector (`updateBPMEstimate`): beat
    intervals go into a bounded FIFO and, once there are three of them,
    the tempo they imply is blended into the running estimate. */
module Bpm {
  import opened Numeric
  import opened Fifo

  const InitialBpm: int := 120
  const MinBpm: int := 60
  const MaxBpm: int := 200
  const MaxIntervals: nat := 8
  /** Minimum gap in milliseconds between two detected beats. */
  const Cooldown: int := 100

  predicate InRange(bpm: int) { MinBpm <= bpm <= MaxBpm }

  /** `Math.max(60, Math.min(200, b))` */
  function ClampBpm(b: int): (r: int)
    ensures InRange(r)
    ensures InRange(b) ==> r == b
  {
    if b < MinBpm then MinBpm else if b > MaxBpm then MaxBpm else b
  }

  function Sum(xs: seq<int>): int {
    if |xs| == 0 then 0 else Sum(xs[..|xs| - 1]) + xs[|xs| - 1]
  }

  predicate AllAbove(xs: seq<int>, bound: int) {
    forall i :: 0 <= i < |xs| ==> xs[i] > bound
  }

  lemma {:induction false} SumAbove(xs: seq<int>, bound: int)
    requires AllAbove(xs, bound) && bound >= 0
    ensures Sum(xs) >= |xs| * bound
  {
    if |xs| > 0 {
      assert AllAbove(xs[..|xs| - 1], bound);
      SumAbove(xs[..|xs| - 1], bound);
    }
  }

  lemma {:induction false} SumConstant(xs: seq<int>, d: int)
    requires forall i :: 0 <= i < |xs| ==> xs[i] == d
    ensures Sum(xs) == |xs| * d
  {
    if |xs| > 0 {
      SumConstant(xs[..|xs| - 1], d);
    }
  }

  /** `Math.round(60000 / avgInterval)` for intervals that add up to a positive total. */
  function MeasuredBpm(intervals: seq<int>): int
    requires |intervals| > 0 && Sum(intervals) > 0
  {
    Round(60000.0 / (Sum(intervals) as real / |intervals| as real))
  }

  /** `Math.round(0.7 * old + 0.3 * measured)`, clamped to [60, 200]. */
  function Blend(bpm: int, measured: int): (r: int)
    ensures InRange(r)
  {
    ClampBpm(Round(bpm as real * 0.7 + measured as real * 0.3))
  }

  /** The update the source evidently intends: on a beat that follows an
      earlier one (`prevBeatTime` is the previous beat's time, 0 when
      there was none), record the gap and, with at least three gaps
      recorded, blend the tempo they imply into the estimate. */
  function UpdateBpm(intervals: seq<int>, bpm: int, isBeat: bool, prevBeatTime: int, now: int): (r: (seq<int>, int))
    requires |intervals| <= MaxIntervals && AllAbove(intervals, Cooldown)
    requires isBeat ==> now - prevBeatTime > Cooldown
    ensures |r.0| <= MaxIntervals && AllAbove(r.0, Cooldown)
    ensures !isBeat || prevBeatTime == 0 ==> r == (intervals, bpm)
    ensures isBeat && prevBeatTime != 0 ==> r.0 == Push(intervals, now - prevBeatTime, MaxIntervals)
    ensures |r.0| <= 2 ==> r.1 == bpm
    ensures InRange(bpm) ==> InRange(r.1)
  {
    if !isBeat || prevBeatTime == 0 then (intervals, bpm)
    else
      var iv := Push(intervals, now - prevBeatTime, MaxIntervals);
      assert AllAbove(iv, Cooldown);
      if |iv| > 2 then
        SumAbove(iv, Cooldown);
        (iv, Blend(bpm, MeasuredBpm(iv)))
      else (iv, bpm)
  }

  /** The update as the source writes it. It runs after the onset check
      has already set `lastBeatTime` to `now`, and it only records an
      interval when the list is already non-empty. */
  function UpdateBpmAsWritten(intervals: seq<int>, bpm: int, isBeat: bool, lastBeatTime: int, now: int): (r: (seq<int>, int))
    requires |intervals| <= MaxIntervals
    ensures |r.0| <= MaxIntervals
    ensures InRange(bpm) ==> InRange(r.1)
  {
    if !isBeat || |intervals| == 0 then (intervals, bpm)
    else
      var gap := now - (if lastBeatTime != 0 then lastBeatTime else now);
      var iv := Push(intervals, gap, MaxIntervals);
      if |iv| > 2 then
        var total := Sum(iv);
        // 60000 / 0 is Infinity in JavaScript, which the clamp turns into 200.
        if total == 0 then (iv, MaxBpm)
        else (iv, Blend(bpm, Round(60000.0 / (total as real / |iv| as real))))
      else (iv, bpm)
  }

  /** As written, an empty interval list stays empty and the estimate never
      moves: from the initial or reset state the tempo is 120 forever. */
  lemma AsWrittenNeverStarts(bpm: int, isBeat: bool, lastBeatTime: int, now: int)
    ensures UpdateBpmAsWritten([], bpm, isBeat, lastBeatTime, now) == ([], bpm)
  {
  }

  /** As written, the recorded gap is always 0, because the onset check has
      already moved `lastBeatTime` to `now`. */
  lemma AsWrittenGapIsZero(intervals: seq<int>, bpm: int, now: int)
    requires 0 < |intervals| <= MaxIntervals
    ensures var r := UpdateBpmAsWritten(intervals, bpm, true, now, now);
            r.0[|r.0| - 1] == 0
  {
  }

  /** Beats every 600 ms from t = 1000: as written the interval list never
      starts, so the tempo stays at 120. */
  lemma SteadyBeatsAsWritten()
    ensures var a1 := UpdateBpmAsWritten([], 120, true, 1000, 1000);
            var a2 := UpdateBpmAsWritten(a1.0, a1.1, true, 1600, 1600);
            var a3 := UpdateBpmAsWritten(a2.0, a2.1, true, 2200, 2200);
            var a4 := UpdateBpmAsWritten(a3.0, a3.1, true, 2800, 2800);
            a4 == ([], 120)
  {
  }

  /** The same beats under the intended update: the gaps are recorded and
      from the third one on the estimate moves from 120 towards 100. */
  lemma SteadyBeatsCorrected()
    ensures var c1 := UpdateBpm([], 120, true, 0, 1000);
            var c2 := UpdateBpm(c1.0, c1.1, true, 1000, 1600);
            var c3 := UpdateBpm(c2.0, c2.1, true, 1600, 2200);
            var c4 := UpdateBpm(c3.0, c3.1, true, 2200, 2800);
            c4 == ([600, 600, 600], 114)
  {
    FirstBeatRecordsNothing();
    SecondBeatRecordsGap();
    ThirdBeatRecordsGap();
    FourthBeatMovesTempo();
  }

  /** The first beat has no predecessor: nothing is recorded. */
  lemma FirstBeatRecordsNothing()
    ensures UpdateBpm([], 120, true, 0, 1000) == ([], 120)
  {
  }

  /** The second beat records the 600 ms gap; one gap is too few to move the estimate. */
  lemma SecondBeatRecordsGap()
    ensures UpdateBpm([], 120, true, 1000, 1600) == ([600], 120)
  {
    assert Push([], 600, MaxIntervals) == [600];
  }

  /** The third beat records a second gap; still too few. */
  lemma ThirdBeatRecordsGap()
    ensures UpdateBpm([600], 120, true, 1600, 2200) == ([600, 600], 120)
  {
    assert Push([600], 600, MaxIntervals) == [600, 600];
  }

  /** The fourth beat makes three gaps of 600 ms: a measured 100 bpm,
      blended 0.7/0.3 with 120 into 114. */
  lemma FourthBeatMovesTempo()
    ensures UpdateBpm([600, 600], 120, true, 2200, 2800) == ([600, 600, 600], 114)
  {
    var iv := [600, 600, 600];
    assert Push([600, 600], 600, MaxIntervals) == iv;
    SumConstant(iv, 600);
    assert MeasuredBpm(iv) == 100 by {
      assert Sum(iv) as real / 3.0 == 600.0;
      assert 60000.0 / 600.0 == 100.0;
    }
    assert Blend(120, 100) == 114 by {
      assert 120.0 * 0.7 + 100.0 * 0.3 == 114.0;
    }
  }

  /** A steady tempo is a fixed point: when every recorded gap is `d` and
      the estimate already equals the tempo `d` implies, it stays put. */
  lemma SteadyTempoIsFixpoint(intervals: seq<int>, d: int, bpm: int)
    requires 0 < |intervals| && d > 0
    requires forall i :: 0 <= i < |intervals| ==> intervals[i] == d
    requires InRange(bpm) && bpm == Round(60000.0 / d as real)
    ensures Sum(intervals) > 0 && MeasuredBpm(intervals) == bpm
    ensures Blend(bpm, MeasuredBpm(intervals)) == bpm
  {
    SumConstant(intervals, d);
    var n := |intervals| as real;
    assert Sum(intervals) as real / n == d as real;
    assert bpm as real * 0.7 + bpm as real * 0.3 == bpm as real;
  }

  /** Each blend moves the estimate towards a measured tempo inside
      [60, 200], and strictly closer while it is at least 2 away: the
      estimate settles within 1 of a steady tempo. */
  lemma BlendApproaches(bpm: int, measured: int)
    requires InRange(measured)
    ensures Dist(Blend(bpm, measured), measured) <= Dist(bpm, measured)
    ensures Dist(bpm, measured) >= 2 ==> Dist(Blend(bpm, measured), measured) < Dist(bpm, measured)
  {
    var d := bpm - measured;
    var x := bpm as real * 0.7 + measured as real * 0.3;
    assert x == measured as real + 0.7 * d as real;
    var k := Round(x);
    assert k - measured == Round(0.7 * d as real) by {
      assert x + 0.5 == (0.7 * d as real + 0.5) + measured as real;
    }
    ClampTowards(k, measured);
  }

  function Dist(a: int, b: int): nat { if a >= b then a - b else b - a }

  /** Clamping into [60, 200] never moves a value away from a point of that range. */
  lemma ClampTowards(k: int, t: int)
    requires InRange(t)
    ensures Dist(ClampBpm(k), t) <= Dist(k, t)
  {
  }
}
