/** `BeatDetector`: a streaming state machine. Each `Detect` step takes
    one frequency snapshot and the current time, extracts the kick
    (60-200 Hz) and bass (200-500 Hz) levels, pushes them into 60-entry
    histories, runs adaptive onset detection with a 100 ms cooldown,
    updates the tempo estimate and reports raw flags plus smoothed
    strengths. */
module BeatDetector {
  import opened Numeric
  import opened Spectrum
  import opened Fifo
  import Ema
  import Bpm
  import Trace

  const HistorySize: nat := 60
  /** Onset detection needs this many samples, the current one included. */
  const MinOnsetHistory: nat := 10
  const KickLowHz: nat := 60
  const KickHighHz: nat := 200
  const BassLowHz: nat := 200
  const BassHighHz: nat := 500
  /** The shortest snapshot whose kick band holds at least one bin. */
  const MinBins: nat := 111

  datatype Thresholds = Thresholds(beat: real, kick: real, bass: real)

  const DefaultThresholds := Thresholds(0.5, 0.6, 0.55)

  datatype DetectorState = DetectorState(
    beatHist: seq<real>,
    kickHist: seq<real>,
    bassHist: seq<real>,
    lastBeatTime: int,
    intervals: seq<int>,
    bpm: int,
    thresholds: Thresholds)

  /** What one `detect()` call returns. */
  datatype BeatData = BeatData(
    kickDetected: bool,
    bassDetected: bool,
    beatStrength: real,
    kickStrength: real,
    bassStrength: real,
    bpm: int,
    isBeat: bool)

  predicate Unit(x: real) { 0.0 <= x <= 1.0 }

  predicate ThresholdsValid(t: Thresholds) { Unit(t.beat) && Unit(t.kick) && Unit(t.bass) }

  /** The combined strength: kick weighted 0.6, bass 0.4. */
  function Combine(kick: real, bass: real): real { kick * 0.6 + bass * 0.4 }

  /** The invariant every reachable detector state keeps. */
  predicate Valid(s: DetectorState) {
    && |s.beatHist| == |s.kickHist| == |s.bassHist| <= HistorySize
    && Ema.Within(s.kickHist, 0.0, 1.0)
    && Ema.Within(s.bassHist, 0.0, 1.0)
    && (forall i :: 0 <= i < |s.beatHist| ==> s.beatHist[i] == Combine(s.kickHist[i], s.bassHist[i]))
    && Bpm.InRange(s.bpm)
    && |s.intervals| <= Bpm.MaxIntervals
    && ThresholdsValid(s.thresholds)
  }

  /** A freshly constructed detector. */
  function Init(): (s: DetectorState)
    ensures Valid(s)
  {
    DetectorState([], [], [], 0, [], Bpm.InitialBpm, DefaultThresholds)
  }

  // ---------------------------------------------------------------------
  // Band levels (`detectKickDrum`, `detectBass`)

  /** Mean magnitude of bins `lo .. hi-1`, divided by 255 and capped at 1. */
  function BandLevel(data: Snapshot, lo: nat, hi: nat): (r: real)
    requires lo < hi <= |data|
    ensures Unit(r)
    ensures r * (MaxMagnitude * (hi - lo)) as real == RangeSum(data, lo, hi) as real
    ensures Silent(data) ==> r == 0.0
  {
    var sum := RangeSum(data, lo, hi);
    var n := hi - lo;
    RangeSumBounds(data, lo, hi);
    if Silent(data) then RangeSumSilent(data, lo, hi); LevelIsMean(sum, n)
    else LevelIsMean(sum, n)
  }

  /** `sum / n / 255` needs no cap when `sum <= 255 * n`. */
  function LevelIsMean(sum: int, n: nat): (r: real)
    requires n > 0 && 0 <= sum <= MaxMagnitude * n
    ensures 0.0 <= r <= 1.0
    ensures r * (MaxMagnitude * n) as real == sum as real
    ensures sum == 0 ==> r == 0.0
  {
    var m := sum as real / n as real / 255.0;
    assert m == sum as real / (MaxMagnitude * n) as real;
    Min(1.0, m)
  }

  /** For snapshots of at least 111 bins both bands are non-empty and
      inside the snapshot. */
  lemma BandsNonEmpty(len: nat)
    requires len >= MinBins
    ensures BinIndex(KickLowHz, len) < BinIndex(KickHighHz, len)
    ensures BinIndex(BassLowHz, len) < BinIndex(BassHighHz, len) <= len
  {
    BinIndexBounds(BassHighHz, len);
    var q := 60 * len / Nyquist;
    assert 60 * len < (q + 1) * Nyquist;
    if len < 158 {
      assert q == 0;
      assert 200 * len >= Nyquist;
    } else {
      assert 140 * len >= Nyquist;
      assert 200 * len >= (q + 1) * Nyquist;
    }
    var b := 200 * len / Nyquist;
    assert 200 * len < (b + 1) * Nyquist;
    assert 300 * len >= Nyquist;
    assert 500 * len >= (b + 1) * Nyquist;
  }

  function KickLevel(data: Snapshot): (r: real)
    requires |data| >= MinBins
    ensures Unit(r)
    ensures Silent(data) ==> r == 0.0
  {
    BandsNonEmpty(|data|);
    BandLevel(data, BinIndex(KickLowHz, |data|), BinIndex(KickHighHz, |data|))
  }

  function BassLevel(data: Snapshot): (r: real)
    requires |data| >= MinBins
    ensures Unit(r)
    ensures Silent(data) ==> r == 0.0
  {
    BandsNonEmpty(|data|);
    BandLevel(data, BinIndex(BassLowHz, |data|), BinIndex(BassHighHz, |data|))
  }

  // ---------------------------------------------------------------------
  // Onset detection (`detectBeatOnset`)

  function SumSquares(xs: seq<real>, m: real): real {
    if |xs| == 0 then 0.0
    else SumSquares(xs[..|xs| - 1], m) + (xs[|xs| - 1] - m) * (xs[|xs| - 1] - m)
  }

  /** The nine samples before the current one: `slice(-10, -1)`. */
  function Window(h: seq<real>): (w: seq<real>)
    requires |h| >= MinOnsetHistory
    ensures |w| == 9
  {
    h[|h| - 10..|h| - 1]
  }

  function Mean(w: seq<real>): real { SumR(w) / 9.0 }

  function Variance(w: seq<real>): real { SumSquares(w, Mean(w)) / 9.0 }

  /** `x > mean + 1.5 * stdDev`, stated without a square root. */
  predicate Exceeds(x: real, mean: real, variance: real) {
    x > mean && (x - mean) * (x - mean) > 2.25 * variance
  }

  /** Whenever `sd` is the standard deviation (`sd >= 0`, `sd * sd ==
      variance`), the square-free test is exactly the source's test. */
  lemma ExceedsIsThresholdTest(x: real, mean: real, variance: real, sd: real)
    requires sd >= 0.0 && sd * sd == variance
    ensures Exceeds(x, mean, variance) <==> x > mean + sd * 1.5
  {
    var d := x - mean;
    var t := sd * 1.5;
    assert t * t == 2.25 * variance;
    if x > mean + t {
      SquareStrictMono(t, d);
    }
    if Exceeds(x, mean, variance) && d <= t {
      SquareMono(d, t);
    }
  }

  lemma SquareStrictMono(a: real, b: real)
    requires 0.0 <= a < b
    ensures a * a < b * b
  {
    MulPos(b - a, b + a);
    assert (b - a) * (b + a) == b * b - a * a;
  }

  lemma SquareMono(a: real, b: real)
    requires 0.0 <= a <= b
    ensures a * a <= b * b
  {
    MulMono(a, a, b);
    MulMono(b, a, b);
  }

  /** The adaptive test on a history whose last entry is the current strength. */
  predicate Onset(h: seq<real>, current: real) {
    |h| >= MinOnsetHistory && Exceeds(current, Mean(Window(h)), Variance(Window(h)))
  }

  // ---------------------------------------------------------------------
  // The step function (`detect`)

  /** One sample pushed into the three histories; they evict together. */
  function PushSample(s: DetectorState, kick: real, bass: real): (r: DetectorState)
    requires Valid(s) && Unit(kick) && Unit(bass)
    ensures Valid(r)
    ensures r.kickHist == Push(s.kickHist, kick, HistorySize)
    ensures r.bassHist == Push(s.bassHist, bass, HistorySize)
    ensures r.beatHist == Push(s.beatHist, Combine(kick, bass), HistorySize)
    ensures r.(beatHist := s.beatHist, kickHist := s.kickHist, bassHist := s.bassHist) == s
  {
    s.(beatHist := Push(s.beatHist, Combine(kick, bass), HistorySize),
       kickHist := Push(s.kickHist, kick, HistorySize),
       bassHist := Push(s.bassHist, bass, HistorySize))
  }

  /** The part of `detect()` before the tempo update: the sample is pushed,
      and a beat is an adaptive onset more than 100 ms after the last beat,
      which then moves the last beat time to `now`. */
  function Sense(s: DetectorState, data: Snapshot, now: int): (r: (DetectorState, bool))
    requires Valid(s)
    requires |data| >= MinBins
    ensures Valid(r.0)
    ensures r.0.lastBeatTime == (if r.1 then now else s.lastBeatTime)
    ensures r.1 ==> now - s.lastBeatTime > Bpm.Cooldown
    ensures r.0.intervals == s.intervals && r.0.bpm == s.bpm
  {
    var kick := KickLevel(data);
    var bass := BassLevel(data);
    var pushed := PushSample(s, kick, bass);
    var isBeat := Onset(pushed.beatHist, Combine(kick, bass)) && now - s.lastBeatTime > Bpm.Cooldown;
    (pushed.(lastBeatTime := if isBeat then now else s.lastBeatTime), isBeat)
  }

  /** The object `detect()` returns once the state is updated: raw flags
      against the thresholds, smoothed strengths and the stored tempo. */
  function Report(s: DetectorState, data: Snapshot, isBeat: bool): (b: BeatData)
    requires Valid(s)
    requires |data| >= MinBins
    ensures Unit(b.beatStrength) && Unit(b.kickStrength) && Unit(b.bassStrength)
    ensures b.bpm == s.bpm && b.isBeat == isBeat
  {
    BeatData(
      KickLevel(data) > s.thresholds.kick,
      BassLevel(data) > s.thresholds.bass,
      Ema.Smooth(s.beatHist),
      Ema.Smooth(s.kickHist),
      Ema.Smooth(s.bassHist),
      s.bpm,
      isBeat)
  }

  /** `detect()` as written, with the tempo update run after the onset
      check has already moved the last beat time. */
  function Detect(s: DetectorState, data: Snapshot, now: int): (r: (DetectorState, BeatData))
    requires Valid(s)
    requires |data| >= MinBins
    ensures Valid(r.0)
    ensures Unit(r.1.beatStrength) && Unit(r.1.kickStrength) && Unit(r.1.bassStrength)
    ensures r.1.bpm == r.0.bpm && Bpm.InRange(r.1.bpm)
    ensures r.0.lastBeatTime == (if r.1.isBeat then now else s.lastBeatTime)
    ensures r.1.isBeat ==> now - s.lastBeatTime > Bpm.Cooldown
    ensures |r.0.beatHist| <= |s.beatHist| + 1
    ensures |r.0.beatHist| < MinOnsetHistory ==> !r.1.isBeat
    ensures s.intervals == [] ==> r.0.intervals == [] && r.0.bpm == s.bpm
  {
    var sensed := Sense(s, data, now);
    var tempo := Bpm.UpdateBpmAsWritten(s.intervals, s.bpm, sensed.1, sensed.0.lastBeatTime, now);
    var s' := sensed.0.(intervals := tempo.0, bpm := tempo.1);
    (s', Report(s', data, sensed.1))
  }

  /** What one step does: the raw kick and bass levels and their 0.6/0.4
      blend go into the histories; the kick and bass flags compare the raw
      levels with the thresholds, independently of the onset test; the
      reported strengths are the smoothed histories and the reported
      tempo the stored one; a beat needs at least 10 samples, an adaptive
      onset and a gap of more than 100 ms since the previous beat; the
      tempo is updated as written, with the new last beat time; thresholds
      are untouched. */
  lemma DetectSpec(s: DetectorState, data: Snapshot, now: int)
    requires Valid(s)
    requires |data| >= MinBins
    ensures var r := Detect(s, data, now);
            var kick := KickLevel(data);
            var bass := BassLevel(data);
            var h := r.0.beatHist;
            && r.0.kickHist == Push(s.kickHist, kick, HistorySize)
            && r.0.bassHist == Push(s.bassHist, bass, HistorySize)
            && h == Push(s.beatHist, Combine(kick, bass), HistorySize)
            && h[|h| - 1] == kick * 0.6 + bass * 0.4
            && r.1.kickDetected == (kick > s.thresholds.kick)
            && r.1.bassDetected == (bass > s.thresholds.bass)
            && r.1.beatStrength == Ema.Smooth(r.0.beatHist)
            && r.1.kickStrength == Ema.Smooth(r.0.kickHist)
            && r.1.bassStrength == Ema.Smooth(r.0.bassHist)
            && (r.1.isBeat <==> Onset(h, h[|h| - 1]) && now - s.lastBeatTime > Bpm.Cooldown)
            && (|h| < MinOnsetHistory ==> !r.1.isBeat)
            && (r.0.intervals, r.0.bpm) == Bpm.UpdateBpmAsWritten(s.intervals, s.bpm, r.1.isBeat, r.0.lastBeatTime, now)
            && r.1.bpm == r.0.bpm
            && r.0.thresholds == s.thresholds
  {
  }

  // ---------------------------------------------------------------------
  // The tempo update as evidently intended

  /** The states the intended update keeps: every recorded gap is a real
      gap between beats, so longer than the cooldown. */
  predicate IntendedValid(s: DetectorState) {
    Valid(s) && Bpm.AllAbove(s.intervals, Bpm.Cooldown)
  }

  /** `detect()` with the tempo update the source evidently intends: the
      gap to the previous beat is recorded on every beat after the first. */
  function DetectIntended(s: DetectorState, data: Snapshot, now: int): (r: (DetectorState, BeatData))
    requires IntendedValid(s)
    requires |data| >= MinBins
    ensures IntendedValid(r.0)
    ensures r.1.bpm == r.0.bpm && Bpm.InRange(r.1.bpm)
    ensures r.1.isBeat ==> now - s.lastBeatTime > Bpm.Cooldown
    ensures (r.0.intervals, r.0.bpm) == Bpm.UpdateBpm(s.intervals, s.bpm, r.1.isBeat, s.lastBeatTime, now)
  {
    var sensed := Sense(s, data, now);
    var tempo := Bpm.UpdateBpm(s.intervals, s.bpm, sensed.1, s.lastBeatTime, now);
    var s' := sensed.0.(intervals := tempo.0, bpm := tempo.1);
    (s', Report(s', data, sensed.1))
  }

  /** The intended detector differs from the written one only in the
      recorded gaps and the tempo: histories, last beat time, flags and
      strengths are the same. */
  lemma IntendedDiffersOnlyInTempo(s: DetectorState, data: Snapshot, now: int)
    requires IntendedValid(s)
    requires |data| >= MinBins
    ensures var w := Detect(s, data, now);
            var c := DetectIntended(s, data, now);
            && c.0 == w.0.(intervals := c.0.intervals, bpm := c.0.bpm)
            && c.1 == w.1.(bpm := c.1.bpm)
  {
  }

  /** `reset()`: histories, intervals and the last beat time are cleared and
      the tempo goes back to 120; thresholds are kept. */
  function Reset(s: DetectorState): (r: DetectorState)
    requires ThresholdsValid(s.thresholds)
    ensures Valid(r)
    ensures r.thresholds == s.thresholds
    ensures r == Init().(thresholds := s.thresholds)
  {
    DetectorState([], [], [], 0, [], Bpm.InitialBpm, s.thresholds)
  }

  /** `setThresholds`: each value clamped to [0, 1]; nothing else changes. */
  function SetThresholds(s: DetectorState, beat: real, kick: real, bass: real): (r: DetectorState)
    ensures ThresholdsValid(r.thresholds)
    ensures Valid(s) ==> Valid(r)
    ensures Unit(beat) && Unit(kick) && Unit(bass) ==> r.thresholds == Thresholds(beat, kick, bass)
    ensures r.(thresholds := s.thresholds) == s
  {
    s.(thresholds := Thresholds(Clamp(0.0, 1.0, beat), Clamp(0.0, 1.0, kick), Clamp(0.0, 1.0, bass)))
  }

  /** `getBeatHistory()`: the raw combined strengths, oldest first. */
  function BeatHistory(s: DetectorState): (h: seq<real>)
    requires Valid(s)
    ensures |h| <= HistorySize && Ema.Within(h, 0.0, 1.0)
  {
    s.beatHist
  }

  // ---------------------------------------------------------------------
  // Properties of single steps

  /** Silence never produces a beat or a kick/bass flag, and its raw
      levels are 0. */
  lemma SilenceNeverBeats(s: DetectorState, data: Snapshot, now: int)
    requires Valid(s) && |data| >= MinBins && Silent(data)
    ensures var r := Detect(s, data, now);
            && !r.1.isBeat && !r.1.kickDetected && !r.1.bassDetected
            && r.0.beatHist[|r.0.beatHist| - 1] == 0.0
  {
    var r := Detect(s, data, now);
    DetectSpec(s, data, now);
    var h := r.0.beatHist;
    if |h| >= MinOnsetHistory {
      var w := Window(h);
      assert Ema.Within(w, 0.0, 1.0);
      SumNonneg(w);
    }
  }

  lemma {:induction false} SumNonneg(xs: seq<real>)
    requires Ema.Within(xs, 0.0, 1.0)
    ensures SumR(xs) >= 0.0
  {
    if |xs| > 0 {
      assert Ema.Within(xs[..|xs| - 1], 0.0, 1.0);
      SumNonneg(xs[..|xs| - 1]);
    }
  }

  // ---------------------------------------------------------------------
  // Runs: a sequence of `detect()` calls, one per animation tick

  /** One animation tick: the analyser's snapshot and the clock reading. */
  datatype Tick = Tick(data: Snapshot, now: int)

  /** A tick whose snapshot covers the kick and bass bands. */
  type Input = t: Tick | |t.data| >= MinBins witness Tick(seq(MinBins, _ => 0), 0)

  type ValidState = s: DetectorState | Valid(s) witness Init()

  /** `detect()` as a step over ticks. */
  function Step(s: ValidState, t: Input): (ValidState, BeatData) {
    Detect(s, t.data, t.now)
  }

  /** What a single tick promises: the last-beat time moves exactly on a
      beat, a beat respects the cooldown, and the history grows by at most
      one sample, with no beat before it holds ten. */
  predicate Honours(s: ValidState, t: Input, r: (ValidState, BeatData)) {
    && r.0.lastBeatTime == (if r.1.isBeat then t.now else s.lastBeatTime)
    && (r.1.isBeat ==> t.now - s.lastBeatTime > Bpm.Cooldown)
    && |r.0.beatHist| <= |s.beatHist| + 1
    && (|r.0.beatHist| < MinOnsetHistory ==> !r.1.isBeat)
  }

  /** Every `detect()` tick honours those promises. */
  lemma StepHonours()
    ensures forall s: ValidState, t: Input :: Honours(s, t, Step(s, t))
  {
    forall s: ValidState, t: Input
      ensures Honours(s, t, Step(s, t))
    {
      var r := Detect(s, t.data, t.now);
      assert Step(s, t) == r;
    }
  }

  type Stepper = (ValidState, Input) -> (ValidState, BeatData)

  ghost predicate AlwaysHonours(step: Stepper) {
    forall s: ValidState, t: Input :: Honours(s, t, step(s, t))
  }

  /** Between a beat at tick `i` and the next beat, the state remembers
      tick `i`'s time as its last beat. */
  lemma {:induction false} LastBeatHeld(step: Stepper, s: ValidState, inputs: seq<Input>, i: nat, k: nat)
    requires AlwaysHonours(step)
    requires i < k <= |inputs|
    requires Trace.Run(step, s, inputs)[i].isBeat
    requires forall m :: i < m < k ==> !Trace.Run(step, s, inputs)[m].isBeat
    ensures Trace.StateAt(step, s, inputs, k).lastBeatTime == inputs[i].now
    decreases k
  {
    var before := Trace.StateAt(step, s, inputs, k - 1);
    Trace.StateAtNext(step, s, inputs, k - 1);
    Trace.FrameAt(step, s, inputs, k - 1);
    assert Honours(before, inputs[k - 1], step(before, inputs[k - 1]));
    if k - 1 > i {
      LastBeatHeld(step, s, inputs, i, k - 1);
    }
  }

  /** Before the first beat of a run the state keeps its initial last-beat time. */
  lemma {:induction false} NoBeatYet(step: Stepper, s: ValidState, inputs: seq<Input>, k: nat)
    requires AlwaysHonours(step)
    requires k <= |inputs|
    requires forall m :: 0 <= m < k ==> !Trace.Run(step, s, inputs)[m].isBeat
    ensures Trace.StateAt(step, s, inputs, k).lastBeatTime == s.lastBeatTime
    decreases k
  {
    if k > 0 {
      var before := Trace.StateAt(step, s, inputs, k - 1);
      Trace.StateAtNext(step, s, inputs, k - 1);
      Trace.FrameAt(step, s, inputs, k - 1);
      assert Honours(before, inputs[k - 1], step(before, inputs[k - 1]));
      NoBeatYet(step, s, inputs, k - 1);
    }
  }

  /** Each tick adds at most one sample to the history. */
  lemma {:induction false} HistoryGrowth(step: Stepper, s: ValidState, inputs: seq<Input>, k: nat)
    requires AlwaysHonours(step)
    requires k <= |inputs|
    ensures |Trace.StateAt(step, s, inputs, k).beatHist| <= |s.beatHist| + k
    decreases k
  {
    if k > 0 {
      var before := Trace.StateAt(step, s, inputs, k - 1);
      Trace.StateAtNext(step, s, inputs, k - 1);
      assert Honours(before, inputs[k - 1], step(before, inputs[k - 1]));
      HistoryGrowth(step, s, inputs, k - 1);
    }
  }

  /** The first beat of a run is more than 100 ms after the state's last beat. */
  lemma FirstBeatAfterCooldown(s: ValidState, inputs: seq<Input>, j: nat)
    requires j < |inputs|
    requires Trace.Run(Step, s, inputs)[j].isBeat
    requires forall k :: 0 <= k < j ==> !Trace.Run(Step, s, inputs)[k].isBeat
    ensures inputs[j].now - s.lastBeatTime > Bpm.Cooldown
  {
    StepHonours();
    NoBeatYet(Step, s, inputs, j);
    Trace.FrameAt(Step, s, inputs, j);
    var before := Trace.StateAt(Step, s, inputs, j);
    assert Honours(before, inputs[j], Step(before, inputs[j]));
  }

  /** Any two successive beats of a run are more than 100 ms apart. */
  lemma SuccessiveBeatsSpaced(s: ValidState, inputs: seq<Input>, i: nat, j: nat)
    requires i < j < |inputs|
    requires Trace.Run(Step, s, inputs)[i].isBeat && Trace.Run(Step, s, inputs)[j].isBeat
    requires forall k :: i < k < j ==> !Trace.Run(Step, s, inputs)[k].isBeat
    ensures inputs[j].now - inputs[i].now > Bpm.Cooldown
  {
    StepHonours();
    LastBeatHeld(Step, s, inputs, i, j);
    Trace.FrameAt(Step, s, inputs, j);
    var before := Trace.StateAt(Step, s, inputs, j);
    assert Honours(before, inputs[j], Step(before, inputs[j]));
  }

  /** While fewer than 10 samples have been collected no beat is reported:
      after `reset()` the first nine ticks are silent. */
  lemma NoBeatDuringWarmUp(s: ValidState, inputs: seq<Input>, k: nat)
    requires k < |inputs|
    requires |s.beatHist| + k + 1 < MinOnsetHistory
    ensures !Trace.Run(Step, s, inputs)[k].isBeat
  {
    StepHonours();
    HistoryGrowth(Step, s, inputs, k);
    Trace.FrameAt(Step, s, inputs, k);
    var before := Trace.StateAt(Step, s, inputs, k);
    assert Honours(before, inputs[k], Step(before, inputs[k]));
  }
  /** As written, a tick from a state with no recorded gaps records none
      and leaves the tempo, stored and reported, as it was. */
  predicate KeepsTempo(s: ValidState, r: (ValidState, BeatData)) {
    s.intervals == [] ==> r.0.intervals == [] && r.0.bpm == s.bpm && r.1.bpm == s.bpm
  }

  lemma StepKeepsTempo()
    ensures forall s: ValidState, t: Input :: KeepsTempo(s, Step(s, t))
  {
    forall s: ValidState, t: Input
      ensures KeepsTempo(s, Step(s, t))
    {
      var r := Detect(s, t.data, t.now);
      assert Step(s, t) == r;
    }
  }

  ghost predicate AlwaysKeepsTempo(step: Stepper) {
    forall s: ValidState, t: Input :: KeepsTempo(s, step(s, t))
  }

  /** A run from a state with no recorded gaps never records one and never
      changes its tempo, whatever it hears. */
  lemma {:induction false} TempoFrozen(step: Stepper, s: ValidState, inputs: seq<Input>, k: nat)
    requires AlwaysKeepsTempo(step)
    requires s.intervals == [] && k <= |inputs|
    ensures Trace.StateAt(step, s, inputs, k).intervals == []
    ensures Trace.StateAt(step, s, inputs, k).bpm == s.bpm
    decreases k
  {
    if k > 0 {
      TempoFrozen(step, s, inputs, k - 1);
      Trace.StateAtNext(step, s, inputs, k - 1);
      var before := Trace.StateAt(step, s, inputs, k - 1);
      assert KeepsTempo(before, step(before, inputs[k - 1]));
    }
  }

  /** As written, every frame of a run from such a state reports the
      starting tempo. */
  lemma ReportedTempoFrozen(s: ValidState, inputs: seq<Input>, k: nat)
    requires s.intervals == [] && k < |inputs|
    ensures Trace.Run(Step, s, inputs)[k].bpm == s.bpm
  {
    StepKeepsTempo();
    TempoFrozen(Step, s, inputs, k);
    Trace.FrameAt(Step, s, inputs, k);
    var before := Trace.StateAt(Step, s, inputs, k);
    assert KeepsTempo(before, Step(before, inputs[k]));
  }

  /** A new detector reports 120 bpm on every frame of every run. */
  lemma NewDetectorStaysAt120(inputs: seq<Input>, k: nat)
    requires k < |inputs|
    ensures Trace.Run<ValidState, Input, BeatData>(Step, Init(), inputs)[k].bpm == Bpm.InitialBpm
  {
    ReportedTempoFrozen(Init(), inputs, k);
  }

  /** So does a detector after `reset()`. */
  lemma ResetDetectorStaysAt120(s: DetectorState, inputs: seq<Input>, k: nat)
    requires ThresholdsValid(s.thresholds) && k < |inputs|
    ensures Trace.Run<ValidState, Input, BeatData>(Step, Reset(s), inputs)[k].bpm == Bpm.InitialBpm
  {
    ReportedTempoFrozen(Reset(s), inputs, k);
  }
}
