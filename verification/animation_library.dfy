/** The registry of running beat-reactive animations.

    Each element id maps to its latest animation state. An id is running
    while the library holds a run for it (the pending animation frame of
    the original); every frame recomputes the state of each running id
    from its preset curve. Animation frames become an explicit `Tick(now)`
    and deferred calls become timers that `FireNext` fires in due order. */
module AnimationLibrary {
  import opened Numeric
  import opened Wrappers
  import opened AnimationCurves

  datatype Config = Config(preset: Preset, intensity: real, duration: Duration)

  datatype AnimationState = AnimationState(isActive: bool, progress: real, value: real, timestamp: int)

  /** A running animation: its configuration and start time. */
  datatype Run = Run(config: Config, start: int)

  /** A deferred call: starting an animation or stopping one, due at a time. */
  datatype Timer =
    | StartAt(id: string, config: Config, due: int)
    | StopAt(id: string, due: int)

  datatype Library = Library(states: map<string, AnimationState>, runs: map<string, Run>, timers: seq<Timer>)

  const Empty: Library := Library(map[], map[], [])

  /** Every running id has a state, and a state is active exactly when its
      id is running. */
  predicate Inv(lib: Library) {
    && lib.runs.Keys <= lib.states.Keys
    && forall id | id in lib.states :: lib.states[id].isActive <==> id in lib.runs
  }

  lemma EmptyInv()
    ensures Inv(Empty) && Empty.states == map[]
  {
  }

  // ---------------------------------------------------------------------
  // Frames

  /** The progress a frame reports; the bounce preset caps it at one. */
  function FrameProgress(c: Config, elapsed: int): (p: real)
    ensures elapsed >= 0 ==> 0.0 <= p < 1.0
  {
    var raw := Progress(elapsed, c.duration);
    if c.preset == Bounce then Min(1.0, raw) else raw
  }

  /** The state one animation frame of run `r` records at time `now`. */
  function Frame(r: Run, now: int, sin: Sine): (st: AnimationState)
    ensures st.isActive && st.timestamp == now
    ensures now >= r.start ==> 0.0 <= st.progress < 1.0
  {
    var elapsed := now - r.start;
    var raw := Progress(elapsed, r.config.duration);
    AnimationState(true, FrameProgress(r.config, elapsed), Value(r.config.preset, r.config.intensity, raw, sin), now)
  }

  /** A frame of a run with non-negative intensity lies in its preset's range. */
  lemma FrameWithinBounds(r: Run, now: int, sin: Sine)
    requires now >= r.start && r.config.intensity >= 0.0
    ensures Lower(r.config.preset, r.config.intensity) <= Frame(r, now, sin).value <= Upper(r.config.preset, r.config.intensity)
  {
    ValueWithinBounds(r.config.preset, r.config.intensity, Progress(now - r.start, r.config.duration), sin);
  }

  /** The first frame, taken as the run starts, reports progress zero. */
  lemma FirstFrame(c: Config, now: int, sin: Sine)
    ensures Frame(Run(c, now), now, sin).progress == 0.0
    ensures Frame(Run(c, now), now, sin).value == Value(c.preset, c.intensity, 0.0, sin)
  {
    assert JsRem(0, c.duration) == 0;
  }

  // ---------------------------------------------------------------------
  // Operations

  function GetAnimationState(lib: Library, id: string): (r: Option<AnimationState>)
    ensures r.Some? <==> id in lib.states
    ensures r.Some? ==> r.value == lib.states[id]
  {
    if id in lib.states then Some(lib.states[id]) else None
  }

  /** Starts `c` on `id` and records its first frame. A run already on
      `id` is replaced, not stopped first. */
  function CreateAnimation(lib: Library, id: string, c: Config, now: int, sin: Sine): (r: Library)
    ensures r.runs.Keys == lib.runs.Keys + {id} && r.runs[id] == Run(c, now)
    ensures GetAnimationState(r, id) == Some(Frame(Run(c, now), now, sin))
    ensures r.states[id].isActive && r.states[id].timestamp == now
    ensures forall other | other != id :: GetAnimationState(r, other) == GetAnimationState(lib, other)
    ensures forall other | other != id && other in lib.runs :: r.runs[other] == lib.runs[other]
    ensures r.timers == lib.timers
    ensures Inv(lib) ==> Inv(r)
  {
    var run := Run(c, now);
    Library(lib.states[id := Frame(run, now, sin)], lib.runs[id := run], lib.timers)
  }

  /** Cancels the run of `id` and marks its state inactive, keeping it. */
  function StopAnimation(lib: Library, id: string): (r: Library)
    ensures id !in r.runs && r.runs.Keys == lib.runs.Keys - {id}
    ensures r.states.Keys == lib.states.Keys
    ensures id in lib.states ==> r.states[id] == lib.states[id].(isActive := false)
    ensures id !in lib.states && id !in lib.runs ==> r == lib
    ensures forall other | other != id :: GetAnimationState(r, other) == GetAnimationState(lib, other)
    ensures forall other | other != id && other in lib.runs :: r.runs[other] == lib.runs[other]
    ensures r.timers == lib.timers
    ensures Inv(lib) ==> Inv(r)
  {
    var states := if id in lib.states then lib.states[id := lib.states[id].(isActive := false)] else lib.states;
    Library(states, lib.runs - {id}, lib.timers)
  }

  /** Stopping twice is stopping once. */
  lemma StopIdempotent(lib: Library, id: string)
    ensures StopAnimation(StopAnimation(lib, id), id) == StopAnimation(lib, id)
  {
  }

  /** A stopped element's state is still there and reports the progress and
      value of its last frame. */
  lemma StopKeepsLastFrame(lib: Library, id: string, c: Config, now: int, sin: Sine)
    ensures var r := StopAnimation(CreateAnimation(lib, id, c, now, sin), id);
      && GetAnimationState(r, id) == Some(Frame(Run(c, now), now, sin).(isActive := false))
      && id !in r.runs
  {
  }

  /** The map form of stopping every running animation. */
  function StopAll(lib: Library): (r: Library)
    ensures r.runs == map[] && r.timers == lib.timers
    ensures r.states.Keys == lib.states.Keys
    ensures forall id | id in lib.states ::
      r.states[id] == (if id in lib.runs then lib.states[id].(isActive := false) else lib.states[id])
    ensures Inv(lib) ==> Inv(r) && ActiveIds(r) == {}
  {
    var states := map id | id in lib.states ::
      if id in lib.runs then lib.states[id].(isActive := false) else lib.states[id];
    Library(states, map[], lib.timers)
  }

  /** Stops every running id one at a time, as the original loops over the
      ids with a pending frame. */
  method StopAllAnimations(lib: Library) returns (r: Library)
    ensures r == StopAll(lib)
  {
    r := lib;
    var pending := lib.runs.Keys;
    while pending != {}
      invariant pending <= lib.runs.Keys
      invariant StoppedExcept(lib, r, pending)
      decreases |pending|
    {
      var id :| id in pending;
      StopOneMore(lib, r, pending, id);
      r := StopAnimation(r, id);
      pending := pending - {id};
    }
    StoppedAll(lib, r);
  }

  /** The loop's invariant: exactly the ids in `pending` still run, as they
      did in `lib`, and every other id of `lib.runs` has been stopped. */
  ghost predicate StoppedExcept(lib: Library, r: Library, pending: set<string>) {
    && r.runs.Keys == pending && r.timers == lib.timers
    && r.states.Keys == lib.states.Keys
    && (forall id | id in pending :: id in lib.runs && r.runs[id] == lib.runs[id])
    && (forall id | id in lib.states ::
          r.states[id] == (if id in lib.runs && id !in pending then lib.states[id].(isActive := false) else lib.states[id]))
  }

  lemma StopOneMore(lib: Library, r: Library, pending: set<string>, id: string)
    requires StoppedExcept(lib, r, pending) && id in pending
    ensures StoppedExcept(lib, StopAnimation(r, id), pending - {id})
  {
  }

  lemma StoppedAll(lib: Library, r: Library)
    requires StoppedExcept(lib, r, {})
    ensures r == StopAll(lib)
  {
    assert r.runs == map[];
    assert r.states == StopAll(lib).states;
  }

  /** One animation frame: every running id records a fresh frame. */
  function Tick(lib: Library, now: int, sin: Sine): (r: Library)
    ensures r.runs == lib.runs && r.timers == lib.timers
    ensures r.states.Keys == lib.states.Keys + lib.runs.Keys
    ensures forall id | id in lib.runs :: r.states[id] == Frame(lib.runs[id], now, sin)
    ensures forall id | id in lib.states && id !in lib.runs :: r.states[id] == lib.states[id]
    ensures Inv(lib) ==> Inv(r)
  {
    var states := map id | id in lib.states.Keys + lib.runs.Keys ::
      if id in lib.runs then Frame(lib.runs[id], now, sin) else lib.states[id];
    Library(states, lib.runs, lib.timers)
  }

  /** After a frame at a time no earlier than any start, every running
      element reports a progress in [0, 1) and a value in its preset's range. */
  lemma TickWithinBounds(lib: Library, now: int, sin: Sine, id: string)
    requires id in lib.runs
    requires now >= lib.runs[id].start && lib.runs[id].config.intensity >= 0.0
    ensures var st := Tick(lib, now, sin).states[id];
      var c := lib.runs[id].config;
      && 0.0 <= st.progress < 1.0
      && Lower(c.preset, c.intensity) <= st.value <= Upper(c.preset, c.intensity)
  {
    FrameWithinBounds(lib.runs[id], now, sin);
  }

  // ---------------------------------------------------------------------
  // Timers

  /** The index of the timer to fire next at `now`: the earliest due time
      not after `now`, the first scheduled among equals. */
  function NextDue(timers: seq<Timer>, now: int): (k: Option<nat>)
    ensures k.None? <==> forall j | 0 <= j < |timers| :: timers[j].due > now
    ensures k.Some? ==> k.value < |timers| && timers[k.value].due <= now
    ensures k.Some? ==> forall j | 0 <= j < |timers| :: timers[k.value].due <= timers[j].due
    ensures k.Some? ==> forall j | 0 <= j < k.value :: timers[j].due > timers[k.value].due
    decreases |timers|
  {
    if |timers| == 0 then None
    else
      var rest := NextDue(timers[1..], now);
      if timers[0].due <= now && (rest.None? || timers[0].due <= timers[1..][rest.value].due) then Some(0)
      else if rest.Some? then Some(rest.value + 1)
      else None
  }

  function RemoveAt<T>(s: seq<T>, k: nat): (r: seq<T>)
    requires k < |s|
    ensures |r| == |s| - 1
    ensures forall j | 0 <= j < k :: r[j] == s[j]
    ensures forall j | k <= j < |r| :: r[j] == s[j + 1]
  {
    s[..k] + s[k + 1..]
  }

  /** Fires the next due timer at `now`, if any. */
  function FireNext(lib: Library, now: int, sin: Sine): (r: Library)
    ensures (forall j | 0 <= j < |lib.timers| :: lib.timers[j].due > now) ==> r == lib
    ensures NextDue(lib.timers, now).Some? ==>
      var k := NextDue(lib.timers, now).value;
      var t := lib.timers[k];
      && r.timers == RemoveAt(lib.timers, k)
      && (t.StartAt? ==> t.id in r.runs && r.runs[t.id] == Run(t.config, now))
      && (t.StopAt? ==> t.id !in r.runs)
      && forall other | other != t.id :: GetAnimationState(r, other) == GetAnimationState(lib, other)
    ensures Inv(lib) ==> Inv(r)
  {
    match NextDue(lib.timers, now)
    case None => lib
    case Some(k) =>
      var t := lib.timers[k];
      var rest := lib.(timers := RemoveAt(lib.timers, k));
      match t
      case StartAt(id, c, _) => CreateAnimation(rest, id, c, now, sin)
      case StopAt(id, _) => StopAnimation(rest, id)
  }

  /** A beat burst: stop `id`, run `preset` once for 200 ms at intensity
      0.4, and schedule a stop 200 ms from now. */
  const BurstIntensity: real := 0.4
  const BurstDuration: Duration := 200

  function TriggerBeatAnimation(lib: Library, id: string, preset: Preset, now: int, sin: Sine): (r: Library)
    ensures id in r.runs && r.runs[id] == Run(Config(preset, BurstIntensity, BurstDuration), now)
    ensures id in r.states && r.states[id].isActive && r.states[id].progress == 0.0
    ensures r.timers == lib.timers + [StopAt(id, now + BurstDuration)]
    ensures forall other | other != id :: GetAnimationState(r, other) == GetAnimationState(lib, other)
    ensures Inv(lib) ==> Inv(r)
  {
    var c := Config(preset, BurstIntensity, BurstDuration);
    FirstFrame(c, now, sin);
    var started := CreateAnimation(StopAnimation(lib, id), id, c, now, sin);
    started.(timers := started.timers + [StopAt(id, now + BurstDuration)])
  }

  /** With nothing else scheduled, a burst is stopped by its own timer
      exactly one duration after it starts. */
  lemma BurstEndsAfterOneCycle(lib: Library, id: string, preset: Preset, now: int, sin: Sine)
    requires lib.timers == []
    ensures var fired := TriggerBeatAnimation(lib, id, preset, now, sin);
      && FireNext(fired, now + BurstDuration - 1, sin) == fired
      && id !in FireNext(fired, now + BurstDuration, sin).runs
      && FireNext(fired, now + BurstDuration, sin).states[id].progress == 0.0
  {
  }

  /** A burst retriggered before the previous one ended is cut short: the
      first burst's stop timer fires first and stops the second run after
      less than one duration. */
  lemma RetriggerStopsEarly(lib: Library, id: string, preset: Preset, t0: int, t1: int, sin: Sine)
    requires lib.timers == [] && t0 < t1 < t0 + BurstDuration
    ensures var second := TriggerBeatAnimation(TriggerBeatAnimation(lib, id, preset, t0, sin), id, preset, t1, sin);
      && second.runs[id].start == t1
      && id !in FireNext(second, t0 + BurstDuration, sin).runs
      && t0 + BurstDuration - t1 < BurstDuration
  {
    var first := TriggerBeatAnimation(lib, id, preset, t0, sin);
    var second := TriggerBeatAnimation(first, id, preset, t1, sin);
    assert second.timers == [StopAt(id, t0 + BurstDuration), StopAt(id, t1 + BurstDuration)];
    assert NextDue(second.timers, t0 + BurstDuration) == Some(0);
  }

  /** `setTimeout` treats a negative delay as zero. */
  function Delay(ms: int): (d: nat)
    ensures ms >= 0 ==> d == ms
  {
    if ms < 0 then 0 else ms
  }

  /** Schedules element `k` of `ids` to start `k * stagger` ms from now. */
  function CreateSynchronizedAnimations(lib: Library, ids: seq<string>, c: Config, stagger: int, now: int): (r: Library)
    ensures r.states == lib.states && r.runs == lib.runs
    ensures |r.timers| == |lib.timers| + |ids|
    ensures r.timers[..|lib.timers|] == lib.timers
    ensures forall k | 0 <= k < |ids| ::
      r.timers[|lib.timers| + k] == StartAt(ids[k], c, now + Delay(k * stagger))
    ensures Inv(lib) ==> Inv(r)
  {
    var scheduled := seq(|ids|, k requires 0 <= k < |ids| => StartAt(ids[k], c, now + Delay(k * stagger)));
    lib.(timers := lib.timers + scheduled)
  }

  /** With a non-negative stagger the elements start in list order; with a
      positive one, strictly one after another. */
  lemma SynchronizedOrder(lib: Library, ids: seq<string>, c: Config, stagger: int, now: int, i: nat, j: nat)
    requires i < j < |ids| && stagger >= 0
    ensures var ts := CreateSynchronizedAnimations(lib, ids, c, stagger, now).timers;
      && ts[|lib.timers| + i].due <= ts[|lib.timers| + j].due
      && (stagger > 0 ==> ts[|lib.timers| + i].due < ts[|lib.timers| + j].due)
  {
    var ts := CreateSynchronizedAnimations(lib, ids, c, stagger, now).timers;
    assert ts[|lib.timers| + i].due == now + Delay(i * stagger);
    assert ts[|lib.timers| + j].due == now + Delay(j * stagger);
    StaggerMono(i, j, stagger);
  }

  lemma StaggerMono(i: nat, j: nat, stagger: int)
    requires i < j && stagger >= 0
    ensures 0 <= i * stagger <= j * stagger
    ensures stagger > 0 ==> i * stagger < j * stagger
  {
    assert j * stagger == i * stagger + (j - i) * stagger;
    if stagger > 0 { MulAtLeast(j - i, stagger); if i > 0 { MulAtLeast(i, stagger); } }
  }

  // ---------------------------------------------------------------------
  // Statistics

  function ActiveIds(lib: Library): (ids: set<string>)
    ensures ids <= lib.states.Keys
    ensures forall id :: id in ids <==> id in lib.states && lib.states[id].isActive
  {
    set id | id in lib.states && lib.states[id].isActive
  }

  datatype Stats = Stats(totalAnimations: nat, activeAnimations: nat, animationIds: set<string>)

  function GetAnimationStats(lib: Library): (s: Stats)
    ensures s.activeAnimations <= s.totalAnimations == |lib.states|
    ensures s.animationIds == ActiveIds(lib) && s.activeAnimations == |s.animationIds|
  {
    var active := ActiveIds(lib);
    SubsetCard(active, lib.states.Keys);
    Stats(|lib.states|, |active|, active)
  }

  /** Under the invariant the active ids are exactly the running ones. */
  lemma ActiveAreRunning(lib: Library)
    requires Inv(lib)
    ensures GetAnimationStats(lib).animationIds == lib.runs.Keys
    ensures GetAnimationStats(lib).activeAnimations == |lib.runs|
  {
  }

  /** Stopping an element removes it from the active ids but not from the
      total. */
  lemma StopKeepsTotal(lib: Library, id: string)
    ensures GetAnimationStats(StopAnimation(lib, id)).totalAnimations == GetAnimationStats(lib).totalAnimations
    ensures GetAnimationStats(StopAnimation(lib, id)).animationIds == GetAnimationStats(lib).animationIds - {id}
  {
  }

  lemma {:induction false} SubsetCard<T>(a: set<T>, b: set<T>)
    requires a <= b
    ensures |a| <= |b|
    decreases |b|
  {
    if a != {} {
      var x :| x in a;
      SubsetCard(a - {x}, b - {x});
    }
  }
}
