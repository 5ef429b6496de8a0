/** The decisions the three beat-animation hooks take on each render.

    Each hook owns its own animation library, the time of the last beat
    it reacted to (initially 0) and the dependency values of its beat
    effect at the previous render. React runs that effect after the first
    render and after every render in which a dependency differs from the
    previous one (compared with `Object.is`, here value equality). When it
    runs, the effect triggers an animation only when the frame is a beat
    and at least 100 ms have passed since the hook last fired. A render is
    modelled as a call of the hook's handler with the frame and the
    current time. */
module BeatAnimationHooks {
  import opened Wrappers
  import opened AnimationCurves
  import opened AnimationLibrary
  import BeatDetector
  import Bpm

  /** Triggers closer together than this are suppressed. */
  const Debounce: int := 100

  const DefaultIntensity: real := 0.3
  const DefaultDuration: Duration := 300
  const DefaultStagger: int := 50

  /** The options of `useBeatAnimation`; `None` is an omitted field. */
  datatype Options = Options(
    elementId: string,
    preset: Preset,
    intensity: Option<real>,
    duration: Option<Duration>,
    triggerOnBeat: Option<bool>)

  datatype Settings = Settings(elementId: string, preset: Preset, intensity: real, duration: Duration, triggerOnBeat: bool)

  /** Omitted options take their defaults: intensity 0.3, duration 300 ms,
      trigger on beat. */
  function WithDefaults(o: Options): (s: Settings)
    ensures s.elementId == o.elementId && s.preset == o.preset
    ensures s.intensity == (if o.intensity.Some? then o.intensity.value else DefaultIntensity)
    ensures s.duration == (if o.duration.Some? then o.duration.value else DefaultDuration)
    ensures s.triggerOnBeat == (o.triggerOnBeat.None? || o.triggerOnBeat.value)
  {
    Settings(o.elementId, o.preset, o.intensity.GetOr(DefaultIntensity),
             o.duration.GetOr(DefaultDuration), o.triggerOnBeat.GetOr(true))
  }

  /** The dependency list of each hook's beat effect, as last rendered. */
  datatype Deps =
    | BeatDeps(isBeat: Option<bool>, elementId: string, preset: Preset, triggerOnBeat: bool)
    | SyncDeps(isBeat: Option<bool>, ids: seq<string>, preset: Preset, intensity: real, duration: Duration, stagger: int)
    | FrequencyDeps(isBeat: Option<bool>, kick: Option<real>, bass: Option<real>, beat: Option<real>, elementId: string)

  /** A hook instance: its private library, the last time it fired, and
      the dependencies of its beat effect at the previous render (`None`
      before the first). */
  datatype Hook = Hook(lib: Library, lastBeatTime: int, deps: Option<Deps>)

  const Mounted: Hook := Hook(Empty, 0, None)

  /** `beatData?.isBeat`: undefined without a frame. */
  function IsBeat(frame: Option<BeatDetector.BeatData>): (r: Option<bool>)
    ensures r.Some? <==> frame.Some?
    ensures r == Some(true) <==> frame.Some? && frame.value.isBeat
  {
    if frame.None? then None else Some(frame.value.isBeat)
  }

  /** The effect runs after a render whose dependencies differ from the
      previous render's, and after the first render. */
  predicate Reruns(h: Hook, d: Deps) {
    h.deps != Some(d)
  }

  /** Whether the effect, once it runs at `now`, fires: triggering is
      enabled, there is a frame, it is a beat, and the last firing is not
      less than 100 ms ago. */
  predicate Fires(triggerOnBeat: bool, frame: Option<BeatDetector.BeatData>, last: int, now: int) {
    triggerOnBeat && frame.Some? && frame.value.isBeat && !(now - last < Debounce)
  }

  /** Whether a render with dependencies `d` triggers an animation. */
  predicate Triggers(h: Hook, d: Deps, enabled: bool, frame: Option<BeatDetector.BeatData>, now: int) {
    Reruns(h, d) && Fires(enabled, frame, h.lastBeatTime, now)
  }

  /** The body of every beat effect: on a firing the hook records `now` and
      applies `react` to its library; otherwise nothing changes. */
  function Gate(h: Hook, enabled: bool, frame: Option<BeatDetector.BeatData>, now: int, react: Library -> Library): (r: Hook)
    ensures r.deps == h.deps
    ensures Fires(enabled, frame, h.lastBeatTime, now) ==> r.lib == react(h.lib) && r.lastBeatTime == now
    ensures !Fires(enabled, frame, h.lastBeatTime, now) ==> r == h
  {
    if !enabled || frame.None? || !frame.value.isBeat then h
    else if now - h.lastBeatTime < Debounce then h
    else h.(lib := react(h.lib), lastBeatTime := now)
  }

  /** One render: the gated effect runs only when the dependencies
      changed, and they are remembered either way. */
  function Render(h: Hook, d: Deps, enabled: bool, frame: Option<BeatDetector.BeatData>, now: int, react: Library -> Library): (r: Hook)
    ensures r.deps == Some(d)
    ensures Triggers(h, d, enabled, frame, now) ==> r.lib == react(h.lib) && r.lastBeatTime == now
    ensures !Triggers(h, d, enabled, frame, now) ==> r.lib == h.lib && r.lastBeatTime == h.lastBeatTime
  {
    var ran := if Reruns(h, d) then Gate(h, enabled, frame, now, react) else h;
    ran.(deps := Some(d))
  }

  /** `[beatData?.isBeat, elementId, preset, triggerOnBeat]` */
  function BeatEffectDeps(s: Settings, frame: Option<BeatDetector.BeatData>): Deps {
    BeatDeps(IsBeat(frame), s.elementId, s.preset, s.triggerOnBeat)
  }

  /** `useBeatAnimation`'s beat effect: a burst of the configured preset. */
  function OnBeat(h: Hook, s: Settings, frame: Option<BeatDetector.BeatData>, now: int, sin: Sine): (r: Hook)
    ensures r.deps == Some(BeatEffectDeps(s, frame))
    ensures Triggers(h, BeatEffectDeps(s, frame), s.triggerOnBeat, frame, now) ==>
      r.lib == TriggerBeatAnimation(h.lib, s.elementId, s.preset, now, sin) && r.lastBeatTime == now
    ensures !Triggers(h, BeatEffectDeps(s, frame), s.triggerOnBeat, frame, now) ==>
      r.lib == h.lib && r.lastBeatTime == h.lastBeatTime
  {
    Render(h, BeatEffectDeps(s, frame), s.triggerOnBeat, frame, now,
           lib => TriggerBeatAnimation(lib, s.elementId, s.preset, now, sin))
  }

  /** Nothing is triggered without a beat, or with triggering switched off. */
  lemma NoBeatNoAnimation(h: Hook, s: Settings, frame: Option<BeatDetector.BeatData>, now: int, sin: Sine)
    requires !s.triggerOnBeat || frame.None? || !frame.value.isBeat
    ensures OnBeat(h, s, frame, now, sin) == h.(deps := Some(BeatEffectDeps(s, frame)))
  {
  }

  /** A beat that lasts several frames triggers once: while the frames
      keep reporting a beat and the settings stay, the effect does not run
      again, however much time passes. */
  lemma HeldBeatTriggersOnce(h: Hook, s: Settings, f1: Option<BeatDetector.BeatData>, t1: int,
                             f2: Option<BeatDetector.BeatData>, t2: int, sin: Sine)
    requires IsBeat(f1) == IsBeat(f2)
    ensures var h1 := OnBeat(h, s, f1, t1, sin);
      OnBeat(h1, s, f2, t2, sin) == h1
  {
  }

  /** A beat after a frame without one makes the effect run again, and it
      fires once 100 ms have passed since the last firing. */
  lemma BeatAfterRestTriggers(h: Hook, s: Settings, rest: Option<BeatDetector.BeatData>, t1: int,
                              f: Option<BeatDetector.BeatData>, t2: int, sin: Sine)
    requires IsBeat(rest) != Some(true) && IsBeat(f) == Some(true) && s.triggerOnBeat
    ensures var h1 := OnBeat(h, s, rest, t1, sin);
      var h2 := OnBeat(h1, s, f, t2, sin);
      && (t2 - h.lastBeatTime >= Debounce ==>
            h2.lib == TriggerBeatAnimation(h1.lib, s.elementId, s.preset, t2, sin) && h2.lastBeatTime == t2)
      && (t2 - h.lastBeatTime < Debounce ==> h2.lib == h1.lib && h2.lastBeatTime == h.lastBeatTime)
  {
    var h1 := OnBeat(h, s, rest, t1, sin);
    assert h1.lastBeatTime == h.lastBeatTime;
    assert Reruns(h1, BeatEffectDeps(s, f));
  }

  /** Two firings of one hook are at least 100 ms apart: after firing at
      `t1`, a later render at `t2`, with any settings, fires exactly when
      its effect runs, it sees a beat with triggering on, and
      `t2 - t1 >= 100`. */
  lemma FiringsSpaced(h: Hook, s: Settings, f1: Option<BeatDetector.BeatData>, t1: int,
                      s2: Settings, f2: Option<BeatDetector.BeatData>, t2: int, sin: Sine)
    requires Triggers(h, BeatEffectDeps(s, f1), s.triggerOnBeat, f1, t1)
    ensures var h1 := OnBeat(h, s, f1, t1, sin);
      Triggers(h1, BeatEffectDeps(s2, f2), s2.triggerOnBeat, f2, t2) <==>
        Reruns(h1, BeatEffectDeps(s2, f2)) && s2.triggerOnBeat && f2.Some? && f2.value.isBeat && t2 - t1 >= Debounce
  {
  }

  /** The hook lets through a beat exactly 100 ms after the last one, which
      the detector's cooldown (more than 100 ms) would reject. */
  lemma DebounceLooserThanCooldown(b: BeatDetector.BeatData, last: int)
    requires b.isBeat
    ensures Fires(true, Some(b), last, last + Debounce)
    ensures !((last + Debounce) - last > Bpm.Cooldown)
    ensures forall now :: now - last > Bpm.Cooldown ==> Fires(true, Some(b), last, now)
  {
  }

  /** `startAnimation`: runs the configured preset with the configured
      intensity and duration. */
  function StartAnimation(h: Hook, s: Settings, now: int, sin: Sine): (r: Hook)
    ensures r.lastBeatTime == h.lastBeatTime
    ensures s.elementId in r.lib.runs
    ensures r.lib.runs[s.elementId] == Run(Config(s.preset, s.intensity, s.duration), now)
  {
    h.(lib := CreateAnimation(h.lib, s.elementId, Config(s.preset, s.intensity, s.duration), now, sin))
  }

  /** `triggerBeat`: a burst without the beat gate or the debounce. */
  function TriggerBeat(h: Hook, s: Settings, now: int, sin: Sine): (r: Hook)
    ensures r.lastBeatTime == h.lastBeatTime
    ensures s.elementId in r.lib.runs && r.lib.runs[s.elementId].start == now
    ensures r.lib.runs[s.elementId].config == Config(s.preset, BurstIntensity, BurstDuration)
  {
    h.(lib := TriggerBeatAnimation(h.lib, s.elementId, s.preset, now, sin))
  }

  /** Unmounting (and `stopAnimation`) stops the element's animation and
      keeps its last state. */
  function Unmount(h: Hook, s: Settings): (r: Hook)
    ensures s.elementId !in r.lib.runs
    ensures s.elementId in h.lib.states ==> GetAnimationState(r.lib, s.elementId).Some?
    ensures Inv(h.lib) ==> Inv(r.lib) && s.elementId !in ActiveIds(r.lib)
  {
    h.(lib := StopAnimation(h.lib, s.elementId))
  }

  // ---------------------------------------------------------------------
  // useSynchronizedBeatAnimations

  datatype SyncSettings = SyncSettings(ids: seq<string>, preset: Preset, intensity: real, duration: Duration, stagger: int)

  /** Omitted options default to intensity 0.3, duration 300 ms and a 50 ms
      stagger. */
  function SyncWithDefaults(ids: seq<string>, preset: Preset, intensity: Option<real>,
                            duration: Option<Duration>, stagger: Option<int>): (s: SyncSettings)
    ensures s.ids == ids && s.preset == preset
    ensures s.intensity == (if intensity.Some? then intensity.value else DefaultIntensity)
    ensures s.duration == (if duration.Some? then duration.value else DefaultDuration)
    ensures s.stagger == (if stagger.Some? then stagger.value else DefaultStagger)
  {
    SyncSettings(ids, preset, intensity.GetOr(DefaultIntensity), duration.GetOr(DefaultDuration), stagger.GetOr(DefaultStagger))
  }

  /** The cascade `startAll` (and a firing beat) schedules. */
  function Cascade(lib: Library, s: SyncSettings, now: int): Library {
    CreateSynchronizedAnimations(lib, s.ids, Config(s.preset, s.intensity, s.duration), s.stagger, now)
  }

  /** `[beatData?.isBeat, elementIds, preset, intensity, duration, staggerDelay]` */
  function SyncEffectDeps(s: SyncSettings, frame: Option<BeatDetector.BeatData>): Deps {
    SyncDeps(IsBeat(frame), s.ids, s.preset, s.intensity, s.duration, s.stagger)
  }

  /** The synchronized hook's beat effect: the same beat gate and debounce
      (always enabled), then a staggered cascade over all elements. */
  function OnBeatSynchronized(h: Hook, s: SyncSettings, frame: Option<BeatDetector.BeatData>, now: int): (r: Hook)
    ensures r.deps == Some(SyncEffectDeps(s, frame))
    ensures Triggers(h, SyncEffectDeps(s, frame), true, frame, now) ==>
      r.lib == Cascade(h.lib, s, now) && r.lastBeatTime == now
    ensures !Triggers(h, SyncEffectDeps(s, frame), true, frame, now) ==>
      r.lib == h.lib && r.lastBeatTime == h.lastBeatTime
    ensures |r.lib.timers| == |h.lib.timers| + (if Triggers(h, SyncEffectDeps(s, frame), true, frame, now) then |s.ids| else 0)
  {
    Render(h, SyncEffectDeps(s, frame), true, frame, now, lib => Cascade(lib, s, now))
  }

  /** A beat held over several frames schedules one cascade. */
  lemma SyncHeldBeatTriggersOnce(h: Hook, s: SyncSettings, f1: Option<BeatDetector.BeatData>, t1: int,
                                 f2: Option<BeatDetector.BeatData>, t2: int)
    requires IsBeat(f1) == IsBeat(f2)
    ensures var h1 := OnBeatSynchronized(h, s, f1, t1);
      OnBeatSynchronized(h1, s, f2, t2) == h1
  {
  }

  /** On a firing beat element `k` is scheduled `k * stagger` ms later. */
  lemma CascadeSchedule(h: Hook, s: SyncSettings, frame: Option<BeatDetector.BeatData>, now: int, k: nat)
    requires Triggers(h, SyncEffectDeps(s, frame), true, frame, now) && k < |s.ids| && s.stagger >= 0
    ensures var t := OnBeatSynchronized(h, s, frame, now).lib.timers[|h.lib.timers| + k];
      t == StartAt(s.ids[k], Config(s.preset, s.intensity, s.duration), now + k * s.stagger)
  {
    StaggerNonneg(k, s.stagger);
  }

  lemma StaggerNonneg(k: nat, stagger: int)
    requires stagger >= 0
    ensures k * stagger >= 0
  {
    if k > 0 { MulAtLeastNat(k, stagger); }
  }

  lemma MulAtLeastNat(k: nat, d: int)
    requires k >= 1 && d >= 0
    ensures k * d >= d
  {
    assert k * d == (k - 1) * d + d;
  }

  /** `stopAll` leaves no animation of the hook running. */
  function StopAllHook(h: Hook): (r: Hook)
    ensures r.lib.runs == map[] && r.lastBeatTime == h.lastBeatTime
    ensures Inv(h.lib) ==> GetAnimationStats(r.lib).activeAnimations == 0
  {
    var stopped := StopAll(h.lib);
    assert ActiveIds(stopped) == {} ==> |ActiveIds(stopped)| == 0;
    h.(lib := stopped)
  }

  // ---------------------------------------------------------------------
  // useFrequencyBeatAnimation

  /** The preset for a beat: bounce on a strong kick, else scale on strong
      bass, else pulse. */
  function ChoosePreset(b: BeatDetector.BeatData): (p: Preset)
    ensures p == Bounce <==> b.kickStrength > 0.6
    ensures p == Scale <==> !(b.kickStrength > 0.6) && b.bassStrength > 0.6
    ensures p == Pulse <==> !(b.kickStrength > 0.6) && !(b.bassStrength > 0.6)
  {
    if b.kickStrength > 0.6 then Bounce
    else if b.bassStrength > 0.6 then Scale
    else if b.beatStrength > 0.5 then Pulse
    else Pulse
  }

  /** The combined strength plays no part in the choice. */
  lemma ChoiceIgnoresBeatStrength(b: BeatDetector.BeatData, x: real)
    ensures ChoosePreset(b.(beatStrength := x)) == ChoosePreset(b)
  {
  }

  /** `[beatData?.isBeat, beatData?.kickStrength, beatData?.bassStrength,
      beatData?.beatStrength, elementId]` */
  function FrequencyEffectDeps(id: string, frame: Option<BeatDetector.BeatData>): Deps {
    if frame.None? then FrequencyDeps(None, None, None, None, id)
    else FrequencyDeps(Some(frame.value.isBeat), Some(frame.value.kickStrength),
                       Some(frame.value.bassStrength), Some(frame.value.beatStrength), id)
  }

  /** The frequency hook's beat effect: a burst of the chosen preset. */
  function OnBeatFrequency(h: Hook, id: string, frame: Option<BeatDetector.BeatData>, now: int, sin: Sine): (r: Hook)
    ensures r.deps == Some(FrequencyEffectDeps(id, frame))
    ensures Triggers(h, FrequencyEffectDeps(id, frame), true, frame, now) ==>
      r.lib == TriggerBeatAnimation(h.lib, id, ChoosePreset(frame.value), now, sin) && r.lastBeatTime == now
    ensures !Triggers(h, FrequencyEffectDeps(id, frame), true, frame, now) ==>
      r.lib == h.lib && r.lastBeatTime == h.lastBeatTime
  {
    if frame.None? then Render(h, FrequencyEffectDeps(id, frame), true, frame, now, lib => lib)
    else Render(h, FrequencyEffectDeps(id, frame), true, frame, now,
                lib => TriggerBeatAnimation(lib, id, ChoosePreset(frame.value), now, sin))
  }

  /** An unchanged beat frame triggers once, however long it lasts. */
  lemma FrequencyHeldBeatTriggersOnce(h: Hook, id: string, frame: Option<BeatDetector.BeatData>, t1: int, t2: int, sin: Sine)
    ensures var h1 := OnBeatFrequency(h, id, frame, t1, sin);
      OnBeatFrequency(h1, id, frame, t2, sin) == h1
  {
  }

  /** Unlike the other hooks, this effect also depends on the strengths: a
      beat frame whose kick strength changed makes it run again, and it
      fires once 100 ms have passed since the last firing. */
  lemma StrengthChangeRetriggers(h: Hook, id: string, f1: BeatDetector.BeatData, t1: int,
                                 f2: BeatDetector.BeatData, t2: int, sin: Sine)
    requires f2.isBeat && f2.kickStrength != f1.kickStrength
    ensures var h1 := OnBeatFrequency(h, id, Some(f1), t1, sin);
      var h2 := OnBeatFrequency(h1, id, Some(f2), t2, sin);
      t2 - h1.lastBeatTime >= Debounce <==> h2.lastBeatTime == t2 && h2.lib == TriggerBeatAnimation(h1.lib, id, ChoosePreset(f2), t2, sin)
  {
    var h1 := OnBeatFrequency(h, id, Some(f1), t1, sin);
    assert Reruns(h1, FrequencyEffectDeps(id, Some(f2)));
  }
}
