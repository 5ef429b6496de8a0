# joydao creative portfolio: audio-reactive core, in Dafny

This project models the logic of the portfolio site that can be reasoned about without a browser:

- **`BeatDetector`**: the streaming detector that turns each analyser snapshot into kick and bass strengths, an onset decision and a tempo estimate.
- **`FrequencyColorMapper`**: maps the spectrum onto eight named bands and colours, and measures band energies and the distribution between them.
- **`BeatSyncAnimationLibrary`**: the six animation presets, the per-element animation state and frame loop, beat bursts, staggered cascades and statistics.
- **The three beat-animation hooks**: `useBeatAnimation`, `useSynchronizedBeatAnimations` and `useFrequencyBeatAnimation`.
- **The admin blog form**: the slug derived from a title, tag selection and removal, and submission.
- **`insertMarkdown`** of the Markdown editor toolbar.
- **`escapeXml`**, used by the RSS feed.
- **The video carousel**: index arithmetic, auto-play and what is rendered.
- **The audio player**: track navigation, volume and mute, and the `m:ss` time display.

Everything is written as immutable datatypes and pure functions, with a few loops kept as methods. Time, the analyser's snapshot and `Math.sin` are explicit parameters.

Module layout:

| module | models |
|---|---|
| `Spectrum` | the `Uint8Array` snapshot, the bin of a frequency, range sums |
| `Fifo` | the bounded `push`-then-`shift` histories |
| `Ema` | `smoothValue` and its reference recurrence |
| `Bpm` | `updateBPMEstimate`, both as written and as evidently intended |
| `BeatDetector` | `detect` as written and with the intended tempo update, `reset`, `setThresholds`, `getBeatHistory`, and runs of many frames |
| `Trace` | running a step function over a sequence of ticks |
| `FrequencyColorMapper` | the band table and every mapper method with logic |
| `AnimationCurves` | the progress formula, easings and the six preset curves |
| `AnimationLibrary` | the library state, its operations and timers |
| `BeatAnimationHooks` | the three hooks |
| `Slug` | the string pipeline of the slug effect |
| `BlogPostForm` | the form's state and handlers |
| `MarkdownEditor` | `insertMarkdown` and the toolbar |
| `XmlEscape` | `escapeXml`, with a decoder as its inverse |
| `VideoCarousel` | the carousel |
| `AudioPlayer` | the player |
| `Numeric`, `Wrappers` | shared arithmetic and `Option` |

JavaScript semantics are modelled where they matter:

- **Remainder:** `%` truncates toward zero (`Numeric.JsRem`).
- **NaN index:** the carousel's index becomes `NaN` after `x % 0` (`VideoCarousel.Index`).
- **`substring`:** clamps and swaps its arguments (`MarkdownEditor.Substring`).
- **`||` defaults:** apply to falsy strings (`Wrappers.Option.GetOr`).
- **`padStart(2, "0")`:** modelled as `AudioPlayer.PadStart2`.
- **`Math.floor`:** modelled as `Floor` on reals.

## Model

| member | source | states |
|---|---|---|
| BeatDetector.Init | client/src/lib/beatDetector.ts:19-33 | a new detector satisfies the invariant every later state keeps: three histories of equal length, at most 60, kick and bass samples in [0, 1] with each beat sample their 0.6/0.4 blend, a tempo in [60, 200], at most eight recorded gaps, and thresholds in [0, 1] |
| BeatDetector.BandLevel | client/src/lib/beatDetector.ts:90-97 | the band level is in [0, 1], times 255 times the bin count it is exactly the band's magnitude sum, and silence gives 0 |
| BeatDetector.KickLevel | client/src/lib/beatDetector.ts:85-98 | the kick strength (bins of 60-200 Hz) is in [0, 1] and 0 on silence |
| BeatDetector.BassLevel | client/src/lib/beatDetector.ts:103-116 | the bass strength (bins of 200-500 Hz) is in [0, 1] and 0 on silence |
| BeatDetector.BandsNonEmpty | client/src/lib/beatDetector.ts:87-106 | from 111 bins on, the kick and bass bin ranges are non-empty and inside the snapshot, so neither average divides by zero |
| BeatDetector.Window | client/src/lib/beatDetector.ts:126-127 | `slice(-10, -1)` on a history of at least ten entries holds nine samples |
| BeatDetector.ExceedsIsThresholdTest | client/src/lib/beatDetector.ts:131-138 | the root-free onset test is equivalent to `x > mean + 1.5 * stdDev` for the standard deviation of the window |
| BeatDetector.PushSample | client/src/lib/beatDetector.ts:51-62 | the combined 0.6/0.4 strength, the kick and the bass are pushed into histories that evict together at 60 entries, and the invariant is kept |
| BeatDetector.Sense | client/src/lib/beatDetector.ts:51-65 | the sample goes into the histories; a beat is reported only more than 100 ms after the last one, and exactly then the last beat time becomes now; gaps and tempo are untouched |
| BeatDetector.Report | client/src/lib/beatDetector.ts:70-78 | the returned strengths lie in [0, 1], the tempo is the stored one, and `isBeat` is the onset decision |
| BeatDetector.Detect | client/src/lib/beatDetector.ts:38-79 | one frame keeps the invariant, reports strengths in [0, 1] and the stored tempo in [60, 200], moves the last beat time exactly on a beat, reports a beat only more than 100 ms after the last one and none while fewer than ten samples are held, and, as written, records no gap and keeps the tempo when no gap was recorded before |
| BeatDetector.DetectSpec | client/src/lib/beatDetector.ts:45-79 | the three histories receive the raw kick, the raw bass and their 0.6/0.4 blend; the flags compare the raw levels with the thresholds; the reported strengths are the smoothed new histories; a beat is the adaptive onset test plus the 100 ms cooldown; gaps and tempo follow the written update run after the last beat time moved; the reported tempo is the stored one; the thresholds are untouched |
| BeatDetector.DetectIntended | client/src/lib/beatDetector.ts:38-79 | with the intended tempo update every recorded gap stays above the 100 ms cooldown, the tempo stays in [60, 200], and gaps and tempo are the intended update applied with the previous beat's time |
| BeatDetector.IntendedDiffersOnlyInTempo | client/src/lib/beatDetector.ts:45-79 | the intended detector agrees with the written one on histories, last beat time, flags and strengths, and differs at most in gaps and tempo |
| BeatDetector.Reset | client/src/lib/beatDetector.ts:208-215 | `reset()` returns the initial detector with the thresholds kept |
| BeatDetector.SetThresholds | client/src/lib/beatDetector.ts:220-224 | each threshold is clamped into [0, 1], values already in range are stored as given, and nothing else changes |
| BeatDetector.BeatHistory | client/src/lib/beatDetector.ts:236-238 | the history returned has at most 60 entries, each in [0, 1] |
| BeatDetector.SilenceNeverBeats | client/src/lib/beatDetector.ts:64-79 | a silent snapshot never produces a beat or a kick or bass flag, and its raw strengths are 0 |
| BeatDetector.StepHonours | client/src/lib/beatDetector.ts:140-145 | every detector tick moves the last beat time exactly on a beat, only after the 100 ms cooldown, and adds at most one sample |
| BeatDetector.LastBeatHeld | client/src/lib/beatDetector.ts:141-145 | between a beat and the next beat of a run, the state remembers the time of that beat |
| BeatDetector.NoBeatYet | client/src/lib/beatDetector.ts:141-145 | before the first beat of a run, the last beat time is the initial one |
| BeatDetector.HistoryGrowth | client/src/lib/beatDetector.ts:54-62 | after k ticks the history has grown by at most k |
| BeatDetector.FirstBeatAfterCooldown | client/src/lib/beatDetector.ts:140-145 | the first beat of a run comes more than 100 ms after the state's last beat |
| BeatDetector.SuccessiveBeatsSpaced | client/src/lib/beatDetector.ts:140-145 | any two successive beats of a run are more than 100 ms apart |
| BeatDetector.NoBeatDuringWarmUp | client/src/lib/beatDetector.ts:122-123 | no beat is reported while the history holds fewer than ten samples |
| BeatDetector.StepKeepsTempo | client/src/lib/beatDetector.ts:153-158 | as written, a frame from a state with no recorded gap records none and keeps the stored and reported tempo |
| BeatDetector.TempoFrozen | client/src/lib/beatDetector.ts:153-158 | as written, along any run from a state with no recorded gap, no gap is ever recorded and the tempo never changes |
| BeatDetector.ReportedTempoFrozen | client/src/lib/beatDetector.ts:67-78 | as written, every frame of such a run reports the starting tempo |
| BeatDetector.NewDetectorStaysAt120 | client/src/lib/beatDetector.ts:28-29 | as written, a new detector, whose gap list starts empty, reports 120 bpm on every frame of every run |
| BeatDetector.ResetDetectorStaysAt120 | client/src/lib/beatDetector.ts:208-215 | as written, after `reset()` every frame of every run reports 120 bpm |
| Fifo.Push | client/src/lib/beatDetector.ts:54-62 | pushing appends, the length never exceeds the cap, and on overflow exactly the oldest entry goes |
| Fifo.PushIsSuffix | client/src/lib/beatDetector.ts:58-62 | the history after a push is a suffix of the old history plus the new sample |
| Spectrum.BinIndexBounds | client/src/lib/beatDetector.ts:87-88 | the bin of a frequency up to 22050 Hz lies inside the snapshot |
| Spectrum.BinIndexMonotone | client/src/lib/beatDetector.ts:105-106 | a higher frequency never maps to a lower bin |
| Spectrum.RangeSumBounds | client/src/lib/beatDetector.ts:90-93 | a band sum lies between 0 and 255 times the number of bins |
| Ema.Weight | client/src/lib/beatDetector.ts:187 | the weight `2 / (N + 1)` is in (0, 1] |
| Ema.WeightedShift | client/src/lib/beatDetector.ts:189-192 | dropping the newest sample multiplies every older term of the weighted sum by `1 - w` |
| Ema.WeightedIsRecurrence | client/src/lib/beatDetector.ts:183-195 | the source's explicit weighted sum equals the scalar recurrence `e := w * x + (1 - w) * e`, which serves as its reference definition |
| Ema.Smooth | client/src/lib/beatDetector.ts:183-195 | an empty history smooths to 0, and a history in [0, 1] smooths into [0, 1] |
| Ema.SmoothBounds | client/src/lib/beatDetector.ts:183-195 | the smoothed value of a history in [0, m] never exceeds m |
| Ema.RecentSamplesWeighMore | server/beatDetector.test.ts:192-202 | the history [0.1, 0.9] smooths to more than 0.5, as the repository's test expects |
| Bpm.ClampBpm | client/src/lib/beatDetector.ts:175 | the clamp lands in [60, 200] and leaves values in range unchanged |
| Bpm.Blend | client/src/lib/beatDetector.ts:172-175 | the 0.7/0.3 blend, rounded and clamped, is in [60, 200] |
| Bpm.UpdateBpm | client/src/lib/beatDetector.ts:153-178 | the corrected update: a beat that follows an earlier beat records the gap in a window of eight, the estimate changes only once more than two gaps are known, and it stays in [60, 200] |
| Bpm.UpdateBpmAsWritten | client/src/lib/beatDetector.ts:153-178 | the update as written keeps at most eight intervals and a tempo in range |
| Bpm.AsWrittenNeverStarts | client/src/lib/beatDetector.ts:157 | as written, an empty interval list stays empty and the tempo never changes |
| Bpm.AsWrittenGapIsZero | client/src/lib/beatDetector.ts:142-159 | as written, the gap recorded on a beat is always 0, because the last beat time was just set to now |
| Bpm.SteadyBeatsAsWritten | client/src/lib/beatDetector.ts:153-178 | beats every 600 ms leave the written estimate at 120 |
| Bpm.SteadyBeatsCorrected | client/src/lib/beatDetector.ts:153-178 | the same beats under the corrected update record 600 ms gaps and move the estimate to 114 |
| Bpm.SteadyTempoIsFixpoint | client/src/lib/beatDetector.ts:167-175 | when every gap is d and the estimate already equals `round(60000 / d)`, the update keeps it |
| Bpm.BlendApproaches | client/src/lib/beatDetector.ts:171-175 | each blend moves the estimate no further from an in-range measured tempo, and strictly closer when it is at least 2 away |
| Bpm.ClampTowards | client/src/lib/beatDetector.ts:175 | clamping never moves a value away from a point of [60, 200] |
| FrequencyColorMapper.CatalogueContiguous | client/src/lib/frequencyColorMapper.ts:33-42 | the eight bands run from 20 Hz to 22050 Hz, each non-empty and each starting where the previous one ends |
| FrequencyColorMapper.CatalogueOrdered | client/src/lib/frequencyColorMapper.ts:33-42 | the bands are disjoint and in ascending order |
| FrequencyColorMapper.NamesDistinct | client/src/lib/frequencyColorMapper.ts:33-42 | no two bands share a name |
| FrequencyColorMapper.Coverage | client/src/lib/frequencyColorMapper.ts:47-54 | some band contains a frequency if and only if the frequency is in [20, 22050) |
| FrequencyColorMapper.Scan | client/src/lib/frequencyColorMapper.ts:48-52 | the scan returns the first band, from the starting index on, that contains an audible frequency |
| FrequencyColorMapper.BandIndex | client/src/lib/frequencyColorMapper.ts:47-54 | an audible frequency gets the band that contains it, and any other frequency gets the last band |
| FrequencyColorMapper.BandIndexUnique | client/src/lib/frequencyColorMapper.ts:47-54 | for an audible frequency, a band contains it exactly when it is the band returned |
| FrequencyColorMapper.ColorWithMagnitude | client/src/lib/frequencyColorMapper.ts:125-140 | the hue is the band's hue and the lightness is at most 80; it is at least 30 exactly when the magnitude ratio is non-negative, and exactly 80 from ratio 1 on |
| FrequencyColorMapper.LightnessMonotone | client/src/lib/frequencyColorMapper.ts:132-137 | a louder magnitude never gives a darker colour |
| FrequencyColorMapper.BinColor | client/src/lib/frequencyColorMapper.ts:152-157 | a byte magnitude always gives a lightness in [30, 80] |
| FrequencyColorMapper.MapFrequencyDataToColors | client/src/lib/frequencyColorMapper.ts:145-167 | one entry per bin, carrying that bin's magnitude, the name of its frequency's band, and its colour |
| FrequencyColorMapper.ColorStops | client/src/lib/frequencyColorMapper.ts:102-108 | one stop per band, carrying that band's colour and name, at strictly increasing positions in [0, 1) |
| FrequencyColorMapper.FirstMaxUnique | client/src/lib/frequencyColorMapper.ts:176-181 | the index the scan settles on (the first strictly largest bin) is unique |
| FrequencyColorMapper.DominantBand | client/src/lib/frequencyColorMapper.ts:172-186 | the result is the band of the first loudest bin, and the last band for empty or silent data |
| FrequencyColorMapper.FindFrom | client/src/lib/frequencyColorMapper.ts:196 | the search from an index returns a band of that name, or none when no band from there on has it |
| FrequencyColorMapper.FindBand | client/src/lib/frequencyColorMapper.ts:196-197 | `find` returns a band of the given name, or none when no band has it |
| FrequencyColorMapper.FindBandOwnNames | client/src/lib/frequencyColorMapper.ts:196 | every band is found by its own name |
| FrequencyColorMapper.HighBin | client/src/lib/frequencyColorMapper.ts:200-201 | a band's bin range is ordered and inside the snapshot |
| FrequencyColorMapper.BandEnergyAsWritten | client/src/lib/frequencyColorMapper.ts:191-209 | the energy as written: 0 for an unknown name, NaN (`None`) for an empty bin range, and otherwise the mean magnitude of the band's bins |
| FrequencyColorMapper.RangeAverage | client/src/lib/frequencyColorMapper.ts:203-208 | the mean of a bin range lies in [0, 255], times the width it is exactly the range's sum, and it is 0 for an empty range or silence |
| FrequencyColorMapper.BandMean | client/src/lib/frequencyColorMapper.ts:199-208 | a band's mean energy lies in [0, 255] and is 0 on silence |
| FrequencyColorMapper.BandEnergy | client/src/lib/frequencyColorMapper.ts:191-209 | the corrected energy lies in [0, 255], is 0 for an unknown name, and is the band's mean otherwise |
| FrequencyColorMapper.BandEnergyAgrees | client/src/lib/frequencyColorMapper.ts:191-209 | wherever the written energy is a number, it equals the corrected one |
| FrequencyColorMapper.AllBandEnergies | client/src/lib/frequencyColorMapper.ts:214-222 | one energy per band, in catalogue order, each the band's mean |
| FrequencyColorMapper.AllBandEnergiesAsWritten | client/src/lib/frequencyColorMapper.ts:214-222 | as written, a band's entry is NaN exactly when its bin range is empty |
| FrequencyColorMapper.Shares | client/src/lib/frequencyColorMapper.ts:243-245 | each share is the energy divided by the total, times 100 |
| FrequencyColorMapper.Percentages | client/src/lib/frequencyColorMapper.ts:235-248 | one entry per energy: with a positive total each is its energy's share of 100, otherwise each is 0 |
| FrequencyColorMapper.SharesSum | client/src/lib/frequencyColorMapper.ts:240-245 | the shares add up to the energies' sum over the total, times 100 |
| FrequencyColorMapper.PercentagesSumTo100 | client/src/lib/frequencyColorMapper.ts:235-248 | with a positive total the distribution adds up to exactly 100 |
| FrequencyColorMapper.PercentageOf | client/src/lib/frequencyColorMapper.ts:243-245 | each percentage lies in [0, 100]; it is the band's share of a positive total, and 0 otherwise |
| FrequencyColorMapper.ShareBounds | client/src/lib/frequencyColorMapper.ts:244 | a part of a positive total is between 0 and 100 percent, and the whole is 100 percent |
| FrequencyColorMapper.Distribution | client/src/lib/frequencyColorMapper.ts:235-248 | the corrected distribution has one entry per band |
| FrequencyColorMapper.DistributionSpec | client/src/lib/frequencyColorMapper.ts:235-248 | each entry lies in [0, 100]; they add up to 100 unless all energies are 0, in which case every entry is 0 |
| FrequencyColorMapper.DistributionAsWritten | client/src/lib/frequencyColorMapper.ts:235-248 | the written distribution has one entry per band |
| FrequencyColorMapper.RangesNonEmpty | client/src/lib/frequencyColorMapper.ts:200-201 | from 368 bins on, every band's bin range is non-empty |
| FrequencyColorMapper.LargeSnapshotsAgree | client/src/lib/frequencyColorMapper.ts:235-248 | from 368 bins on, the written and corrected distributions coincide |
| FrequencyColorMapper.SmallSnapshotsLoseDistribution | client/src/lib/frequencyColorMapper.ts:235-248 | for 1 to 367 bins, the written distribution is all zeros whatever the data |
| FrequencyColorMapper.LoudSnapshotWitness | client/src/lib/frequencyColorMapper.ts:235-248 | a loud 256-bin snapshot has a written distribution of all zeros but a corrected one that adds up to 100 |
| AnimationCurves.Progress | client/src/lib/beatSyncAnimationLibrary.ts:40-41 | `(elapsed % duration) / duration` lies in [0, 1) for non-negative elapsed time |
| AnimationCurves.ProgressFirstPeriod | client/src/lib/beatSyncAnimationLibrary.ts:40-41 | within the first period, progress times duration is the elapsed time |
| AnimationCurves.ProgressPeriodic | client/src/lib/beatSyncAnimationLibrary.ts:40-41 | progress repeats with period `duration` |
| AnimationCurves.CubicEaseBounds | client/src/lib/beatSyncAnimationLibrary.ts:78 | the cubic ease maps [0, 1] into [0, 1], fixing 0, 0.5 and 1 |
| AnimationCurves.EaseOutBounceBounds | client/src/lib/beatSyncAnimationLibrary.ts:172-185 | the bounce ease maps [0, 1] into [0, 1], with 0 at 0 and 1 at 1 |
| AnimationCurves.PulseBounds | client/src/lib/beatSyncAnimationLibrary.ts:36-45 | the pulse scale stays within 1 ± intensity |
| AnimationCurves.ScaleBounds | client/src/lib/beatSyncAnimationLibrary.ts:69-79 | the scale preset stays in [1 - intensity, 1 + intensity] |
| AnimationCurves.GlowBounds | client/src/lib/beatSyncAnimationLibrary.ts:103-113 | the glow stays in [0.3, 0.3 + intensity] |
| AnimationCurves.BounceBounds | client/src/lib/beatSyncAnimationLibrary.ts:169-192 | the bounce offset stays in [0, 20 * intensity] |
| AnimationCurves.ShimmerBounds | client/src/lib/beatSyncAnimationLibrary.ts:216-229 | the shimmer opacity stays in [0.5, 0.5 + intensity] |
| AnimationCurves.ValueWithinBounds | client/src/lib/beatSyncAnimationLibrary.ts:248-271 | every preset's value lies between that preset's lower and upper bound |
| AnimationCurves.RotationBelowFullTurn | client/src/lib/beatSyncAnimationLibrary.ts:137-145 | the rotation stays in [0, 360 * intensity) |
| AnimationLibrary.EmptyInv | client/src/lib/beatSyncAnimationLibrary.ts:24-25 | a new library has no states and satisfies the invariant that an element is active exactly when it has a pending frame |
| AnimationLibrary.FrameProgress | client/src/lib/beatSyncAnimationLibrary.ts:40-41 | for non-negative elapsed time a frame's progress lies in [0, 1) |
| AnimationLibrary.Frame | client/src/lib/beatSyncAnimationLibrary.ts:39-55 | a frame records an active state stamped with the current time, with progress in [0, 1) |
| AnimationLibrary.FrameWithinBounds | client/src/lib/beatSyncAnimationLibrary.ts:39-55 | a frame's value lies within its preset's bounds |
| AnimationLibrary.FirstFrame | client/src/lib/beatSyncAnimationLibrary.ts:58 | the frame drawn when an animation is created has progress 0 |
| AnimationLibrary.GetAnimationState | client/src/lib/beatSyncAnimationLibrary.ts:302-304 | the lookup is defined exactly for stored ids and returns the stored state |
| AnimationLibrary.CreateAnimation | client/src/lib/beatSyncAnimationLibrary.ts:248-271 | the element runs the given config from now, its first frame is stored, other elements are untouched, and the invariant is kept |
| AnimationLibrary.StopAnimation | client/src/lib/beatSyncAnimationLibrary.ts:276-287 | the element's frame is cancelled and its state, if any, is marked inactive; other elements and the timers are untouched, and the invariant is kept |
| AnimationLibrary.StopIdempotent | client/src/lib/beatSyncAnimationLibrary.ts:276-287 | stopping twice is stopping once |
| AnimationLibrary.StopKeepsLastFrame | client/src/lib/beatSyncAnimationLibrary.ts:283-286 | a stopped element keeps its last frame, marked inactive |
| AnimationLibrary.StopAll | client/src/lib/beatSyncAnimationLibrary.ts:292-297 | no frame stays pending, every element that had one is marked inactive, the rest are untouched, and under the invariant nothing is active |
| AnimationLibrary.StopAllAnimations | client/src/lib/beatSyncAnimationLibrary.ts:292-297 | stopping the ids one at a time gives the same library as stopping all of them at once |
| AnimationLibrary.Tick | client/src/lib/beatSyncAnimationLibrary.ts:39-56 | each running element records a fresh frame, stopped elements keep their states, and the invariant is kept |
| AnimationLibrary.TickWithinBounds | client/src/lib/beatSyncAnimationLibrary.ts:39-56 | after a tick, a running element's state is active, with progress in [0, 1) and its value within its preset's bounds |
| AnimationLibrary.NextDue | client/src/lib/beatSyncAnimationLibrary.ts:363-365 | the timer fired next is the earliest due one, the first of equals, and there is none when nothing is due |
| AnimationLibrary.FireNext | client/src/lib/beatSyncAnimationLibrary.ts:379-386 | with no timer due nothing changes; otherwise the next due timer is removed and its callback runs: a start timer runs its config from now, a stop timer stops its element, other elements are untouched, and the invariant is kept |
| AnimationLibrary.TriggerBeatAnimation | client/src/lib/beatSyncAnimationLibrary.ts:351-366 | a burst restarts the element at intensity 0.4 for 200 ms, is active at progress 0, schedules a stop 200 ms later, and leaves other elements untouched |
| AnimationLibrary.BurstEndsAfterOneCycle | client/src/lib/beatSyncAnimationLibrary.ts:362-365 | no timer fires before 200 ms have passed; at 200 ms the scheduled stop ends the run and the element keeps its first frame |
| AnimationLibrary.RetriggerStopsEarly | client/src/lib/beatSyncAnimationLibrary.ts:351-366 | a second burst within 200 ms is cut short by the first burst's timer |
| AnimationLibrary.Delay | client/src/lib/beatSyncAnimationLibrary.ts:386 | a non-negative delay is used as given |
| AnimationLibrary.CreateSynchronizedAnimations | client/src/lib/beatSyncAnimationLibrary.ts:371-388 | one timer per id is appended, in order, element k starting k * stagger ms after now; no state changes yet |
| AnimationLibrary.SynchronizedOrder | client/src/lib/beatSyncAnimationLibrary.ts:378-387 | with a non-negative stagger, earlier ids are due no later, and strictly earlier for a positive stagger |
| AnimationLibrary.ActiveIds | client/src/lib/beatSyncAnimationLibrary.ts:393-398 | the active ids are exactly the stored ids whose state is active |
| AnimationLibrary.GetAnimationStats | client/src/lib/beatSyncAnimationLibrary.ts:403-414 | the total counts every stored state, and the active count is the number of active ids, never above the total |
| AnimationLibrary.ActiveAreRunning | client/src/lib/beatSyncAnimationLibrary.ts:393-414 | under the invariant, the active ids are exactly the elements with a pending frame |
| AnimationLibrary.StopKeepsTotal | client/src/lib/beatSyncAnimationLibrary.ts:403-414 | stopping keeps the total and removes only that id from the active ones |
| BeatAnimationHooks.WithDefaults | client/src/hooks/useBeatAnimation.ts:35-41 | omitted options default to intensity 0.3, duration 300 ms and triggering on beats |
| BeatAnimationHooks.IsBeat | client/src/hooks/useBeatAnimation.ts:76 | `beatData?.isBeat` is undefined exactly without a frame, and true exactly on a beat frame |
| BeatAnimationHooks.Gate | client/src/hooks/useBeatAnimation.ts:67-76 | a running effect that sees a beat, with triggering on and the last firing at least 100 ms ago, records now and reacts; anything else changes nothing |
| BeatAnimationHooks.Render | client/src/hooks/useBeatAnimation.ts:67-76 | a render remembers the effect's dependencies, and reacts exactly when they differ from the previous render's and the gate fires |
| BeatAnimationHooks.OnBeat | client/src/hooks/useBeatAnimation.ts:67-76 | the effect with dependencies `[isBeat, elementId, preset, triggerOnBeat]` triggers a burst of the configured preset and records now exactly when a dependency changed and the gate fires; otherwise library and last firing stay |
| BeatAnimationHooks.NoBeatNoAnimation | client/src/hooks/useBeatAnimation.ts:68 | with no beat, or with triggering off, only the remembered dependencies change |
| BeatAnimationHooks.HeldBeatTriggersOnce | client/src/hooks/useBeatAnimation.ts:67-76 | consecutive frames with the same `isBeat` and settings run the effect at most once, however far apart |
| BeatAnimationHooks.BeatAfterRestTriggers | client/src/hooks/useBeatAnimation.ts:67-76 | a beat after a frame without one runs the effect again, and bursts exactly when 100 ms have passed since the last firing |
| BeatAnimationHooks.FiringsSpaced | client/src/hooks/useBeatAnimation.ts:67-76 | after a firing at t1, the next render at t2 fires exactly when its dependencies changed, it sees a beat with triggering on, and t2 - t1 >= 100 |
| BeatAnimationHooks.DebounceLooserThanCooldown | client/src/hooks/useBeatAnimation.ts:72 | the hook lets through a beat exactly 100 ms after the last one, which the detector's cooldown would reject |
| BeatAnimationHooks.StartAnimation | client/src/hooks/useBeatAnimation.ts:85-92 | `startAnimation` runs the configured preset, intensity and duration from now |
| BeatAnimationHooks.TriggerBeat | client/src/hooks/useBeatAnimation.ts:98-100 | `triggerBeat` starts a burst now, without the beat gate |
| BeatAnimationHooks.Unmount | client/src/hooks/useBeatAnimation.ts:79-83 | unmounting stops the element and keeps its state; under the invariant it is then inactive |
| BeatAnimationHooks.SyncWithDefaults | client/src/hooks/useBeatAnimation.ts:128-132 | omitted options default to intensity 0.3, duration 300 ms and a 50 ms stagger |
| BeatAnimationHooks.OnBeatSynchronized | client/src/hooks/useBeatAnimation.ts:135-149 | with dependencies `[isBeat, elementIds, preset, intensity, duration, staggerDelay]`, a changed dependency and a firing beat schedule one cascade timer per element; otherwise library and last firing stay |
| BeatAnimationHooks.SyncHeldBeatTriggersOnce | client/src/hooks/useBeatAnimation.ts:135-149 | a beat held over consecutive frames with unchanged settings schedules one cascade |
| BeatAnimationHooks.CascadeSchedule | client/src/hooks/useBeatAnimation.ts:142-148 | on a triggering render, element k starts k * stagger ms later |
| BeatAnimationHooks.StopAllHook | client/src/hooks/useBeatAnimation.ts:161-163 | `stopAll` leaves no pending frame, and under the invariant the stats show no active animation |
| BeatAnimationHooks.ChoosePreset | client/src/hooks/useBeatAnimation.ts:195-206 | bounce exactly on a kick above 0.6, scale exactly on a weaker kick with bass above 0.6, pulse otherwise |
| BeatAnimationHooks.ChoiceIgnoresBeatStrength | client/src/hooks/useBeatAnimation.ts:203-206 | the combined beat strength plays no part in the choice |
| BeatAnimationHooks.OnBeatFrequency | client/src/hooks/useBeatAnimation.ts:186-209 | with dependencies `[isBeat, kickStrength, bassStrength, beatStrength, elementId]`, a changed dependency and a firing beat burst the preset chosen from the frame; otherwise library and last firing stay |
| BeatAnimationHooks.FrequencyHeldBeatTriggersOnce | client/src/hooks/useBeatAnimation.ts:186-209 | an unchanged frame triggers at most once, however long it lasts |
| BeatAnimationHooks.StrengthChangeRetriggers | client/src/hooks/useBeatAnimation.ts:186-209 | a beat frame whose kick strength changed runs the effect again, and it bursts exactly when 100 ms have passed since the last firing |
| Slug.LowerChar | client/src/components/BlogPostForm.tsx:50 | a capital letter becomes its small letter; any other character is unchanged |
| Slug.Lower | client/src/components/BlogPostForm.tsx:50 | lower-casing keeps the length and maps each character |
| Slug.LowerIdentity | client/src/components/BlogPostForm.tsx:50 | a string without capitals is its own lower case |
| Slug.TrimStart | client/src/components/BlogPostForm.tsx:51 | the result is a suffix after a run of whitespace, and does not start with whitespace |
| Slug.TrimEnd | client/src/components/BlogPostForm.tsx:51 | the result is a prefix before a run of whitespace, and does not end with whitespace |
| Slug.Trim | client/src/components/BlogPostForm.tsx:51 | the trimmed string neither starts nor ends with whitespace and holds only characters of the input |
| Slug.TrimIdentity | client/src/components/BlogPostForm.tsx:51 | a string with no whitespace at either end is its own trim |
| Slug.KeepSlugChars | client/src/components/BlogPostForm.tsx:52 | the filter never lengthens the string |
| Slug.KeepChars | client/src/components/BlogPostForm.tsx:52 | after `replace(/[^\w\s-]/g, "")` only word characters, whitespace and hyphens remain, all from the input |
| Slug.KeepIdentity | client/src/components/BlogPostForm.tsx:52 | a string of kept characters is unchanged |
| Slug.KeepDropsAll | client/src/components/BlogPostForm.tsx:52 | a string of only punctuation is removed entirely |
| Slug.KeepConcat | client/src/components/BlogPostForm.tsx:52 | the filter distributes over concatenation |
| Slug.DropRun | client/src/components/BlogPostForm.tsx:53-54 | the result is a suffix after a run of matching characters and does not start with one |
| Slug.CollapseRuns | client/src/components/BlogPostForm.tsx:53-54 | replacing runs never lengthens the string |
| Slug.CollapseChars | client/src/components/BlogPostForm.tsx:53-54 | each output character of a run replacement is the replacement or an original non-run character |
| Slug.CollapseNoAdjacent | client/src/components/BlogPostForm.tsx:53-54 | after replacing runs with a run character, no two run characters are adjacent |
| Slug.ReplaceEach | client/src/components/BlogPostForm.tsx:53 | the per-character reference: each run character is replaced and the rest kept |
| Slug.CollapseSingles | client/src/components/BlogPostForm.tsx:53 | on a string without adjacent run characters, collapsing runs is the per-character replacement |
| Slug.CollapseIdentity | client/src/components/BlogPostForm.tsx:54 | a string whose runs are already single replacement characters is unchanged |
| Slug.TrimBlank | client/src/components/BlogPostForm.tsx:51 | an all-whitespace string trims to empty |
| Slug.MakeSlug | client/src/components/BlogPostForm.tsx:47-57 | every slug derived from a title uses only `a-z`, digits, `_` and `-`, with no two hyphens in a row |
| Slug.SlugIdempotent | client/src/components/BlogPostForm.tsx:49-54 | deriving a slug from a slug gives the same slug |
| Slug.SlugFixpoint | client/src/components/BlogPostForm.tsx:49-54 | every well-formed slug is its own slug |
| Slug.SlugOfPlainTitle | client/src/components/BlogPostForm.tsx:49-54 | "My Awesome Blog Post" becomes "my-awesome-blog-post" |
| Slug.SlugOfPunctuatedTitle | client/src/components/BlogPostForm.tsx:49-54 | "Hello, World! @2024" becomes "hello-world-2024" |
| Slug.SpacedWords | client/src/components/BlogPostForm.tsx:49-54 | for a title whose lower case has single inner spaces and no punctuation, the slug is that lower case with spaces turned into hyphens |
| BlogPostForm.Open | client/src/components/BlogPostForm.tsx:24-36 | a new post starts with empty fields, draft status and no tags; an edited post's fields are loaded, with a missing excerpt as "", and so are its tags when given |
| BlogPostForm.SetTitle | client/src/components/BlogPostForm.tsx:47-57 | typing a title regenerates the slug only for a new post with a non-empty title; nothing else changes |
| BlogPostForm.NewPostSlugWellFormed | client/src/components/BlogPostForm.tsx:47-57 | after a title is typed into a new post, its slug is well formed |
| BlogPostForm.RetypeSlugAsTitle | client/src/components/BlogPostForm.tsx:47-57 | typing a new post's slug as its title leaves the slug as it is |
| BlogPostForm.FindTag | client/src/components/BlogPostForm.tsx:63-65 | finds the first known tag whose name matches case-insensitively, or none exactly when none matches |
| BlogPostForm.TagSlug | client/src/components/BlogPostForm.tsx:79 | a new tag's slug is no longer than its name |
| BlogPostForm.TagSlugShape | client/src/components/BlogPostForm.tsx:79 | a new tag's slug has no whitespace and no capitals |
| BlogPostForm.TagSlugOfWord | client/src/components/BlogPostForm.tsx:79 | the slug of a name without whitespace is its lower case |
| BlogPostForm.TagSlugKeepsLeadingSpace | client/src/components/BlogPostForm.tsx:79 | unlike the post slug, a tag slug is not trimmed: a leading space becomes a leading hyphen |
| BlogPostForm.NewTag | client/src/components/BlogPostForm.tsx:76-80 | a new tag takes the current time as its id and the input as its name |
| BlogPostForm.AddTag | client/src/components/BlogPostForm.tsx:59-85 | blank input changes nothing; otherwise the input is cleared and at most one tag is appended: the known tag when not yet selected, or a new tag |
| BlogPostForm.BlankInputIgnored | client/src/components/BlogPostForm.tsx:60 | whitespace-only input changes nothing |
| BlogPostForm.AddKnownKeepsIdsUnique | client/src/components/BlogPostForm.tsx:67-70 | adding a known tag keeps the selected ids distinct |
| BlogPostForm.AddKnownTwice | client/src/components/BlogPostForm.tsx:67-70 | adding the same known tag twice selects it once |
| BlogPostForm.RemoveTag | client/src/components/BlogPostForm.tsx:87-89 | removal never lengthens the selection |
| BlogPostForm.RemoveMembers | client/src/components/BlogPostForm.tsx:88 | a tag remains exactly when it was selected and has a different id |
| BlogPostForm.RemoveConcat | client/src/components/BlogPostForm.tsx:88 | the filter distributes over concatenation, so order is kept |
| BlogPostForm.RemoveAbsent | client/src/components/BlogPostForm.tsx:88 | removing an id that is not selected changes nothing |
| BlogPostForm.AddThenRemove | client/src/components/BlogPostForm.tsx:59-89 | removing a freshly created tag restores the earlier selection |
| BlogPostForm.Submit | client/src/components/BlogPostForm.tsx:91-107 | submission is refused exactly when title, slug or content is empty; otherwise a new post is created, or the edited post is updated under its id, with the form data |
| BlogPostForm.PunctuationTitleRejected | client/src/components/BlogPostForm.tsx:47-97 | a new post titled only with punctuation gets an empty slug and cannot be submitted |
| MarkdownEditor.Clamp | client/src/components/MarkdownEditor.tsx:36 | a `substring` argument is clamped into [0, length] |
| MarkdownEditor.Substring | client/src/components/MarkdownEditor.tsx:36-43 | in-range ordered arguments give the slice between them, and the result is never longer than the text |
| MarkdownEditor.SubstringSymmetric | client/src/components/MarkdownEditor.tsx:36 | `substring` swaps reversed arguments |
| MarkdownEditor.SubstringFrom | client/src/components/MarkdownEditor.tsx:43 | `substring(a)` is the suffix from a |
| MarkdownEditor.Selected | client/src/components/MarkdownEditor.tsx:36 | the wrapped text is the selection, or "text" when the selection is empty |
| MarkdownEditor.InsertMarkdown | client/src/components/MarkdownEditor.tsx:30-53 | the new value wraps the selection (or "text") in the markers, and the cursor sits right after the wrapped text |
| MarkdownEditor.InsertShape | client/src/components/MarkdownEditor.tsx:38-43 | the text before and after the selection is kept, and the length grows by the markers plus the wrapped text minus the selection |
| MarkdownEditor.CursorBeforeClosingMarker | client/src/components/MarkdownEditor.tsx:50-51 | the wrapped text ends at the cursor and the closing marker starts there |
| MarkdownEditor.UnwrapRestores | client/src/components/MarkdownEditor.tsx:30-53 | removing the inserted markers from the new value gives back the original value |
| MarkdownEditor.Markers | client/src/components/MarkdownEditor.tsx:85-130 | each toolbar button has a non-empty opening marker, and only heading and list have no closing marker |
| MarkdownEditor.Press | client/src/components/MarkdownEditor.tsx:83-133 | a toolbar button on an ordered selection wraps it, or the placeholder, in the button's markers and puts the cursor after it |
| MarkdownEditor.BoldOnEmpty | client/src/components/MarkdownEditor.tsx:85 | Bold on an empty editor gives "**text**" with the cursor before the closing marker |
| XmlEscape.ReplaceChar | server/_core/index.ts:13 | a global replace leaves a string without the character unchanged and never shortens it |
| XmlEscape.ReplaceConcat | server/_core/index.ts:13 | a global replace distributes over concatenation |
| XmlEscape.Escape | server/_core/index.ts:11-18 | escaping never shortens a string |
| XmlEscape.Entity | server/_core/index.ts:13-17 | the five special characters map to entities starting with `&`; others map to themselves |
| XmlEscape.EscapeOne | server/_core/index.ts:11-18 | applying the chain of five replaces to a single character gives its entity, so the `&` step runs first and no entity is escaped twice |
| XmlEscape.EscapeConcat | server/_core/index.ts:11-18 | escaping distributes over concatenation |
| XmlEscape.EscapeIsPerChar | server/_core/index.ts:11-18 | the chain of replaces equals the per-character reference that substitutes each entity |
| XmlEscape.EscapedChars | server/_core/index.ts:11-18 | the per-character escape holds no `<`, `>`, `"` or `'`, and keeps the length exactly when nothing was special |
| XmlEscape.EscapeRemovesSpecials | server/_core/index.ts:11-18 | the escaped string holds no `<`, `>`, `"` or `'` |
| XmlEscape.EscapeIdentity | server/_core/index.ts:11-18 | escaping changes a string, and changes its length, exactly when it holds a special character |
| XmlEscape.CleanUnchanged | server/_core/index.ts:11-18 | a string without special characters is its own escape |
| XmlEscape.UnescapeEntity | server/_core/index.ts:13-17 | decoding an entity followed by more text gives the character followed by the decoded rest |
| XmlEscape.RoundTrip | server/_core/index.ts:11-18 | decoding the escaped string gives back the original |
| XmlEscape.EscapeOpensEntities | server/_core/index.ts:11-18 | every `&` in the output opens one of the five entities |
| VideoCarousel.Init | client/src/components/VideoCarousel.tsx:25-29 | the carousel opens on index 0, auto-playing as the prop says |
| VideoCarousel.Succ | client/src/components/VideoCarousel.tsx:37 | `(i + 1) % n` stays in [0, n) for n > 0 and is NaN for an empty list |
| VideoCarousel.Pred | client/src/components/VideoCarousel.tsx:44 | `(i - 1 + n) % n` stays in [0, n) for n > 0 and is NaN for an empty list |
| VideoCarousel.StepsWrap | client/src/components/VideoCarousel.tsx:43-51 | next moves to the following video and wraps to the first; previous moves back and wraps to the last |
| VideoCarousel.PredSuccInverse | client/src/components/VideoCarousel.tsx:43-51 | previous undoes next and next undoes previous |
| VideoCarousel.SuccNIsAdd | client/src/components/VideoCarousel.tsx:36-38 | k auto-play ticks move the index by k modulo n |
| VideoCarousel.FullCycle | client/src/components/VideoCarousel.tsx:36-38 | n ticks return to the starting video |
| VideoCarousel.ThreeVideoCycles | client/src/components/VideoCarousel.tsx:43-51 | with three videos, next goes 0→1→2→0 and previous goes 0→2→1→0 |
| VideoCarousel.Previous | client/src/components/VideoCarousel.tsx:43-46 | previous steps the index back and stops auto-play |
| VideoCarousel.Next | client/src/components/VideoCarousel.tsx:48-51 | next steps the index on and stops auto-play |
| VideoCarousel.VideoAt | client/src/components/VideoCarousel.tsx:67 | `videos[index]` exists exactly for an index in [0, n) |
| VideoCarousel.ThumbnailClick | client/src/components/VideoCarousel.tsx:53-59 | a dot click jumps to that index and stops auto-play, and reports the video only when it exists |
| VideoCarousel.PlayClick | client/src/components/VideoCarousel.tsx:61-65 | play reports the current video when it exists and changes nothing |
| VideoCarousel.AutoTick | client/src/components/VideoCarousel.tsx:33-41 | an interval tick advances only while auto-playing over a non-empty list |
| VideoCarousel.Render | client/src/components/VideoCarousel.tsx:67-75 | the placeholder shows exactly when there is no current video; otherwise it is shown with the counter "index + 1 / n" |
| VideoCarousel.DotActive | client/src/components/VideoCarousel.tsx:180-191 | the indicator dot of video k is highlighted exactly when video k is the one shown, so none on a `NaN` index |
| VideoCarousel.ManualStopsAutoPlay | client/src/components/VideoCarousel.tsx:43-59 | every manual navigation stops auto-play, and ticks never change it |
| VideoCarousel.EmptyList | client/src/components/VideoCarousel.tsx:33-41 | with no videos, the placeholder shows and ticks change nothing |
| VideoCarousel.CounterInRange | client/src/components/VideoCarousel.tsx:196-198 | the shown counter lies between 1 and n |
| VideoCarousel.NavigationShowsVideo | client/src/components/VideoCarousel.tsx:43-75 | from a valid index over a non-empty list, next and previous always show a video |
| VideoCarousel.NaNSticks | client/src/components/VideoCarousel.tsx:43-51 | navigating over an empty list makes the index NaN, and it stays NaN, with the placeholder shown, even after videos arrive |
| AudioPlayer.NextTrack | client/src/components/AudioPlayer.tsx:120-123 | next moves to the following track, wrapping to the first, and plays |
| AudioPlayer.PreviousTrack | client/src/components/AudioPlayer.tsx:125-128 | previous moves to the preceding track, wrapping to the last, and plays |
| AudioPlayer.TrackStepsInverse | client/src/components/AudioPlayer.tsx:120-128 | previous undoes next and next undoes previous |
| AudioPlayer.Ended | client/src/components/AudioPlayer.tsx:87-90 | the end of a track leaves the player playing on a valid track |
| AudioPlayer.EndedIsNext | client/src/components/AudioPlayer.tsx:87-90 | ending a track is the same as pressing next |
| AudioPlayer.FiveNextsCycle | client/src/components/AudioPlayer.tsx:18-54 | five nexts return to the same track of the five-track list |
| AudioPlayer.TogglePlay | client/src/components/AudioPlayer.tsx:109-118 | play/pause flips the playing flag and nothing else |
| AudioPlayer.VolumeChange | client/src/components/AudioPlayer.tsx:137-140 | moving the slider sets the volume and unmutes |
| AudioPlayer.ToggleMute | client/src/components/AudioPlayer.tsx:142-144 | mute flips the muted flag and keeps the volume |
| AudioPlayer.EffectiveVolume | client/src/components/AudioPlayer.tsx:103-107 | the element's volume is 0 when muted and volume / 100 otherwise, and lies in [0, 1] for a slider value in [0, 100] |
| AudioPlayer.SliderValue | client/src/components/AudioPlayer.tsx:239 | the slider shows 0 when muted and the volume otherwise |
| AudioPlayer.MutedIcon | client/src/components/AudioPlayer.tsx:232-236 | the muted icon shows exactly when the element's volume is 0 |
| AudioPlayer.VolumeRestored | client/src/components/AudioPlayer.tsx:103-144 | a slider move after muting restores sound at the new volume, and muting twice restores the old volume |
| AudioPlayer.PadStart2 | client/src/components/AudioPlayer.tsx:150 | padding gives at least two characters, and keeps longer strings' length |
| AudioPlayer.NatToString | client/src/components/AudioPlayer.tsx:150 | a numeral is a non-empty string of digits, one digit long exactly below 10 and two exactly from 10 to 99 |
| AudioPlayer.IntToString | client/src/components/AudioPlayer.tsx:150 | `toString` of a number gives digits that read back as it, after a minus sign for negatives |
| AudioPlayer.Trunc | client/src/components/AudioPlayer.tsx:149 | truncation rounds toward zero, to within one below a positive value and one above a negative value |
| AudioPlayer.Minutes | client/src/components/AudioPlayer.tsx:148 | the minutes field is the number of whole minutes, rounded down: `m * 60 <= t < m * 60 + 60` |
| AudioPlayer.Seconds | client/src/components/AudioPlayer.tsx:149 | the seconds field is the remainder rounded down, in [0, 59] for a non-negative time and in [-60, 0] for a negative one |
| AudioPlayer.FormatTime | client/src/components/AudioPlayer.tsx:146-151 | NaN displays as "0:00" |
| AudioPlayer.ClockFields | client/src/components/AudioPlayer.tsx:148-149 | minutes are non-negative, seconds lie in [0, 59], and minutes * 60 + seconds is the whole seconds elapsed |
| AudioPlayer.FormatTimeReadsBack | client/src/components/AudioPlayer.tsx:146-151 | a non-negative time displays as digits, a colon and two digits, which read back to the whole seconds elapsed |
| AudioPlayer.FormatExample | client/src/components/AudioPlayer.tsx:146-151 | 125.5 seconds displays as "2:05" |

## Left out

- **Browser and React machinery:** `AnalyserNode`, `requestAnimationFrame`, `setTimeout` and `setInterval` are replaced by explicit inputs: the snapshot, the clock reading and an explicit timer queue. The same goes for the DOM (`applyAnimationToElement`, element lookups), when React schedules effects, and the audio element's events other than `ended`. A render of a hook is a call of its handler with the frame and the time; the dependency list of its beat effect is compared with the previous render's, so an effect re-runs only when a dependency changed.
- **Floating point:** strengths, progress and colours are exact reals. IEEE rounding, `Infinity` and `NaN` arithmetic are not modelled, except the `NaN`s that decide behaviour: the carousel index, the player's time, and the empty-band mean.
- **`Math.sin`:** a parameter `Sine`, any function into [-1, 1]. `Math.sqrt` is avoided by comparing squares; `BeatDetector.ExceedsIsThresholdTest` shows the two tests agree.
- BeatDetector.Detect: requires a snapshot of at least 111 bins. Smaller snapshots make the kick average 0/0 in the source, which these contracts do not cover.
- **`BeatDetector.getFrequencyBinIndex` and `getBPM`:** `getFrequencyBinIndex` is never called. `getBPM` only returns a field, which is the `bpm` of the frame.
- **Unused `fftSize`:** the mapper methods take an `fftSize` they ignore, so it is dropped.
- **Colour formatting:** the `hsl(...)` strings, `getRGBColor`, `getHSLColor`, `interpolateColor`, `mapBinToColor` and `getGradientString` format strings or parse hex. Only the numeric parts (hue, saturation, lightness, stop positions) are modelled.
- FrequencyColorMapper.ColorWithMagnitude: requires a non-zero `maxMagnitude`. Every caller passes 255, and a 0 would make the source divide by zero.
- AnimationCurves.Progress: takes durations of the positive type `Duration`. A zero duration gives `NaN` progress in the source.
- **Overlapping frame chains:** re-creating an element that is already running starts a second `requestAnimationFrame` chain in the source, and only the newest frame id is kept. The model keeps one run per element, so the orphaned chain that keeps updating the state is not modelled.
- **Timers firing at exactly `now`:** a timer fires once the clock reaches its due time. Ties between timers are broken by scheduling order.
- **Lower-casing:** `toLowerCase` is modelled for ASCII letters only; Unicode case mapping is not. Whitespace is JavaScript's full `\s` and `trim()` set (`Slug.IsSpace`).
- **`allTags` while loading:** an `allTags` that is still `undefined` behaves as an empty list, which is what `?.find` yields.
- **Server mutations:** `createBlogPost` and `updateBlogPost` are the `Create` and `Update` outcomes. Their failures, the `alert` and `onSuccess` are not modelled.
- **`onVideoSelect`:** the callback is an output, the video that would be reported. Hover state and date formatting are presentation.
- **Seeking and `timeupdate`:** these only copy numbers into state. Negative times and `Infinity` are not displayed by `formatTime` in practice, and `FormatTimeReadsBack` covers non-negative times.
- **Track list contents:** only the list's length of five matters to the logic, so titles and URLs are left out.
- **The rest of `server/_core/index.ts`:** the port search and the feed's XML template are I/O. Only `escapeXml` is modelled.
- BlogPostForm.RemoveTag: its own contract only bounds the length. What it keeps is stated by `RemoveMembers`, `RemoveConcat` and `RemoveAbsent`.
- Slug.KeepSlugChars: its own contract only bounds the length. What it keeps is stated by `KeepChars`, `KeepIdentity`, `KeepDropsAll` and `KeepConcat`.
- Slug.CollapseRuns: its own contract only bounds the length. What it produces is stated by `CollapseChars`, `CollapseNoAdjacent`, `CollapseSingles` and `CollapseIdentity`.
- BeatAnimationHooks.OnBeatSynchronized: compares the `elementIds` dependency by value. React compares arrays by reference, so a caller that builds a new array on every render re-runs the effect on every render, which the model does not show.

## Findings

| source | as written | input that shows it | evidently intended | confidence | as-written member | corrected member |
|---|---|---|---|---|---|---|
| client/src/lib/beatDetector.ts:153-178 | intervals are pushed only when the list is already non-empty, and the gap is measured after the onset check has set `lastBeatTime` to now, so it is always 0 | beats at t = 1000, 1600, 2200 and 2800 ms: the interval list stays empty and the tempo stays 120 | record `now - previous beat time` on every beat after the first, so steady 600 ms beats move the estimate towards 100 (`BeatDetector.DetectIntended`; `BeatDetector.Detect` keeps the written update, so the model reports 120 as the program does) | not executed | Bpm.SteadyBeatsAsWritten | Bpm.SteadyBeatsCorrected |
| client/src/lib/frequencyColorMapper.ts:191-248 | for fewer than 368 bins the Sub-Bass bin range is empty, so its energy is 0/0 = NaN; the total becomes NaN, `total > 0` fails, and every band's share is 0 | any 256-bin snapshot (the app's analyser size), e.g. all bins at 255 | an empty band contributes energy 0, so the distribution adds up to 100 | not executed | FrequencyColorMapper.LoudSnapshotWitness | FrequencyColorMapper.DistributionSpec |
