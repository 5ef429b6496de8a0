/** The audio player's track navigation, volume handling and time
    display. The audio element is replaced by the state it reports (the
    current time and duration) and the volume it is given. */
module AudioPlayer {
  import opened Numeric

  /** The fixed playlist has five mixes. */
  const TrackCount: int := 5

  const InitialVolume: int := 70

  /** A time reading of the audio element: a number or `NaN`. */
  datatype Time = NaN | Finite(seconds: real)

  datatype Player = Player(track: int, playing: bool, currentTime: Time, duration: Time, volume: int, muted: bool)

  /** The player as mounted: the first track, paused, at volume 70. */
  const Mounted: Player := Player(0, false, Finite(0.0), Finite(0.0), InitialVolume, false)

  predicate ValidTrack(p: Player) {
    0 <= p.track < TrackCount
  }

  /** `handleNext`: the following track, wrapping to the first, and
      playing. */
  function NextTrack(p: Player): (r: Player)
    ensures r.playing && r.volume == p.volume && r.muted == p.muted
    ensures ValidTrack(p) ==> ValidTrack(r)
    ensures ValidTrack(p) ==> r.track == (if p.track == TrackCount - 1 then 0 else p.track + 1)
  {
    NextWrap(p.track);
    p.(track := JsRem(p.track + 1, TrackCount), playing := true)
  }

  /** `handlePrevious`: the preceding track, wrapping to the last, and
      playing. */
  function PreviousTrack(p: Player): (r: Player)
    ensures r.playing && r.volume == p.volume && r.muted == p.muted
    ensures ValidTrack(p) ==> ValidTrack(r)
    ensures ValidTrack(p) ==> r.track == (if p.track == 0 then TrackCount - 1 else p.track - 1)
  {
    PreviousWrap(p.track);
    p.(track := JsRem(p.track - 1 + TrackCount, TrackCount), playing := true)
  }

  lemma NextWrap(i: int)
    ensures 0 <= i < TrackCount ==> JsRem(i + 1, TrackCount) == (if i == TrackCount - 1 then 0 else i + 1)
  {
    if i == TrackCount - 1 {
      ModUnique(i + 1, TrackCount, 1, 0);
    } else if 0 <= i < TrackCount - 1 {
      ModUnique(i + 1, TrackCount, 0, i + 1);
    }
  }

  lemma PreviousWrap(i: int)
    ensures 0 <= i < TrackCount ==> JsRem(i - 1 + TrackCount, TrackCount) == (if i == 0 then TrackCount - 1 else i - 1)
  {
    if i == 0 {
      ModUnique(TrackCount - 1, TrackCount, 0, TrackCount - 1);
    } else if 0 < i < TrackCount {
      ModUnique(i - 1 + TrackCount, TrackCount, 1, i - 1);
    }
  }

  /** Previous undoes next and next undoes previous. */
  lemma TrackStepsInverse(p: Player)
    requires ValidTrack(p)
    ensures PreviousTrack(NextTrack(p)).track == p.track
    ensures NextTrack(PreviousTrack(p)).track == p.track
  {
  }

  /** The `ended` event: playback stops, then the next track starts, and
      the two updates are applied together. */
  function Ended(p: Player): (r: Player)
    ensures r.playing
    ensures ValidTrack(p) ==> ValidTrack(r)
  {
    NextTrack(p.(playing := false))
  }

  /** When a track ends the player moves on exactly as the next button
      would. */
  lemma EndedIsNext(p: Player)
    ensures Ended(p) == NextTrack(p)
  {
  }

  /** Five tracks in a row bring the player back to the track it was on. */
  lemma FiveNextsCycle(p: Player)
    requires ValidTrack(p)
    ensures NextTrack(NextTrack(NextTrack(NextTrack(NextTrack(p))))).track == p.track
  {
  }

  /** `togglePlay` with the audio element mounted. */
  function TogglePlay(p: Player): (r: Player)
    ensures r.playing != p.playing && r.track == p.track && r.volume == p.volume && r.muted == p.muted
  {
    p.(playing := !p.playing)
  }

  /** `handleVolumeChange`: the slider's value becomes the volume, and the
      player is unmuted. */
  function VolumeChange(p: Player, v: int): (r: Player)
    ensures r.volume == v && !r.muted
    ensures r.track == p.track && r.playing == p.playing
  {
    p.(volume := v, muted := false)
  }

  /** `toggleMute`: the volume itself is remembered. */
  function ToggleMute(p: Player): (r: Player)
    ensures r.muted != p.muted && r.volume == p.volume
  {
    p.(muted := !p.muted)
  }

  /** The volume handed to the audio element: 0 when muted, otherwise the
      slider's percentage as a fraction. */
  function EffectiveVolume(p: Player): (v: real)
    ensures p.muted ==> v == 0.0
    ensures !p.muted ==> v * 100.0 == p.volume as real
    ensures 0 <= p.volume <= 100 ==> 0.0 <= v <= 1.0
  {
    if p.muted then 0.0 else p.volume as real / 100.0
  }

  /** The value the volume slider shows. */
  function SliderValue(p: Player): (v: int)
    ensures p.muted ==> v == 0
    ensures !p.muted ==> v == p.volume
  {
    if p.muted then 0 else p.volume
  }

  /** The muted icon shows exactly when nothing is heard. */
  predicate MutedIcon(p: Player): (b: bool)
    ensures b <==> EffectiveVolume(p) == 0.0
  {
    p.muted || p.volume == 0
  }

  /** Moving the slider while muted brings the sound back at the new
      volume; muting and unmuting restores the old volume. */
  lemma VolumeRestored(p: Player, v: int)
    ensures EffectiveVolume(VolumeChange(ToggleMute(p), v)) * 100.0 == v as real
    ensures EffectiveVolume(ToggleMute(ToggleMute(p))) == EffectiveVolume(p)
  {
  }

  // ---------------------------------------------------------------------
  // Time display

  predicate IsDigit(c: char) { '0' <= c <= '9' }

  predicate AllDigits(s: string) {
    forall i | 0 <= i < |s| :: IsDigit(s[i])
  }

  function DigitChar(d: int): (c: char)
    requires 0 <= d < 10
    ensures IsDigit(c) && c as int - '0' as int == d
  {
    ('0' as int + d) as char
  }

  /** The decimal numeral of a natural number. */
  function NatToString(n: nat): (s: string)
    ensures |s| > 0 && AllDigits(s)
    ensures n < 10 <==> |s| == 1
    ensures 10 <= n < 100 <==> |s| == 2
    decreases n
  {
    if n < 10 then [DigitChar(n)] else NatToString(n / 10) + [DigitChar(n % 10)]
  }

  /** `toString` of an integer: a minus sign for negatives, then the
      digits of the magnitude, which read back as it. */
  function IntToString(x: int): (s: string)
    ensures x >= 0 ==> AllDigits(s) && ParseNat(s) == x
    ensures x < 0 ==> |s| > 1 && s[0] == '-' && AllDigits(s[1..]) && ParseNat(s[1..]) == -x
  {
    if x < 0 then
      ParseNatToString(-x);
      assert ("-" + NatToString(-x))[1..] == NatToString(-x);
      "-" + NatToString(-x)
    else
      ParseNatToString(x);
      NatToString(x)
  }

  /** Reading a numeral back. */
  function ParseNat(s: string): nat
    requires AllDigits(s)
    decreases |s|
  {
    if |s| == 0 then 0 else ParseNat(s[..|s| - 1]) * 10 + (s[|s| - 1] as int - '0' as int)
  }

  /** Numerals read back as the number they were made from. */
  lemma {:induction false} ParseNatToString(n: nat)
    ensures ParseNat(NatToString(n)) == n
    decreases n
  {
    if n >= 10 {
      var s := NatToString(n);
      assert s[..|s| - 1] == NatToString(n / 10);
      ParseNatToString(n / 10);
    }
  }

  /** A leading zero counts for nothing. */
  lemma ParseLeadingZero(s: string)
    requires AllDigits(s)
    ensures AllDigits("0" + s) && ParseNat("0" + s) == ParseNat(s)
    decreases |s|
  {
    if |s| > 0 {
      assert ("0" + s)[..|s|] == "0" + s[..|s| - 1];
      ParseLeadingZero(s[..|s| - 1]);
    }
  }

  /** `padStart(2, "0")` */
  function PadStart2(s: string): (r: string)
    ensures |r| == if |s| >= 2 then |s| else 2
  {
    if |s| >= 2 then s else if |s| == 1 then "0" + s else "00"
  }

  /** `Math.trunc`: rounding toward zero. */
  function Trunc(x: real): (r: int)
    ensures x >= 0.0 ==> r as real <= x < r as real + 1.0
    ensures x < 0.0 ==> r as real - 1.0 < x <= r as real
  {
    if x >= 0.0 then x.Floor else -((-x).Floor)
  }

  /** `t % 60` on numbers: the remainder takes the sign of the dividend. */
  function Rem60(t: real): real {
    t - 60.0 * Trunc(t / 60.0) as real
  }

  /** `Math.floor(time / 60)`: the whole minutes, rounded down. */
  function Minutes(t: real): (m: int)
    ensures m as real * 60.0 <= t < m as real * 60.0 + 60.0
  {
    (t / 60.0).Floor
  }

  /** `Math.floor(time % 60)`: the whole seconds past the minute, with the
      remainder's sign that of the time. */
  function Seconds(t: real): (sec: int)
    ensures sec as real <= Rem60(t) < sec as real + 1.0
    ensures t >= 0.0 ==> 0 <= sec <= 59
    ensures t < 0.0 ==> -60 <= sec <= 0
  {
    Rem60(t).Floor
  }

  /** `formatTime`: `NaN` reads "0:00"; otherwise whole minutes, a colon
      and the seconds padded to two digits. */
  function FormatTime(t: Time): (s: string)
    ensures t.NaN? ==> s == "0:00"
  {
    match t
    case NaN => "0:00"
    case Finite(x) => IntToString(Minutes(x)) + ":" + PadStart2(IntToString(Seconds(x)))
  }

  lemma FloorShift(k: int, r: real)
    ensures (k as real + r).Floor == k + r.Floor
  {
  }

  /** For a non-negative time the seconds field lies in [0, 59] and the
      two fields together count the whole seconds elapsed. */
  lemma ClockFields(t: real)
    requires t >= 0.0
    ensures Minutes(t) >= 0 && 0 <= Seconds(t) <= 59
    ensures Minutes(t) * 60 + Seconds(t) == t.Floor
  {
    var m := Minutes(t);
    assert m as real <= t / 60.0 < m as real + 1.0;
    assert 60.0 * (m as real) <= t < 60.0 * (m as real) + 60.0;
    assert Rem60(t) == t - 60.0 * m as real;
    FloorShift(m * 60, Rem60(t));
    assert t == (m * 60) as real + Rem60(t);
  }

  /** The two-digit seconds field reads back as the seconds. */
  lemma SecondsField(sec: int)
    requires 0 <= sec <= 59
    ensures var f := PadStart2(IntToString(sec));
      |f| == 2 && AllDigits(f) && ParseNat(f) == sec
  {
    ParseNatToString(sec);
    if sec < 10 {
      ParseLeadingZero(NatToString(sec));
    }
  }

  /** For a non-negative time the display is a numeral, a colon and two
      digits, and reading the two numerals back gives the whole seconds
      elapsed. */
  lemma FormatTimeReadsBack(t: real)
    requires t >= 0.0
    ensures var s := FormatTime(Finite(t));
      && |s| >= 4 && s[|s| - 3] == ':'
      && AllDigits(s[..|s| - 3]) && AllDigits(s[|s| - 2..])
      && ParseNat(s[|s| - 2..]) <= 59
      && ParseNat(s[..|s| - 3]) * 60 + ParseNat(s[|s| - 2..]) == t.Floor
  {
    ClockFields(t);
    var m, sec := Minutes(t), Seconds(t);
    var mm, ss := NatToString(m), PadStart2(IntToString(sec));
    SecondsField(sec);
    ParseNatToString(m);
    var s := FormatTime(Finite(t));
    assert s == mm + ":" + ss;
    assert s[..|s| - 3] == mm;
    assert s[|s| - 2..] == ss;
  }

  /** Two minutes and five and a half seconds read "2:05". */
  lemma FormatExample()
    ensures FormatTime(Finite(125.5)) == "2:05"
  {
    ClockFields(125.5);
    assert Minutes(125.5) == 2;
    assert Seconds(125.5) == 5;
  }
}
