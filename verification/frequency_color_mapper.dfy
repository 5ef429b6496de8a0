/** `FrequencyColorMapper`: a fixed catalogue of eight contiguous bands
    covering [20, 22050) Hz, each with a colour and a hue, and the
    per-snapshot analyses built on it: band lookup, magnitude-dependent
    lightness, per-band mean energy, the dominant band and the percentage
    distribution of energy over the bands. */
module FrequencyColorMapper {
  import opened Numeric
  import opened Wrappers
  import opened Spectrum

  datatype Band = Band(name: string, minHz: nat, maxHz: nat, color: string, hue: nat)

  /** The catalogue, lowest band first. */
  const Bands: seq<Band> := [
    Band("Sub-Bass", 20, 60, "#ff0000", 0),
    Band("Bass", 60, 250, "#ff7700", 30),
    Band("Low-Mids", 250, 500, "#ffdd00", 60),
    Band("Mids", 500, 2000, "#ffff00", 60),
    Band("High-Mids", 2000, 4000, "#00ff00", 120),
    Band("Presence", 4000, 8000, "#00ffff", 180),
    Band("Brilliance", 8000, 16000, "#0099ff", 210),
    Band("Ultra-High", 16000, 22050, "#00ff99", 150)
  ]

  const LowestHz: nat := 20

  /** The band catalogue's fallback: the last entry. */
  const Fallback: nat := |Bands| - 1

  /** `minHz <= f < maxHz` */
  predicate Contains(b: Band, f: real) {
    b.minHz as real <= f < b.maxHz as real
  }

  predicate Audible(f: real) {
    LowestHz as real <= f < Nyquist as real
  }

  /** The catalogue has eight non-empty bands, each starting where the
      previous one ends, from 20 Hz up to the Nyquist frequency. */
  lemma CatalogueContiguous()
    ensures |Bands| == 8
    ensures Bands[0].minHz == LowestHz && Bands[|Bands| - 1].maxHz == Nyquist
    ensures forall k :: 0 <= k < |Bands| - 1 ==> Bands[k].maxHz == Bands[k + 1].minHz
    ensures forall k :: 0 <= k < |Bands| ==> Bands[k].minHz < Bands[k].maxHz
  {
  }

  /** An earlier band ends no later than a later band begins. */
  lemma CatalogueOrdered()
    ensures forall j, k :: 0 <= j < k < |Bands| ==> Bands[j].maxHz <= Bands[k].minHz
  {
  }

  /** Band names are distinct. */
  lemma NamesDistinct()
    ensures forall j, k :: 0 <= j < k < |Bands| ==> Bands[j].name != Bands[k].name
  {
  }

  /** Some band contains `f` exactly when `f` lies in [20, 22050). */
  lemma Coverage(f: real)
    ensures (exists k :: 0 <= k < |Bands| && Contains(Bands[k], f)) <==> Audible(f)
  {
    if Audible(f) {
      var k :=
        if f < 60.0 then 0 else if f < 250.0 then 1 else if f < 500.0 then 2
        else if f < 2000.0 then 3 else if f < 4000.0 then 4 else if f < 8000.0 then 5
        else if f < 16000.0 then 6 else 7;
      assert Contains(Bands[k], f);
    } else {
      forall k | 0 <= k < |Bands|
        ensures !Contains(Bands[k], f)
      {
        assert LowestHz <= Bands[k].minHz && Bands[k].maxHz <= Nyquist;
      }
    }
  }

  // ---------------------------------------------------------------------
  // Band lookup (`getFrequencyBand`)

  /** The catalogue scan from entry `k` on: the first band containing `f`,
      or the last band when none does. */
  function Scan(f: real, k: nat): (i: nat)
    requires k <= |Bands|
    ensures i < |Bands|
    ensures forall j :: k <= j < i ==> !Contains(Bands[j], f)
    ensures Contains(Bands[i], f)
            || (i == Fallback && forall j :: k <= j < |Bands| ==> !Contains(Bands[j], f))
    decreases |Bands| - k
  {
    if k == |Bands| then Fallback
    else if Contains(Bands[k], f) then k
    else Scan(f, k + 1)
  }

  /** Index of the band `getFrequencyBand(f)` returns. */
  function BandIndex(f: real): (i: nat)
    ensures i < |Bands|
    ensures Audible(f) ==> Contains(Bands[i], f)
    ensures !Audible(f) ==> i == Fallback
  {
    Coverage(f);
    Scan(f, 0)
  }

  function FrequencyBand(f: real): Band {
    Bands[BandIndex(f)]
  }

  /** Inside [20, 22050) the lookup's band is the only band containing `f`. */
  lemma BandIndexUnique(f: real, k: nat)
    requires Audible(f) && k < |Bands|
    ensures Contains(Bands[k], f) <==> k == BandIndex(f)
  {
    CatalogueOrdered();
    var i := BandIndex(f);
    assert k < i ==> Bands[k].maxHz <= Bands[i].minHz;
    assert i < k ==> Bands[i].maxHz <= Bands[k].minHz;
  }

  // ---------------------------------------------------------------------
  // Colours (`getColorWithMagnitude`)

  /** An `hsl(h, s%, l%)` colour. */
  datatype Hsl = Hsl(hue: nat, saturation: real, lightness: real)

  const BaseLightness: real := 30.0
  const MaxLightness: real := 80.0

  /** The band's hue with lightness `30 + min(1, magnitude / maxMagnitude) * 50`. */
  function ColorWithMagnitude(f: real, magnitude: real, maxMagnitude: real, saturation: real): (c: Hsl)
    requires maxMagnitude != 0.0
    ensures c.hue == FrequencyBand(f).hue && c.saturation == saturation
    ensures c.lightness <= MaxLightness
    ensures c.lightness >= BaseLightness <==> magnitude / maxMagnitude >= 0.0
    ensures magnitude / maxMagnitude >= 1.0 ==> c.lightness == MaxLightness
  {
    var normalized := Min(1.0, magnitude / maxMagnitude);
    Hsl(FrequencyBand(f).hue, saturation, BaseLightness + normalized * (MaxLightness - BaseLightness))
  }

  /** A louder bin is never drawn darker. */
  lemma LightnessMonotone(f: real, m1: real, m2: real, maxMagnitude: real, saturation: real)
    requires 0.0 < maxMagnitude && m1 <= m2
    ensures ColorWithMagnitude(f, m1, maxMagnitude, saturation).lightness
            <= ColorWithMagnitude(f, m2, maxMagnitude, saturation).lightness
  {
    var q := 1.0 / maxMagnitude;
    assert m1 / maxMagnitude == m1 * q && m2 / maxMagnitude == m2 * q;
    assert 0.0 < q;
    MulMono(q, m1, m2);
    assert m1 * q <= m2 * q;
  }

  /** One entry of `mapFrequencyDataToColors`. */
  datatype FrequencyData = FrequencyData(color: Hsl, magnitude: Magnitude, band: string)

  /** The colour of bin `i` of a snapshot of `len` bins, at full saturation. */
  function BinColor(i: nat, len: nat, magnitude: Magnitude): (c: Hsl)
    requires len > 0
    ensures BaseLightness <= c.lightness <= MaxLightness
  {
    ColorWithMagnitude(BinHz(i, len), magnitude as real, MaxMagnitude as real, 100.0)
  }

  /** `mapFrequencyDataToColors`: one entry per bin, in bin order. */
  method MapFrequencyDataToColors(data: Snapshot) returns (r: seq<FrequencyData>)
    ensures |r| == |data|
    ensures forall i :: 0 <= i < |r| ==>
              && r[i].magnitude == data[i]
              && r[i].band == FrequencyBand(BinHz(i, |data|)).name
              && r[i].color == BinColor(i, |data|, data[i])
    ensures forall i :: 0 <= i < |r| ==>
              BaseLightness <= r[i].color.lightness <= MaxLightness
              && r[i].color.hue == FrequencyBand(BinHz(i, |data|)).hue
  {
    r := [];
    var i := 0;
    while i < |data|
      invariant i <= |data| && |r| == i
      invariant forall j :: 0 <= j < i ==>
                  && r[j].magnitude == data[j]
                  && r[j].band == FrequencyBand(BinHz(j, |data|)).name
                  && r[j].color == BinColor(j, |data|, data[j])
    {
      var hz := BinHz(i, |data|);
      r := r + [FrequencyData(BinColor(i, |data|, data[i]), data[i], FrequencyBand(hz).name)];
      i := i + 1;
    }
  }

  // ---------------------------------------------------------------------
  // Colour stops (`getColorStops`)

  datatype ColorStop = ColorStop(position: real, color: string, band: string)

  /** One stop per band, in catalogue order, at positions k/8. */
  function ColorStops(): (r: seq<ColorStop>)
    ensures |r| == |Bands|
    ensures forall k :: 0 <= k < |r| ==> r[k].color == Bands[k].color && r[k].band == Bands[k].name
    ensures forall k :: 0 <= k < |r| ==> 0.0 <= r[k].position < 1.0
    ensures forall j, k :: 0 <= j < k < |r| ==> r[j].position < r[k].position
  {
    seq(|Bands|, k requires 0 <= k < |Bands| =>
      ColorStop(k as real / |Bands| as real, Bands[k].color, Bands[k].name))
  }

  // ---------------------------------------------------------------------
  // Dominant band (`getDominantBand`)

  /** `i` is the first bin holding the snapshot's largest magnitude. */
  predicate IsFirstMax(data: Snapshot, i: nat) {
    && i < |data|
    && (forall j :: 0 <= j < |data| ==> data[j] <= data[i])
    && (forall j :: 0 <= j < i ==> data[j] < data[i])
  }

  lemma FirstMaxUnique(data: Snapshot, i: nat, j: nat)
    requires IsFirstMax(data, i) && IsFirstMax(data, j)
    ensures i == j
  {
    assert data[j] <= data[i] && data[i] <= data[j];
    assert !(i < j) && !(j < i);
  }

  /** The band of the first loudest bin. An empty snapshot computes
      `0 / 0` Hz, which no band contains, so the fallback band results. */
  method DominantBand(data: Snapshot) returns (b: Band)
    ensures |data| == 0 ==> b == Bands[Fallback]
    ensures |data| > 0 ==> exists i :: IsFirstMax(data, i) && b == FrequencyBand(BinHz(i, |data|))
    ensures Silent(data) ==> b == Bands[Fallback]
  {
    var maxMagnitude := 0;
    var maxIndex := 0;
    var i := 0;
    while i < |data|
      invariant i <= |data|
      invariant maxIndex < |data| || (|data| == 0 && maxIndex == 0)
      invariant i > 0 ==> maxIndex < i && maxMagnitude == data[maxIndex]
      invariant i == 0 ==> maxIndex == 0 && maxMagnitude == 0
      invariant forall j :: 0 <= j < i ==> data[j] <= maxMagnitude
      invariant forall j :: 0 <= j < maxIndex ==> data[j] < maxMagnitude
      invariant maxMagnitude == 0 ==> maxIndex == 0
    {
      if data[i] > maxMagnitude {
        maxMagnitude := data[i];
        maxIndex := i;
      }
      i := i + 1;
    }
    if |data| == 0 {
      b := Bands[Fallback];
    } else {
      assert IsFirstMax(data, maxIndex);
      b := FrequencyBand(BinHz(maxIndex, |data|));
      if Silent(data) {
        assert maxIndex == 0;
        assert !Audible(BinHz(maxIndex, |data|));
      }
    }
  }

  // ---------------------------------------------------------------------
  // Band energy (`getBandEnergy`, `getAllBandEnergies`)

  /** `frequencyBands.find(b => b.name === name)`, from entry `k` on. */
  function FindFrom(name: string, k: nat): (r: Option<nat>)
    requires k <= |Bands|
    ensures r.Some? ==> k <= r.value < |Bands| && Bands[r.value].name == name
    ensures r.None? ==> forall j :: k <= j < |Bands| ==> Bands[j].name != name
    decreases |Bands| - k
  {
    if k == |Bands| then None
    else if Bands[k].name == name then Some(k)
    else FindFrom(name, k + 1)
  }

  function FindBand(name: string): (r: Option<nat>)
    ensures r.Some? ==> r.value < |Bands| && Bands[r.value].name == name
    ensures r.None? ==> forall j :: 0 <= j < |Bands| ==> Bands[j].name != name
  {
    FindFrom(name, 0)
  }

  /** Looking a band up by its own name finds it. */
  lemma FindBandOwnNames()
    ensures forall k :: 0 <= k < |Bands| ==> FindBand(Bands[k].name) == Some(k)
  {
    NamesDistinct();
  }

  /** First and one-past-last bin of band `k` in a snapshot of `len` bins. */
  function LowBin(k: nat, len: nat): nat
    requires k < |Bands|
  {
    BinIndex(Bands[k].minHz, len)
  }

  function HighBin(k: nat, len: nat): (hi: nat)
    requires k < |Bands|
    ensures LowBin(k, len) <= hi <= len
  {
    BinIndexMonotone(Bands[k].minHz, Bands[k].maxHz, len);
    BinIndexBounds(Bands[k].maxHz, len);
    BinIndex(Bands[k].maxHz, len)
  }

  /** The mean magnitude of a non-empty bin range lies in [0, 255], and
      is 0 for a silent snapshot. */
  lemma RangeMean(data: Snapshot, lo: nat, hi: nat)
    requires lo < hi <= |data|
    ensures 0.0 <= RangeSum(data, lo, hi) as real / (hi - lo) as real <= MaxMagnitude as real
    ensures Silent(data) ==> RangeSum(data, lo, hi) == 0
    ensures RangeSum(data, lo, hi) as real / (hi - lo) as real * (hi - lo) as real
            == RangeSum(data, lo, hi) as real
  {
    RangeSumBounds(data, lo, hi);
    var sum := RangeSum(data, lo, hi);
    var n := (hi - lo) as real;
    assert sum as real <= MaxMagnitude as real * n;
    if Silent(data) {
      RangeSumSilent(data, lo, hi);
    }
  }

  /** The source's `getBandEnergy`: `None` stands for the `NaN` of `0 / 0`
      when the band's bin range is empty. */
  function BandEnergyAsWritten(data: Snapshot, name: string): (r: Option<real>)
    ensures FindBand(name).None? ==> r == Some(0.0)
    ensures FindBand(name).Some? ==>
              (r.None? <==> LowBin(FindBand(name).value, |data|) == HighBin(FindBand(name).value, |data|))
  {
    match FindBand(name)
    case None => Some(0.0)
    case Some(k) =>
      var lo := LowBin(k, |data|);
      var hi := HighBin(k, |data|);
      if lo == hi then None else Some(RangeSum(data, lo, hi) as real / (hi - lo) as real)
  }

  /** The mean magnitude of bins `[lo, hi)`, 0 for an empty range. */
  function RangeAverage(data: Snapshot, lo: nat, hi: nat): (r: real)
    requires lo <= hi <= |data|
    ensures 0.0 <= r <= MaxMagnitude as real
    ensures lo < hi ==> r * (hi - lo) as real == RangeSum(data, lo, hi) as real
    ensures lo == hi ==> r == 0.0
    ensures Silent(data) ==> r == 0.0
  {
    if lo == hi then 0.0
    else
      RangeMean(data, lo, hi);
      RangeSum(data, lo, hi) as real / (hi - lo) as real
  }

  /** Mean magnitude of band `k`'s bins, 0 when the band has no bin. */
  function BandMean(data: Snapshot, k: nat): (r: real)
    requires k < |Bands|
    ensures 0.0 <= r <= MaxMagnitude as real
    ensures Silent(data) ==> r == 0.0
  {
    RangeAverage(data, LowBin(k, |data|), HighBin(k, |data|))
  }

  /** `getBandEnergy` with an empty bin range giving 0: the band's mean
      magnitude, and 0 for an unknown name. */
  function BandEnergy(data: Snapshot, name: string): (r: real)
    ensures 0.0 <= r <= MaxMagnitude as real
    ensures FindBand(name).None? ==> r == 0.0
    ensures FindBand(name).Some? ==> r == BandMean(data, FindBand(name).value)
  {
    match FindBand(name)
    case None => 0.0
    case Some(k) => BandMean(data, k)
  }

  /** Where the source's value is a number, it is the corrected one. */
  lemma BandEnergyAgrees(data: Snapshot, name: string)
    ensures BandEnergyAsWritten(data, name).Some? ==>
              BandEnergyAsWritten(data, name).value == BandEnergy(data, name)
  {
  }

  /** `getAllBandEnergies`, one entry per band in catalogue order. */
  function AllBandEnergies(data: Snapshot): (r: seq<real>)
    ensures |r| == |Bands|
    ensures forall k :: 0 <= k < |r| ==> r[k] == BandMean(data, k)
  {
    FindBandOwnNames();
    seq(|Bands|, k requires 0 <= k < |Bands| => BandEnergy(data, Bands[k].name))
  }

  function AllBandEnergiesAsWritten(data: Snapshot): (r: seq<Option<real>>)
    ensures |r| == |Bands|
    ensures forall k :: 0 <= k < |r| ==> (r[k].None? <==> LowBin(k, |data|) == HighBin(k, |data|))
  {
    FindBandOwnNames();
    seq(|Bands|, k requires 0 <= k < |Bands| => BandEnergyAsWritten(data, Bands[k].name))
  }

  // ---------------------------------------------------------------------
  // Distribution (`analyzeFrequencyDistribution`)

  /** Each value as a percentage of `total`. */
  function Shares(es: seq<real>, total: real): (r: seq<real>)
    requires total > 0.0
    ensures |r| == |es|
    ensures forall k :: 0 <= k < |r| ==> r[k] == es[k] / total * 100.0
  {
    if |es| == 0 then [] else Shares(es[..|es| - 1], total) + [es[|es| - 1] / total * 100.0]
  }

  lemma {:induction false} SharesSum(es: seq<real>, total: real)
    requires total > 0.0
    ensures SumR(Shares(es, total)) == SumR(es) / total * 100.0
  {
    if |es| > 0 {
      var init := es[..|es| - 1];
      var last := es[|es| - 1];
      SharesSum(init, total);
      var r := Shares(es, total);
      assert r == Shares(init, total) + [last / total * 100.0];
      assert r[..|r| - 1] == Shares(init, total);
      ShareAdd(SumR(init), last, total);
    }
  }

  lemma ShareAdd(a: real, b: real, t: real)
    requires t > 0.0
    ensures a / t * 100.0 + b / t * 100.0 == (a + b) / t * 100.0
  {
    var q := 1.0 / t;
    assert a / t == a * q && b / t == b * q && (a + b) / t == (a + b) * q;
  }

  predicate NonNegative(es: seq<real>) {
    forall k :: 0 <= k < |es| ==> es[k] >= 0.0
  }

  /** A non-negative entry is at most the sum of a non-negative sequence. */
  lemma {:induction false} EntryBelowSum(es: seq<real>, k: nat)
    requires NonNegative(es) && k < |es|
    ensures 0.0 <= es[k] <= SumR(es)
  {
    var init := es[..|es| - 1];
    assert NonNegative(init);
    SumNonNegative(init);
    if k < |es| - 1 {
      assert init[k] == es[k];
      EntryBelowSum(init, k);
    }
  }

  lemma {:induction false} SumNonNegative(es: seq<real>)
    requires NonNegative(es)
    ensures SumR(es) >= 0.0
  {
    if |es| > 0 {
      assert NonNegative(es[..|es| - 1]);
      SumNonNegative(es[..|es| - 1]);
    }
  }

  /** `(energy / total) * 100` for each entry when the total is positive,
      else all zeros. */
  function Percentages(es: seq<real>): (r: seq<real>)
    ensures |r| == |es|
    ensures SumR(es) > 0.0 ==> forall k | 0 <= k < |r| :: r[k] == es[k] / SumR(es) * 100.0
    ensures SumR(es) <= 0.0 ==> forall k | 0 <= k < |r| :: r[k] == 0.0
  {
    var total := SumR(es);
    if total > 0.0 then Shares(es, total) else seq(|es|, _ => 0.0)
  }

  /** With a positive total the percentages sum to 100. */
  lemma PercentagesSumTo100(es: seq<real>)
    requires SumR(es) > 0.0
    ensures SumR(Percentages(es)) == 100.0
  {
    var total := SumR(es);
    SharesSum(es, total);
    ShareBounds(total, total);
  }

  /** Each percentage lies in [0, 100] and is proportional to its entry;
      without a positive total every percentage is 0. */
  lemma PercentageOf(es: seq<real>, k: nat)
    requires NonNegative(es) && k < |es|
    ensures 0.0 <= Percentages(es)[k] <= 100.0
    ensures SumR(es) > 0.0 ==> Percentages(es)[k] == es[k] / SumR(es) * 100.0
    ensures SumR(es) <= 0.0 ==> Percentages(es)[k] == 0.0
  {
    var total := SumR(es);
    if total > 0.0 {
      EntryBelowSum(es, k);
      ShareBounds(es[k], total);
    }
  }

  lemma ShareBounds(e: real, total: real)
    requires 0.0 <= e <= total && total > 0.0
    ensures 0.0 <= e / total * 100.0 <= 100.0
    ensures e == total ==> e / total * 100.0 == 100.0
  {
    assert e / total <= 1.0;
  }

  /** `analyzeFrequencyDistribution` with every band energy a number. */
  function Distribution(data: Snapshot): (r: seq<real>)
    ensures |r| == |Bands|
  {
    Percentages(AllBandEnergies(data))
  }

  /** The distribution sums to 100 whenever any band has energy, each share
      is in [0, 100] and proportional to the band's energy, and a snapshot
      with no band energy gives all zeros. */
  lemma DistributionSpec(data: Snapshot)
    ensures var es := AllBandEnergies(data);
            var r := Distribution(data);
            && (SumR(es) > 0.0 ==> SumR(r) == 100.0)
            && (forall k :: 0 <= k < |r| ==> 0.0 <= r[k] <= 100.0)
            && (forall k :: 0 <= k < |r| && SumR(es) > 0.0 ==> r[k] == es[k] / SumR(es) * 100.0)
            && (SumR(es) <= 0.0 ==> forall k :: 0 <= k < |r| ==> r[k] == 0.0)
  {
    var es := AllBandEnergies(data);
    assert NonNegative(es);
    if SumR(es) > 0.0 {
      PercentagesSumTo100(es);
    }
    forall k | 0 <= k < |es|
      ensures var r := Percentages(es);
              && 0.0 <= r[k] <= 100.0
              && (SumR(es) > 0.0 ==> r[k] == es[k] / SumR(es) * 100.0)
              && (SumR(es) <= 0.0 ==> r[k] == 0.0)
    {
      PercentageOf(es, k);
    }
  }

  predicate AnyNaN(es: seq<Option<real>>) {
    exists k :: 0 <= k < |es| && es[k].None?
  }

  /** The source's `analyzeFrequencyDistribution`: a `NaN` energy makes
      the total `NaN`, `total > 0` fails and every band gets 0. */
  function DistributionAsWritten(data: Snapshot): (r: seq<real>)
    ensures |r| == |Bands|
  {
    var es := AllBandEnergiesAsWritten(data);
    if AnyNaN(es) then seq(|es|, _ => 0.0)
    else
      Percentages(seq(|es|, k requires 0 <= k < |es| => es[k].value))
  }

  lemma MulMonoNat(a: nat, b: nat, c: nat)
    requires a <= b
    ensures a * c <= b * c
  {
  }

  /** A band whose edges are at least one bin width apart has a bin. */
  lemma BinIndexGap(lo: nat, hi: nat, len: nat)
    requires lo <= hi && (hi - lo) * len >= Nyquist
    ensures BinIndex(lo, len) < BinIndex(hi, len)
  {
    assert hi * len == lo * len + (hi - lo) * len;
  }

  /** From 368 bins on every band covers at least one bin. */
  lemma RangesNonEmpty(len: nat, k: nat)
    requires len >= 368 && k < |Bands|
    ensures LowBin(k, len) < HighBin(k, len)
  {
    var width := Bands[k].maxHz - Bands[k].minHz;
    if k == 0 && len < 552 {
      assert 20 * len < Nyquist && 60 * len >= Nyquist;
    } else if k == 0 {
      assert width * len == 40 * len;
      BinIndexGap(Bands[k].minHz, Bands[k].maxHz, len);
    } else {
      assert width >= 190;
      MulMonoNat(190, width, len);
      BinIndexGap(Bands[k].minHz, Bands[k].maxHz, len);
    }
  }

  /** With at least 368 bins the source's distribution is the corrected one. */
  lemma LargeSnapshotsAgree(data: Snapshot)
    requires |data| >= 368
    ensures DistributionAsWritten(data) == Distribution(data)
  {
    var es := AllBandEnergiesAsWritten(data);
    FindBandOwnNames();
    forall k | 0 <= k < |es|
      ensures es[k].Some? && es[k].value == AllBandEnergies(data)[k]
    {
      RangesNonEmpty(|data|, k);
      BandEnergyAgrees(data, Bands[k].name);
    }
    var values := seq(|es|, k requires 0 <= k < |es| => es[k].value);
    assert values == AllBandEnergies(data);
  }

  /** Below 368 bins the Sub-Bass band has no bin, its energy is `NaN`,
      and the source reports 0 % for every band. */
  lemma SmallSnapshotsLoseDistribution(data: Snapshot)
    requires 0 < |data| < 368
    ensures forall k :: 0 <= k < |Bands| ==> DistributionAsWritten(data)[k] == 0.0
  {
    assert 60 * |data| < Nyquist;
    assert AllBandEnergiesAsWritten(data)[0].None?;
  }

  /** 256 bins at full level, the analyser's setting in the visualiser:
      the source reports all zeros, the corrected distribution sums to 100. */
  lemma LoudSnapshotWitness()
    ensures var data: Snapshot := seq(256, _ => 255);
            && (forall k :: 0 <= k < |Bands| ==> DistributionAsWritten(data)[k] == 0.0)
            && SumR(Distribution(data)) == 100.0
  {
    var data: Snapshot := seq(256, _ => 255);
    SmallSnapshotsLoseDistribution(data);
    var es := AllBandEnergies(data);
    var lo := LowBin(Fallback, 256);
    var hi := HighBin(Fallback, 256);
    assert lo == 185 && hi == 256;
    RangeSumBounds(data, lo, hi - 1);
    assert RangeSum(data, lo, hi) >= 255;
    assert es[Fallback] > 0.0;
    var init := es[..Fallback];
    assert NonNegative(init);
    SumNonNegative(init);
    assert SumR(es) == SumR(init) + es[Fallback];
    PercentagesSumTo100(es);
  }
}
