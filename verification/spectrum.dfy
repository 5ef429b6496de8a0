/** The frequency snapshot shared by the beat detector and the colour
    mapper: one 8-bit magnitude per bin, bins spread linearly over
    [0, 22050) Hz (the Nyquist frequency of a 44.1 kHz source). */
module Spectrum {

  /** One `Uint8Array` element. */
  type Magnitude = m: int | 0 <= m <= 255

  type Snapshot = seq<Magnitude>

  const Nyquist: nat := 22050

  const MaxMagnitude: nat := 255

  /** `Math.floor((hz / 22050) * len)`, computed exactly on naturals. */
  function BinIndex(hz: nat, len: nat): nat {
    hz * len / Nyquist
  }

  /** Bins of a frequency below the Nyquist frequency lie inside the snapshot. */
  lemma BinIndexBounds(hz: nat, len: nat)
    requires hz <= Nyquist
    ensures BinIndex(hz, len) <= len
  {
    assert hz * len <= Nyquist * len;
  }

  /** A higher frequency never maps to a lower bin. */
  lemma BinIndexMonotone(lo: nat, hi: nat, len: nat)
    requires lo <= hi
    ensures BinIndex(lo, len) <= BinIndex(hi, len)
  {
    assert lo * len <= hi * len;
  }

  /** The centre frequency the source gives bin `i`: `(i / len) * 22050`. */
  function BinHz(i: nat, len: nat): real
    requires len > 0
  {
    (i as real / len as real) * Nyquist as real
  }

  /** Sum of the magnitudes of bins `lo .. hi-1`. */
  function RangeSum(data: Snapshot, lo: nat, hi: nat): int
    requires lo <= hi <= |data|
    decreases hi - lo
  {
    if lo == hi then 0 else RangeSum(data, lo, hi - 1) + data[hi - 1]
  }

  lemma {:induction false} RangeSumBounds(data: Snapshot, lo: nat, hi: nat)
    requires lo <= hi <= |data|
    ensures 0 <= RangeSum(data, lo, hi) <= MaxMagnitude * (hi - lo)
    decreases hi - lo
  {
    if lo < hi {
      RangeSumBounds(data, lo, hi - 1);
    }
  }

  predicate Silent(data: Snapshot) {
    forall i :: 0 <= i < |data| ==> data[i] == 0
  }

  lemma {:induction false} RangeSumSilent(data: Snapshot, lo: nat, hi: nat)
    requires lo <= hi <= |data|
    requires Silent(data)
    ensures RangeSum(data, lo, hi) == 0
    decreases hi - lo
  {
    if lo < hi {
      RangeSumSilent(data, lo, hi - 1);
    }
  }
}
