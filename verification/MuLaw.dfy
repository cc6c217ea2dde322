/** G.711 mu-law speech frames (native_client/internal/chat/audio.go). Bit
    operations on bytes and samples are written as the arithmetic they stand
    for. */
module MuLaw {

  import opened Prelude

  type Int16 = x: int | -32768 <= x < 32768

  const BIAS := 132
  const CLIP := 32635

  /** Clipped, biased magnitude. */
  function Biased(x: Int16): (s: nat)
    ensures BIAS <= s < 32768
  {
    (if Abs(x) > CLIP then CLIP else Abs(x)) + BIAS
  }

  /** The segment of a biased magnitude: its power of two, counted from 128. */
  function Segment(s: nat): (e: nat)
    requires 128 <= s < 32768
    ensures e < 8
  {
    if s < 256 then 0 else if s < 512 then 1 else if s < 1024 then 2 else if s < 2048 then 3
    else if s < 4096 then 4 else if s < 8192 then 5 else if s < 16384 then 6 else 7
  }

  lemma PowersUpTo15()
    ensures Pow2(0) == 1 && Pow2(1) == 2 && Pow2(2) == 4 && Pow2(3) == 8 && Pow2(4) == 16 && Pow2(5) == 32
    ensures Pow2(6) == 64 && Pow2(7) == 128 && Pow2(8) == 256 && Pow2(9) == 512 && Pow2(10) == 1024
    ensures Pow2(11) == 2048 && Pow2(12) == 4096 && Pow2(13) == 8192 && Pow2(14) == 16384 && Pow2(15) == 32768
  {}

  /** Segment e holds the magnitudes from 2^(e+7) up to 2^(e+8). */
  lemma SegmentBounds(s: nat, e: nat)
    requires 128 <= s < 32768 && e < 8
    ensures e == Segment(s) <==> Pow2(e + 7) <= s < Pow2(e + 8)
  {
    PowersUpTo15();
  }

  /** Which of the sixteen steps of its segment a magnitude lies in. */
  function Mantissa(s: nat): (m: nat)
    requires 128 <= s < 32768
    ensures m < 16
  {
    s / Pow2(Segment(s) + 3) % 16
  }

  function Pack(negative: bool, e: nat, m: nat): Byte
    requires e < 8 && m < 16
  {
    255 - ((if negative then 128 else 0) + 16 * e + m)
  }

  function Encode(x: Int16): Byte {
    Pack(x < 0, Segment(Biased(x)), Mantissa(Biased(x)))
  }

  lemma TopBit(s: nat, mask: nat)
    requires 0 < mask && s < 2 * mask
    ensures s / mask % 2 == 0 <==> s < mask
  {
    if s < mask {
      assert s / mask == 0;
    } else {
      assert s / mask == 1;
    }
  }

  /** The loop of linearToULaw halves the mask until it meets the top bit, so it
      stops in the magnitude's segment. */
  method FindSegment(s: int) returns (exponent: nat)
    requires 128 <= s < 32768
    ensures exponent == Segment(s)
  {
    PowersUpTo15();
    exponent := 7;
    var mask := 0x4000;
    TopBit(s, mask);
    while s / mask % 2 == 0 && exponent > 0
      invariant 0 <= exponent <= 7 && mask == Pow2(exponent + 7) && s < 2 * mask
      invariant s / mask % 2 == 0 <==> s < mask
    {
      mask := mask / 2;
      exponent := exponent - 1;
      TopBit(s, mask);
    }
    SegmentBounds(s, exponent);
  }

  /** linearToULaw. */
  method LinearToULaw(sample: Int16) returns (u: Byte)
    ensures u == Encode(sample)
  {
    var negative := false;
    var s: int := sample;
    if s < 0 {
      s := -s;
      negative := true;
    }
    if s > CLIP {
      s := CLIP;
    }
    s := s + BIAS;
    var exponent := FindSegment(s);
    var mantissa := s / Pow2(exponent + 3) % 16;
    u := Pack(negative, exponent, mantissa);
  }

  /** What a segment and step decode to: the middle of the step. */
  function Level(e: nat, m: nat): int
    requires e < 8 && m < 16
  {
    (8 * m + 132) * Pow2(e) - BIAS
  }

  function ULawToLinear(u: Byte): int {
    var v := 255 - u;
    var sample := Level(v / 16 % 8, v % 16);
    if v >= 128 then -sample else sample
  }

  lemma LevelBounds(e: nat, m: nat)
    requires e < 8 && m < 16
    ensures 0 <= Level(e, m) <= 32124
  {
    PowersUpTo15();
  }

  lemma DecodePacked(negative: bool, e: nat, m: nat)
    requires e < 8 && m < 16
    ensures ULawToLinear(Pack(negative, e, m)) == if negative then -Level(e, m) else Level(e, m)
  {
    var v := 255 - Pack(negative, e, m);
    assert v == (if negative then 128 else 0) + 16 * e + m;
    assert v / 16 % 8 == e && v % 16 == m;
  }

  /** Samples come back in the range of an int16. */
  lemma DecodedInRange(u: Byte)
    ensures -32124 <= ULawToLinear(u) <= 32124
  {
    LevelBounds((255 - u) / 16 % 8, (255 - u) % 16);
  }

  lemma PowerSteps(e: nat)
    ensures Pow2(e + 3) == 8 * Pow2(e) && Pow2(e + 7) == 16 * Pow2(e + 3) && Pow2(e + 8) == 32 * Pow2(e + 3)
  {
    assert Pow2(e + 3) == 2 * Pow2(e + 2) && Pow2(e + 2) == 2 * Pow2(e + 1);
    assert Pow2(e + 8) == 2 * Pow2(e + 7) && Pow2(e + 7) == 2 * Pow2(e + 6) && Pow2(e + 6) == 2 * Pow2(e + 5);
    assert Pow2(e + 5) == 2 * Pow2(e + 4) && Pow2(e + 4) == 2 * Pow2(e + 3);
  }

  lemma Quotient(s: nat, unit: nat, q: nat)
    requires unit > 0
    ensures q == s / unit <==> q * unit <= s < (q + 1) * unit
  {
    var r := s / unit;
    assert r * unit <= s < r * unit + unit;
    assert (q + 1) * unit == q * unit + unit && (r + 1) * unit == r * unit + unit;
    if q < r { ProductMonotone(q + 1, r, unit); }
    if r < q { ProductMonotone(r + 1, q, unit); }
  }

  lemma QuotientInSegment(s: nat, unit: nat)
    requires unit > 0 && 16 * unit <= s < 32 * unit
    ensures s / unit == 16 + s / unit % 16
  {
    var q := s / unit;
    Quotient(s, unit, q);
    if q < 16 { ProductMonotone(q + 1, 16, unit); }
    if q >= 32 { ProductMonotone(32, q, unit); }
  }

  lemma LevelMiddle(m: nat, p: nat)
    ensures 2 * ((8 * m + 132) * p) == (33 + 2 * m) * (8 * p)
    ensures (8 * m + 132) * p == (16 + m) * (8 * p) + 4 * p
  {}

  /** The step of s starts at (16 + m) units of its segment and is one unit
      wide; the level is its middle. */
  lemma StepOf(s: nat)
    requires 128 <= s < 32768
    ensures var unit := Pow2(Segment(s) + 3);
            && (16 + Mantissa(s)) * unit <= s < (17 + Mantissa(s)) * unit
            && 2 * (Level(Segment(s), Mantissa(s)) + BIAS) == (33 + 2 * Mantissa(s)) * unit
            && 16 * unit <= s
  {
    var e, m := Segment(s), Mantissa(s);
    SegmentBounds(s, e);
    PowerSteps(e);
    QuotientInSegment(s, Pow2(e + 3));
    Quotient(s, Pow2(e + 3), 16 + m);
    LevelMiddle(m, Pow2(e));
  }

  function Decoded(x: Int16): int {
    ULawToLinear(Encode(x))
  }

  predicate IsClose(y: int, x: int) {
    32 * Abs(y - x) <= Abs(x) + BIAS
  }

  /** The error is at most one part in 32 of the biased magnitude. */
  lemma ErrorBound(x: Int16)
    ensures IsClose(Decoded(x), x)
  {
    var s := Biased(x);
    StepOf(s);
    DecodePacked(x < 0, Segment(s), Mantissa(s));
    var unit := Pow2(Segment(s) + 3);
    StepError(s, Mantissa(s), unit, Level(Segment(s), Mantissa(s)) + BIAS);
    if Abs(x) > CLIP {
      ClippedLevel();
    }
  }

  lemma StepError(s: nat, m: nat, unit: nat, level: int)
    requires (16 + m) * unit <= s < (17 + m) * unit && 2 * level == (33 + 2 * m) * unit && 16 * unit <= s
    ensures 32 * Abs(level - s) <= s
  {
    var start := (16 + m) * unit;
    assert (17 + m) * unit == start + unit;
    assert (33 + 2 * m) * unit == 2 * start + unit;
  }

  lemma ClippedLevel()
    ensures Level(Segment(CLIP + BIAS), Mantissa(CLIP + BIAS)) == 32124
  {
    PowersUpTo15();
  }

  /** Levels grow with segment and step. */
  lemma LevelMonotone(e: nat, m: nat, f: nat, n: nat)
    requires e < 8 && m < 16 && f < 8 && n < 16 && 16 * e + m <= 16 * f + n
    ensures Level(e, m) <= Level(f, n)
  {
    var p, q := Pow2(e), Pow2(f);
    if e == f {
      ProductMonotone(8 * m + 132, 8 * n + 132, p);
    } else {
      SegmentsApart(e, f);
      ProductMonotone(8 * m + 132, 264, p);
      ProductMonotone(132, 8 * n + 132, q);
    }
  }

  lemma {:induction false} SegmentsApart(e: nat, f: nat)
    requires e < f
    ensures 2 * Pow2(e) <= Pow2(f)
  {
    if e + 1 < f {
      SegmentsApart(e, f - 1);
    }
  }

  lemma CodeMonotone(s: nat, t: nat)
    requires 128 <= s <= t < 32768
    ensures 16 * Segment(s) + Mantissa(s) <= 16 * Segment(t) + Mantissa(t)
  {
    if Segment(s) == Segment(t) {
      StepOf(s);
      StepOf(t);
      var m, n := Mantissa(s), Mantissa(t);
      if m > n {
        ProductMonotone(17 + n, 16 + m, Pow2(Segment(s) + 3));
      }
    }
  }

  lemma DecodedIsLevel(x: Int16)
    ensures var s := Biased(x);
            var l := Level(Segment(s), Mantissa(s));
            Decoded(x) == (if x < 0 then -l else l) && l >= 0
  {
    var s := Biased(x);
    DecodePacked(x < 0, Segment(s), Mantissa(s));
    LevelBounds(Segment(s), Mantissa(s));
  }

  /** Decoding after encoding preserves order. */
  lemma Monotone(x: Int16, y: Int16)
    requires x <= y
    ensures Decoded(x) <= Decoded(y)
  {
    DecodedIsLevel(x);
    DecodedIsLevel(y);
    var s, t := Biased(x), Biased(y);
    if 0 <= x {
      CodeMonotone(s, t);
      LevelMonotone(Segment(s), Mantissa(s), Segment(t), Mantissa(t));
    } else if y < 0 {
      CodeMonotone(t, s);
      LevelMonotone(Segment(t), Mantissa(t), Segment(s), Mantissa(s));
    }
  }

  /** A level lies in the segment and step it stands for. */
  lemma LevelEncodes(e: nat, m: nat)
    requires e < 8 && m < 16
    ensures var s := Level(e, m) + BIAS;
            128 <= s < 32768 && Segment(s) == e && Mantissa(s) == m
  {
    var p, unit, s := Pow2(e), Pow2(e + 3), Level(e, m) + BIAS;
    PowerSteps(e);
    LevelMiddle(m, p);
    LevelBounds(e, m);
    ProductMonotone(16, 16 + m, unit);
    ProductMonotone(16 + m, 31, unit);
    SegmentBounds(s, e);
    Quotient(s, unit, 16 + m);
    assert (17 + m) * unit == (16 + m) * unit + unit;
  }

  /** Encoding undoes decoding on every byte but 0x7F, negative zero, which
      comes back as 0xFF. */
  lemma EncodeUndoesDecode(u: Byte)
    ensures -32124 <= ULawToLinear(u) <= 32124
    ensures Encode(ULawToLinear(u)) == if u == 0x7F then 0xFF else u
  {
    DecodedInRange(u);
    var e, m := (255 - u) / 16 % 8, (255 - u) % 16;
    PackedParts(u);
    EncodedLevel(255 - u >= 128, e, m);
  }

  lemma PackedParts(u: Byte)
    ensures u == Pack(255 - u >= 128, (255 - u) / 16 % 8, (255 - u) % 16)
    ensures u == 0x7F <==> 255 - u >= 128 && (255 - u) / 16 % 8 == 0 && (255 - u) % 16 == 0
  {}

  /** Encoding a level gives its code back, except that there is no negative
      zero. */
  lemma EncodedLevel(negative: bool, e: nat, m: nat)
    requires e < 8 && m < 16
    ensures -32124 <= Level(e, m) <= 32124
    ensures Encode(if negative then -Level(e, m) else Level(e, m))
            == Pack(negative && !(e == 0 && m == 0), e, m)
  {
    LevelEncodes(e, m);
    LevelBounds(e, m);
    ZeroLevel(e, m);
  }

  lemma ZeroLevel(e: nat, m: nat)
    requires e < 8 && m < 16
    ensures Level(e, m) == 0 <==> e == 0 && m == 0
  {
    PowersUpTo15();
  }

  /** A second pass through the codec changes nothing more. */
  lemma Idempotent(x: Int16)
    ensures -32124 <= Decoded(x) <= 32124 && Decoded(Decoded(x)) == Decoded(x)
  {
    EncodeUndoesDecode(Encode(x));
    if Encode(x) == 0x7F {
      DecodePacked(true, 0, 0);
      DecodePacked(false, 0, 0);
      PowersUpTo15();
    }
  }

  // ---------- frames ----------

  method EncodePCMUFrame(pcm: seq<Int16>) returns (r: array<Byte>)
    ensures fresh(r)
    ensures r[..] == seq(|pcm|, i requires 0 <= i < |pcm| => Encode(pcm[i]))
  {
    r := new Byte[|pcm|];
    for i := 0 to |pcm|
      invariant forall k :: 0 <= k < i ==> r[k] == Encode(pcm[k])
    {
      r[i] := LinearToULaw(pcm[i]);
    }
  }

  method DecodePCMUFrame(u: seq<Byte>) returns (r: array<Int16>)
    ensures fresh(r) && r.Length == |u|
    ensures forall i :: 0 <= i < |u| ==> r[i] == ULawToLinear(u[i])
  {
    r := new Int16[|u|];
    for i := 0 to |u|
      invariant forall k :: 0 <= k < i ==> r[k] == ULawToLinear(u[k])
    {
      DecodedInRange(u[i]);
      r[i] := ULawToLinear(u[i]);
    }
  }

  /** A frame through encoder and decoder: same length, and every sample within
      the error bound. */
  method FrameRoundTrip(pcm: seq<Int16>) returns (r: seq<Int16>)
    ensures |r| == |pcm|
    ensures forall i :: 0 <= i < |pcm| ==> IsClose(r[i], pcm[i])
    ensures forall i, j :: 0 <= i < |pcm| && 0 <= j < |pcm| && pcm[i] <= pcm[j] ==> r[i] <= r[j]
  {
    var bytes := EncodePCMUFrame(pcm);
    var frame := DecodePCMUFrame(bytes[..]);
    r := frame[..];
    forall i | 0 <= i < |pcm|
      ensures r[i] == Decoded(pcm[i]) && IsClose(r[i], pcm[i])
    {
      assert bytes[..][i] == Encode(pcm[i]);
      ErrorBound(pcm[i]);
    }
    forall i, j | 0 <= i < |pcm| && 0 <= j < |pcm| && pcm[i] <= pcm[j]
      ensures r[i] <= r[j]
    {
      Monotone(pcm[i], pcm[j]);
    }
  }
}
