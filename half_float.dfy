/**
 * The half-precision codec of Pr3Tools/HalfFloat.cs, on bit patterns.
 *
 * A C# `int` is a 32-bit two's-complement pattern (`bv32`); a C# `short` is a 16-bit pattern
 * kept in the low half of a `bv32`. The source sign-extends the `short` to `int` before masking
 * it, but every mask it applies lies within the low 16 bits, so the extension never shows and
 * is not written out.
 * `BitConverter`'s float/int conversions are the identity on bit patterns, so a `float` is its
 * IEEE 754 binary32 pattern.
 *
 * The codec's functions are written without calls to helper functions, and its lemmas are split
 * by category, so that the verifier decides each as one plain bit-vector formula.
 */
module HalfFloats {
  import opened Wrappers

  /** The IEEE 754 binary32 bit pattern of a `float`. */
  type Single = bv32

  /** A 16-bit pattern (a C# `short` or a binary16 value). */
  type Half = h: bv32 | h < 0x1_0000

  const SignMask: bv32 := 0x8000_0000
  const MagnitudeMask: bv32 := 0x7fff_ffff

  /**
   * How many places the `do`/`while` loop of ToFullPrecision shifts a non-zero 10-bit mantissa
   * until bit 10 is set: ten minus the position of its top bit.
   */
  function Shift(mantissa: bv32): (s: bv32)
    requires 0 < mantissa < 0x400
    ensures 1 <= s <= 10
    ensures 0x400 >> s <= mantissa < 0x800 >> s
  {
    if mantissa >= 0x200 then 1
    else if mantissa >= 0x100 then 2
    else if mantissa >= 0x80 then 3
    else if mantissa >= 0x40 then 4
    else if mantissa >= 0x20 then 5
    else if mantissa >= 0x10 then 6
    else if mantissa >= 0x8 then 7
    else if mantissa >= 0x4 then 8
    else if mantissa >= 0x2 then 9
    else 10
  }

  /**
   * ToFullPrecision (Pr3Tools/HalfFloat.cs:92-118): the binary32 pattern of a binary16 pattern.
   * A subnormal half is renormalised by shifting its mantissa Shift(mantissa) places and
   * lowering the exponent by 0x400 per place; the method HalfFloat.ComputeFullPrecision runs the
   * source's loop for it and is proved to agree.
   */
  function ToFullPrecision(h: Half): Single {
    var mantissa := h & 0x03ff;
    var exponent := h & 0x7c00;
    var sign := (h & 0x8000) << 16;
    if exponent == 0x7c00 then
      sign | ((0x3fc00 | mantissa) << 13)
    else if exponent != 0 then
      var e := exponent + 0x1c000;
      if mantissa == 0 && e > 0x1c400 then sign | (e << 13)
      else sign | ((e | mantissa) << 13)
    else if mantissa != 0 then
      var s := Shift(mantissa);
      sign | (((0x1c400 - (s << 10)) | ((mantissa << s) & 0x3ff)) << 13)
    else
      sign
  }

  /**
   * FromFullPrecision (Pr3Tools/HalfFloat.cs:128-151) as written. `val` is a signed `int`: each
   * `val >= c` of the source is `val < 0x80000000 && val >= c` here, and `val < c` its negation.
   * `(fbits & 0x7fffffff) + 0x1000` wraps to a negative `int` for magnitudes from 0x7ffff000 up
   * (NaN patterns), and every comparison of it with a positive constant then takes the "less"
   * side. The arithmetic shift `fbits >> 16`, masked to bit 15, equals the logical one; C# masks
   * the count of the last two shifts to five bits.
   */
  function FromFullPrecision(fbits: Single): bv32 {
    var sign := (fbits >> 16) & 0x8000;
    var val := (fbits & MagnitudeMask) + 0x1000;
    if val < 0x8000_0000 && val >= 0x4780_0000 then
      if fbits & MagnitudeMask >= 0x4780_0000 then
        if val < 0x7f80_0000 then sign | 0x7c00
        else sign | 0x7c00 | ((fbits & 0x007f_ffff) >> 13)
      else sign | 0x7bff
    else if val < 0x8000_0000 && val >= 0x3880_0000 then
      sign | ((val - 0x3800_0000) >> 13)
    else if !(val < 0x8000_0000 && val >= 0x3300_0000) then
      sign
    else
      var e := (fbits & MagnitudeMask) >> 23;
      sign | ((((fbits & 0x7f_ffff) | 0x80_0000) + (0x80_0000 >> ((e - 102) & 31))) >> ((126 - e) & 31))
  }

  // ---------------------------------------------------------------------------------------------
  // The decoder, category by category
  // ---------------------------------------------------------------------------------------------

  /** Infinity and NaN: the exponent becomes all ones and the mantissa moves up 13 places. */
  lemma DecodeSpecial(h: Half)
    requires h & 0x7c00 == 0x7c00
    ensures ToFullPrecision(h) == ((h & 0x8000) << 16) | 0x7f80_0000 | ((h & 0x3ff) << 13)
  {
  }

  /** Normal halves: the exponent is rebiased by 112 (0x1c000 in place). */
  lemma DecodeNormal(h: Half)
    requires h & 0x7c00 != 0x7c00 && h & 0x7c00 != 0
    ensures ToFullPrecision(h) == ((h & 0x8000) << 16) | (((h & 0x7fff) + 0x1_c000) << 13)
  {
  }

  /**
   * Subnormal halves: the mantissa is shifted up until its top bit becomes the hidden bit, and
   * the exponent is lowered by one for every place.
   */
  lemma DecodeSubnormal(h: Half)
    requires h & 0x7c00 == 0 && h & 0x3ff != 0
    ensures ToFullPrecision(h) ==
      var m := h & 0x3ff;
      ((h & 0x8000) << 16) | (((0x1_c400 - (Shift(m) << 10)) | ((m << Shift(m)) & 0x3ff)) << 13)
  {
  }

  /** Assembling the loop's results as ToFullPrecision does gives DecodeSubnormal's pattern. */
  lemma AssembleRenormalized(h: Half, shifted: bv32, exponent: bv32)
    requires h & 0x7c00 == 0 && h & 0x3ff != 0
    requires shifted == (h & 0x3ff) << Shift(h & 0x3ff)
    requires exponent == 0x1_c400 - (Shift(h & 0x3ff) << 10)
    ensures ((h & 0x8000) << 16) | ((exponent | (shifted & 0x3ff)) << 13) ==
      ((h & 0x8000) << 16) | (((0x1_c400 - (Shift(h & 0x3ff) << 10)) | (((h & 0x3ff) << Shift(h & 0x3ff)) & 0x3ff)) << 13)
  {
  }

  lemma DecodeZero(h: Half)
    requires h & 0x7fff == 0
    ensures ToFullPrecision(h) == (h & 0x8000) << 16
  {
  }

  // ---------------------------------------------------------------------------------------------
  // The encoder, range by range
  // ---------------------------------------------------------------------------------------------

  /** Magnitudes that round into the normal half range: rebias by -112 and round half up. */
  lemma EncodeNormal(f: Single)
    requires 0x3880_0000 <= (f & MagnitudeMask) + 0x1000 < 0x4780_0000
    ensures FromFullPrecision(f) == ((f >> 16) & 0x8000) | (((f & MagnitudeMask) + 0x1000 - 0x3800_0000) >> 13)
  {
  }

  /**
   * Magnitudes from 65536 up saturate to infinity, as long as rounding does not carry them into
   * the exponent of infinity (see MaxValueEncodesAsNaN).
   */
  lemma EncodeOverflow(f: Single)
    requires 0x4780_0000 <= f & MagnitudeMask < 0x7f7f_f000
    ensures FromFullPrecision(f) == ((f >> 16) & 0x8000) | 0x7c00
  {
  }

  /** Magnitudes that reach 65536 only by rounding give the largest finite half, 65504. */
  lemma EncodeRoundingOverflow(f: Single)
    requires 0x477f_f000 <= f & MagnitudeMask < 0x4780_0000
    ensures FromFullPrecision(f) == ((f >> 16) & 0x8000) | 0x7bff
  {
  }

  /** Infinity, and NaNs whose magnitude stays below 0x7ffff000, keep their exponent and top mantissa bits. */
  lemma EncodeNonFinite(f: Single)
    requires 0x7f80_0000 <= f & MagnitudeMask < 0x7fff_f000
    ensures FromFullPrecision(f) == ((f >> 16) & 0x8000) | 0x7c00 | ((f & 0x7f_ffff) >> 13)
  {
  }

  /** The normal range never reaches the all-ones exponent. */
  lemma EncodeNormalBelowInfinity(f: Single)
    requires 0x3880_0000 <= (f & MagnitudeMask) + 0x1000 < 0x4780_0000
    ensures FromFullPrecision(f) & 0x7fff < 0x7c00
  {
  }

  /** Magnitudes that round below 2^-25 underflow to a zero of the same sign. */
  lemma EncodeUnderflow(f: Single)
    requires (f & MagnitudeMask) + 0x1000 < 0x3300_0000
    ensures FromFullPrecision(f) == (f >> 16) & 0x8000
  {
  }

  /** Every encoder result is a 16-bit pattern. */
  lemma EncodeFits(f: Single)
    ensures FromFullPrecision(f) < 0x1_0000
  {
  }

  /** Bit 15 of the encoded half is bit 31 of the float. */
  lemma EncodeSign(f: Single)
    ensures FromFullPrecision(f) & 0x8000 == (f >> 16) & 0x8000
  {
  }

  /** Bit 31 of the decoded float is bit 15 of the half. */
  lemma DecodeSign(h: Half)
    ensures ToFullPrecision(h) & SignMask == (h & 0x8000) << 16
  {
  }

  // ---------------------------------------------------------------------------------------------
  // Round trip: every half survives decoding and re-encoding
  // ---------------------------------------------------------------------------------------------

  lemma RoundTripSpecial(h: Half)
    requires h & 0x7c00 == 0x7c00
    ensures FromFullPrecision(ToFullPrecision(h)) == h
  {
    DecodeSpecial(h);
  }

  /** The decoded pattern of a normal half lies in the encoder's normal range. */
  lemma NormalInRange(h: Half, f: Single)
    requires h & 0x7c00 != 0x7c00 && h & 0x7c00 != 0
    requires f == ((h & 0x8000) << 16) | (((h & 0x7fff) + 0x1_c000) << 13)
    ensures 0x3880_0000 <= (f & MagnitudeMask) + 0x1000 < 0x4780_0000
  {
  }

  /** Re-encoding the decoded pattern of a normal half gives the half back. */
  lemma NormalBack(h: Half, f: Single)
    requires h & 0x7c00 != 0x7c00 && h & 0x7c00 != 0
    requires f == ((h & 0x8000) << 16) | (((h & 0x7fff) + 0x1_c000) << 13)
    ensures ((f >> 16) & 0x8000) | (((f & MagnitudeMask) + 0x1000 - 0x3800_0000) >> 13) == h
  {
  }

  lemma RoundTripNormal(h: Half)
    requires h & 0x7c00 != 0x7c00 && h & 0x7c00 != 0
    ensures FromFullPrecision(ToFullPrecision(h)) == h
  {
    var f := ToFullPrecision(h);
    DecodeNormal(h);
    NormalInRange(h, f);
    NormalBack(h, f);
    EncodeNormal(f);
  }

  // A subnormal half is renormalised by a number of places that depends on the top bit of its
  // mantissa; the round trip is proved for each position of that bit on its own.

  lemma RoundTripSubnormalTop9(h: Half)
    requires h & 0x7c00 == 0 && 0x200 <= h & 0x3ff < 0x400
    ensures FromFullPrecision(ToFullPrecision(h)) == h
  {
  }

  lemma RoundTripSubnormalTop8(h: Half)
    requires h & 0x7c00 == 0 && 0x100 <= h & 0x3ff < 0x200
    ensures FromFullPrecision(ToFullPrecision(h)) == h
  {
  }

  lemma RoundTripSubnormalTop7(h: Half)
    requires h & 0x7c00 == 0 && 0x80 <= h & 0x3ff < 0x100
    ensures FromFullPrecision(ToFullPrecision(h)) == h
  {
  }

  lemma RoundTripSubnormalTop6(h: Half)
    requires h & 0x7c00 == 0 && 0x40 <= h & 0x3ff < 0x80
    ensures FromFullPrecision(ToFullPrecision(h)) == h
  {
  }

  lemma RoundTripSubnormalTop5(h: Half)
    requires h & 0x7c00 == 0 && 0x20 <= h & 0x3ff < 0x40
    ensures FromFullPrecision(ToFullPrecision(h)) == h
  {
  }

  lemma RoundTripSubnormalTop4(h: Half)
    requires h & 0x7c00 == 0 && 0x10 <= h & 0x3ff < 0x20
    ensures FromFullPrecision(ToFullPrecision(h)) == h
  {
  }

  lemma RoundTripSubnormalTop3(h: Half)
    requires h & 0x7c00 == 0 && 0x8 <= h & 0x3ff < 0x10
    ensures FromFullPrecision(ToFullPrecision(h)) == h
  {
  }

  lemma RoundTripSubnormalTop2(h: Half)
    requires h & 0x7c00 == 0 && 0x4 <= h & 0x3ff < 0x8
    ensures FromFullPrecision(ToFullPrecision(h)) == h
  {
  }

  lemma RoundTripSubnormalTop1(h: Half)
    requires h & 0x7c00 == 0 && 0x2 <= h & 0x3ff < 0x4
    ensures FromFullPrecision(ToFullPrecision(h)) == h
  {
  }

  lemma RoundTripSubnormalTop0(h: Half)
    requires h & 0x7c00 == 0 && 0x1 <= h & 0x3ff < 0x2
    ensures FromFullPrecision(ToFullPrecision(h)) == h
  {
  }

  lemma RoundTripSubnormal(h: Half)
    requires h & 0x7c00 == 0 && h & 0x3ff != 0
    ensures FromFullPrecision(ToFullPrecision(h)) == h
  {
    var m := h & 0x3ff;
    if m >= 0x200 { RoundTripSubnormalTop9(h); }
    else if m >= 0x100 { RoundTripSubnormalTop8(h); }
    else if m >= 0x80 { RoundTripSubnormalTop7(h); }
    else if m >= 0x40 { RoundTripSubnormalTop6(h); }
    else if m >= 0x20 { RoundTripSubnormalTop5(h); }
    else if m >= 0x10 { RoundTripSubnormalTop4(h); }
    else if m >= 0x8 { RoundTripSubnormalTop3(h); }
    else if m >= 0x4 { RoundTripSubnormalTop2(h); }
    else if m >= 0x2 { RoundTripSubnormalTop1(h); }
    else { RoundTripSubnormalTop0(h); }
  }

  lemma RoundTripZero(h: Half)
    requires h & 0x7fff == 0
    ensures FromFullPrecision(ToFullPrecision(h)) == h
  {
    DecodeZero(h);
  }

  /** Decoding a half and encoding the result gives the same half back, for all 65536 patterns. */
  lemma RoundTrip(h: Half)
    ensures FromFullPrecision(ToFullPrecision(h)) == h
  {
    if h & 0x7c00 == 0x7c00 {
      RoundTripSpecial(h);
    } else if h & 0x7c00 != 0 {
      RoundTripNormal(h);
    } else if h & 0x3ff != 0 {
      RoundTripSubnormal(h);
    } else {
      RoundTripZero(h);
    }
  }

  // ---------------------------------------------------------------------------------------------
  // Two encoder inputs that FromFullPrecision mishandles, and the encoder as intended
  // ---------------------------------------------------------------------------------------------

  /**
   * As written, a magnitude from 0x7ffff000 up (a NaN) wraps `val` to a negative `int`, every
   * range test fails, and the NaN is encoded as a zero of the same sign.
   */
  lemma EncodeWrapped(f: Single)
    requires f & MagnitudeMask >= 0x7fff_f000
    ensures FromFullPrecision(f) == (f >> 16) & 0x8000
  {
  }

  /** The all-ones NaN encodes as +0 rather than as a NaN. */
  lemma NaNEncodesAsZero()
    ensures FromFullPrecision(0x7fff_ffff) == 0
    ensures FromFullPrecisionCorrected(0x7fff_ffff) == 0x7fff
  {
  }

  /**
   * As written, the test for a finite input looks at the rounded magnitude, so the largest finite
   * floats (magnitudes 0x7f7ff000 to 0x7f7fffff, up to float.MaxValue) encode as a NaN.
   */
  lemma MaxValueEncodesAsNaN()
    ensures FromFullPrecision(0x7f7f_ffff) == 0x7fff
    ensures FromFullPrecisionCorrected(0x7f7f_ffff) == 0x7c00
  {
  }

  /**
   * FromFullPrecision with the comparisons it evidently intends: on the unsigned magnitude, and
   * with the finite/non-finite test on the magnitude before rounding.
   */
  function FromFullPrecisionCorrected(fbits: Single): bv32 {
    var sign := (fbits >> 16) & 0x8000;
    var magnitude := fbits & MagnitudeMask;
    var val := magnitude + 0x1000;
    if val >= 0x4780_0000 then
      if magnitude >= 0x4780_0000 then
        if magnitude < 0x7f80_0000 then sign | 0x7c00
        else sign | 0x7c00 | ((fbits & 0x007f_ffff) >> 13)
      else sign | 0x7bff
    else if val >= 0x3880_0000 then
      sign | ((val - 0x3800_0000) >> 13)
    else if val < 0x3300_0000 then
      sign
    else
      var e := magnitude >> 23;
      sign | ((((fbits & 0x7f_ffff) | 0x80_0000) + (0x80_0000 >> ((e - 102) & 31))) >> ((126 - e) & 31))
  }

  /** Every finite magnitude from 65536 up saturates to infinity. */
  lemma CorrectedOverflow(f: Single)
    requires 0x4780_0000 <= f & MagnitudeMask < 0x7f80_0000
    ensures FromFullPrecisionCorrected(f) == ((f >> 16) & 0x8000) | 0x7c00
  {
  }

  /** Infinity and every NaN keep the all-ones exponent and the top ten mantissa bits. */
  lemma CorrectedNonFinite(f: Single)
    requires f & MagnitudeMask >= 0x7f80_0000
    ensures FromFullPrecisionCorrected(f) == ((f >> 16) & 0x8000) | 0x7c00 | ((f & 0x7f_ffff) >> 13)
  {
  }

  /** Below the two faulty ranges the corrected encoder computes what FromFullPrecision computes. */
  lemma CorrectedAgrees(f: Single)
    requires f & MagnitudeMask < 0x7f7f_f000
    ensures FromFullPrecisionCorrected(f) == FromFullPrecision(f)
  {
  }

  /** A half that is not infinity or NaN decodes to a finite float below 65536. */
  lemma DecodeFinite(h: Half)
    requires h & 0x7c00 != 0x7c00
    ensures ToFullPrecision(h) & MagnitudeMask < 0x4780_0000
  {
  }

  /** The corrected encoder keeps the round trip. */
  lemma CorrectedRoundTrip(h: Half)
    ensures FromFullPrecisionCorrected(ToFullPrecision(h)) == h
  {
    if h & 0x7c00 == 0x7c00 {
      DecodeSpecial(h);
      CorrectedNonFinite(ToFullPrecision(h));
    } else {
      DecodeFinite(h);
      CorrectedAgrees(ToFullPrecision(h));
      RoundTrip(h);
    }
  }

  // ---------------------------------------------------------------------------------------------
  // The HalfFloat class
  // ---------------------------------------------------------------------------------------------

  /**
   * `number > short.MaxValue` on a float: true exactly for +32767.0 < number <= +infinity
   * (32767.0 is 0x46fffe00; positive IEEE patterns are ordered like their bits; NaN compares false).
   */
  predicate AboveShortMax(f: Single) {
    f < SignMask && 0x46ff_fe00 < f <= 0x7f80_0000
  }

  /** `number < short.MinValue` on a float: true exactly for -infinity <= number < -32768.0. */
  predicate BelowShortMin(f: Single) {
    f >= SignMask && 0x4700_0000 < f & MagnitudeMask <= 0x7f80_0000
  }

  predicate IsNaN(f: Single) {
    f & MagnitudeMask > 0x7f80_0000
  }

  /**
   * A float the float constructor accepts is a NaN or a finite number in [-32768, 32767], and
   * every such finite number encodes to a finite half.
   */
  lemma AcceptedEncodesFinite(f: Single)
    requires !AboveShortMax(f) && !BelowShortMin(f) && !IsNaN(f)
    ensures f & MagnitudeMask <= 0x4700_0000
    ensures FromFullPrecisionCorrected(f) & 0x7c00 != 0x7c00
  {
  }

  /** Every result of the corrected encoder is a 16-bit pattern. */
  lemma CorrectedFits(f: Single)
    ensures FromFullPrecisionCorrected(f) < 0x1_0000
  {
  }

  datatype HalfFloatError = WrongLength | TooLarge | TooSmall

  /** The mantissa of a subnormal half reaches bit 10 after exactly Shift(mantissa) places. */
  lemma TopBitAt(mantissa: bv32, i: bv32)
    requires 0 < mantissa < 0x400 && i <= Shift(mantissa)
    ensures (mantissa << i) & 0x400 != 0 <==> i == Shift(mantissa)
  {
  }

  lemma ShiftOnce(mantissa: bv32, i: bv32)
    requires i < 10
    ensures (mantissa << i) << 1 == mantissa << (i + 1)
  {
  }

  lemma LowerOnce(i: bv32)
    requires i < 10
    ensures 0x1_c400 - (i << 10) - 0x400 == 0x1_c400 - ((i + 1) << 10)
  {
  }

  /**
   * HalfFloat (Pr3Tools/HalfFloat.cs:16-152): a half-precision pattern and a cache of its
   * full-precision value, filled by the `short` and `float` constructors and on first use by
   * GetFullFloat.
   */
  class HalfFloat {
    const halfPrecision: Half
    var fullPrecision: Option<Single>

    /** HalfFloat(short) (Pr3Tools/HalfFloat.cs:40-44): the cache is filled at once. */
    constructor FromShort(number: Half)
      ensures halfPrecision == number
      ensures fullPrecision == Some(ToFullPrecision(number))
      ensures FromFullPrecision(fullPrecision.value) == number
    {
      halfPrecision := number;
      new;
      var f := ComputeFullPrecision();
      fullPrecision := Some(f);
      RoundTrip(number);
    }

    constructor Init(half: Half, cache: Option<Single>)
      ensures halfPrecision == half && fullPrecision == cache
    {
      halfPrecision := half;
      fullPrecision := cache;
    }

    /**
     * HalfFloat(byte[]) (Pr3Tools/HalfFloat.cs:27-33): exactly two bytes, read as a little-endian
     * `short`; the cache stays empty.
     */
    static method FromBytes(bytes: seq<bv8>) returns (r: Result<HalfFloat, HalfFloatError>)
      ensures r.Failure? <==> |bytes| != 2
      ensures r.Failure? ==> r.error == WrongLength
      ensures r.Success? ==> fresh(r.value) && r.value.fullPrecision == None
      ensures r.Success? ==> r.value.halfPrecision == (bytes[0] as bv32) | ((bytes[1] as bv32) << 8)
    {
      if |bytes| != 2 {
        return Failure(WrongLength);
      }
      var h := new HalfFloat.Init((bytes[0] as bv32) | ((bytes[1] as bv32) << 8), None);
      return Success(h);
    }

    /**
     * HalfFloat(float) (Pr3Tools/HalfFloat.cs:52-62): rejects numbers above 32767 and below
     * -32768, keeps the encoded pattern and caches the number itself, not its rounded value.
     * Every accepted number that is not a NaN is stored as a finite half; a NaN whose magnitude
     * wraps the encoder's signed sum is accepted and stored as a signed zero.
     */
    static method FromSingle(number: Single) returns (r: Result<HalfFloat, HalfFloatError>)
      ensures r.Failure? <==> AboveShortMax(number) || BelowShortMin(number)
      ensures r.Failure? ==> r.error == (if AboveShortMax(number) then TooLarge else TooSmall)
      ensures r.Success? ==> fresh(r.value) && r.value.fullPrecision == Some(number)
      ensures r.Success? ==> r.value.halfPrecision == FromFullPrecision(number)
      ensures r.Success? && !IsNaN(number) ==> r.value.halfPrecision & 0x7c00 != 0x7c00
      ensures number & MagnitudeMask >= 0x7fff_f000 ==>
        r.Success? && r.value.halfPrecision == (number >> 16) & 0x8000
    {
      if AboveShortMax(number) {
        return Failure(TooLarge);
      }
      if BelowShortMin(number) {
        return Failure(TooSmall);
      }
      EncodeFits(number);
      if !IsNaN(number) {
        AcceptedEncodesFinite(number);
        CorrectedAgrees(number);
      } else if number & MagnitudeMask >= 0x7fff_f000 {
        EncodeWrapped(number);
      }
      var h := new HalfFloat.Init(FromFullPrecision(number), Some(number));
      return Success(h);
    }

    /**
     * GetFullFloat (Pr3Tools/HalfFloat.cs:80-84): the cached value, computing and storing the
     * decoded half first when the cache is empty.
     */
    method GetFullFloat() returns (f: Single)
      modifies this
      ensures old(fullPrecision).Some? ==> f == old(fullPrecision).value
      ensures old(fullPrecision).None? ==> f == ToFullPrecision(halfPrecision)
      ensures fullPrecision == Some(f)
    {
      if fullPrecision.None? {
        var g := ComputeFullPrecision();
        fullPrecision := Some(g);
      }
      f := fullPrecision.value;
    }

    /**
     * ToFullPrecision (Pr3Tools/HalfFloat.cs:92-118), statement by statement. The source's locals
     * `mantisa` and `exponent` start as `halfPrecision & 0x03ff` and `halfPrecision & 0x7c00`;
     * they are written out as those masks until the renormalisation loop takes them over.
     */
    method ComputeFullPrecision() returns (f: Single)
      ensures f == ToFullPrecision(halfPrecision)
    {
      if halfPrecision & 0x7c00 == 0x7c00 {
        f := ((halfPrecision & 0x8000) << 16) | ((0x3_fc00 | (halfPrecision & 0x03ff)) << 13);
      } else if halfPrecision & 0x7c00 != 0 {
        if halfPrecision & 0x03ff == 0 && (halfPrecision & 0x7c00) + 0x1_c000 > 0x1_c400 {
          return ((halfPrecision & 0x8000) << 16) | (((halfPrecision & 0x7c00) + 0x1_c000) << 13);
        }
        f := ((halfPrecision & 0x8000) << 16) | ((((halfPrecision & 0x7c00) + 0x1_c000) | (halfPrecision & 0x03ff)) << 13);
      } else if halfPrecision & 0x03ff != 0 {
        f := SubnormalToFullPrecision(halfPrecision);
      } else {
        f := (halfPrecision & 0x8000) << 16;
      }
    }
  
    /** The subnormal branch of ToFullPrecision (Pr3Tools/HalfFloat.cs:105-117). */
    static method SubnormalToFullPrecision(h: Half) returns (f: Single)
      requires h & 0x7c00 == 0 && h & 0x03ff != 0
      ensures f == ToFullPrecision(h)
    {
      var mantissa, exponent := Renormalize(h & 0x03ff);
      DecodeSubnormal(h);
      AssembleRenormalized(h, mantissa, exponent);
      f := ((h & 0x8000) << 16) | ((exponent | (mantissa & 0x3ff)) << 13);
    }

    /**
     * The `do`/`while` loop of ToFullPrecision (Pr3Tools/HalfFloat.cs:107-113): shift a subnormal
     * mantissa up until bit 10 is set, lowering the exponent by 0x400 per place; `i` counts the
     * iterations.
     */
    static method Renormalize(mantissa: bv32) returns (shifted: bv32, exponent: bv32)
      requires 0 < mantissa < 0x400
      ensures shifted == mantissa << Shift(mantissa)
      ensures exponent == 0x1_c400 - (Shift(mantissa) << 10)
      ensures 0x400 <= shifted < 0x800
    {
      ghost var i: bv32 := 1;
      ShiftOnce(mantissa, 0);
      LowerOnce(0);
      shifted, exponent := mantissa << 1, 0x1_c400 - 0x400;
      TopBitAt(mantissa, 1);
      while shifted & 0x400 == 0
        invariant 1 <= i <= Shift(mantissa)
        invariant shifted == mantissa << i
        invariant exponent == 0x1_c400 - (i << 10)
        decreases 10 - i
      {
        TopBitAt(mantissa, i);
        ShiftOnce(mantissa, i);
        LowerOnce(i);
        shifted, exponent, i := shifted << 1, exponent - 0x400, i + 1;
      }
      TopBitAt(mantissa, i);
    }
  }
}
