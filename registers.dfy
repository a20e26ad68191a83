/**
 * The TDC-GPX2 configuration register image (17 bytes, register address order)
 * and its bit fields: the field views the validator decodes, the operator-driven
 * field setters, the two enum converters, the REFCLK divisor computation and the
 * run-time control bits of byte 0.
 *
 * Every setter clears its own bit span and ORs in the new value; its contract
 * says that nothing outside that span changes and that reading the span back
 * gives the (masked) value.
 */
module Registers {

  /** The number of configuration registers written and read back as one frame. */
  const ImageSize: nat := 17

  /** A register image: byte i is configuration register i. */
  type Image = s: seq<bv8> | |s| == 17 witness [0, 0, 0, 0, 0, 0, 0, 0, 0, 0, 0, 0, 0, 0, 0, 0, 0]

  /** The compiled-in power-on image. */
  const DefaultImage: Image := [
    0x31, 0x01, 0x1F, 0x40,
    0x0D, 0x03, 0xC0, 0x53,
    0xA1, 0x13, 0x00, 0x0A,
    0xCC, 0xCC, 0x31, 0x8E,
    0x04]

  /** Bit i of byte b. */
  predicate Bit(b: bv8, i: nat)
    requires i < 8
  {
    (b >> i) & 1 == 1
  }

  /**
   * `b` equals `a` except possibly in the bits of byte k that `span` selects:
   * every other byte is identical and the other bits of byte k are identical.
   */
  predicate SameOutside(a: Image, b: Image, k: nat, span: bv8)
    requires k < ImageSize
  {
    && (forall i | 0 <= i < ImageSize && i != k :: a[i] == b[i])
    && a[k] & !span == b[k] & !span
  }

  // ---------------------------------------------------------------------------
  // Field views, as the validator decodes them.

  /** STOP pin enables PIN_ENA1..4: byte 0, bits 0-3. */
  function PinEna(img: Image): bv8 { img[0] & 0x0F }

  /** REFCLK pin enable: byte 0, bit 4. */
  function RefclkEna(img: Image): bv8 { (img[0] >> 4) & 0x01 }

  /** "All inputs disabled": byte 0, bit 6; set by pause, cleared by resume. */
  function PinsDisabled(img: Image): bv8 { (img[0] >> 6) & 0x01 }

  /** REFCLK reset pulse: byte 0, bit 7. */
  function RefclkReset(img: Image): bv8 { (img[0] >> 7) & 0x01 }

  /** HIT_ENA1..4: byte 1, bits 0-3. */
  function HitEna(img: Image): bv8 { img[1] & 0x0F }

  /** Channel-combine mode: byte 1, bits 4-5. */
  function ChannelCombine(img: Image): bv8 { (img[1] >> 4) & 0x03 }

  /** High-resolution mode: byte 1, bits 6-7. */
  function Hires(img: Image): bv8 { (img[1] >> 6) & 0x03 }

  /** Common FIFO: byte 2, bit 6. */
  function CommonFifo(img: Image): bv8 { (img[2] >> 6) & 0x01 }

  /** Blockwise FIFO: byte 2, bit 7. */
  function BlockwiseFifo(img: Image): bv8 { (img[2] >> 7) & 0x01 }

  /** The 20-bit REFCLK divisor: byte 3 low, byte 4 middle, low nibble of byte 5 high. */
  function RefclkDiv(img: Image): bv32
  {
    (img[3] as bv32) | ((img[4] as bv32) << 8) | (((img[5] & 0x0F) as bv32) << 16)
  }

  /** Internal crystal oscillator select: byte 7, bit 7. */
  function Xosc(img: Image): bv8 { (img[7] >> 7) & 0x01 }

  /** CMOS input mode: byte 16, bit 2. */
  function CmosInput(img: Image): bv8 { (img[16] >> 2) & 0x01 }

  // ---------------------------------------------------------------------------
  // Enumerations and their operator-facing converters.

  datatype CombineMode = CombineNone | PulseDistance | PulseWidth
  {
    /** The 2-bit register encoding. */
    function Code(): bv8
    {
      match this
      case CombineNone => 0
      case PulseDistance => 1
      case PulseWidth => 2
    }
  }

  datatype HiresMode = HiresOff | Hires2x | Hires4x
  {
    /** The 2-bit register encoding. */
    function Code(): bv8
    {
      match this
      case HiresOff => 0
      case Hires2x => 1
      case Hires4x => 2
    }
  }

  /** 'D'/'d' selects pulse distance, 'W'/'w' pulse width, anything else no combining. */
  function ChannelCombineModeConverter(mode: char): (m: CombineMode)
    ensures m == PulseDistance <==> mode == 'D' || mode == 'd'
    ensures m == PulseWidth <==> mode == 'W' || mode == 'w'
  {
    if mode == 'D' || mode == 'd' then PulseDistance
    else if mode == 'W' || mode == 'w' then PulseWidth
    else CombineNone
  }

  /** The operator types 2 for 2x and 4 for 4x; every other number means off. */
  function HiresModeConverter(mode: bv8): (m: HiresMode)
    ensures m == Hires2x <==> mode == 2
    ensures m == Hires4x <==> mode == 4
  {
    if mode == 2 then Hires2x
    else if mode == 4 then Hires4x
    else HiresOff
  }

  // ---------------------------------------------------------------------------
  // The nibble the two pin setters build.

  /** Bits 0..n-1 of the nibble built from p: bit i is set exactly when p[i] is non-zero. */
  function PinMask(p: seq<bv8>, n: nat): (r: bv8)
    requires n <= |p| && n <= 4
    ensures forall i | 0 <= i < n :: Bit(r, i) <==> p[i] != 0
    ensures r >> n == 0
  {
    if n == 0 then 0
    else PinMask(p, n - 1) | (if p[n - 1] != 0 then (1 as bv8) << (n - 1) else 0)
  }

  // ---------------------------------------------------------------------------
  // Field setters, as functions of the image.

  /** STOP pin enables from four operator answers. */
  function SetInputPins(img: Image, pins: seq<bv8>): (r: Image)
    requires |pins| == 4
    ensures SameOutside(img, r, 0, 0x0F)
    ensures forall i | 0 <= i < 4 :: Bit(PinEna(r), i) <==> pins[i] != 0
  {
    img[0 := (img[0] & !0x0F) | PinMask(pins, 4)]
  }

  /** REFCLK pin enable; only the lowest bit of the argument is used. */
  function SetRefclk(img: Image, clk: bv8): (r: Image)
    ensures SameOutside(img, r, 0, 0x10)
    ensures RefclkEna(r) == clk & 1
  {
    img[0 := (img[0] & !(1 << 4)) | ((clk & 0x1) << 4)]
  }

  /** HIT_ENA bits from four operator answers. */
  function SetInputProcessing(img: Image, pins: seq<bv8>): (r: Image)
    requires |pins| == 4
    ensures SameOutside(img, r, 1, 0x0F)
    ensures forall i | 0 <= i < 4 :: Bit(HitEna(r), i) <==> pins[i] != 0
  {
    img[1 := (img[1] & !0x0F) | PinMask(pins, 4)]
  }

  function SetChannelCombine(img: Image, mode: CombineMode): (r: Image)
    ensures SameOutside(img, r, 1, 0x30)
    ensures ChannelCombine(r) == mode.Code()
  {
    img[1 := (img[1] & !0x30) | (mode.Code() << 4)]
  }

  function SetHires(img: Image, mode: HiresMode): (r: Image)
    ensures SameOutside(img, r, 1, 0xC0)
    ensures Hires(r) == mode.Code()
  {
    img[1 := (img[1] & !0xC0) | (mode.Code() << 6)]
  }

  function SetCommonFifo(img: Image, mode: bv8): (r: Image)
    ensures SameOutside(img, r, 2, 0x40)
    ensures CommonFifo(r) == mode & 1
  {
    img[2 := (img[2] & !(1 << 6)) | ((mode & 1) << 6)]
  }

  function SetBlockwiseFifo(img: Image, mode: bv8): (r: Image)
    ensures SameOutside(img, r, 2, 0x80)
    ensures BlockwiseFifo(r) == mode & 1
  {
    img[2 := (img[2] & !(1 << 7)) | ((mode & 1) << 7)]
  }

  /**
   * Stores the divisor truncated to 20 bits: bytes 3 and 4 are overwritten,
   * only the low nibble of byte 5 changes.
   */
  function SetRefclkDivisions(img: Image, divisions: bv32): (r: Image)
    ensures forall i | 0 <= i < ImageSize && i != 3 && i != 4 && i != 5 :: r[i] == img[i]
    ensures r[5] & 0xF0 == img[5] & 0xF0
    ensures RefclkDiv(r) == divisions & 0xFFFFF
  {
    var d := divisions & 0xFFFFF;
    img[3 := (d & 0xFF) as bv8]
       [4 := ((d >> 8) & 0xFF) as bv8]
       [5 := (img[5] & 0xF0) | (((d >> 16) & 0x0F) as bv8)]
  }

  /**
   * The REFCLK period in picoseconds, 10^12 / freq computed in 64 bits and
   * returned as a 32-bit value: the high bits of the quotient are dropped.
   */
  function PeriodPs(freqHz: nat): (r: nat)
    requires freqHz != 0
    ensures r < 0x1_0000_0000
    ensures 233 <= freqHz ==> r * freqHz <= 1000000000000 < (r + 1) * freqHz
  {
    var q := 1000000000000 / freqHz;
    QuotientFits(freqHz);
    var rem := 1000000000000 % freqHz;
    assert q * freqHz + rem == 1000000000000 && 0 <= rem < freqHz;
    assert (q + 1) * freqHz == q * freqHz + freqHz;
    q % 0x1_0000_0000
  }

  /** The divisor for a frequency. A zero frequency is a division by zero in the program and is excluded here. */
  function ComputeDivisionsFromFreq(freqHz: bv32): bv32
    requires freqHz != 0
  {
    PeriodPs(freqHz as int) as bv32
  }

  /** From 233 Hz on, the period in picoseconds fits 32 bits. */
  lemma QuotientFits(freqHz: nat)
    requires freqHz != 0
    ensures 233 <= freqHz ==> 1000000000000 / freqHz < 0x1_0000_0000
  {
    if 233 <= freqHz {
      var q := 1000000000000 / freqHz;
      assert q * freqHz <= 1000000000000;
      MulLe(233, freqHz, q);
    }
  }

  lemma MulLe(a: int, b: int, c: nat)
    requires a <= b
    ensures a * c <= b * c
  {
  }

  function SetRefclkByXosc(img: Image, mode: bv8): (r: Image)
    ensures SameOutside(img, r, 7, 0x80)
    ensures Xosc(r) == mode & 1
  {
    img[7 := (img[7] & !(1 << 7)) | ((mode & 1) << 7)]
  }

  function SetCmosInput(img: Image, mode: bv8): (r: Image)
    ensures SameOutside(img, r, 16, 0x04)
    ensures CmosInput(r) == mode & 1
  {
    img[16 := (img[16] & !(1 << 2)) | ((mode & 1) << 2)]
  }

  // ---------------------------------------------------------------------------
  // Run-time control bits of byte 0.

  function PinsDisable(img: Image): (r: Image)
    ensures SameOutside(img, r, 0, 0x40)
    ensures PinsDisabled(r) == 1
  {
    img[0 := img[0] | (1 << 6)]
  }

  function PinsEnable(img: Image): (r: Image)
    ensures SameOutside(img, r, 0, 0x40)
    ensures PinsDisabled(r) == 0
  {
    img[0 := img[0] & !(1 << 6)]
  }

  function RefclkResetPulse(img: Image): (r: Image)
    ensures SameOutside(img, r, 0, 0x80)
    ensures RefclkReset(r) == 1
  {
    img[0 := img[0] | (1 << 7)]
  }

  function RefclkResetUnpulse(img: Image): (r: Image)
    ensures SameOutside(img, r, 0, 0x80)
    ensures RefclkReset(r) == 0
  {
    img[0 := img[0] & !(1 << 7)]
  }

  // ---------------------------------------------------------------------------
  // Properties of the setters.

  /** The combine setter driven by the operator's character. */
  lemma CombineByCharacter(img: Image, c: char)
    ensures var r := SetChannelCombine(img, ChannelCombineModeConverter(c));
      && SameOutside(img, r, 1, 0x30)
      && ChannelCombine(r) == (if c == 'D' || c == 'd' then 1 else if c == 'W' || c == 'w' then 2 else 0)
  {
  }

  /** The high-resolution setter driven by the operator's number. */
  lemma HiresByNumber(img: Image, n: bv8)
    ensures var r := SetHires(img, HiresModeConverter(n));
      && SameOutside(img, r, 1, 0xC0)
      && Hires(r) == (if n == 2 then 1 else if n == 4 then 2 else 0)
  {
  }

  /** A frequency goes into the image as its divisor truncated to 20 bits; byte 5's upper nibble survives. */
  lemma DivisorFromFrequency(img: Image, freqHz: bv32)
    requires freqHz != 0
    ensures var r := SetRefclkDivisions(img, ComputeDivisionsFromFreq(freqHz));
      && RefclkDiv(r) == ComputeDivisionsFromFreq(freqHz) & 0xFFFFF
      && r[5] & 0xF0 == img[5] & 0xF0
      && r[..3] == img[..3] && r[6..] == img[6..]
  {
    var r := SetRefclkDivisions(img, ComputeDivisionsFromFreq(freqHz));
    assert forall i | 0 <= i < 3 :: r[..3][i] == img[..3][i];
    assert forall i | 0 <= i < 11 :: r[6..][i] == r[6 + i] == img[6 + i] == img[6..][i];
  }

  /** 5 MHz, the frequency of the compiled-in image, gives 200000 ps. */
  lemma DivisionsAt5MHz(img: Image)
    ensures ComputeDivisionsFromFreq(5000000) == 200000
    ensures RefclkDiv(SetRefclkDivisions(img, ComputeDivisionsFromFreq(5000000))) == 200000
  {
    assert PeriodPs(5000000) == 200000;
  }

  /** 1 MHz gives 1000000 ps, which still fits the 20-bit field. */
  lemma DivisionsAt1MHz(img: Image)
    ensures ComputeDivisionsFromFreq(1000000) == 1000000
    ensures RefclkDiv(SetRefclkDivisions(img, ComputeDivisionsFromFreq(1000000))) == 1000000
  {
    assert PeriodPs(1000000) == 1000000;
  }

  /** 953674 Hz gives 1048576 = 2^20 ps, which the 20-bit field stores as 0. */
  lemma DivisionsOverflowField(img: Image)
    ensures ComputeDivisionsFromFreq(953674) == 0x10_0000
    ensures RefclkDiv(SetRefclkDivisions(img, ComputeDivisionsFromFreq(953674))) == 0
  {
    assert PeriodPs(953674) == 0x10_0000;
  }

  /** Below 233 Hz the quotient no longer fits 32 bits and is truncated: 1 Hz gives 10^12 mod 2^32. */
  lemma DivisionsTruncated()
    ensures PeriodPs(1) == 3567587328
  {
  }

  /** The fields of the compiled-in image. */
  lemma DefaultImageFields()
    ensures PinEna(DefaultImage) == 0x01 && RefclkEna(DefaultImage) == 1
    ensures PinsDisabled(DefaultImage) == 0 && RefclkReset(DefaultImage) == 0
    ensures HitEna(DefaultImage) == 0x01
    ensures ChannelCombine(DefaultImage) == 0 && Hires(DefaultImage) == 0
    ensures CommonFifo(DefaultImage) == 0 && BlockwiseFifo(DefaultImage) == 0
    ensures RefclkDiv(DefaultImage) == 200000
    ensures Xosc(DefaultImage) == 0 && CmosInput(DefaultImage) == 1
  {
  }

  /** Pause then resume clears bit 6 and changes nothing else; from a running image it restores the image. */
  lemma DisableThenEnable(img: Image)
    ensures SameOutside(img, PinsEnable(PinsDisable(img)), 0, 0x40)
    ensures PinsDisabled(PinsEnable(PinsDisable(img))) == 0
    ensures PinsDisabled(img) == 0 ==> PinsEnable(PinsDisable(img)) == img
  {
    var r := PinsEnable(PinsDisable(img));
    if PinsDisabled(img) == 0 {
      assert r[0] == img[0];
      assert forall i | 0 <= i < ImageSize :: r[i] == img[i];
    }
  }
}
