/**
 * The configuration validator: it decodes the fields of the register image
 * and runs an ordered list of checks, each an ERROR (the verdict becomes
 * "invalid") or a WARNING (reported only). The findings are kept as tagged
 * values in the order the checks run; the messages are not modelled.
 *
 * Two readings of the validator are modelled side by side. `AsWritten` is the
 * program's text: its high-resolution check is a disjunction that holds for
 * every value, and its REFCLK frequency is the 64-bit quotient cut to 32 bits.
 * `Intended` rejects only the undefined high-resolution code 3 and compares
 * the full quotient. The findings lemmas below exhibit both differences.
 */
module Validator {
  import opened Registers

  datatype Severity = Error | Warning

  datatype Reading = AsWritten | Intended

  /** One finding, named after the condition it reports; numbered as the checks are. */
  datatype Check =
    | StopWithoutHit(channel: nat)   // 1: STOP pin on, its HIT_ENA off (channel 0..3)
    | RefclkDisabled                 // 2
    | InvalidCombine                 // 3
    | InvalidHires                   // 4
    | CommonWithoutBlockwise         // 5
    | DivisorZero                    // 6
    | DivisorTooLow                  // 6
    | DivisorTooHigh                 // 6
    | CmosWithoutStops               // 7
    | CmosWithoutRefclk              // 7
    | LowRefclkFrequency             // 8
    | XoscWithRefclkPin              // 8, clock source
    | NoClockSource                  // 8, clock source
    | StopMasterOff                  // 9
    | CombineNeedsStop12             // 10
    | HitBeyondStop4                 // 11
    | DistanceWithHires4x            // 13
    | DistanceWithHires              // 13
    | Hires4xCoarseDivisor           // 14
    | StopsWithoutHits               // 15
    | CmosWithModes                  // 17
    | FifoSpiTooSlow                 // 18
    | HiresWithoutRefclk             // 19
    | DistanceIgnoresStop34          // 20
    | WidthCoarseDivisor             // 22
    | StopsWithoutRefclk             // 23
    | CoarseDivisor                  // 24
  {
    function Level(): Severity
    {
      match this
      case DivisorTooLow | DivisorTooHigh | LowRefclkFrequency | DistanceWithHires4x | DistanceWithHires
        | Hires4xCoarseDivisor | CmosWithModes | FifoSpiTooSlow | DistanceIgnoresStop34
        | WidthCoarseDivisor | CoarseDivisor => Warning
      case _ => Error
    }
  }

  /** The serial clock the bus is initialised with, 4 MHz. */
  const SpiSpeedHz: nat := 4000000

  /** A decoded 8-bit field, held as its value. */
  type U8 = n: nat | n < 256

  /** The fields the validator decodes from the image, each held as its unsigned value. */
  datatype Fields = Fields(
    pinEna: U8, refclkEna: U8, hitEna: U8, combine: U8, hires: U8,
    commonFifo: U8, blockwiseFifo: U8, refclkDiv: nat, cmosInput: U8,
    xosc: U8, stopMaster: U8)

  /** The ranges of the decoded fields: four-bit enables, two-bit codes, single bits and a 20-bit divisor. */
  predicate InRange(f: Fields)
  {
    && f.pinEna < 16 && f.hitEna < 16 && f.combine < 4 && f.hires < 4
    && f.refclkEna < 2 && f.commonFifo < 2 && f.blockwiseFifo < 2 && f.cmosInput < 2
    && f.xosc < 2 && f.stopMaster < 2 && f.refclkDiv < 0x10_0000
  }

  /** The 20-bit REFCLK divisor as a number. */
  function Divisor(img: Image): (n: nat)
    ensures n < 0x10_0000
    ensures n == 0 <==> RefclkDiv(img) == 0
  {
    RefclkDiv(img) as nat
  }

  function Decode(img: Image): (f: Fields)
    ensures InRange(f)
  {
    Fields(PinEna(img) as U8, RefclkEna(img) as U8, HitEna(img) as U8, ChannelCombine(img) as U8,
      Hires(img) as U8, CommonFifo(img) as U8, BlockwiseFifo(img) as U8, Divisor(img),
      CmosInput(img) as U8, Xosc(img) as U8, PinsDisabled(img) as U8)
  }

  /** No finding is an ERROR. */
  predicate NoErrors(findings: seq<Check>)
  {
    forall c | c in findings :: c.Level() == Warning
  }

  /** The outcome of a validation run: the verdict, or the division by zero of check 8 after the findings so far. */
  datatype Validation = Completed(findings: seq<Check>, ok: bool) | DivisionByZero(findings: seq<Check>)

  /** What a run has reported so far, and its `ok` flag. */
  datatype Log = Log(findings: seq<Check>, ok: bool)

  /** The flag is the verdict on the findings: it is set exactly when none of them is an ERROR. */
  predicate Sound(log: Log)
  {
    log.ok <==> NoErrors(log.findings)
  }

  /** Reporting a finding: an ERROR also clears `ok`. */
  function Report(log: Log, c: Check): (r: Log)
    ensures Sound(log) ==> Sound(r)
  {
    Log(log.findings + [c], log.ok && c.Level() == Warning)
  }

  /** One check: report c when the condition holds. */
  function When(log: Log, condition: bool, c: Check): (r: Log)
    ensures Sound(log) ==> Sound(r)
  {
    if condition then Report(log, c) else log
  }

  // ---------------------------------------------------------------------------
  // The checks, in program order, as functions of the decoded fields.

  /** Check 1's condition: the STOP pin of channel i is on and its HIT_ENA bit is off. */
  predicate StopUnmatched(pinEna: U8, hitEna: U8, i: nat)
    requires i < 8
  {
    (pinEna as bv8) & ((1 as bv8) << i) != 0 && (hitEna as bv8) & ((1 as bv8) << i) == 0
  }

  /** Check 1 over channels 0..n-1. */
  function StopChecks(log: Log, pinEna: U8, hitEna: U8, n: nat): (r: Log)
    requires n <= 4
    ensures Sound(log) ==> Sound(r)
  {
    if n == 0 then log
    else When(StopChecks(log, pinEna, hitEna, n - 1), StopUnmatched(pinEna, hitEna, n - 1), StopWithoutHit(n - 1))
  }

  /** Check 4's condition: as written, a disjunction of three inequalities no value can fail. */
  predicate HiresRejected(hires: U8, reading: Reading): (r: bool)
    ensures r <==> reading == AsWritten || hires > 2
  {
    match reading
    case AsWritten => hires != 4 || hires != 2 || hires != 0
    case Intended => hires > 2
  }

  /** Checks 2 to 5: REFCLK pin, combine code, high-resolution code, FIFO modes. */
  function FieldBlock(log: Log, f: Fields, reading: Reading): (r: Log)
    ensures Sound(log) ==> Sound(r)
  {
    var l2 := When(log, f.refclkEna == 0, RefclkDisabled);
    var l3 := When(l2, f.combine > 2, InvalidCombine);
    var l4 := When(l3, HiresRejected(f.hires, reading), InvalidHires);
    When(l4, f.commonFifo != 0 && f.blockwiseFifo == 0, CommonWithoutBlockwise)
  }

  /** Checks 6 and 7: the divisor's range, and CMOS input without STOP pins or REFCLK. */
  function DivisorBlock(log: Log, f: Fields): (r: Log)
    ensures Sound(log) ==> Sound(r)
  {
    CmosBlock(RangeBlock(log, f), f)
  }

  /** Check 6: at most one of zero, below 10000 ps, above 1000000 ps. */
  function RangeBlock(log: Log, f: Fields): (r: Log)
    ensures Sound(log) ==> Sound(r)
  {
    if f.refclkDiv == 0 then Report(log, DivisorZero)
    else if f.refclkDiv < 10000 then Report(log, DivisorTooLow)
    else if f.refclkDiv > 1000000 then Report(log, DivisorTooHigh)
    else log
  }

  /** Check 7: CMOS input needs STOP pins and the REFCLK pin. */
  function CmosBlock(log: Log, f: Fields): (r: Log)
    ensures Sound(log) ==> Sound(r)
  {
    var l7 := When(log, f.cmosInput != 0 && f.pinEna == 0, CmosWithoutStops);
    When(l7, f.cmosInput != 0 && f.refclkEna == 0, CmosWithoutRefclk)
  }

  /** The REFCLK frequency of check 8: the 64-bit quotient 10^12 / divisor, which the program stores in 32 bits. */
  function RefclkFrequency(div: nat, reading: Reading): (r: nat)
    requires div != 0
    ensures reading == AsWritten ==> r < 0x1_0000_0000
    ensures reading == Intended || 233 <= div ==> r * div <= 1000000000000 < (r + 1) * div
  {
    var q := 1000000000000 / div;
    var rem := 1000000000000 % div;
    assert q * div + rem == 1000000000000 && 0 <= rem < div;
    assert (q + 1) * div == q * div + div;
    QuotientFits(div);
    match reading
    case AsWritten => q % 0x1_0000_0000
    case Intended => q
  }

  /** Check 8 and the clock-source checks that follow it. */
  function ClockBlock(log: Log, f: Fields, reading: Reading): (r: Log)
    requires f.refclkDiv != 0
    ensures Sound(log) ==> Sound(r)
  {
    var l8 := When(log, RefclkFrequency(f.refclkDiv, reading) < 20000000, LowRefclkFrequency);
    var x1 := When(l8, f.xosc != 0 && f.refclkEna != 0, XoscWithRefclkPin);
    When(x1, f.xosc == 0 && f.refclkEna == 0, NoClockSource)
  }

  /** Checks 9 to 11: the master bit, the pins pulse-distance and pulse-width modes need, HIT_ENA's range. */
  function PinBlock(log: Log, f: Fields): (r: Log)
    ensures Sound(log) ==> Sound(r)
  {
    var l9 := When(log, f.stopMaster == 1 && f.pinEna != 0, StopMasterOff);
    var l10 := When(l9, (f.combine == 1 || f.combine == 2)
      && ((f.pinEna as bv8) & 0x03 != 0x03 || (f.hitEna as bv8) & 0x03 != 0x03), CombineNeedsStop12);
    When(l10, (f.hitEna as bv8) & 0xF0 != 0, HitBeyondStop4)
  }

  /** Checks 13 and 14: high resolution with pulse-distance mode, and with a coarse divisor. */
  function HiresBlock(log: Log, f: Fields): (r: Log)
    ensures Sound(log) ==> Sound(r)
  {
    var l13 :=
      if f.combine == 1 && f.hires > 0 then
        (if f.hires == 2 then Report(log, DistanceWithHires4x) else Report(log, DistanceWithHires))
      else log;
    When(l13, f.hires == 2 && f.refclkDiv > 50000, Hires4xCoarseDivisor)
  }

  /** Checks 15 to 18: STOP pins without HIT_ENA, CMOS with the modes, FIFO modes at the bus speed. */
  function ModeBlock(log: Log, f: Fields): (r: Log)
    ensures Sound(log) ==> Sound(r)
  {
    var l15 := When(log, f.pinEna != 0 && f.hitEna == 0, StopsWithoutHits);
    var l17 := When(l15, f.cmosInput != 0 && (f.hires > 0 || f.combine > 0), CmosWithModes);
    When(l17, f.blockwiseFifo != 0 && f.commonFifo != 0 && SpiSpeedHz < 8000000, FifoSpiTooSlow)
  }

  /** Checks 19 to 24: what the modes and STOP pins need of REFCLK and its divisor. */
  function ResolutionBlock(log: Log, f: Fields): (r: Log)
    ensures Sound(log) ==> Sound(r)
  {
    DivisorNeedsBlock(RefclkNeedsBlock(log, f), f)
  }

  /** Checks 19 and 20: high resolution needs REFCLK; pulse-distance mode ignores STOP3 and STOP4. */
  function RefclkNeedsBlock(log: Log, f: Fields): (r: Log)
    ensures Sound(log) ==> Sound(r)
  {
    var l19 := When(log, f.refclkEna == 0 && f.hires > 0, HiresWithoutRefclk);
    When(l19, f.combine == 1 && (f.pinEna as bv8) & 0x0C != 0, DistanceIgnoresStop34)
  }

  /** Checks 22 to 24: the divisor pulse-width mode needs, STOP pins without REFCLK, a coarse divisor. */
  function DivisorNeedsBlock(log: Log, f: Fields): (r: Log)
    ensures Sound(log) ==> Sound(r)
  {
    var l22 := When(log, f.combine == 2 && f.refclkDiv > 60000, WidthCoarseDivisor);
    var l23 := When(l22, f.pinEna != 0 && f.refclkEna == 0, StopsWithoutRefclk);
    When(l23, f.refclkDiv > 100000, CoarseDivisor)
  }

  /** Checks 1 to 7, which run before the division. */
  function EarlyChecks(f: Fields, reading: Reading): (r: Log)
    ensures Sound(r)
  {
    DivisorBlock(FieldBlock(StopChecks(Log([], true), f.pinEna, f.hitEna, 4), f, reading), f)
  }

  /** The checks over the decoded fields. On completion the verdict holds exactly when no ERROR was reported. */
  function Run(f: Fields, reading: Reading): (v: Validation)
    ensures v.Completed? ==> (v.ok <==> NoErrors(v.findings))
    ensures v.DivisionByZero? <==> f.refclkDiv == 0
  {
    var early := EarlyChecks(f, reading);
    if f.refclkDiv == 0 then DivisionByZero(early.findings)
    else
      var all := ResolutionBlock(ModeBlock(HiresBlock(PinBlock(ClockBlock(early, f, reading), f), f), f), f);
      Completed(all.findings, all.ok)
  }

  /** The whole validation of an image: decode, then run the checks. */
  function Validate(img: Image, reading: Reading): (v: Validation)
    ensures v.Completed? ==> (v.ok <==> NoErrors(v.findings))
    ensures v.DivisionByZero? <==> RefclkDiv(img) == 0
  {
    Run(Decode(img), reading)
  }

  // ---------------------------------------------------------------------------
  // The validator as the program runs it: decode, then the checks in order,
  // each one reporting its finding and clearing `ok` at an ERROR.

  /** Check 1's loop over the four channels. */
  method StopPinChecks(log0: Log, pinEna: U8, hitEna: U8) returns (log: Log)
    ensures log == StopChecks(log0, pinEna, hitEna, 4)
  {
    log := log0;
    var i := 0;
    while i < 4
      invariant 0 <= i <= 4
      invariant log == StopChecks(log0, pinEna, hitEna, i)
    {
      if (pinEna as bv8) & ((1 as bv8) << i) != 0 && (hitEna as bv8) & ((1 as bv8) << i) == 0 {
        log := Report(log, StopWithoutHit(i));
      }
      i := i + 1;
    }
  }

  /** Checks 2 to 5. */
  method FieldChecks(log0: Log, f: Fields, reading: Reading) returns (log: Log)
    ensures log == FieldBlock(log0, f, reading)
    ensures Sound(log0) ==> Sound(log)
    ensures InRange(f) ==> forall c :: c in log.findings <==> c in log0.findings || FieldExpected(c, f, reading)
  {
    log := log0;
    if f.refclkEna == 0 {
      log := Report(log, RefclkDisabled);
    }
    if f.combine > 2 {
      log := Report(log, InvalidCombine);
    }
    if HiresRejected(f.hires, reading) {
      log := Report(log, InvalidHires);
    }
    if f.commonFifo != 0 && f.blockwiseFifo == 0 {
      log := Report(log, CommonWithoutBlockwise);
    }
    if InRange(f) {
      forall c {
        FieldBlockReports(log0, f, reading, c);
      }
    }
  }

  /** Checks 6 and 7. */
  method DivisorChecks(log0: Log, f: Fields) returns (log: Log)
    ensures log == DivisorBlock(log0, f)
    ensures Sound(log0) ==> Sound(log)
    ensures InRange(f) ==> forall c :: c in log.findings <==> c in log0.findings || DivisorExpected(c, f)
  {
    log := log0;
    if f.refclkDiv == 0 {
      log := Report(log, DivisorZero);
    } else if f.refclkDiv < 10000 {
      log := Report(log, DivisorTooLow);
    } else if f.refclkDiv > 1000000 {
      log := Report(log, DivisorTooHigh);
    }
    if f.cmosInput != 0 {
      if f.pinEna == 0 {
        log := Report(log, CmosWithoutStops);
      }
      if f.refclkEna == 0 {
        log := Report(log, CmosWithoutRefclk);
      }
    }
    if InRange(f) {
      forall c {
        DivisorBlockReports(log0, f, c);
      }
    }
  }

  /** Check 8 and the clock-source checks, for a non-zero divisor. */
  method ClockChecks(log0: Log, f: Fields, reading: Reading) returns (log: Log)
    requires f.refclkDiv != 0
    ensures log == ClockBlock(log0, f, reading)
    ensures Sound(log0) ==> Sound(log)
    ensures InRange(f) ==> forall c :: c in log.findings <==> c in log0.findings || ClockExpected(c, f, reading)
  {
    log := log0;
    var quotient := 1000000000000 / f.refclkDiv;
    var refclkFreq := if reading == AsWritten then quotient % 0x1_0000_0000 else quotient;
    if refclkFreq < 20000000 {
      log := Report(log, LowRefclkFrequency);
    }
    if f.xosc != 0 && f.refclkEna != 0 {
      log := Report(log, XoscWithRefclkPin);
    }
    if f.xosc == 0 && f.refclkEna == 0 {
      log := Report(log, NoClockSource);
    }
    if InRange(f) {
      forall c {
        ClockBlockReports(log0, f, reading, c);
      }
    }
  }

  /** Checks 9 to 11. */
  method PinChecks(log0: Log, f: Fields) returns (log: Log)
    ensures log == PinBlock(log0, f)
    ensures Sound(log0) ==> Sound(log)
    ensures InRange(f) && f.refclkDiv != 0 ==> forall c :: c in log.findings <==> c in log0.findings || PinExpected(c, f)
  {
    log := log0;
    if f.stopMaster == 1 && f.pinEna != 0 {
      log := Report(log, StopMasterOff);
    }
    if f.combine == 1 || f.combine == 2 {
      if (f.pinEna as bv8) & 0x03 != 0x03 || (f.hitEna as bv8) & 0x03 != 0x03 {
        log := Report(log, CombineNeedsStop12);
      }
    }
    if (f.hitEna as bv8) & 0xF0 != 0 {
      log := Report(log, HitBeyondStop4);
    }
    if InRange(f) && f.refclkDiv != 0 {
      forall c {
        PinBlockReports(log0, f, c);
      }
    }
  }

  /** Checks 13 and 14. */
  method HiresChecks(log0: Log, f: Fields) returns (log: Log)
    ensures log == HiresBlock(log0, f)
    ensures Sound(log0) ==> Sound(log)
    ensures InRange(f) && f.refclkDiv != 0 ==> forall c :: c in log.findings <==> c in log0.findings || HiresExpected(c, f)
  {
    log := log0;
    if f.combine == 1 && f.hires > 0 {
      if f.hires == 2 {
        log := Report(log, DistanceWithHires4x);
      } else {
        log := Report(log, DistanceWithHires);
      }
    }
    if f.hires == 2 && f.refclkDiv > 50000 {
      log := Report(log, Hires4xCoarseDivisor);
    }
    if InRange(f) && f.refclkDiv != 0 {
      forall c {
        HiresBlockReports(log0, f, c);
      }
    }
  }

  /** Checks 15 to 18. */
  method ModeChecks(log0: Log, f: Fields) returns (log: Log)
    ensures log == ModeBlock(log0, f)
    ensures Sound(log0) ==> Sound(log)
    ensures InRange(f) && f.refclkDiv != 0 ==> forall c :: c in log.findings <==> c in log0.findings || ModeExpected(c, f)
  {
    log := log0;
    if f.pinEna != 0 && f.hitEna == 0 {
      log := Report(log, StopsWithoutHits);
    }
    if f.cmosInput != 0 && (f.hires > 0 || f.combine > 0) {
      log := Report(log, CmosWithModes);
    }
    if f.blockwiseFifo != 0 && f.commonFifo != 0 && SpiSpeedHz < 8000000 {
      log := Report(log, FifoSpiTooSlow);
    }
    if InRange(f) && f.refclkDiv != 0 {
      forall c {
        ModeBlockReports(log0, f, c);
      }
    }
  }

  /** Checks 19 to 24. */
  method ResolutionChecks(log0: Log, f: Fields) returns (log: Log)
    ensures log == ResolutionBlock(log0, f)
    ensures Sound(log0) ==> Sound(log)
    ensures InRange(f) && f.refclkDiv != 0 ==> forall c :: c in log.findings <==> c in log0.findings || ResolutionExpected(c, f)
  {
    log := log0;
    if f.refclkEna == 0 && f.hires > 0 {
      log := Report(log, HiresWithoutRefclk);
    }
    if f.combine == 1 && (f.pinEna as bv8) & 0x0C != 0 {
      log := Report(log, DistanceIgnoresStop34);
    }
    if f.combine == 2 && f.refclkDiv > 60000 {
      log := Report(log, WidthCoarseDivisor);
    }
    if f.pinEna != 0 && f.refclkEna == 0 {
      log := Report(log, StopsWithoutRefclk);
    }
    if f.refclkDiv > 100000 {
      log := Report(log, CoarseDivisor);
    }
    if InRange(f) && f.refclkDiv != 0 {
      forall c {
        ResolutionBlockReports(log0, f, c);
      }
    }
  }

  /**
   * Validates the image in cfg. It only reads the array. On completion the
   * verdict is true exactly when no check reported an ERROR.
   */
  method ValidateInput(cfg: array<bv8>, reading: Reading) returns (v: Validation)
    requires cfg.Length == ImageSize
    ensures v == Validate(cfg[..], reading)
    ensures v.Completed? ==> (v.ok <==> NoErrors(v.findings))
    ensures forall c :: c in v.findings <==> Expected(c, Decode(cfg[..]), reading)
  {
    var f := Decode(cfg[..]);
    RunReportsExactly(f, reading);
    var log := StopPinChecks(Log([], true), f.pinEna, f.hitEna);
    log := FieldChecks(log, f, reading);
    log := DivisorChecks(log, f);
    if f.refclkDiv == 0 {
      return DivisionByZero(log.findings);
    }
    log := ClockChecks(log, f, reading);
    log := PinChecks(log, f);
    log := HiresChecks(log, f);
    log := ModeChecks(log, f);
    log := ResolutionChecks(log, f);
    v := Completed(log.findings, log.ok);
  }

  // ---------------------------------------------------------------------------
  // What the validator reports, stated on the decoded fields.

  /**
   * When the program reports c, in the chip's terms: the STOP and HIT_ENA bits
   * pin by pin, the codes, the divisor's ranges. A check after the division
   * runs only for a non-zero divisor. The conditions are grouped as the runs
   * of checks are.
   */
  predicate Expected(c: Check, f: Fields, reading: Reading)
  {
    || StopExpected(c, f) || FieldExpected(c, f, reading) || DivisorExpected(c, f)
    || ClockExpected(c, f, reading) || PinExpected(c, f) || HiresExpected(c, f)
    || ModeExpected(c, f) || ResolutionExpected(c, f)
  }

  /** Check 1: a channel whose STOP pin is on and whose HIT_ENA bit is off. */
  predicate StopExpected(c: Check, f: Fields)
  {
    c.StopWithoutHit? && c.channel < 4 && Bit(f.pinEna as bv8, c.channel) && !Bit(f.hitEna as bv8, c.channel)
  }

  /** Checks 2 to 5. */
  predicate FieldExpected(c: Check, f: Fields, reading: Reading)
  {
    || (c == RefclkDisabled && f.refclkEna == 0)
    || (c == InvalidCombine && f.combine == 3)
    || (c == InvalidHires && (reading == AsWritten || f.hires == 3))
    || (c == CommonWithoutBlockwise && f.commonFifo == 1 && f.blockwiseFifo == 0)
  }

  /** Checks 6 and 7. */
  predicate DivisorExpected(c: Check, f: Fields)
  {
    || (c == DivisorZero && f.refclkDiv == 0)
    || (c == DivisorTooLow && 0 < f.refclkDiv < 10000)
    || (c == DivisorTooHigh && f.refclkDiv > 1000000)
    || (c == CmosWithoutStops && f.cmosInput == 1 && f.pinEna == 0)
    || (c == CmosWithoutRefclk && f.cmosInput == 1 && f.refclkEna == 0)
  }

  /** Check 8 and the clock source; like every check after it, it runs only for a non-zero divisor. */
  predicate ClockExpected(c: Check, f: Fields, reading: Reading)
  {
    && f.refclkDiv != 0
    && (|| (c == LowRefclkFrequency && (match reading
             case AsWritten => (1000000000000 / f.refclkDiv) % 0x1_0000_0000 < 20000000
             case Intended => f.refclkDiv > 50000))
        || (c == XoscWithRefclkPin && f.xosc == 1 && f.refclkEna == 1)
        || (c == NoClockSource && f.xosc == 0 && f.refclkEna == 0))
  }

  /** Checks 9 to 11; check 11 cannot fire on a four-bit field. */
  predicate PinExpected(c: Check, f: Fields)
  {
    var pin := f.pinEna as bv8;
    var hit := f.hitEna as bv8;
    && f.refclkDiv != 0
    && (|| (c == StopMasterOff && f.stopMaster == 1 && f.pinEna != 0)
        || (c == CombineNeedsStop12 && (f.combine == 1 || f.combine == 2)
            && !(Bit(pin, 0) && Bit(pin, 1) && Bit(hit, 0) && Bit(hit, 1))))
  }

  /** Checks 13 and 14. */
  predicate HiresExpected(c: Check, f: Fields)
  {
    && f.refclkDiv != 0
    && (|| (c == DistanceWithHires4x && f.combine == 1 && f.hires == 2)
        || (c == DistanceWithHires && f.combine == 1 && (f.hires == 1 || f.hires == 3))
        || (c == Hires4xCoarseDivisor && f.hires == 2 && f.refclkDiv > 50000))
  }

  /** Checks 15 to 18; the 4 MHz bus is always below the 8 MHz of check 18. */
  predicate ModeExpected(c: Check, f: Fields)
  {
    && f.refclkDiv != 0
    && (|| (c == StopsWithoutHits && f.pinEna != 0 && f.hitEna == 0)
        || (c == CmosWithModes && f.cmosInput == 1 && (f.hires != 0 || f.combine != 0))
        || (c == FifoSpiTooSlow && f.blockwiseFifo == 1 && f.commonFifo == 1))
  }

  /** Checks 19 to 24. */
  predicate ResolutionExpected(c: Check, f: Fields)
  {
    && f.refclkDiv != 0
    && (|| (c == HiresWithoutRefclk && f.refclkEna == 0 && f.hires != 0)
        || (c == DistanceIgnoresStop34 && f.combine == 1 && (Bit(f.pinEna as bv8, 2) || Bit(f.pinEna as bv8, 3)))
        || (c == WidthCoarseDivisor && f.combine == 2 && f.refclkDiv > 60000)
        || (c == StopsWithoutRefclk && f.pinEna != 0 && f.refclkEna == 0)
        || (c == CoarseDivisor && f.refclkDiv > 100000))
  }

  /** Check 1's mask test is the pair of bits of channel i. */
  lemma StopUnmatchedBits(pinEna: U8, hitEna: U8, i: nat)
    requires i < 4
    ensures StopUnmatched(pinEna, hitEna, i) <==> Bit(pinEna as bv8, i) && !Bit(hitEna as bv8, i)
  {
    var p, h := pinEna as bv8, hitEna as bv8;
    if i == 0 {
      assert p & 1 != 0 <==> (p >> 0) & 1 == 1;
      assert h & 1 != 0 <==> (h >> 0) & 1 == 1;
    } else if i == 1 {
      assert p & 2 != 0 <==> (p >> 1) & 1 == 1;
      assert h & 2 != 0 <==> (h >> 1) & 1 == 1;
    } else if i == 2 {
      assert p & 4 != 0 <==> (p >> 2) & 1 == 1;
      assert h & 4 != 0 <==> (h >> 2) & 1 == 1;
    } else {
      assert p & 8 != 0 <==> (p >> 3) & 1 == 1;
      assert h & 8 != 0 <==> (h >> 3) & 1 == 1;
    }
  }

  /** Check 1 over channels 0..n-1 reports exactly the unmatched channels below n. */
  lemma {:induction false} StopChecksReport(log: Log, pinEna: U8, hitEna: U8, n: nat, c: Check)
    requires n <= 4
    ensures c in StopChecks(log, pinEna, hitEna, n).findings <==>
      c in log.findings || (c.StopWithoutHit? && c.channel < n && Bit(pinEna as bv8, c.channel) && !Bit(hitEna as bv8, c.channel))
  {
    if n > 0 {
      StopChecksReport(log, pinEna, hitEna, n - 1, c);
      StopUnmatchedBits(pinEna, hitEna, n - 1);
    }
  }

  /** The masks of checks 10, 11 and 20 on a decoded 4-bit field. */
  lemma MaskBits(x: U8)
    requires x < 16
    ensures (x as bv8) & 0x03 != 0x03 <==> !(Bit(x as bv8, 0) && Bit(x as bv8, 1))
    ensures (x as bv8) & 0x0C != 0 <==> Bit(x as bv8, 2) || Bit(x as bv8, 3)
    ensures (x as bv8) & 0xF0 == 0
  {
    var b := x as bv8;
    assert b < 16;
  }

  /** Below 2^32 the program's 32-bit store keeps the quotient: every divisor from 233 on. */
  lemma TruncationKeepsQuotient(div: nat)
    requires div >= 233
    ensures 1000000000000 / div < 0x1_0000_0000
    ensures (1000000000000 / div) % 0x1_0000_0000 == 1000000000000 / div
    ensures RefclkFrequency(div, AsWritten) == RefclkFrequency(div, Intended)
  {
    var q := 1000000000000 / div;
    assert q * div <= 1000000000000;
    MulLe(233, div, q);
  }

  /** The full quotient 10^12 / div is below 20 MHz exactly when the divisor exceeds 50000 ps. */
  lemma LowFrequencyIffCoarse(div: nat)
    requires div != 0
    ensures 1000000000000 / div < 20000000 <==> div > 50000
  {
    var q := 1000000000000 / div;
    var r := 1000000000000 % div;
    assert q * div + r == 1000000000000 && 0 <= r < div;
    if div > 50000 {
      MulLe(50001, div, q);
    } else {
      MulLe(div, 50000, q);
    }
  }


  lemma FieldBlockReports(log: Log, f: Fields, reading: Reading, c: Check)
    requires InRange(f)
    ensures c in FieldBlock(log, f, reading).findings <==> c in log.findings || FieldExpected(c, f, reading)
  {
  }

  lemma DivisorBlockReports(log: Log, f: Fields, c: Check)
    requires InRange(f)
    ensures c in DivisorBlock(log, f).findings <==> c in log.findings || DivisorExpected(c, f)
  {
    RangeReports(log, f, c);
    CmosReports(RangeBlock(log, f), f, c);
  }

  lemma RangeReports(log: Log, f: Fields, c: Check)
    ensures c in RangeBlock(log, f).findings <==>
      (|| c in log.findings
       || (c == DivisorZero && f.refclkDiv == 0)
       || (c == DivisorTooLow && 0 < f.refclkDiv < 10000)
       || (c == DivisorTooHigh && f.refclkDiv > 1000000))
  {
  }

  lemma CmosReports(log: Log, f: Fields, c: Check)
    requires InRange(f)
    ensures c in CmosBlock(log, f).findings <==>
      (|| c in log.findings
       || (c == CmosWithoutStops && f.cmosInput == 1 && f.pinEna == 0)
       || (c == CmosWithoutRefclk && f.cmosInput == 1 && f.refclkEna == 0))
  {
  }

  lemma ClockBlockReports(log: Log, f: Fields, reading: Reading, c: Check)
    requires InRange(f) && f.refclkDiv != 0
    ensures c in ClockBlock(log, f, reading).findings <==> c in log.findings || ClockExpected(c, f, reading)
  {
    LowFrequencyIffCoarse(f.refclkDiv);
  }

  lemma PinBlockReports(log: Log, f: Fields, c: Check)
    requires InRange(f) && f.refclkDiv != 0
    ensures c in PinBlock(log, f).findings <==> c in log.findings || PinExpected(c, f)
  {
    MaskBits(f.pinEna);
    MaskBits(f.hitEna);
  }

  lemma HiresBlockReports(log: Log, f: Fields, c: Check)
    requires InRange(f) && f.refclkDiv != 0
    ensures c in HiresBlock(log, f).findings <==> c in log.findings || HiresExpected(c, f)
  {
  }

  lemma ModeBlockReports(log: Log, f: Fields, c: Check)
    requires InRange(f) && f.refclkDiv != 0
    ensures c in ModeBlock(log, f).findings <==> c in log.findings || ModeExpected(c, f)
  {
  }

  lemma RefclkNeedsReports(log: Log, f: Fields, c: Check)
    requires InRange(f) && f.refclkDiv != 0
    ensures c in RefclkNeedsBlock(log, f).findings <==>
      (|| c in log.findings
       || (c == HiresWithoutRefclk && f.refclkEna == 0 && f.hires != 0)
       || (c == DistanceIgnoresStop34 && f.combine == 1 && (Bit(f.pinEna as bv8, 2) || Bit(f.pinEna as bv8, 3))))
  {
    MaskBits(f.pinEna);
  }

  lemma DivisorNeedsReports(log: Log, f: Fields, c: Check)
    ensures c in DivisorNeedsBlock(log, f).findings <==>
      (|| c in log.findings
       || (c == WidthCoarseDivisor && f.combine == 2 && f.refclkDiv > 60000)
       || (c == StopsWithoutRefclk && f.pinEna != 0 && f.refclkEna == 0)
       || (c == CoarseDivisor && f.refclkDiv > 100000))
  {
  }

  lemma ResolutionBlockReports(log: Log, f: Fields, c: Check)
    requires InRange(f) && f.refclkDiv != 0
    ensures c in ResolutionBlock(log, f).findings <==> c in log.findings || ResolutionExpected(c, f)
  {
    RefclkNeedsReports(log, f, c);
    DivisorNeedsReports(RefclkNeedsBlock(log, f), f, c);
  }

  lemma EarlyReports(f: Fields, reading: Reading, c: Check)
    requires InRange(f)
    ensures c in EarlyChecks(f, reading).findings <==>
      StopExpected(c, f) || FieldExpected(c, f, reading) || DivisorExpected(c, f)
  {
    var l1 := StopChecks(Log([], true), f.pinEna, f.hitEna, 4);
    StopChecksReport(Log([], true), f.pinEna, f.hitEna, 4, c);
    var l2 := FieldBlock(l1, f, reading);
    FieldBlockReports(l1, f, reading, c);
    DivisorBlockReports(l2, f, c);
  }

  lemma LateReports(log: Log, f: Fields, reading: Reading, c: Check)
    requires InRange(f) && f.refclkDiv != 0
    ensures c in ResolutionBlock(ModeBlock(HiresBlock(PinBlock(ClockBlock(log, f, reading), f), f), f), f).findings <==>
      (|| c in log.findings
       || ClockExpected(c, f, reading) || PinExpected(c, f) || HiresExpected(c, f)
       || ModeExpected(c, f) || ResolutionExpected(c, f))
  {
    var l4 := ClockBlock(log, f, reading);
    ClockBlockReports(log, f, reading, c);
    var l5 := PinBlock(l4, f);
    PinBlockReports(l4, f, c);
    var l6 := HiresBlock(l5, f);
    HiresBlockReports(l5, f, c);
    var l7 := ModeBlock(l6, f);
    ModeBlockReports(l6, f, c);
    ResolutionBlockReports(l7, f, c);
  }

  lemma RunLateReports(f: Fields, reading: Reading, c: Check)
    requires InRange(f) && f.refclkDiv != 0
    ensures c in Run(f, reading).findings <==>
      (|| c in EarlyChecks(f, reading).findings
       || ClockExpected(c, f, reading) || PinExpected(c, f) || HiresExpected(c, f)
       || ModeExpected(c, f) || ResolutionExpected(c, f))
  {
    LateReports(EarlyChecks(f, reading), f, reading, c);
  }

  /** A zero divisor stops the run at check 8: it has the findings of checks 1 to 7 and none of the later ones. */
  lemma UnreachedChecks(f: Fields, reading: Reading, c: Check)
    requires f.refclkDiv == 0
    ensures Run(f, reading).findings == EarlyChecks(f, reading).findings
    ensures !ClockExpected(c, f, reading) && !PinExpected(c, f) && !HiresExpected(c, f)
    ensures !ModeExpected(c, f) && !ResolutionExpected(c, f)
  {
  }

  /** The run reports a check exactly when its condition holds of the decoded fields. */
  lemma ReportsExactlyExpected(f: Fields, reading: Reading, c: Check)
    requires InRange(f)
    ensures c in Run(f, reading).findings <==> Expected(c, f, reading)
  {
    EarlyReports(f, reading, c);
    if f.refclkDiv != 0 {
      RunLateReports(f, reading, c);
    } else {
      UnreachedChecks(f, reading, c);
    }
  }

  lemma RunReportsExactly(f: Fields, reading: Reading)
    requires InRange(f)
    ensures forall c :: c in Run(f, reading).findings <==> Expected(c, f, reading)
  {
    forall c {
      ReportsExactlyExpected(f, reading, c);
    }
  }

  /** One ERROR among the findings makes the verdict false. */
  lemma ErrorFails(findings: seq<Check>, c: Check)
    requires c in findings && c.Level() == Error
    ensures !NoErrors(findings)
  {
    var i :| 0 <= i < |findings| && findings[i] == c;
  }

  /** 10^12 / 232 = 4310344827 is above 20 MHz but does not fit in 32 bits; cut to 32 bits it is 15377531. */
  lemma Quotient232()
    ensures 1000000000000 / 232 == 4310344827
    ensures 4310344827 % 0x1_0000_0000 == 15377531
  {
  }

  /** What a list of findings that reports exactly the expected checks says about particular checks. */
  lemma ExactReportFacts(findings: seq<Check>, f: Fields, reading: Reading)
    requires InRange(f)
    requires forall c :: c in findings <==> Expected(c, f, reading)
    ensures InvalidHires in findings <==> reading == AsWritten || f.hires == 3
    ensures f.refclkDiv != 0 ==>
      (XoscWithRefclkPin in findings || NoClockSource in findings <==> (f.xosc == 1 <==> f.refclkEna == 1))
    ensures DivisorZero in findings <==> f.refclkDiv == 0
    ensures DivisorTooLow in findings <==> 0 < f.refclkDiv < 10000
    ensures DivisorTooHigh in findings <==> f.refclkDiv > 1000000
    ensures HitBeyondStop4 !in findings
    ensures forall ch | 0 <= ch < 4 :: StopWithoutHit(ch) in findings <==> Bit(f.pinEna as bv8, ch) && !Bit(f.hitEna as bv8, ch)
    ensures reading == Intended && f.refclkDiv != 0 ==> (LowRefclkFrequency in findings <==> f.refclkDiv > 50000)
    ensures f.refclkDiv >= 233 ==> (LowRefclkFrequency in findings <==> f.refclkDiv > 50000)
    ensures f.refclkDiv == 232 ==> (LowRefclkFrequency in findings <==> reading == AsWritten)
  {
    ExactFieldFacts(findings, f, reading);
    ExactClockFacts(findings, f, reading);
    ExactStopFacts(findings, f, reading);
  }

  lemma ExactFieldFacts(findings: seq<Check>, f: Fields, reading: Reading)
    requires InRange(f)
    requires forall c :: c in findings <==> Expected(c, f, reading)
    ensures InvalidHires in findings <==> reading == AsWritten || f.hires == 3
    ensures DivisorZero in findings <==> f.refclkDiv == 0
    ensures DivisorTooLow in findings <==> 0 < f.refclkDiv < 10000
    ensures DivisorTooHigh in findings <==> f.refclkDiv > 1000000
    ensures HitBeyondStop4 !in findings
  {
    assert InvalidHires in findings <==> Expected(InvalidHires, f, reading);
    assert DivisorZero in findings <==> Expected(DivisorZero, f, reading);
    assert DivisorTooLow in findings <==> Expected(DivisorTooLow, f, reading);
    assert DivisorTooHigh in findings <==> Expected(DivisorTooHigh, f, reading);
    assert HitBeyondStop4 in findings <==> Expected(HitBeyondStop4, f, reading);
  }

  lemma ExactClockFacts(findings: seq<Check>, f: Fields, reading: Reading)
    requires InRange(f)
    requires forall c :: c in findings <==> Expected(c, f, reading)
    ensures f.refclkDiv != 0 ==>
      (XoscWithRefclkPin in findings || NoClockSource in findings <==> (f.xosc == 1 <==> f.refclkEna == 1))
    ensures reading == Intended && f.refclkDiv != 0 ==> (LowRefclkFrequency in findings <==> f.refclkDiv > 50000)
    ensures f.refclkDiv >= 233 ==> (LowRefclkFrequency in findings <==> f.refclkDiv > 50000)
    ensures f.refclkDiv == 232 ==> (LowRefclkFrequency in findings <==> reading == AsWritten)
  {
    assert XoscWithRefclkPin in findings <==> Expected(XoscWithRefclkPin, f, reading);
    assert NoClockSource in findings <==> Expected(NoClockSource, f, reading);
    assert LowRefclkFrequency in findings <==> ClockExpected(LowRefclkFrequency, f, reading);
    if f.refclkDiv != 0 {
      LowFrequencyIffCoarse(f.refclkDiv);
    }
    if f.refclkDiv >= 233 {
      TruncationKeepsQuotient(f.refclkDiv);
    }
    if f.refclkDiv == 232 {
      Quotient232();
    }
  }

  lemma ExactStopFacts(findings: seq<Check>, f: Fields, reading: Reading)
    requires forall c :: c in findings <==> Expected(c, f, reading)
    ensures forall ch | 0 <= ch < 4 :: StopWithoutHit(ch) in findings <==> Bit(f.pinEna as bv8, ch) && !Bit(f.hitEna as bv8, ch)
  {
    forall ch | 0 <= ch < 4
      ensures StopWithoutHit(ch) in findings <==> Bit(f.pinEna as bv8, ch) && !Bit(f.hitEna as bv8, ch)
    {
      assert StopWithoutHit(ch) in findings <==> Expected(StopWithoutHit(ch), f, reading);
    }
  }

  // ---------------------------------------------------------------------------
  // Consequences.

  /** As written, check 4's disjunction holds for every code: every image is rejected. */
  lemma AsWrittenRejectsEverything(f: Fields)
    requires InRange(f)
    ensures InvalidHires in Run(f, AsWritten).findings
    ensures Run(f, AsWritten).Completed? ==> !Run(f, AsWritten).ok
  {
    RunReportsExactly(f, AsWritten);
    ExactReportFacts(Run(f, AsWritten).findings, f, AsWritten);
    ErrorFails(Run(f, AsWritten).findings, InvalidHires);
  }

  /** Hence, as written, the validator accepts no image at all. */
  lemma AsWrittenRejectsEveryImage(img: Image)
    ensures InvalidHires in Validate(img, AsWritten).findings
    ensures Validate(img, AsWritten).Completed? ==> !Validate(img, AsWritten).ok
  {
    AsWrittenRejectsEverything(Decode(img));
  }

  /** Corrected, check 4 rejects exactly the undefined code 3 of the two-bit HIRES field. */
  lemma IntendedHiresCheck(f: Fields)
    requires InRange(f)
    ensures InvalidHires in Run(f, Intended).findings <==> f.hires == 3
  {
    RunReportsExactly(f, Intended);
    ExactReportFacts(Run(f, Intended).findings, f, Intended);
  }

  /** With a non-zero divisor exactly one clock source must be on: the XOSC bit or the REFCLK pin. */
  lemma ClockSourceChecks(f: Fields, reading: Reading)
    requires InRange(f) && f.refclkDiv != 0
    ensures XoscWithRefclkPin in Run(f, reading).findings || NoClockSource in Run(f, reading).findings
      <==> (f.xosc == 1 <==> f.refclkEna == 1)
  {
    RunReportsExactly(f, reading);
    ExactReportFacts(Run(f, reading).findings, f, reading);
  }

  /** Check 6 reports at most one range finding, and a zero divisor stops the run at check 8's division. */
  lemma DivisorRange(f: Fields, reading: Reading)
    requires InRange(f)
    ensures DivisorZero in Run(f, reading).findings <==> Run(f, reading).DivisionByZero?
    ensures DivisorTooLow in Run(f, reading).findings <==> 0 < f.refclkDiv < 10000
    ensures DivisorTooHigh in Run(f, reading).findings <==> f.refclkDiv > 1000000
  {
    RunReportsExactly(f, reading);
    ExactReportFacts(Run(f, reading).findings, f, reading);
  }

  /** Check 11 never fires: the decoded HIT_ENA field has no bits beyond the fourth. */
  lemma HitBeyondStop4Never(f: Fields, reading: Reading)
    requires InRange(f)
    ensures HitBeyondStop4 !in Run(f, reading).findings
  {
    RunReportsExactly(f, reading);
    ExactReportFacts(Run(f, reading).findings, f, reading);
  }

  /** Channel ch is reported by check 1 exactly when its STOP pin is on and its HIT_ENA bit is off. */
  lemma StopPinReport(f: Fields, reading: Reading, ch: nat)
    requires InRange(f) && ch < 4
    ensures StopWithoutHit(ch) in Run(f, reading).findings <==> Bit(f.pinEna as bv8, ch) && !Bit(f.hitEna as bv8, ch)
  {
    RunReportsExactly(f, reading);
    ExactReportFacts(Run(f, reading).findings, f, reading);
  }

  /** The compiled-in image: as written it is rejected for check 4 alone; corrected it passes with two warnings. */
  lemma DefaultImageValidation()
    ensures Validate(DefaultImage, AsWritten) == Completed([InvalidHires, LowRefclkFrequency, CoarseDivisor], false)
    ensures Validate(DefaultImage, Intended) == Completed([LowRefclkFrequency, CoarseDivisor], true)
  {
    DefaultImageDecodes();
    DefaultFieldsRun(AsWritten);
    DefaultFieldsRun(Intended);
  }

  /** The checks over the compiled-in image's fields: check 4 as written, then the two divisor warnings. */
  lemma DefaultFieldsRun(reading: Reading)
    ensures Run(Fields(1, 1, 1, 0, 0, 0, 0, 200000, 1, 0, 0), reading) ==
      if reading == AsWritten then Completed([InvalidHires, LowRefclkFrequency, CoarseDivisor], false)
      else Completed([LowRefclkFrequency, CoarseDivisor], true)
  {
    var early := EarlyChecks(Fields(1, 1, 1, 0, 0, 0, 0, 200000, 1, 0, 0), reading);
    DefaultFieldsEarly(reading);
    DefaultFieldsLate(early, reading);
    assert [InvalidHires] + [LowRefclkFrequency, CoarseDivisor] == [InvalidHires, LowRefclkFrequency, CoarseDivisor];
    assert [] + [LowRefclkFrequency, CoarseDivisor] == [LowRefclkFrequency, CoarseDivisor];
  }

  lemma DefaultFieldsEarly(reading: Reading)
    ensures EarlyChecks(Fields(1, 1, 1, 0, 0, 0, 0, 200000, 1, 0, 0), reading) ==
      if reading == AsWritten then Log([InvalidHires], false) else Log([], true)
  {
    var l1 := StopChecks(Log([], true), 1, 1, 4);
    assert l1 == Log([], true);
  }

  lemma DefaultFieldsLate(log: Log, reading: Reading)
    ensures
      var f := Fields(1, 1, 1, 0, 0, 0, 0, 200000, 1, 0, 0);
      ResolutionBlock(ModeBlock(HiresBlock(PinBlock(ClockBlock(log, f, reading), f), f), f), f)
      == Log(log.findings + [LowRefclkFrequency, CoarseDivisor], log.ok)
  {
    var f := Fields(1, 1, 1, 0, 0, 0, 0, 200000, 1, 0, 0);
    assert RefclkFrequency(200000, reading) == 5000000;
    var l4 := ClockBlock(log, f, reading);
    assert l4 == Log(log.findings + [LowRefclkFrequency], log.ok);
    var l7 := ModeBlock(HiresBlock(PinBlock(l4, f), f), f);
    assert l7 == l4;
    assert (log.findings + [LowRefclkFrequency]) + [CoarseDivisor] == log.findings + [LowRefclkFrequency, CoarseDivisor];
  }

  /** The compiled-in image decodes to pins STOP1 and HIT1, REFCLK on, a 200000 ps divisor, CMOS input, no XOSC. */
  lemma DefaultImageDecodes()
    ensures Decode(DefaultImage) == Fields(1, 1, 1, 0, 0, 0, 0, 200000, 1, 0, 0)
  {
    DefaultImageFields();
  }

  /**
   * As written, a divisor of 232 ps (a 4.31 GHz REFCLK) draws the low-frequency
   * warning, because the quotient 4310344827 is stored in 32 bits as 15377531;
   * corrected, it does not.
   */
  lemma TruncatedFrequencyWarns(f: Fields)
    requires InRange(f) && f.refclkDiv == 232
    ensures 1000000000000 / f.refclkDiv >= 20000000
    ensures LowRefclkFrequency in Run(f, AsWritten).findings
    ensures LowRefclkFrequency !in Run(f, Intended).findings
  {
    Quotient232();
    RunReportsExactly(f, AsWritten);
    ExactReportFacts(Run(f, AsWritten).findings, f, AsWritten);
    RunReportsExactly(f, Intended);
    ExactReportFacts(Run(f, Intended).findings, f, Intended);
  }

  /** Corrected, check 8 warns exactly when the divisor exceeds 50000 ps, that is below 20 MHz. */
  lemma IntendedFrequencyWarning(f: Fields)
    requires InRange(f) && f.refclkDiv != 0
    ensures LowRefclkFrequency in Run(f, Intended).findings <==> f.refclkDiv > 50000
  {
    RunReportsExactly(f, Intended);
    ExactReportFacts(Run(f, Intended).findings, f, Intended);
  }

  /** From a divisor of 233 ps on, the two readings of check 8 agree. */
  lemma FrequencyReadingsAgree(f: Fields)
    requires InRange(f) && f.refclkDiv >= 233
    ensures LowRefclkFrequency in Run(f, AsWritten).findings <==> LowRefclkFrequency in Run(f, Intended).findings
  {
    RunReportsExactly(f, AsWritten);
    ExactReportFacts(Run(f, AsWritten).findings, f, AsWritten);
    RunReportsExactly(f, Intended);
    ExactReportFacts(Run(f, Intended).findings, f, Intended);
  }
}
