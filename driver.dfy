/**
 * The driver as the program runs it: the global register image, the `pins`
 * answer buffer, the result arrays and the `measure` and `clk_reset` flags,
 * updated in place by the setters, the configuration dialogue, the bring-up
 * in main and one iteration of the acquisition loop. Every method is proved
 * against the functions of Registers, Protocol, Validator and Control.
 */
module Driver {
  import opened Registers
  import opened Spi
  import opened Protocol
  import opened Validator
  import opened Control

  /**
   * The operator's answers to the configuration dialogue, as the setters
   * receive them: four STOP answers, the REFCLK pin, four HIT_ENA answers,
   * the combine character, the high-resolution number, the two FIFO answers,
   * the REFCLK frequency in Hz, XOSC and CMOS input.
   */
  datatype Answers = Answers(
    stops: seq<bv8>, refclk: bv8, hits: seq<bv8>, combine: char, hires: bv8,
    commonFifo: bv8, blockwiseFifo: bv8, freqHz: bv32, xosc: bv8, cmos: bv8)

  /** Four answers per pin group, and a frequency the divisor computation can divide by. */
  predicate WellFormed(a: Answers)
  {
    |a.stops| == 4 && |a.hits| == 4 && a.freqHz != 0
  }

  /** The image after the dialogue's setters, applied in the dialogue's order. */
  function Configured(img: Image, a: Answers): Image
    requires WellFormed(a)
  {
    ApplyAnswers(img, a, ComputeDivisionsFromFreq(a.freqHz))
  }

  /** The setters with the divisor already computed from the frequency. */
  function ApplyAnswers(img: Image, a: Answers, divisions: bv32): Image
    requires WellFormed(a)
  {
    ClockAnswers(ModeAnswers(PinAnswers(img, a), a), divisions, a.xosc, a.cmos)
  }

  /** The STOP pins, the REFCLK pin and the HIT_ENA pins (bytes 0 and 1). */
  function PinAnswers(img: Image, a: Answers): Image
    requires WellFormed(a)
  {
    SetInputProcessing(SetRefclk(SetInputPins(img, a.stops), a.refclk), a.hits)
  }

  /** Channel combining, high resolution and the FIFO modes (bytes 1 and 2). */
  function ModeAnswers(img: Image, a: Answers): Image
  {
    var combined := SetChannelCombine(img, ChannelCombineModeConverter(a.combine));
    SetBlockwiseFifo(SetCommonFifo(SetHires(combined, HiresModeConverter(a.hires)), a.commonFifo), a.blockwiseFifo)
  }

  /** The REFCLK divisor, XOSC and CMOS input (bytes 3 to 5, 7 and 16). */
  function ClockAnswers(img: Image, divisions: bv32, xosc: bv8, cmos: bv8): Image
  {
    SetCmosInput(SetRefclkByXosc(SetRefclkDivisions(img, divisions), xosc), cmos)
  }

  lemma PinAnswersFields(img: Image, a: Answers)
    requires WellFormed(a)
    ensures var r := PinAnswers(img, a);
      && (forall i | 0 <= i < 4 :: Bit(PinEna(r), i) <==> a.stops[i] != 0)
      && (forall i | 0 <= i < 4 :: Bit(HitEna(r), i) <==> a.hits[i] != 0)
      && RefclkEna(r) == a.refclk & 1
      && PinsDisabled(r) == PinsDisabled(img) && RefclkReset(r) == RefclkReset(img)
      && r[1] & 0xF0 == img[1] & 0xF0 && r[2..] == img[2..]
  {
    var i1 := SetInputPins(img, a.stops);
    var i2 := SetRefclk(i1, a.refclk);
    assert PinEna(i2) == PinEna(i1);
    assert forall i | 2 <= i < 17 :: PinAnswers(img, a)[i] == img[i];
  }

  lemma ModeAnswersFields(img: Image, a: Answers)
    ensures var r := ModeAnswers(img, a);
      && ChannelCombine(r) == ChannelCombineModeConverter(a.combine).Code()
      && Hires(r) == HiresModeConverter(a.hires).Code()
      && CommonFifo(r) == a.commonFifo & 1 && BlockwiseFifo(r) == a.blockwiseFifo & 1
      && r[0] == img[0] && r[1] & 0x0F == img[1] & 0x0F && r[2] & 0x3F == img[2] & 0x3F && r[3..] == img[3..]
  {
    var i4 := SetChannelCombine(img, ChannelCombineModeConverter(a.combine));
    var i5 := SetHires(i4, HiresModeConverter(a.hires));
    var i6 := SetCommonFifo(i5, a.commonFifo);
    assert ChannelCombine(i5) == ChannelCombine(i4);
    assert CommonFifo(ModeAnswers(img, a)) == CommonFifo(i6);
    assert forall i | 3 <= i < 17 :: ModeAnswers(img, a)[i] == img[i];
  }

  lemma ClockAnswersFields(img: Image, divisions: bv32, xosc: bv8, cmos: bv8)
    ensures var r := ClockAnswers(img, divisions, xosc, cmos);
      && RefclkDiv(r) == divisions & 0xFFFFF
      && Xosc(r) == xosc & 1 && CmosInput(r) == cmos & 1
      && r[..3] == img[..3] && r[5] & 0xF0 == img[5] & 0xF0 && r[6] == img[6] && r[7] & 0x7F == img[7] & 0x7F
      && r[8..16] == img[8..16] && r[16] & !0x04 == img[16] & !0x04
  {
    var i8 := SetRefclkDivisions(img, divisions);
    var r := ClockAnswers(img, divisions, xosc, cmos);
    assert RefclkDiv(r) == RefclkDiv(i8);
    assert forall i | 0 <= i < 3 :: r[i] == img[i];
    assert forall i | 8 <= i < 16 :: r[i] == img[i];
  }

  /**
   * Every field the dialogue sets reads back as answered, and the run-time
   * bits 6 and 7 of byte 0 and the registers the dialogue does not touch keep
   * their values. The divisor is the one the frequency gives (see
   * Registers.DivisorFromFrequency).
   */
  lemma ConfiguredFields(img: Image, a: Answers, divisions: bv32)
    requires WellFormed(a)
    ensures var r := ApplyAnswers(img, a, divisions);
      && (forall i | 0 <= i < 4 :: Bit(PinEna(r), i) <==> a.stops[i] != 0)
      && (forall i | 0 <= i < 4 :: Bit(HitEna(r), i) <==> a.hits[i] != 0)
      && RefclkEna(r) == a.refclk & 1
      && PinsDisabled(r) == PinsDisabled(img) && RefclkReset(r) == RefclkReset(img)
    ensures var r := ApplyAnswers(img, a, divisions);
      && ChannelCombine(r) == ChannelCombineModeConverter(a.combine).Code()
      && Hires(r) == HiresModeConverter(a.hires).Code()
      && CommonFifo(r) == a.commonFifo & 1 && BlockwiseFifo(r) == a.blockwiseFifo & 1
    ensures var r := ApplyAnswers(img, a, divisions);
      && RefclkDiv(r) == divisions & 0xFFFFF
      && Xosc(r) == a.xosc & 1 && CmosInput(r) == a.cmos & 1
    ensures var r := ApplyAnswers(img, a, divisions);
      && r[5] & 0xF0 == img[5] & 0xF0 && r[6] == img[6] && r[7] & 0x7F == img[7] & 0x7F
      && r[8..16] == img[8..16] && r[16] & !0x04 == img[16] & !0x04
  {
    var p := PinAnswers(img, a);
    var m := ModeAnswers(p, a);
    var r := ClockAnswers(m, divisions, a.xosc, a.cmos);
    PinAnswersFields(img, a);
    ModeAnswersFields(p, a);
    ClockAnswersFields(m, divisions, a.xosc, a.cmos);
    assert r[0] == p[0] && r[1] == m[1] && r[2] == m[2];
    assert m[5] == img[5] && m[6] == img[6] && m[7] == img[7] && m[16] == img[16];
    assert m[8..16] == img[8..16] by {
      assert forall i | 8 <= i < 16 :: m[i] == img[i];
    }
  }

  /** The channels the loop prints, among the first n: those whose entry of p is non-zero, in order. */
  function Shown(p: seq<bv8>, n: nat): (r: seq<nat>)
    requires n <= |p|
    ensures forall ch: nat :: ch in r <==> ch < n && p[ch] != 0
  {
    if n == 0 then [] else Shown(p, n - 1) + (if p[n - 1] != 0 then [n - 1] else [])
  }

  /**
   * The loop prints the channels whose HIT_ENA answer was non-zero, since the
   * HIT_ENA answers overwrite the STOP answers in the shared buffer: with only
   * STOP1 enabled and only HIT_ENA2 enabled, the chip measures on STOP1 and
   * the loop prints channel index 1 (CH2).
   */
  lemma ShownFollowsHitAnswers(img: Image, divisions: bv32)
    ensures var a := Answers([1, 0, 0, 0], 1, [0, 1, 0, 0], 'N', 0, 0, 0, 5000000, 0, 0);
      var r := ApplyAnswers(img, a, divisions);
      && Bit(PinEna(r), 0) && !Bit(PinEna(r), 1)
      && Shown(a.hits, 4) == [1]
  {
    var a := Answers([1, 0, 0, 0], 1, [0, 1, 0, 0], 'N', 0, 0, 0, 5000000, 0, 0);
    ConfiguredFields(img, a, divisions);
    assert Shown(a.hits, 1) == [];
    assert Shown(a.hits, 2) == [1];
  }

  /** images[k] is the image after k dialogues, with the answers in order. */
  ghost predicate Dialogues(answers: seq<Answers>, images: seq<Image>)
  {
    && 0 < |images| <= |answers| + 1
    && forall k | 0 <= k < |images| - 1 :: WellFormed(answers[k]) && images[k + 1] == Configured(images[k], answers[k])
  }

  /** One more dialogue extends the list. */
  lemma DialoguesExtend(answers: seq<Answers>, images: seq<Image>, img: Image)
    requires Dialogues(answers, images) && |images| <= |answers| && WellFormed(answers[|images| - 1])
    requires img == Configured(images[|images| - 1], answers[|images| - 1])
    ensures Dialogues(answers, images + [img])
    ensures (images + [img])[0] == images[0] && (images + [img])[|images|] == img
  {
    var next := images + [img];
    forall k | 0 <= k < |next| - 1
      ensures WellFormed(answers[k]) && next[k + 1] == Configured(next[k], answers[k])
    {
      if k < |images| - 1 {
        assert next[k + 1] == images[k + 1] && next[k] == images[k];
      }
    }
  }

  /** The validator accepted the image. */
  predicate Accepted(v: Validation)
  {
    v.Completed? && v.ok
  }

  /** The opcodes that open the frames. */
  function Opcodes(frames: seq<Frame>): (r: seq<bv8>)
    ensures |r| == |frames|
    ensures forall i | 0 <= i < |frames| :: r[i] == Opcode(frames[i])
  {
    seq(|frames|, i requires 0 <= i < |frames| => Opcode(frames[i]))
  }

  lemma OpcodesAppend(a: seq<Frame>, b: seq<Frame>)
    ensures Opcodes(a + b) == Opcodes(a) + Opcodes(b)
  {
  }

  /** How an iteration of the loop ends. */
  datatype Outcome =
    | Continued
      /** A read-back did not match: the program waits for 'q' to reboot. */
    | Halted
      /** 'q': the watchdog reboots the controller. */
    | Rebooted

  // ---------------------------------------------------------------------------
  // What the bus records when the driver performs a plan.

  /** The frames a run of actions leaves on the bus, the read position after it, and whether every read-back agreed. */
  datatype Exchange = Exchange(frames: seq<Frame>, pos: nat, agreed: bool)

  /**
   * One action from read position p: a write and its read-back (which reads
   * up to the first differing byte), the init opcode, or a 24-byte results read.
   */
  function PerformOne(bus: Bus, p: nat, a: Action): (r: Exchange)
    ensures r.pos >= p && |r.frames| == |Codes(a)|
    ensures !r.agreed <==> a.WriteVerify? && bus.Incoming(p, ImageSize) != a.image
  {
    match a
    case WriteVerify(img) =>
      var rx := bus.Incoming(p, ImageSize);
      Exchange([WriteConfigFrame(img), VerifyConfigFrame(img, rx)], p + VerifyLength(img, rx), rx == img)
    case Start => Exchange([InitFrame], p, true)
    case FetchResults =>
      var rx := bus.Incoming(p, ResultBytes);
      Exchange([ReadResultsFrame(rx)], p + ResultBytes, true)
  }

  /**
   * The actions in order from read position p, up to and including the first
   * write whose read-back differs from the image written: after it the
   * program only waits for 'q'.
   */
  function Perform(bus: Bus, p: nat, actions: seq<Action>): (r: Exchange)
    ensures r.pos >= p
    decreases |actions|
  {
    if actions == [] then Exchange([], p, true)
    else
      var first := PerformOne(bus, p, actions[0]);
      if !first.agreed then first
      else
        var rest := Perform(bus, first.pos, actions[1..]);
        Exchange(first.frames + rest.frames, rest.pos, rest.agreed)
  }

  /** A run agrees exactly when every planned write reads back as written, each at the position the run has reached. */
  lemma {:induction false} PerformAgreed(bus: Bus, p: nat, actions: seq<Action>)
    ensures Perform(bus, p, actions).agreed <==>
      forall k | 0 <= k < |actions| :: PerformOne(bus, Perform(bus, p, actions[..k]).pos, actions[k]).agreed
    decreases |actions|
  {
    if actions != [] {
      var first := PerformOne(bus, p, actions[0]);
      var tail := actions[1..];
      assert actions[..0] == [];
      if first.agreed {
        PerformAgreed(bus, first.pos, tail);
        forall k | 1 <= k < |actions|
          ensures Perform(bus, p, actions[..k]).pos == Perform(bus, first.pos, tail[..k - 1]).pos
        {
          assert actions[..k][0] == actions[0] && actions[..k][1..] == tail[..k - 1];
        }
        forall k | 1 <= k < |actions|
          ensures actions[k] == tail[k - 1]
        {
        }
        if Perform(bus, p, actions).agreed {
          forall k | 0 <= k < |actions|
            ensures PerformOne(bus, Perform(bus, p, actions[..k]).pos, actions[k]).agreed
          {
            if k > 0 {
              assert PerformOne(bus, Perform(bus, first.pos, tail[..k - 1]).pos, tail[k - 1]).agreed;
            }
          }
        } else {
          var j :| 0 <= j < |tail| && !PerformOne(bus, Perform(bus, first.pos, tail[..j]).pos, tail[j]).agreed;
          assert !PerformOne(bus, Perform(bus, p, actions[..j + 1]).pos, actions[j + 1]).agreed;
        }
      }
    }
  }

  /** Performing a and then b: b runs only if every read-back of a agreed. */
  lemma {:induction false} PerformAppend(bus: Bus, p: nat, a: seq<Action>, b: seq<Action>)
    ensures var x := Perform(bus, p, a); var y := Perform(bus, x.pos, b);
      x.agreed ==> Perform(bus, p, a + b) == Exchange(x.frames + y.frames, y.pos, y.agreed)
    ensures !Perform(bus, p, a).agreed ==> Perform(bus, p, a + b) == Perform(bus, p, a)
    decreases |a|
  {
    if a == [] {
      assert a + b == b;
    } else {
      assert (a + b)[0] == a[0] && (a + b)[1..] == a[1..] + b;
      var first := PerformOne(bus, p, a[0]);
      if first.agreed {
        PerformAppend(bus, first.pos, a[1..], b);
      }
    }
  }

  /** A single action performs as itself. */
  lemma PerformSingle(bus: Bus, p: nat, a: Action)
    ensures Perform(bus, p, [a]) == PerformOne(bus, p, a)
  {
    assert [a][1..] == [];
  }

  /** Frames recorded for a, then for b after it, are those recorded for a + b. */
  lemma PerformChain(bus: Bus, f0: seq<Frame>, f1: seq<Frame>, f2: seq<Frame>, p0: nat, a: seq<Action>, b: seq<Action>)
    requires Perform(bus, p0, a).agreed && f1 == f0 + Perform(bus, p0, a).frames
    requires f2 == f1 + Perform(bus, Perform(bus, p0, a).pos, b).frames
    ensures var y := Perform(bus, Perform(bus, p0, a).pos, b);
      f2 == f0 + Perform(bus, p0, a + b).frames && Perform(bus, p0, a + b).pos == y.pos
      && Perform(bus, p0, a + b).agreed == y.agreed
  {
    var x := Perform(bus, p0, a);
    var y := Perform(bus, x.pos, b);
    var z := Perform(bus, p0, a + b);
    JoinedRun(bus, p0, a, b, x, y, z);
    assert f0 + z.frames == f0 + (x.frames + y.frames) == f0 + x.frames + y.frames;
  }

  lemma JoinedRun(bus: Bus, p0: nat, a: seq<Action>, b: seq<Action>, x: Exchange, y: Exchange, z: Exchange)
    requires x == Perform(bus, p0, a) && x.agreed && y == Perform(bus, x.pos, b) && z == Perform(bus, p0, a + b)
    ensures z.frames == x.frames + y.frames && z.pos == y.pos && z.agreed == y.agreed
  {
    PerformAppend(bus, p0, a, b);
  }

  /** A run that stopped at a differing read-back is the run of anything that extends its plan. */
  lemma PerformStops(bus: Bus, p0: nat, a: seq<Action>, b: seq<Action>)
    requires !Perform(bus, p0, a).agreed
    ensures Perform(bus, p0, a + b) == Perform(bus, p0, a)
  {
    PerformAppend(bus, p0, a, b);
  }

  /** The frames of an action open with its opcodes. */
  lemma OpcodesOne(bus: Bus, p: nat, a: Action)
    ensures Opcodes(PerformOne(bus, p, a).frames) == Codes(a)
  {
  }

  /** A run in which every read-back agreed opens its frames with the planned opcodes. */
  lemma {:induction false} PerformOpcodes(bus: Bus, p: nat, actions: seq<Action>)
    requires Perform(bus, p, actions).agreed
    ensures Opcodes(Perform(bus, p, actions).frames) == ActionOpcodes(actions)
    decreases |actions|
  {
    if actions != [] {
      var first := PerformOne(bus, p, actions[0]);
      var rest := Perform(bus, first.pos, actions[1..]);
      assert Perform(bus, p, actions).frames == first.frames + rest.frames;
      PerformOpcodes(bus, first.pos, actions[1..]);
      OpcodesAppend(first.frames, rest.frames);
      OpcodesOne(bus, p, actions[0]);
      assert actions == [actions[0]] + actions[1..];
      ActionOpcodesAppend([actions[0]], actions[1..]);
      OneAction(actions[0]);
    }
  }

  /**
   * The image the chip holds after the frames, if it held chip before: the
   * payload of the last configuration write (opcode 0x80 and 17 bytes).
   */
  function ChipImage(chip: Image, frames: seq<Frame>): Image
  {
    if frames == [] then chip
    else
      var f := frames[|frames| - 1];
      if |f| == 1 + ImageSize && Opcode(f) == OpcWriteConfig then Mosi(f)[1..]
      else ChipImage(chip, frames[..|frames| - 1])
  }

  lemma {:induction false} ChipImageAppend(chip: Image, a: seq<Frame>, b: seq<Frame>)
    ensures ChipImage(chip, a + b) == ChipImage(ChipImage(chip, a), b)
    decreases |b|
  {
    if b == [] {
      assert a + b == a;
    } else {
      assert (a + b)[..|a + b| - 1] == a + b[..|b| - 1];
      ChipImageAppend(chip, a, b[..|b| - 1]);
    }
  }

  /** The chip learns an image from its write frame, and from no other frame of an action. */
  lemma ChipImageOne(chip: Image, bus: Bus, p: nat, a: Action)
    ensures ChipImage(chip, PerformOne(bus, p, a).frames) == LastWritten(chip, [a])
  {
    var frames := PerformOne(bus, p, a).frames;
    assert [a][..0] == [];
    if a.WriteVerify? {
      var w := WriteConfigFrame(a.image);
      assert Mosi(w)[1..] == a.image;
      assert frames[..1] == [w] && [w][..0] == [];
    } else {
      assert frames[..0] == [];
    }
  }

  /** A run in which every read-back agreed leaves the chip holding the last image the plan writes. */
  lemma {:induction false} PerformInSync(chip: Image, bus: Bus, p: nat, actions: seq<Action>)
    requires Perform(bus, p, actions).agreed
    ensures ChipImage(chip, Perform(bus, p, actions).frames) == LastWritten(chip, actions)
    decreases |actions|
  {
    if actions != [] {
      var first := PerformOne(bus, p, actions[0]);
      var rest := Perform(bus, first.pos, actions[1..]);
      ChipImageAppend(chip, first.frames, rest.frames);
      ChipImageOne(chip, bus, p, actions[0]);
      PerformInSync(LastWritten(chip, [actions[0]]), bus, first.pos, actions[1..]);
      assert actions == [actions[0]] + actions[1..];
      LastWrittenAppend(chip, [actions[0]], actions[1..]);
    }
  }

  /**
   * An iteration whose read-backs all agreed leaves the chip holding the
   * driver's new image: the frames on the bus keep the two in step.
   */
  lemma IterationInSync(bus: Bus, p: nat, s: State, cmd: char, before: seq<Frame>, after: seq<Frame>)
    requires ControlStep(s, cmd).Continue? && Perform(bus, p, ControlStep(s, cmd).actions).agreed
    requires after == before + Perform(bus, p, ControlStep(s, cmd).actions).frames
    ensures ChipImage(s.image, after[|before|..]) == ControlStep(s, cmd).next.image
  {
    assert after[|before|..] == Perform(bus, p, ControlStep(s, cmd).actions).frames;
    PerformInSync(s.image, bus, p, ControlStep(s, cmd).actions);
    ChipInSync(s, cmd);
  }

  class Gpx2 {
    const bus: Bus
    /** The 17 configuration registers the driver keeps and writes. */
    const config: array<bv8>
    /** The dialogue's answer buffer, shared by the STOP and HIT_ENA questions. */
    const pins: array<bv8>
    const referenceIndex: array<bv32>
    const stopResults: array<bv32>
    var measure: bool
    var clkReset: bool

    predicate Valid()
    {
      && config.Length == ImageSize && pins.Length == 4 && config != pins
      && referenceIndex.Length == 4 && stopResults.Length == 4 && referenceIndex != stopResults
    }

    /** The result arrays hold the decoding of the last 24 bytes the chip sent. */
    predicate HoldsResults()
      reads this, bus, referenceIndex, stopResults
      requires Valid()
    {
      bus.pos >= ResultBytes && DecodeResults(bus.Incoming(bus.pos - ResultBytes, ResultBytes)) == Measurement(referenceIndex[..], stopResults[..])
    }

    /** The driver's state as the control step sees it. */
    function Snapshot(): State
      reads this, config
      requires Valid()
    {
      State(config[..], measure, clkReset)
    }

    constructor (bus: Bus)
      ensures Valid() && this.bus == bus
      ensures config[..] == DefaultImage && pins[..] == [0, 0, 0, 0]
      ensures referenceIndex[..] == [0, 0, 0, 0] && stopResults[..] == [0, 0, 0, 0]
      ensures measure && !clkReset
      ensures fresh(config) && fresh(pins) && fresh(referenceIndex) && fresh(stopResults)
    {
      this.bus := bus;
      var c := new bv8[17](i requires 0 <= i < 17 => DefaultImage[i]);
      config := c;
      pins := new bv8[4](_ => 0);
      referenceIndex := new bv32[4](_ => 0);
      stopResults := new bv32[4](_ => 0);
      measure := true;
      clkReset := false;
    }

    // -------------------------------------------------------------------------
    // Field setters, in place on the image.

    /** Clears PIN_ENA and ORs in the nibble built from p, one answer at a time. */
    method SetInputPins(p: array<bv8>)
      requires Valid() && p.Length == 4 && p != config
      modifies config
      ensures config[..] == Registers.SetInputPins(old(config[..]), p[..])
    {
      config[0] := config[0] & !0x0F;
      var aux: bv8 := 0;
      for i := 0 to 4
        invariant aux == PinMask(p[..], i)
      {
        if p[i] != 0 {
          aux := aux | ((1 as bv8) << i);
        }
      }
      config[0] := config[0] | aux;
    }

    method SetRefclk(clk: bv8)
      requires Valid()
      modifies config
      ensures config[..] == Registers.SetRefclk(old(config[..]), clk)
    {
      var bit := clk & 0x1;
      config[0] := config[0] & !(1 << 4);
      config[0] := config[0] | (bit << 4);
    }

    /** Clears HIT_ENA and ORs in the nibble built from p. */
    method SetInputProcessing(p: array<bv8>)
      requires Valid() && p.Length == 4 && p != config
      modifies config
      ensures config[..] == Registers.SetInputProcessing(old(config[..]), p[..])
    {
      config[1] := config[1] & !0x0F;
      var aux: bv8 := 0;
      for i := 0 to 4
        invariant aux == PinMask(p[..], i)
      {
        if p[i] != 0 {
          aux := aux | ((1 as bv8) << i);
        }
      }
      config[1] := config[1] | aux;
    }

    method SetChannelCombine(mode: CombineMode)
      requires Valid()
      modifies config
      ensures config[..] == Registers.SetChannelCombine(old(config[..]), mode)
    {
      config[1] := config[1] & !0x30;
      config[1] := config[1] | (mode.Code() << 4);
    }

    method SetHires(mode: HiresMode)
      requires Valid()
      modifies config
      ensures config[..] == Registers.SetHires(old(config[..]), mode)
    {
      config[1] := config[1] & !0xC0;
      config[1] := config[1] | (mode.Code() << 6);
    }

    method SetCommonFifo(mode: bv8)
      requires Valid()
      modifies config
      ensures config[..] == Registers.SetCommonFifo(old(config[..]), mode)
    {
      var bit := mode & 1;
      config[2] := config[2] & !(1 << 6);
      config[2] := config[2] | (bit << 6);
    }

    method SetBlockwiseFifo(mode: bv8)
      requires Valid()
      modifies config
      ensures config[..] == Registers.SetBlockwiseFifo(old(config[..]), mode)
    {
      var bit := mode & 1;
      config[2] := config[2] & !(1 << 7);
      config[2] := config[2] | (bit << 7);
    }

    /** Bytes 3 and 4 take the low 16 bits of the 20-bit divisor, the low nibble of byte 5 the top 4. */
    method SetRefclkDivisions(divisions: bv32)
      requires Valid()
      modifies config
      ensures config[..] == Registers.SetRefclkDivisions(old(config[..]), divisions)
    {
      var d := divisions & 0xFFFFF;
      config[3] := (d & 0xFF) as bv8;
      config[4] := ((d >> 8) & 0xFF) as bv8;
      config[5] := config[5] & 0xF0;
      config[5] := config[5] | (((d >> 16) & 0x0F) as bv8);
    }

    method SetRefclkByXosc(mode: bv8)
      requires Valid()
      modifies config
      ensures config[..] == Registers.SetRefclkByXosc(old(config[..]), mode)
    {
      var bit := mode & 1;
      config[7] := config[7] & !(1 << 7);
      config[7] := config[7] | (bit << 7);
    }

    method SetCmosInput(mode: bv8)
      requires Valid()
      modifies config
      ensures config[..] == Registers.SetCmosInput(old(config[..]), mode)
    {
      var bit := mode & 1;
      config[16] := config[16] & !(1 << 2);
      config[16] := config[16] | (bit << 2);
    }

    // -------------------------------------------------------------------------
    // Run-time bits of byte 0.

    method PinsDisable()
      requires Valid()
      modifies config
      ensures config[..] == Registers.PinsDisable(old(config[..]))
    {
      config[0] := config[0] | (1 << 6);
    }

    method PinsEnable()
      requires Valid()
      modifies config
      ensures config[..] == Registers.PinsEnable(old(config[..]))
    {
      config[0] := config[0] & !(1 << 6);
    }

    method RefclkResetPulse()
      requires Valid()
      modifies config
      ensures config[..] == Registers.RefclkResetPulse(old(config[..]))
    {
      config[0] := config[0] | (1 << 7);
    }

    method RefclkResetUnpulse()
      requires Valid()
      modifies config
      ensures config[..] == Registers.RefclkResetUnpulse(old(config[..]))
    {
      config[0] := config[0] & !(1 << 7);
    }

    // -------------------------------------------------------------------------
    // The configuration dialogue, with the answers given.

    /** Copies four answers into the shared buffer, as the dialogue's scans do. */
    method FillPins(answers: seq<bv8>)
      requires Valid() && |answers| == 4
      modifies pins
      ensures pins[..] == answers
    {
      for i := 0 to 4
        invariant pins[..i] == answers[..i]
      {
        pins[i] := answers[i];
      }
    }

    /**
     * The setters in the dialogue's order. The STOP answers and then the
     * HIT_ENA answers go through the same buffer, so it ends up holding the
     * HIT_ENA answers.
     */
    method InputConfig(a: Answers)
      requires Valid() && WellFormed(a)
      modifies config, pins
      ensures config[..] == Configured(old(config[..]), a)
      ensures pins[..] == a.hits
    {
      FillPins(a.stops);
      SetInputPins(pins);
      SetRefclk(a.refclk);
      FillPins(a.hits);
      SetInputProcessing(pins);
      SetChannelCombine(ChannelCombineModeConverter(a.combine));
      SetHires(HiresModeConverter(a.hires));
      SetCommonFifo(a.commonFifo);
      SetBlockwiseFifo(a.blockwiseFifo);
      SetRefclkDivisions(ComputeDivisionsFromFreq(a.freqHz));
      SetRefclkByXosc(a.xosc);
      SetCmosInput(a.cmos);
    }

    // -------------------------------------------------------------------------
    // Bring-up in main.

    /**
     * One pass of the configuration loop: the dialogue, then the validator.
     * The loop repeats until the validator accepts; as written it never does.
     */
    method ConfigurePass(a: Answers, reading: Reading) returns (v: Validation)
      requires Valid() && WellFormed(a)
      modifies config, pins
      ensures config[..] == Configured(old(config[..]), a) && pins[..] == a.hits
      ensures v == Validate(config[..], reading)
      ensures v.Completed? ==> (v.ok <==> NoErrors(v.findings))
      ensures reading == AsWritten ==> !(v.Completed? && v.ok)
    {
      InputConfig(a);
      v := ValidateInput(config, reading);
      if reading == AsWritten {
        AsWrittenRejectsEveryImage(config[..]);
      }
    }

    /**
     * The configuration loop: the dialogue and the validator, once per set of
     * answers, until the validator accepts or the answers run out. images[k]
     * is the image after k dialogues. As written the validator never accepts.
     */
    method ConfigureLoop(answers: seq<Answers>, reading: Reading) returns (accepted: bool, passes: nat, ghost images: seq<Image>)
      requires Valid() && forall i | 0 <= i < |answers| :: WellFormed(answers[i])
      modifies config, pins
      ensures passes <= |answers| && (!accepted ==> passes == |answers|)
      ensures Dialogues(answers, images) && |images| == passes + 1
      ensures images[0] == old(config[..]) && images[passes] == config[..]
      ensures 0 < passes ==> pins[..] == answers[passes - 1].hits
      ensures accepted <==> 0 < passes && Accepted(Validate(config[..], reading))
      ensures reading == AsWritten ==> !accepted
    {
      accepted := false;
      passes := 0;
      images := [config[..]];
      ghost var verdict := Validate(config[..], reading);
      while passes < |answers| && !accepted
        invariant Valid() && Configuring(answers, reading, passes, accepted, verdict, images, old(config[..]))
      {
        accepted, verdict, images := NextPass(answers, reading, passes, images);
        passes := passes + 1;
      }
    }

    /**
     * The state of the configuration loop after `passes` dialogues, which started
     * from `image0`: the images so far end with the current image, the loop has
     * accepted exactly when that image's verdict accepts, and the shared buffer
     * holds the last dialogue's HIT answers.
     */
    ghost predicate Configuring(answers: seq<Answers>, reading: Reading, passes: nat, accepted: bool, verdict: Validation, images: seq<Image>, image0: Image)
      reads config, pins
      requires config.Length == ImageSize
    {
      && passes <= |answers|
      && Dialogues(answers, images) && |images| == passes + 1
      && images[0] == image0 && images[passes] == config[..]
      && (accepted <==> 0 < passes && Accepted(verdict)) && (0 < passes ==> verdict == Validate(config[..], reading))
      && (reading == AsWritten ==> !accepted)
      && (0 < passes ==> pins[..] == answers[passes - 1].hits)
    }

    /** One turn of the configuration loop, recorded in the list of images. */
    method NextPass(answers: seq<Answers>, reading: Reading, passes: nat, ghost images: seq<Image>)
      returns (accepted: bool, ghost verdict: Validation, ghost images': seq<Image>)
      requires Valid() && passes < |answers| && WellFormed(answers[passes])
      requires Dialogues(answers, images) && |images| == passes + 1 && images[passes] == config[..]
      modifies config, pins
      ensures Dialogues(answers, images') && |images'| == passes + 2
      ensures images'[0] == images[0] && images'[passes + 1] == config[..]
      ensures pins[..] == answers[passes].hits
      ensures verdict == Validate(config[..], reading) && (accepted <==> Accepted(verdict))
      ensures reading == AsWritten ==> !accepted
      ensures Configuring(answers, reading, passes + 1, accepted, verdict, images', images[0])
    {
      var v := ConfigurePass(answers[passes], reading);
      verdict := v;
      DialoguesExtend(answers, images, config[..]);
      images' := images + [config[..]];
      accepted := v.Completed? && v.ok;
    }

    /** Writes and reads back the image; the program waits for 'q' when they differ. */
    method WriteAndVerifyConfig() returns (ok: bool)
      requires Valid() && !bus.selected
      modifies bus
      ensures !bus.selected
      ensures var rx := bus.Incoming(old(bus.pos), ImageSize);
        && (ok <==> rx == config[..])
        && bus.frames == old(bus.frames) + [WriteConfigFrame(config[..]), VerifyConfigFrame(config[..], rx)]
      ensures var e := Perform(bus, old(bus.pos), [WriteVerify(config[..])]);
        bus.frames == old(bus.frames) + e.frames && bus.pos == e.pos && ok == e.agreed
    {
      var written := WriteConfig(bus, config);
      ok := VerifyConfig(bus, config);
      PerformSingle(bus, old(bus.pos), WriteVerify(config[..]));
    }

    /** After the accepted dialogue: write and verify the image, then start measuring. */
    method Launch() returns (ok: bool)
      requires Valid() && !bus.selected
      modifies bus
      ensures !bus.selected
      ensures ok <==> bus.Incoming(old(bus.pos), ImageSize) == config[..]
      ensures var e := Perform(bus, old(bus.pos), [WriteVerify(config[..]), Start]);
        bus.frames == old(bus.frames) + e.frames && bus.pos == e.pos && ok == e.agreed
    {
      ok := WriteAndVerifyConfig();
      ghost var plan := [WriteVerify(config[..]), Start];
      assert plan == [WriteVerify(config[..])] + [Start];
      if ok {
        ghost var before := bus.frames;
        StartMeasurement(bus);
        PerformSingle(bus, bus.pos, Start);
        PerformChain(bus, old(bus.frames), before, bus.frames, old(bus.pos), [WriteVerify(config[..])], [Start]);
      } else {
        PerformStops(bus, old(bus.pos), [WriteVerify(config[..])], [Start]);
      }
    }

    /**
     * Bring-up: the power-on reset, the configuration loop, and once the
     * validator accepts, the write, read-back and start. The run is started
     * exactly when the validator accepted and the read-back matched.
     */
    method BringUp(answers: seq<Answers>, reading: Reading) returns (accepted: bool, started: bool, ghost images: seq<Image>)
      requires Valid() && !bus.selected && forall i | 0 <= i < |answers| :: WellFormed(answers[i])
      modifies bus, config, pins
      ensures !bus.selected
      ensures Dialogues(answers, images) && images[0] == old(config[..]) && images[|images| - 1] == config[..]
      ensures !accepted ==> |images| == |answers| + 1
      ensures 1 < |images| ==> pins[..] == answers[|images| - 2].hits
      ensures accepted <==> 1 < |images| && Accepted(Validate(config[..], reading))
      ensures accepted ==> var e := Perform(bus, old(bus.pos), [WriteVerify(config[..]), Start]);
        bus.frames == old(bus.frames) + [PowerResetFrame] + e.frames && bus.pos == e.pos && started == e.agreed
      ensures !accepted ==> bus.frames == old(bus.frames) + [PowerResetFrame] && bus.pos == old(bus.pos) && !started
      ensures started <==> accepted && bus.Incoming(old(bus.pos), ImageSize) == config[..]
      ensures reading == AsWritten ==> !started
    {
      PowerReset(bus);
      var passes;
      accepted, passes, images := ConfigureLoop(answers, reading);
      ghost var hits := pins[..];
      started := false;
      if accepted {
        started := Launch();
      }
      assert pins[..] == hits;
    }

    // -------------------------------------------------------------------------
    // The acquisition loop.

    /** A pending REFCLK reset: clear bit 7, write and verify, clear the flag, start. */
    method ServicePendingReset() returns (ok: bool)
      requires Valid() && !bus.selected
      modifies this, config, bus
      ensures !bus.selected && measure == old(measure)
      ensures var plan := Service(old(Snapshot())); var e := Perform(bus, old(bus.pos), plan.actions);
        && bus.frames == old(bus.frames) + e.frames && bus.pos == e.pos && ok == e.agreed
        && (ok ==> Snapshot() == plan.next)
      ensures ok <==> !old(clkReset) || bus.Incoming(old(bus.pos), ImageSize) == Snapshot().image
    {
      ok := true;
      if clkReset {
        RefclkResetUnpulse();
        ok := WriteAndVerifyConfig();
        if !ok {
          PerformStops(bus, old(bus.pos), [WriteVerify(config[..])], [Start]);
          assert [WriteVerify(config[..]), Start] == [WriteVerify(config[..])] + [Start];
          return;
        }
        clkReset := false;
        ghost var before := bus.frames;
        StartMeasurement(bus);
        PerformSingle(bus, bus.pos, Start);
        PerformChain(bus, old(bus.frames), before, bus.frames, old(bus.pos), [WriteVerify(config[..])], [Start]);
        assert [WriteVerify(config[..]), Start] == [WriteVerify(config[..])] + [Start];
      } else {
        assert bus.frames == old(bus.frames) + [];
      }
    }

    /** 'p': stop measuring, set the disable bit, write and verify. */
    method Pause() returns (ok: bool)
      requires Valid() && !bus.selected
      modifies this, config, bus
      ensures !bus.selected && !measure && clkReset == old(clkReset)
      ensures config[..] == Registers.PinsDisable(old(config[..]))
      ensures ok <==> bus.Incoming(old(bus.pos), ImageSize) == config[..]
      ensures var e := Perform(bus, old(bus.pos), [WriteVerify(config[..])]);
        bus.frames == old(bus.frames) + e.frames && bus.pos == e.pos && ok == e.agreed
    {
      measure := false;
      PinsDisable();
      ok := WriteAndVerifyConfig();
    }

    /** 'r': measure, clear the disable bit, write and verify, and start unless the read-back differs. */
    method Resume() returns (ok: bool)
      requires Valid() && !bus.selected
      modifies this, config, bus
      ensures !bus.selected && measure && clkReset == old(clkReset)
      ensures config[..] == Registers.PinsEnable(old(config[..]))
      ensures ok <==> bus.Incoming(old(bus.pos), ImageSize) == config[..]
      ensures var e := Perform(bus, old(bus.pos), [WriteVerify(config[..]), Start]);
        bus.frames == old(bus.frames) + e.frames && bus.pos == e.pos && ok == e.agreed
    {
      measure := true;
      PinsEnable();
      ok := Launch();
    }

    /** 'c': set the REFCLK reset bit, write and verify, and leave the reset pending. */
    method ClockReset() returns (ok: bool)
      requires Valid() && !bus.selected
      modifies this, config, bus
      ensures !bus.selected && measure == old(measure) && clkReset == (old(clkReset) || ok)
      ensures config[..] == Registers.RefclkResetPulse(old(config[..]))
      ensures ok <==> bus.Incoming(old(bus.pos), ImageSize) == config[..]
      ensures var e := Perform(bus, old(bus.pos), [WriteVerify(config[..])]);
        bus.frames == old(bus.frames) + e.frames && bus.pos == e.pos && ok == e.agreed
    {
      RefclkResetPulse();
      ok := WriteAndVerifyConfig();
      if ok {
        clkReset := true;
      }
    }

    /** The operator's command; 'q' reboots at once. */
    method HandleCommand(cmd: char) returns (outcome: Outcome)
      requires Valid() && !bus.selected
      modifies this, config, bus
      ensures !bus.selected && clkReset == (old(clkReset) || (outcome == Continued && (cmd == 'c' || cmd == 'C')))
      ensures var plan := Command(old(Snapshot()), cmd); var e := Perform(bus, old(bus.pos), plan.actions);
        && bus.frames == old(bus.frames) + e.frames && bus.pos == e.pos
        && (outcome == Halted <==> !e.agreed)
        && (outcome == Rebooted <==> plan.Reboot?)
        && (outcome == Continued ==> plan.next == Snapshot())
    {
      outcome := Continued;
      var ok := true;
      if cmd == 'p' || cmd == 'P' {
        ok := Pause();
      } else if cmd == 'r' || cmd == 'R' {
        ok := Resume();
      } else if cmd == 'c' || cmd == 'C' {
        ok := ClockReset();
      } else if cmd == 'q' || cmd == 'Q' {
        outcome := Rebooted;
        assert bus.frames == old(bus.frames) + [];
      } else {
        assert bus.frames == old(bus.frames) + [];
      }
      if !ok {
        outcome := Halted;
      }
    }

    /** Reads the four channels and lists those the loop prints: pins[ch] non-zero. */
    method ReadAndShow() returns (shown: seq<nat>)
      requires Valid() && !bus.selected
      modifies bus, referenceIndex, stopResults
      ensures !bus.selected && bus.pos == old(bus.pos) + ResultBytes
      ensures var rx := bus.Incoming(old(bus.pos), ResultBytes);
        && DecodeResults(rx) == Measurement(referenceIndex[..], stopResults[..])
        && bus.frames == old(bus.frames) + [ReadResultsFrame(rx)]
      ensures var e := Perform(bus, old(bus.pos), [FetchResults]);
        bus.frames == old(bus.frames) + e.frames && bus.pos == e.pos && e.agreed
      ensures shown == Shown(pins[..], 4)
    {
      ReadResults(bus, referenceIndex, stopResults);
      PerformSingle(bus, old(bus.pos), FetchResults);
      shown := [];
      for ch := 0 to 4
        invariant shown == Shown(pins[..], ch)
      {
        if pins[ch] != 0 {
          shown := shown + [ch];
        }
      }
    }

    /** The first two parts of an iteration: a pending reset, then the command. */
    method ServiceThenCommand(cmd: char) returns (outcome: Outcome)
      requires Valid() && !bus.selected
      modifies this, config, bus
      ensures !bus.selected
      ensures var serviced := Service(old(Snapshot())); var handled := Command(serviced.next, cmd);
        var e := Perform(bus, old(bus.pos), serviced.actions + handled.actions);
        && bus.frames == old(bus.frames) + e.frames && bus.pos == e.pos
        && (outcome == Halted <==> !e.agreed)
        && (outcome == Rebooted <==> e.agreed && handled.Reboot?)
        && (outcome == Continued ==> handled.next == Snapshot())
    {
      ghost var serviced := Service(Snapshot());
      var ok := ServicePendingReset();
      if !ok {
        outcome := Halted;
        PerformStops(bus, old(bus.pos), serviced.actions, Command(serviced.next, cmd).actions);
        return;
      }
      ghost var handled := Command(Snapshot(), cmd);
      ghost var frames1 := bus.frames;
      outcome := HandleCommand(cmd);
      PerformChain(bus, old(bus.frames), frames1, bus.frames, old(bus.pos), serviced.actions, handled.actions);
    }

    /**
     * The last part of an iteration that goes on: when measuring, read and
     * show the results; otherwise leave the bus and the result arrays alone.
     */
    method ReadIfMeasuring(ghost p0: nat, ghost f0: seq<Frame>, ghost planned: seq<Action>) returns (shown: seq<nat>)
      requires Valid() && !bus.selected
      requires var e := Perform(bus, p0, planned); e.agreed && bus.frames == f0 + e.frames && bus.pos == e.pos
      modifies bus, referenceIndex, stopResults
      ensures !bus.selected
      ensures var e := Perform(bus, p0, planned + (if measure then [FetchResults] else []));
        bus.frames == f0 + e.frames && bus.pos == e.pos && e.agreed
      ensures measure ==> HoldsResults() && shown == Shown(pins[..], 4)
      ensures !measure ==>
        && shown == [] && bus.frames == old(bus.frames) && bus.pos == old(bus.pos)
        && referenceIndex[..] == old(referenceIndex[..]) && stopResults[..] == old(stopResults[..])
    {
      if measure {
        ghost var before := bus.frames;
        shown := ReadAndShow();
        PerformChain(bus, f0, before, bus.frames, p0, planned, [FetchResults]);
      } else {
        shown := [];
        assert planned + [] == planned;
      }
    }

    /**
     * One iteration of the acquisition loop, proved against the control step:
     * the bus records the step's planned actions up to the first write whose
     * read-back differs; the iteration halts exactly then, and otherwise
     * continues in the planned state or reboots. Results are read, and the
     * result arrays change, only when the iteration goes on measuring.
     */
    method Step(cmd: char) returns (outcome: Outcome, shown: seq<nat>)
      requires Valid() && !bus.selected
      modifies this, config, bus, referenceIndex, stopResults
      ensures !bus.selected
      ensures var plan := ControlStep(old(Snapshot()), cmd); var e := Perform(bus, old(bus.pos), plan.actions);
        && bus.frames == old(bus.frames) + e.frames && bus.pos == e.pos
        && (outcome == Halted <==> !e.agreed)
        && (outcome == Rebooted <==> e.agreed && plan.Reboot?)
        && (outcome == Continued ==> Snapshot() == plan.next)
      ensures outcome == Continued ==> ChipImage(old(config[..]), bus.frames[|old(bus.frames)|..]) == config[..]
      ensures outcome == Continued && measure ==> HoldsResults() && shown == Shown(pins[..], 4)
      ensures !(outcome == Continued && measure) ==> shown == []
      ensures !(outcome == Continued && measure) ==>
        referenceIndex[..] == old(referenceIndex[..]) && stopResults[..] == old(stopResults[..])
    {
      ghost var s0 := Snapshot();
      ghost var serviced := Service(s0);
      ghost var handled := Command(serviced.next, cmd);
      ghost var planned := serviced.actions + handled.actions;
      ghost var rest := if handled.Continue? && handled.next.measure then [FetchResults] else [];
      IterationActions(s0, cmd);
      outcome := ServiceThenCommand(cmd);
      if outcome == Continued {
        shown := ReadIfMeasuring(old(bus.pos), old(bus.frames), planned);
        IterationInSync(bus, old(bus.pos), s0, cmd, old(bus.frames), bus.frames);
      } else {
        shown := [];
        if outcome == Halted {
          PerformStops(bus, old(bus.pos), planned, rest);
        } else {
          assert planned + rest == planned;
        }
      }
    }
  }

  /** The whole plan of an iteration: the reset's actions, the command's, then a results read if it goes on measuring. */
  lemma IterationActions(s: State, cmd: char)
    ensures var serviced := Service(s); var handled := Command(serviced.next, cmd);
      ControlStep(s, cmd).actions ==
        serviced.actions + handled.actions + (if handled.Continue? && handled.next.measure then [FetchResults] else [])
  {
    var serviced := Service(s);
    var handled := Command(serviced.next, cmd);
    if handled.Reboot? {
      assert serviced.actions + handled.actions + [] == serviced.actions + handled.actions;
    }
  }
}
