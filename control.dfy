/**
 * One iteration of the acquisition loop, as a function of the driver's state
 * (the register image and the `measure` and `clk_reset` flags) and of the
 * character the operator typed. An iteration first finishes a pending REFCLK
 * reset, then handles the command, then reads results if measuring. Its
 * result is the next state and the chip transactions it asks for, in order;
 * what the chip answers is the driver's business.
 */
module Control {
  import opened Registers
  import opened Protocol

  datatype State = State(image: Image, measure: bool, clkReset: bool)

  /** A chip transaction of the loop. A write is always followed by its read-back. */
  datatype Action = WriteVerify(image: Image) | Start | FetchResults

  /** An iteration either continues with a new state or reboots the controller ('q'). */
  datatype Step = Continue(next: State, actions: seq<Action>) | Reboot(actions: seq<Action>)

  /** The opcodes an action opens its frames with. */
  function Codes(a: Action): (c: seq<bv8>)
    ensures |c| >= 1
  {
    match a
    case WriteVerify(_) => [OpcWriteConfig, OpcReadConfig]
    case Start => [OpcInit]
    case FetchResults => [OpcReadResults + ResultsAddress]
  }

  /** The opcodes of a list of actions, frame by frame. */
  function ActionOpcodes(actions: seq<Action>): seq<bv8>
  {
    if actions == [] then [] else ActionOpcodes(actions[..|actions| - 1]) + Codes(actions[|actions| - 1])
  }

  predicate IsCommand(cmd: char)
  {
    cmd in {'p', 'P', 'r', 'R', 'c', 'C', 'q', 'Q'}
  }

  /**
   * A pending REFCLK reset is finished first: bit 7 of byte 0 is cleared, the
   * image written and verified, and the measurement restarted.
   */
  function Service(s: State): (r: Step)
    ensures r.Continue? && !r.next.clkReset && r.next.measure == s.measure
    ensures s.clkReset ==> RefclkReset(r.next.image) == 0 && SameOutside(s.image, r.next.image, 0, 0x80)
    ensures s.clkReset ==> r.actions == [WriteVerify(r.next.image), Start]
    ensures !s.clkReset ==> r.next == s && r.actions == []
  {
    if s.clkReset then
      var img := RefclkResetUnpulse(s.image);
      Continue(State(img, s.measure, false), [WriteVerify(img), Start])
    else Continue(s, [])
  }

  /** The operator's command: pause, resume, REFCLK reset, reboot; any other character does nothing. */
  function Command(s: State, cmd: char): (r: Step)
    ensures r.Reboot? <==> cmd == 'q' || cmd == 'Q'
    ensures r.Continue? ==> FetchResults !in r.actions
  {
    if cmd == 'p' || cmd == 'P' then
      var img := PinsDisable(s.image);
      Continue(State(img, false, s.clkReset), [WriteVerify(img)])
    else if cmd == 'r' || cmd == 'R' then
      var img := PinsEnable(s.image);
      Continue(State(img, true, s.clkReset), [WriteVerify(img), Start])
    else if cmd == 'c' || cmd == 'C' then
      var img := RefclkResetPulse(s.image);
      Continue(State(img, s.measure, true), [WriteVerify(img)])
    else if cmd == 'q' || cmd == 'Q' then
      Reboot([])
    else
      Continue(s, [])
  }

  /** One iteration of the loop. */
  function ControlStep(s: State, cmd: char): (r: Step)
    ensures r.Reboot? <==> cmd == 'q' || cmd == 'Q'
    ensures r.Reboot? ==> r.actions == Service(s).actions
  {
    var serviced := Service(s);
    match Command(serviced.next, cmd)
    case Reboot(a) => Reboot(serviced.actions + a)
    case Continue(t, a) => Continue(t, serviced.actions + a + (if t.measure then [FetchResults] else []))
  }

  /** The image the chip holds after the actions, if it held chip before: that of the last write. */
  function LastWritten(chip: Image, actions: seq<Action>): Image
  {
    if actions == [] then chip
    else if actions[|actions| - 1].WriteVerify? then actions[|actions| - 1].image
    else LastWritten(chip, actions[..|actions| - 1])
  }

  // ---------------------------------------------------------------------------
  // Properties of the loop.

  lemma {:induction false} ActionOpcodesAppend(a: seq<Action>, b: seq<Action>)
    ensures ActionOpcodes(a + b) == ActionOpcodes(a) + ActionOpcodes(b)
    decreases |b|
  {
    if b == [] {
      assert a + b == a;
    } else {
      assert (a + b)[..|a + b| - 1] == a + b[..|b| - 1];
      ActionOpcodesAppend(a, b[..|b| - 1]);
    }
  }

  lemma OneAction(a: Action)
    ensures ActionOpcodes([a]) == Codes(a)
  {
    assert [a][..0] == [];
  }

  /** The opcodes of two actions are those of the first and then those of the second. */
  lemma TwoActions(a: Action, b: Action)
    ensures ActionOpcodes([a, b]) == Codes(a) + Codes(b)
  {
    var s := [a, b];
    assert s[..|s| - 1] == [a] && s[|s| - 1] == b;
    assert [a][..0] == [];
    assert ActionOpcodes([a]) == Codes(a);
  }

  /** Writing and verifying opens two frames, 0x80 then 0x40; start opens 0x18, a results read 0x68. */
  lemma OpcodeValues()
    ensures Codes(WriteVerify(DefaultImage)) == [0x80, 0x40]
    ensures Codes(Start) == [0x18]
    ensures Codes(FetchResults) == [0x68]
  {
  }

  /** 'p' or 'P' stops measuring, sets bit 6 of byte 0 and writes the image; no results are read. */
  lemma PauseStep(s: State, cmd: char)
    requires cmd == 'p' || cmd == 'P'
    ensures var r := ControlStep(s, cmd); var before := Service(s).next.image;
      && r.Continue? && !r.next.measure && !r.next.clkReset
      && PinsDisabled(r.next.image) == 1 && SameOutside(before, r.next.image, 0, 0x40)
      && r.actions == Service(s).actions + [WriteVerify(r.next.image)]
  {
  }

  /** 'r' or 'R' measures again: bit 6 cleared, the image written, the chip started, then results read. */
  lemma ResumeStep(s: State, cmd: char)
    requires cmd == 'r' || cmd == 'R'
    ensures var r := ControlStep(s, cmd); var before := Service(s).next.image;
      && r.Continue? && r.next.measure && !r.next.clkReset
      && PinsDisabled(r.next.image) == 0 && SameOutside(before, r.next.image, 0, 0x40)
      && r.actions == Service(s).actions + [WriteVerify(r.next.image), Start, FetchResults]
  {
  }

  /** 'c' or 'C' sets bit 7 of byte 0, writes the image and leaves the reset pending. */
  lemma ClockResetStep(s: State, cmd: char)
    requires cmd == 'c' || cmd == 'C'
    ensures var r := ControlStep(s, cmd); var before := Service(s).next.image;
      && r.Continue? && r.next.clkReset && r.next.measure == s.measure
      && RefclkReset(r.next.image) == 1 && SameOutside(before, r.next.image, 0, 0x80)
      && r.actions == Service(s).actions + [WriteVerify(r.next.image)] + (if s.measure then [FetchResults] else [])
  {
  }

  /** A pending reset is finished before the command is looked at, whatever the command. */
  lemma PendingResetFirst(s: State, cmd: char)
    requires s.clkReset
    ensures var img := RefclkResetUnpulse(s.image);
      ControlStep(s, cmd).actions[..2] == [WriteVerify(img), Start]
    ensures ControlStep(s, cmd).Continue? && !(cmd == 'c' || cmd == 'C') ==> !ControlStep(s, cmd).next.clkReset
  {
  }

  /**
   * A REFCLK reset takes two iterations: after 'c' and then any character that
   * is not a command, bit 7 is back to what it was and nothing is pending.
   */
  lemma ClockResetRoundTrip(s: State, cmd: char, other: char)
    requires cmd == 'c' || cmd == 'C'
    requires !s.clkReset && RefclkReset(s.image) == 0 && !IsCommand(other)
    ensures ControlStep(s, cmd).Continue?
    ensures ControlStep(ControlStep(s, cmd).next, other) ==
      Continue(s, [WriteVerify(s.image), Start] + (if s.measure then [FetchResults] else []))
  {
    var img := RefclkResetPulse(s.image);
    assert RefclkResetUnpulse(img) == s.image by {
      assert RefclkResetUnpulse(img)[0] == s.image[0];
    }
  }

  /** Any character that is not a command, or no character, leaves the state alone; results are read if measuring. */
  lemma OtherCharacter(s: State, cmd: char)
    requires !IsCommand(cmd) && !s.clkReset
    ensures ControlStep(s, cmd) == Continue(s, if s.measure then [FetchResults] else [])
  {
  }

  /** Results are read exactly when the iteration ends measuring, and then last. */
  lemma ReadIffMeasure(s: State, cmd: char)
    requires ControlStep(s, cmd).Continue?
    ensures var r := ControlStep(s, cmd);
      && (FetchResults in r.actions <==> r.next.measure)
      && (r.next.measure ==> r.actions[|r.actions| - 1] == FetchResults)
  {
    var serviced := Service(s);
    assert FetchResults !in serviced.actions;
  }

  /** Only 'p' and 'r' change whether the loop measures. */
  lemma MeasureFollowsCommands(s: State, cmd: char)
    requires ControlStep(s, cmd).Continue?
    ensures ControlStep(s, cmd).next.measure ==
      if cmd == 'p' || cmd == 'P' then false else if cmd == 'r' || cmd == 'R' then true else s.measure
  {
  }

  /** Pausing and then resuming a running loop restores the image and measures again. */
  lemma PauseThenResume(s: State)
    requires !s.clkReset && PinsDisabled(s.image) == 0
    ensures ControlStep(s, 'p').Continue?
    ensures ControlStep(ControlStep(s, 'p').next, 'r').Continue?
    ensures ControlStep(ControlStep(s, 'p').next, 'r').next == State(s.image, true, false)
  {
    DisableThenEnable(s.image);
  }

  /**
   * The chip and the driver agree on the image after every iteration: if the
   * chip held the image before, the last image written is the new one.
   */
  lemma ChipInSync(s: State, cmd: char)
    requires ControlStep(s, cmd).Continue?
    ensures LastWritten(s.image, ControlStep(s, cmd).actions) == ControlStep(s, cmd).next.image
  {
    var serviced := Service(s);
    var handled := Command(serviced.next, cmd);
    var tail: seq<Action> := if handled.next.measure then [FetchResults] else [];
    LastWrittenAppend(s.image, serviced.actions, handled.actions);
    LastWrittenAppend(s.image, serviced.actions + handled.actions, tail);
    ServiceInSync(s);
    CommandInSync(serviced.next, cmd);
  }

  lemma ServiceInSync(s: State)
    ensures LastWritten(s.image, Service(s).actions) == Service(s).next.image
  {
    var img := Service(s).next.image;
    assert [WriteVerify(img), Start][..1] == [WriteVerify(img)];
  }

  lemma CommandInSync(s: State, cmd: char)
    requires Command(s, cmd).Continue?
    ensures LastWritten(s.image, Command(s, cmd).actions) == Command(s, cmd).next.image
  {
    var img := PinsEnable(s.image);
    assert [WriteVerify(img), Start][..1] == [WriteVerify(img)];
  }

  lemma {:induction false} LastWrittenAppend(chip: Image, a: seq<Action>, b: seq<Action>)
    ensures LastWritten(chip, a + b) == LastWritten(LastWritten(chip, a), b)
    decreases |b|
  {
    if b == [] {
      assert a + b == a;
    } else {
      assert (a + b)[..|a + b| - 1] == a + b[..|b| - 1];
      LastWrittenAppend(chip, a, b[..|b| - 1]);
    }
  }
}
