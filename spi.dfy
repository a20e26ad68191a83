/**
 * The serial bus as the driver sees it: chip-select framing and blocking
 * one-byte transfers. The bytes the chip shifts out are an abstract stream
 * `reply`; the bus records every completed chip-select frame.
 */
module Spi {

  /** One clocked byte of a frame: a byte the host sent, or a byte it read (while clocking out 0x00). */
  datatype Transfer = Sent(b: bv8) | Received(b: bv8)

  /** A chip-select frame is the ordered list of its transfers. */
  type Frame = seq<Transfer>

  /** The bytes on the host-to-chip line during a frame: a read clocks out the dummy byte 0x00. */
  function Mosi(f: Frame): (w: seq<bv8>)
    ensures |w| == |f|
    ensures forall i | 0 <= i < |f| :: w[i] == (if f[i].Sent? then f[i].b else 0x00)
  {
    if f == [] then [] else Mosi(f[..|f| - 1]) + [if f[|f| - 1].Sent? then f[|f| - 1].b else 0x00]
  }

  /** The bytes the host read during a frame, in order. */
  function Miso(f: Frame): (r: seq<bv8>)
    ensures |r| <= |f|
  {
    if f == [] then [] else Miso(f[..|f| - 1]) + (if f[|f| - 1].Received? then [f[|f| - 1].b] else [])
  }

  /** The frame of sending the bytes of s. */
  function Sends(s: seq<bv8>): (f: Frame)
    ensures |f| == |s|
    ensures forall i | 0 <= i < |s| :: f[i] == Sent(s[i])
  {
    seq(|s|, i requires 0 <= i < |s| => Sent(s[i]))
  }

  /** The frame of reading the bytes of s. */
  function Receives(s: seq<bv8>): (f: Frame)
    ensures |f| == |s|
    ensures forall i | 0 <= i < |s| :: f[i] == Received(s[i])
  {
    seq(|s|, i requires 0 <= i < |s| => Received(s[i]))
  }

  lemma {:induction false} MosiOfSends(s: seq<bv8>)
    ensures Mosi(Sends(s)) == s
  {
  }

  lemma {:induction false} MisoOfSends(s: seq<bv8>)
    ensures Miso(Sends(s)) == []
  {
    if s != [] {
      assert Sends(s)[..|s| - 1] == Sends(s[..|s| - 1]);
      MisoOfSends(s[..|s| - 1]);
    }
  }

  lemma {:induction false} MisoOfReceives(s: seq<bv8>)
    ensures Miso(Receives(s)) == s
  {
    if s != [] {
      assert Receives(s)[..|s| - 1] == Receives(s[..|s| - 1]);
      MisoOfReceives(s[..|s| - 1]);
    }
  }

  lemma {:induction false} MisoAppend(f: Frame, g: Frame)
    ensures Miso(f + g) == Miso(f) + Miso(g)
    decreases |g|
  {
    if g == [] {
      assert f + g == f;
    } else {
      assert (f + g)[..|f + g| - 1] == f + g[..|g| - 1];
      MisoAppend(f, g[..|g| - 1]);
    }
  }

  class Bus {
    /** The byte the chip shifts out on the n-th read since power-up. */
    const reply: nat -> bv8
    /** How many bytes have been read. */
    var pos: nat
    /** Completed chip-select frames, oldest first. */
    var frames: seq<Frame>
    /** The transfers of the frame in progress. */
    var current: Frame
    /** Chip select is low. */
    var selected: bool

    constructor (reply: nat -> bv8)
      ensures this.reply == reply && pos == 0
      ensures frames == [] && current == [] && !selected
    {
      this.reply := reply;
      pos := 0;
      frames := [];
      current := [];
      selected := false;
    }

    /** The next n bytes the chip would shift out, starting at read number start. */
    function Incoming(start: nat, n: nat): (s: seq<bv8>)
      ensures |s| == n
      ensures forall i | 0 <= i < n :: s[i] == reply(start + i)
    {
      seq(n, i requires 0 <= i < n => reply(start + i))
    }

    /** Reading n bytes and then m more reads the next n + m bytes. */
    lemma IncomingSplit(start: nat, n: nat, m: nat)
      ensures Receives(Incoming(start, n)) + Receives(Incoming(start + n, m)) == Receives(Incoming(start, n + m))
    {
    }

    /** Drive chip select low: a new frame starts. */
    method CsLow()
      requires !selected
      modifies this
      ensures selected && current == []
      ensures frames == old(frames) && pos == old(pos)
    {
      selected := true;
      current := [];
    }

    /** Drive chip select high: the frame in progress is complete. */
    method CsHigh()
      requires selected
      modifies this
      ensures !selected && current == []
      ensures frames == old(frames) + [old(current)] && pos == old(pos)
    {
      frames := frames + [current];
      current := [];
      selected := false;
    }

    method SendByte(value: bv8)
      requires selected
      modifies this
      ensures selected && current == old(current) + [Sent(value)]
      ensures frames == old(frames) && pos == old(pos)
    {
      current := current + [Sent(value)];
    }

    method ReadByte() returns (rx: bv8)
      requires selected
      modifies this
      ensures rx == reply(old(pos)) && pos == old(pos) + 1
      ensures selected && current == old(current) + [Received(rx)]
      ensures frames == old(frames)
    {
      rx := reply(pos);
      pos := pos + 1;
      current := current + [Received(rx)];
    }
  }
}
