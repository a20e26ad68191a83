/**
 * The five chip transactions, each one chip-select frame on the bus: power-on
 * reset, configuration write, configuration read-back and compare, init/start
 * and the results read with its big-endian 24-bit decoding.
 */
module Protocol {
  import opened Registers
  import opened Spi

  const OpcPowerReset: bv8 := 0x30
  const OpcInit: bv8 := 0x18
  const OpcWriteConfig: bv8 := 0x80
  const OpcReadConfig: bv8 := 0x40
  const OpcReadResults: bv8 := 0x60

  /** Register address at which the results read starts. */
  const ResultsAddress: bv8 := 8

  /** Bytes of one results read: 4 channels, a reference index and a stop value each, 3 bytes per value. */
  const ResultBytes: nat := 24

  // ---------------------------------------------------------------------------
  // Frames of the transactions.

  /** Opcode plus start address 0, then the image in address order. */
  function WriteConfigFrame(img: Image): Frame
  {
    [Sent(OpcWriteConfig + 0x00)] + Sends(img)
  }

  /** The index of the first byte in which rx differs from img; |img| when they agree. */
  function FirstMismatch(img: seq<bv8>, rx: seq<bv8>): (k: nat)
    requires |rx| == |img|
    ensures k <= |img|
    ensures img[..k] == rx[..k]
    ensures k < |img| ==> img[k] != rx[k]
  {
    if img == [] then 0
    else if img[0] != rx[0] then 0
    else 1 + FirstMismatch(img[1..], rx[1..])
  }

  /** How many bytes the read-back consumes: up to and including the first mismatch. */
  function VerifyLength(img: Image, rx: seq<bv8>): nat
    requires |rx| == ImageSize
  {
    var k := FirstMismatch(img, rx);
    if k == ImageSize then ImageSize else k + 1
  }

  /** Read-back opcode with start address 0, then the bytes read until the compare stops. */
  function VerifyConfigFrame(img: Image, rx: seq<bv8>): Frame
    requires |rx| == ImageSize
  {
    [Sent(OpcReadConfig + 0x00)] + Receives(rx[..VerifyLength(img, rx)])
  }

  const InitFrame: Frame := [Sent(OpcInit)]

  const PowerResetFrame: Frame := [Sent(OpcPowerReset)]

  function ReadResultsFrame(rx: seq<bv8>): Frame
  {
    [Sent(OpcReadResults + ResultsAddress)] + Receives(rx)
  }

  /** The opcode that opens a frame (the first byte sent). */
  function Opcode(f: Frame): bv8
  {
    if f != [] && f[0].Sent? then f[0].b else 0x00
  }

  // ---------------------------------------------------------------------------
  // Results decoding.

  /** Three bytes, most significant first, as one unsigned value. */
  function Be24(b0: bv8, b1: bv8, b2: bv8): bv32
  {
    ((b0 as bv32) << 16) | ((b1 as bv32) << 8) | (b2 as bv32)
  }

  /** The three bytes the chip sends for a 24-bit value, most significant first. */
  function Be24Bytes(v: bv32): (s: seq<bv8>)
    ensures |s| == 3
  {
    [((v >> 16) & 0xFF) as bv8, ((v >> 8) & 0xFF) as bv8, (v & 0xFF) as bv8]
  }

  /** Channel ch's reference index within a results read: bytes 6ch .. 6ch+2. */
  function ChannelReference(rx: seq<bv8>, ch: nat): bv32
    requires 6 * ch + 6 <= |rx|
  {
    Be24(rx[6 * ch], rx[6 * ch + 1], rx[6 * ch + 2])
  }

  /** Channel ch's stop value within a results read: bytes 6ch+3 .. 6ch+5. */
  function ChannelStop(rx: seq<bv8>, ch: nat): bv32
    requires 6 * ch + 6 <= |rx|
  {
    Be24(rx[6 * ch + 3], rx[6 * ch + 4], rx[6 * ch + 5])
  }

  /** The four reference indices of a results read. */
  function References(rx: seq<bv8>): (r: seq<bv32>)
    requires |rx| == ResultBytes
    ensures |r| == 4
  {
    seq(4, ch requires 0 <= ch < 4 => ChannelReference(rx, ch))
  }

  /** The four stop values of a results read. */
  function Stops(rx: seq<bv8>): (r: seq<bv32>)
    requires |rx| == ResultBytes
    ensures |r| == 4
  {
    seq(4, ch requires 0 <= ch < 4 => ChannelStop(rx, ch))
  }

  /** A results read for the four channels. */
  datatype Measurement = Measurement(reference: seq<bv32>, stop: seq<bv32>)

  /**
   * The 24 bytes of a results read, grouped in threes in the order
   * ch1 reference, ch1 stop, ch2 reference, ch2 stop, ... ch4 stop.
   */
  function DecodeResults(rx: seq<bv8>): (m: Measurement)
    requires |rx| == ResultBytes
    ensures |m.reference| == 4 && |m.stop| == 4
  {
    Measurement(References(rx), Stops(rx))
  }

  /** The six bytes the chip sends for one channel: reference index, then stop value. */
  function ChannelBytes(reference: bv32, stop: bv32): (s: seq<bv8>)
    ensures |s| == 6
  {
    Be24Bytes(reference) + Be24Bytes(stop)
  }

  /** What the chip sends for a measurement: the four channels' bytes in channel order. */
  function EncodeResults(m: Measurement): (rx: seq<bv8>)
    requires |m.reference| == 4 && |m.stop| == 4
    ensures |rx| == ResultBytes
  {
    ChannelBytes(m.reference[0], m.stop[0]) + ChannelBytes(m.reference[1], m.stop[1])
      + ChannelBytes(m.reference[2], m.stop[2]) + ChannelBytes(m.reference[3], m.stop[3])
  }

  /** Every value fits in 24 bits. */
  predicate Fits24(m: Measurement)
  {
    && (forall ch | 0 <= ch < |m.reference| :: m.reference[ch] < 0x100_0000)
    && (forall ch | 0 <= ch < |m.stop| :: m.stop[ch] < 0x100_0000)
  }

  // ---------------------------------------------------------------------------
  // Properties of the framing.

  /** The write frame puts exactly the opcode and the 17 image bytes on the wire, and reads nothing. */
  lemma WriteConfigWire(img: Image)
    ensures Mosi(WriteConfigFrame(img)) == [0x80] + img
    ensures Miso(WriteConfigFrame(img)) == []
  {
    MosiOfSends(img);
    MisoOfSends(img);
    MisoAppend([Sent(OpcWriteConfig)], Sends(img));
  }

  /** The read-back agrees with the image exactly when the compare consumes all 17 bytes without a mismatch. */
  lemma {:induction false} FirstMismatchExact(img: seq<bv8>, rx: seq<bv8>)
    requires |rx| == |img|
    ensures FirstMismatch(img, rx) == |img| <==> img == rx
  {
  }

  /** A first mismatch at index k ends the compare after k + 1 bytes. */
  lemma VerifyStopsAtFirstMismatch(img: Image, rx: seq<bv8>, k: nat)
    requires |rx| == ImageSize && k < ImageSize
    requires img[..k] == rx[..k] && img[k] != rx[k]
    ensures VerifyLength(img, rx) == k + 1
    ensures |VerifyConfigFrame(img, rx)| == k + 2
  {
  }

  /**
   * A chip that returns on read-back what it was sent after the write opcode
   * passes the compare: all 17 bytes are read and they agree.
   */
  lemma WriteThenVerifyEcho(img: Image)
    ensures var echo := Mosi(WriteConfigFrame(img))[1..];
      && |echo| == ImageSize
      && FirstMismatch(img, echo) == ImageSize
      && VerifyLength(img, echo) == ImageSize
      && VerifyConfigFrame(img, echo) == [Sent(OpcReadConfig)] + Receives(img)
  {
    WriteConfigWire(img);
    assert Mosi(WriteConfigFrame(img))[1..] == img;
    FirstMismatchExact(img, img);
    assert img[..ImageSize] == img;
  }

  /** The 24-bit decode is the big-endian value and stays below 2^24. */
  lemma Be24Value(b0: bv8, b1: bv8, b2: bv8)
    ensures Be24(b0, b1, b2) == (b0 as bv32) * 65536 + (b1 as bv32) * 256 + (b2 as bv32)
    ensures Be24(b0, b1, b2) < 0x100_0000
    ensures Be24(0x00, 0x00, 0x01) == 1 && Be24(0xFF, 0xFF, 0xFF) == 16777215
  {
  }

  /** Decoding inverts the chip's encoding of any value below 2^24, and vice versa. */
  lemma Be24RoundTrip(v: bv32, b0: bv8, b1: bv8, b2: bv8)
    ensures v < 0x100_0000 ==> var s := Be24Bytes(v); Be24(s[0], s[1], s[2]) == v
    ensures Be24Bytes(Be24(b0, b1, b2)) == [b0, b1, b2]
  {
  }

  /** One channel's six bytes decode to the two values they encode, for values below 2^24. */
  lemma ChannelDecodeEncode(reference: bv32, stop: bv32)
    requires reference < 0x100_0000 && stop < 0x100_0000
    ensures ChannelReference(ChannelBytes(reference, stop), 0) == reference
    ensures ChannelStop(ChannelBytes(reference, stop), 0) == stop
  {
    Be24RoundTrip(reference, 0, 0, 0);
    Be24RoundTrip(stop, 0, 0, 0);
  }

  /** Channel ch of a results read, re-encoded, gives back its six bytes; both values are below 2^24. */
  lemma ChannelEncodeDecode(rx: seq<bv8>, ch: nat)
    requires 6 * ch + 6 <= |rx|
    ensures ChannelBytes(ChannelReference(rx, ch), ChannelStop(rx, ch)) == rx[6 * ch .. 6 * ch + 6]
    ensures ChannelReference(rx, ch) < 0x100_0000 && ChannelStop(rx, ch) < 0x100_0000
  {
    var k := 6 * ch;
    Be24RoundTrip(0, rx[k], rx[k + 1], rx[k + 2]);
    Be24RoundTrip(0, rx[k + 3], rx[k + 4], rx[k + 5]);
    Be24Value(rx[k], rx[k + 1], rx[k + 2]);
    Be24Value(rx[k + 3], rx[k + 4], rx[k + 5]);
    assert rx[k .. k + 6] == [rx[k], rx[k + 1], rx[k + 2]] + [rx[k + 3], rx[k + 4], rx[k + 5]];
  }

  /** Channel ch of an encoded measurement is that channel's six-byte block. */
  lemma EncodedChannel(m: Measurement, ch: nat)
    requires |m.reference| == 4 && |m.stop| == 4 && ch < 4
    ensures var rx := EncodeResults(m); var block := ChannelBytes(m.reference[ch], m.stop[ch]);
      && ChannelReference(rx, ch) == ChannelReference(block, 0)
      && ChannelStop(rx, ch) == ChannelStop(block, 0)
  {
    if ch == 0 {} else if ch == 1 {} else if ch == 2 {} else {}
  }

  /** Decoding a results read recovers every channel's reference index and stop value. */
  lemma DecodeEncodeResults(m: Measurement)
    requires |m.reference| == 4 && |m.stop| == 4 && Fits24(m)
    ensures DecodeResults(EncodeResults(m)) == m
  {
    var rx := EncodeResults(m);
    forall ch | 0 <= ch < 4
      ensures ChannelReference(rx, ch) == m.reference[ch] && ChannelStop(rx, ch) == m.stop[ch]
    {
      ChannelDecodeEncode(m.reference[ch], m.stop[ch]);
      EncodedChannel(m, ch);
    }
  }

  /** Every 24 bytes are the encoding of the measurement they decode to. */
  lemma EncodeDecodeResults(rx: seq<bv8>)
    requires |rx| == ResultBytes
    ensures Fits24(DecodeResults(rx))
    ensures EncodeResults(DecodeResults(rx)) == rx
  {
    var d := DecodeResults(rx);
    ChannelEncodeDecode(rx, 0);
    ChannelEncodeDecode(rx, 1);
    ChannelEncodeDecode(rx, 2);
    ChannelEncodeDecode(rx, 3);
    assert rx == rx[0..6] + rx[6..12] + rx[12..18] + rx[18..24];
  }

  // ---------------------------------------------------------------------------
  // The transactions on the bus.

  /** Power-on reset: the opcode alone in one frame. */
  method PowerReset(bus: Bus)
    requires !bus.selected
    modifies bus
    ensures !bus.selected && bus.pos == old(bus.pos)
    ensures bus.frames == old(bus.frames) + [PowerResetFrame]
  {
    bus.CsLow();
    bus.SendByte(OpcPowerReset);
    assert bus.current == PowerResetFrame;
    bus.CsHigh();
  }

  /** Sends the opcode and the 17 bytes; always reports success. */
  method WriteConfig(bus: Bus, cfg: array<bv8>) returns (ok: bool)
    requires cfg.Length == ImageSize && !bus.selected
    modifies bus
    ensures ok
    ensures !bus.selected && bus.pos == old(bus.pos)
    ensures bus.frames == old(bus.frames) + [WriteConfigFrame(cfg[..])]
  {
    bus.CsLow();
    bus.SendByte(OpcWriteConfig + 0x00);
    var i := 0;
    while i < 17
      invariant 0 <= i <= 17
      invariant bus.selected && bus.pos == old(bus.pos) && bus.frames == old(bus.frames)
      invariant bus.current == [Sent(OpcWriteConfig)] + Sends(cfg[..i])
    {
      bus.SendByte(cfg[i]);
      assert Sends(cfg[..i + 1]) == Sends(cfg[..i]) + [Sent(cfg[i])];
      i := i + 1;
    }
    assert cfg[..17] == cfg[..];
    bus.CsHigh();
    ok := true;
  }

  /**
   * Reads the configuration back and compares it with cfg byte by byte,
   * releasing chip select and reporting failure at the first mismatch.
   */
  method VerifyConfig(bus: Bus, cfg: array<bv8>) returns (ok: bool)
    requires cfg.Length == ImageSize && !bus.selected
    modifies bus
    ensures var rx := bus.Incoming(old(bus.pos), ImageSize);
      && (ok <==> rx == cfg[..])
      && bus.pos == old(bus.pos) + VerifyLength(cfg[..], rx)
      && bus.frames == old(bus.frames) + [VerifyConfigFrame(cfg[..], rx)]
    ensures !bus.selected
  {
    ghost var p0 := bus.pos;
    ghost var rx := bus.Incoming(p0, ImageSize);
    bus.CsLow();
    bus.SendByte(OpcReadConfig + 0x00);
    var i := 0;
    while i < 17
      invariant 0 <= i <= 17
      invariant bus.selected && bus.pos == p0 + i && bus.frames == old(bus.frames)
      invariant bus.current == [Sent(OpcReadConfig)] + Receives(rx[..i])
      invariant cfg[..i] == rx[..i]
    {
      var b := bus.ReadByte();
      assert b == rx[i];
      assert Receives(rx[..i + 1]) == Receives(rx[..i]) + [Received(b)];
      if b != cfg[i] {
        assert cfg[..][..i] == cfg[..i];
        VerifyStopsAtFirstMismatch(cfg[..], rx, i);
        assert bus.current == VerifyConfigFrame(cfg[..], rx);
        bus.CsHigh();
        FirstMismatchExact(cfg[..], rx);
        return false;
      }
      assert cfg[..i + 1] == cfg[..i] + [cfg[i]] && rx[..i + 1] == rx[..i] + [rx[i]];
      i := i + 1;
    }
    assert cfg[..17] == cfg[..] && rx[..17] == rx;
    FirstMismatchExact(cfg[..], rx);
    bus.CsHigh();
    ok := true;
  }

  /** The init opcode: start measuring (the settle delay that follows is timing only). */
  method StartMeasurement(bus: Bus)
    requires !bus.selected
    modifies bus
    ensures !bus.selected && bus.pos == old(bus.pos)
    ensures bus.frames == old(bus.frames) + [InitFrame]
  {
    bus.CsLow();
    bus.SendByte(OpcInit);
    assert bus.current == InitFrame;
    bus.CsHigh();
  }

  /** Three reads inside the current frame, most significant byte first. */
  method Read24Bit(bus: Bus) returns (value: bv32)
    requires bus.selected
    modifies bus
    ensures var p := old(bus.pos);
      && value == Be24(bus.reply(p), bus.reply(p + 1), bus.reply(p + 2))
      && bus.current == old(bus.current) + Receives(bus.Incoming(p, 3))
    ensures bus.selected && bus.pos == old(bus.pos) + 3 && bus.frames == old(bus.frames)
  {
    value := 0;
    var b0 := bus.ReadByte();
    value := value | ((b0 as bv32) << 16);
    var b1 := bus.ReadByte();
    value := value | ((b1 as bv32) << 8);
    var b2 := bus.ReadByte();
    value := value | (b2 as bv32);
    assert Receives(bus.Incoming(old(bus.pos), 3)) == [Received(b0), Received(b1), Received(b2)];
  }

  /** Channel ch of a read starting at p0 is the two values in the six bytes starting at p0 + 6ch. */
  lemma ChannelShift(bus: Bus, p0: nat, ch: nat)
    requires ch < 4
    ensures var rx := bus.Incoming(p0, ResultBytes); var p := p0 + 6 * ch;
      && References(rx)[ch] == Be24(bus.reply(p), bus.reply(p + 1), bus.reply(p + 2))
      && Stops(rx)[ch] == Be24(bus.reply(p + 3), bus.reply(p + 4), bus.reply(p + 5))
  {
  }

  /** The results frame after ch + 1 channels is the frame after ch channels followed by six more reads. */
  lemma ResultsFrameStep(bus: Bus, p0: nat, ch: nat)
    ensures ReadResultsFrame(bus.Incoming(p0, 6 * ch)) + Receives(bus.Incoming(p0 + 6 * ch, 3))
              + Receives(bus.Incoming(p0 + 6 * ch + 3, 3))
         == ReadResultsFrame(bus.Incoming(p0, 6 * (ch + 1)))
  {
    bus.IncomingSplit(p0, 6 * ch, 3);
    bus.IncomingSplit(p0, 6 * ch + 3, 3);
  }

  /** Channel ch's two 24-bit reads, continuing the results frame. */
  method ReadPair(bus: Bus, ghost p0: nat, ch: nat) returns (reference: bv32, stop: bv32)
    requires ch < 4 && bus.selected && bus.pos == p0 + 6 * ch
    requires bus.current == ReadResultsFrame(bus.Incoming(p0, 6 * ch))
    modifies bus
    ensures reference == Be24(bus.reply(p0 + 6 * ch), bus.reply(p0 + 6 * ch + 1), bus.reply(p0 + 6 * ch + 2))
    ensures stop == Be24(bus.reply(p0 + 6 * ch + 3), bus.reply(p0 + 6 * ch + 4), bus.reply(p0 + 6 * ch + 5))
    ensures bus.selected && bus.pos == p0 + 6 * (ch + 1) && bus.frames == old(bus.frames)
    ensures bus.current == ReadResultsFrame(bus.Incoming(p0, 6 * (ch + 1)))
  {
    ResultsFrameStep(bus, p0, ch);
    ghost var before := bus.current;
    ghost var first := Receives(bus.Incoming(p0 + 6 * ch, 3));
    ghost var second := Receives(bus.Incoming(p0 + 6 * ch + 3, 3));
    reference := Read24Bit(bus);
    assert bus.current == before + first;
    stop := Read24Bit(bus);
    assert bus.current == before + first + second;
  }

  /**
   * One iteration of the results loop: channel ch's reference index, then its
   * stop value, each stored at index ch. The arrays hold the first ch + 1
   * channels of the decoded read afterwards.
   */
  method ReadChannel(bus: Bus, referenceIndex: array<bv32>, stopResults: array<bv32>, ch: nat, ghost p0: nat)
    requires referenceIndex.Length == 4 && stopResults.Length == 4 && referenceIndex != stopResults
    requires ch < 4 && bus.selected && bus.pos == p0 + 6 * ch
    requires bus.current == ReadResultsFrame(bus.Incoming(p0, 6 * ch))
    requires referenceIndex[..ch] == References(bus.Incoming(p0, ResultBytes))[..ch]
    requires stopResults[..ch] == Stops(bus.Incoming(p0, ResultBytes))[..ch]
    modifies bus, referenceIndex, stopResults
    ensures bus.selected && bus.pos == p0 + 6 * (ch + 1) && bus.frames == old(bus.frames)
    ensures bus.current == ReadResultsFrame(bus.Incoming(p0, 6 * (ch + 1)))
    ensures referenceIndex[..ch + 1] == References(bus.Incoming(p0, ResultBytes))[..ch + 1]
    ensures stopResults[..ch + 1] == Stops(bus.Incoming(p0, ResultBytes))[..ch + 1]
  {
    ghost var rx := bus.Incoming(p0, ResultBytes);
    ChannelShift(bus, p0, ch);
    var reference, stop := ReadPair(bus, p0, ch);
    referenceIndex[ch] := reference;
    stopResults[ch] := stop;
    assert referenceIndex[..ch + 1] == referenceIndex[..ch] + [reference];
    assert References(rx)[..ch + 1] == References(rx)[..ch] + [References(rx)[ch]];
    assert stopResults[..ch + 1] == stopResults[..ch] + [stop];
    assert Stops(rx)[..ch + 1] == Stops(rx)[..ch] + [Stops(rx)[ch]];
  }

  /**
   * Sends the results opcode at address 8 and fills both arrays from the 24
   * bytes read: channel ch's reference index from bytes 6ch..6ch+2, its stop
   * value from bytes 6ch+3..6ch+5. The wait for the interrupt line is not modelled.
   */
  method ReadResults(bus: Bus, referenceIndex: array<bv32>, stopResults: array<bv32>)
    requires referenceIndex.Length == 4 && stopResults.Length == 4 && referenceIndex != stopResults
    requires !bus.selected
    modifies bus, referenceIndex, stopResults
    ensures var rx := bus.Incoming(old(bus.pos), ResultBytes);
      && DecodeResults(rx) == Measurement(referenceIndex[..], stopResults[..])
      && bus.frames == old(bus.frames) + [ReadResultsFrame(rx)]
    ensures !bus.selected && bus.pos == old(bus.pos) + ResultBytes
  {
    ghost var p0 := bus.pos;
    ghost var rx := bus.Incoming(p0, ResultBytes);
    bus.CsLow();
    bus.SendByte(OpcReadResults + ResultsAddress);
    assert bus.current == ReadResultsFrame(bus.Incoming(p0, 0));
    var ch := 0;
    while ch < 4
      invariant 0 <= ch <= 4
      invariant bus.selected && bus.pos == p0 + 6 * ch && bus.frames == old(bus.frames)
      invariant bus.current == ReadResultsFrame(bus.Incoming(p0, 6 * ch))
      invariant referenceIndex[..ch] == References(rx)[..ch]
      invariant stopResults[..ch] == Stops(rx)[..ch]
    {
      ReadChannel(bus, referenceIndex, stopResults, ch, p0);
      ch := ch + 1;
    }
    assert referenceIndex[..] == referenceIndex[..4] && stopResults[..] == stopResults[..4];
    bus.CsHigh();
  }
}
