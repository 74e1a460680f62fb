/** The byte-stream framing shared by the UART and I2C transports
    (`protocols/uart.rs`, `protocols/i2c/i2c_unix.rs`). Both transports
    receive packets, answer them with an ACK and ping a device with the same
    code; they differ only in how they wait for an ACK and how a connection
    is named, which the `Uart` and `I2c` modules model.

    The port is a script: `input` holds every byte the device will send, in
    order, and `sent` logs every byte the host has written. A read of `n`
    bytes succeeds when `n` bytes remain; otherwise the read gives up with
    an I/O error and the bytes that did arrive are lost, so the input is
    left empty. Writes always succeed. */
module Serial {
  import opened Base
  import opened Errors
  import Crc16
  import Packets
  import Ping

  /** Acknowledgement codes (`protocols.rs`). */
  const Ack: u8 := 0xA1
  const Nack: u8 := 0xA2
  const AckAbort: u8 := 0xA3

  /** The frame the host writes after receiving a packet (`send_ack`). */
  const AckFrame: Bytes := [Packets.StartByte, Ack]

  /** How many bytes the ping reply may be preceded by, the start byte
      included. */
  const MaxPingDummyBytes: nat := 50

  datatype Port = Port(input: Bytes, sent: Bytes)

  /** The outcome of an exchange and the port after it. */
  datatype Step<+T> = Step(result: Result<T, CommError>, port: Port)

  /** A read that ran out of input: whatever arrived is gone. */
  function Drained(p: Port): (q: Port)
    ensures q.input == [] && q.sent == p.sent
  {
    Port([], p.sent)
  }

  function Write(p: Port, b: Bytes): (q: Port)
    ensures q.input == p.input && q.sent == p.sent + b
  {
    Port(p.input, p.sent + b)
  }

  /** The acknowledgement codes a device answers a packet with. */
  predicate IsAckCode(code: u8) {
    code == Ack || code == Nack || code == AckAbort
  }

  /** What an acknowledgement code means to the host. */
  function AckResult(code: u8): (r: Result<(), CommError>)
    requires IsAckCode(code)
    ensures r.Ok? <==> code == Ack
    ensures r == Err(NACKSent) <==> code == Nack
    ensures r == Err(Aborted) <==> code == AckAbort
  {
    if code == Ack then Ok(())
    else if code == Nack then Err(NACKSent)
    else Err(Aborted)
  }

  /** The two bytes a device sends to acknowledge with `code`. */
  function ReplyFrame(code: u8): (r: Bytes)
    ensures |r| == 2 && r[0] == Packets.StartByte && r[1] == code
  {
    [Packets.StartByte, code]
  }

  /** `read_packet_raw` of the UART and I2C transports: two bytes that
      must be the start byte and the expected packet type, the length, the
      CRC and then `length` payload bytes; the host acknowledges before it
      checks the CRC (over the four header bytes and the payload), and a
      zero length, once the CRC holds, is the sender aborting. */
  function ReadPacketRaw(p: Port, code: u8): (s: Step<Bytes>)
    ensures s.port.sent == p.sent || s.port.sent == p.sent + AckFrame
    ensures s.result.Ok? ==> s.port.sent == p.sent + AckFrame
  {
    var input := p.input;
    if |input| < 2 then Step(Err(IOError), Drained(p))
    else if input[0] != Packets.StartByte || input[1] != code then Step(Err(InvalidHeader), Port(input[2..], p.sent))
    else if |input| < 6 then Step(Err(IOError), Drained(p))
    else
      var length := U16FromLe(input[2], input[3]);
      var crc := U16FromLe(input[4], input[5]);
      if |input| < 6 + length then Step(Err(IOError), Drained(p))
      else
        var payload := input[6..6 + length];
        var q := Port(input[6 + length..], p.sent + AckFrame);
        if Crc16.Checksum(input[..4] + payload) != crc then Step(Err(InvalidCrc), q)
        else if length == 0 then Step(Err(Aborted), q)
        else Step(Ok(payload), q)
  }

  /** A wrong start byte or packet type ends the read after two bytes,
      before any acknowledgement. */
  lemma ReadPacketRawWrongHeader(p: Port, code: u8)
    requires |p.input| >= 2 && p.input[..2] != [Packets.StartByte, code]
    ensures ReadPacketRaw(p, code) == Step(Err(InvalidHeader), Port(p.input[2..], p.sent))
  {
    assert p.input[..2] == [p.input[0], p.input[1]];
  }

  /** Once the header matches and the whole packet has arrived, exactly
      `6 + length` bytes are consumed and the ACK is sent, whatever the CRC
      and the length turn out to be. */
  lemma ReadPacketRawConsumes(p: Port, code: u8)
    requires |p.input| >= 6 && p.input[..2] == [Packets.StartByte, code]
    requires |p.input| >= 6 + U16FromLe(p.input[2], p.input[3])
    ensures ReadPacketRaw(p, code).port == Port(p.input[6 + U16FromLe(p.input[2], p.input[3])..], p.sent + AckFrame)
  {
    assert p.input[0] == p.input[..2][0] && p.input[1] == p.input[..2][1];
  }

  /** Of a complete packet with the right header: the CRC is checked
      first, then the length, and only a CRC-valid packet with a non-empty
      payload is accepted. */
  lemma ReadPacketRawChecks(p: Port, code: u8)
    requires |p.input| >= 6 && p.input[..2] == [Packets.StartByte, code]
    requires |p.input| >= 6 + U16FromLe(p.input[2], p.input[3])
    ensures var length := U16FromLe(p.input[2], p.input[3]);
      var crcOk := Crc16.Checksum(p.input[..4] + p.input[6..6 + length]) == U16FromLe(p.input[4], p.input[5]);
      var r := ReadPacketRaw(p, code).result;
      && (r == Err(InvalidCrc) <==> !crcOk)
      && (r == Err(Aborted) <==> crcOk && length == 0)
      && (r.Ok? <==> crcOk && length > 0)
      && (r.Ok? ==> r.value == p.input[6..6 + length])
  {
    assert p.input[0] == p.input[..2][0] && p.input[1] == p.input[..2][1];
  }

  /** Round trip with `construct_header`: a framed payload of 1 to 0xFFFF
      bytes is read back exactly, the empty payload reads as an abort, and
      the bytes after the frame stay unread. */
  lemma ReadPacketRawRoundTrip(code: u8, data: Bytes, rest: Bytes, sent: Bytes)
    requires |data| <= 0xFFFF
    ensures ReadPacketRaw(Port(Packets.ConstructHeader(code, data) + rest, sent), code)
      == Step(if |data| == 0 then Err(Aborted) else Ok(data), Port(rest, sent + AckFrame))
  {
    var frame := Packets.ConstructHeader(code, data);
    Packets.ConstructHeaderChecksum(code, data);
    var p := Port(frame + rest, sent);
    DivUnique(|data|, 0x1_0000, 0, |data|);
    FramePrefix(frame, rest, |data|);
    ReadPacketRawConsumes(p, code);
    ReadPacketRawChecks(p, code);
  }

  /** The frame of an empty payload is what a sender aborts with. */
  lemma ReadPacketRawAbortFrame(code: u8, rest: Bytes, sent: Bytes)
    ensures ReadPacketRaw(Port(Packets.ConstructHeader(code, []) + rest, sent), code)
      == Step(Err(Aborted), Port(rest, sent + AckFrame))
  {
    ReadPacketRawRoundTrip(code, [], rest, sent);
  }

  /** A frame followed by more bytes starts with the frame's header
      fields and payload. */
  lemma FramePrefix(frame: Bytes, rest: Bytes, length: nat)
    requires |frame| == 6 + length && U16FromLe(frame[2], frame[3]) == length
    ensures var input := frame + rest;
      && input[..2] == frame[..2] && input[2] == frame[2] && input[3] == frame[3]
      && input[4] == frame[4] && input[5] == frame[5]
      && input[..4] + input[6..6 + length] == frame[..4] + frame[6..]
      && input[6..6 + length] == frame[6..]
      && input[6 + length..] == rest
  {
  }

  /** The converse of the round trip: an accepted payload is the payload
      of the `construct_header` frame the input starts with. */
  lemma ReadPacketRawAccepts(p: Port, code: u8)
    requires ReadPacketRaw(p, code).result.Ok?
    ensures var data := ReadPacketRaw(p, code).result.value;
      && 1 <= |data| <= 0xFFFF
      && 6 + |data| <= |p.input|
      && p.input[..6 + |data|] == Packets.ConstructHeader(code, data)
  {
    var input := p.input;
    var length := U16FromLe(input[2], input[3]);
    var crc := U16FromLe(input[4], input[5]);
    var data := input[6..6 + length];
    assert ReadPacketRaw(p, code).result == Ok(data);
    FrameLayout(input, code, data);
    Packets.ConstructHeaderWith(code, data, crc);
  }

  /** A received packet with a matching header is, byte for byte, the
      header fields followed by the payload. */
  lemma FrameLayout(input: Bytes, code: u8, data: Bytes)
    requires |input| >= 6 && input[0] == Packets.StartByte && input[1] == code
    requires |input| >= 6 + U16FromLe(input[2], input[3])
    requires data == input[6..6 + U16FromLe(input[2], input[3])]
    ensures var length := U16FromLe(input[2], input[3]);
      && input[..4] == [Packets.StartByte, code] + U16ToLe(length)
      && input[..6 + length]
         == [Packets.StartByte, code] + U16ToLe(length) + U16ToLe(U16FromLe(input[4], input[5])) + data
  {
    var length := U16FromLe(input[2], input[3]);
    U16LeBytesRoundTrip(input[2], input[3]);
    U16LeBytesRoundTrip(input[4], input[5]);
    assert input[..4] == [input[0], input[1]] + [input[2], input[3]];
    assert input[..6 + length] == input[..4] + [input[4], input[5]] + data;
  }

  /** The index of the frame start byte among the bytes a device answers a
      ping with, looking from position `i` on: a read that runs out is an
      I/O error, and the 50th byte that is not a start byte an invalid
      header. */
  function FindStartByte(input: Bytes, i: nat): (r: Result<nat, CommError>)
    requires i < MaxPingDummyBytes
    ensures r.Ok? ==> i <= r.value < MaxPingDummyBytes && r.value < |input| && input[r.value] == Packets.StartByte
    ensures r.Err? ==> r.error == IOError || (r.error == InvalidHeader && |input| >= MaxPingDummyBytes)
    decreases MaxPingDummyBytes - i
  {
    if |input| <= i then Err(IOError)
    else if input[i] == Packets.StartByte then Ok(i)
    else if i == MaxPingDummyBytes - 1 then Err(InvalidHeader)
    else FindStartByte(input, i + 1)
  }

  /** The search finds the first start byte among the first 50 bytes,
      fails with an invalid header when there is none among 50 received
      bytes, and with an I/O error when the input ends first. */
  lemma {:induction false} FindStartByteFirst(input: Bytes, i: nat)
    requires i < MaxPingDummyBytes
    ensures var r := FindStartByte(input, i);
      && (r.Ok? ==> forall j :: i <= j < r.value ==> input[j] != Packets.StartByte)
      && (r.Ok? <==> exists k :: i <= k < |input| && k < MaxPingDummyBytes && input[k] == Packets.StartByte)
      && (r == Err(InvalidHeader) <==>
           |input| >= MaxPingDummyBytes && forall j :: i <= j < MaxPingDummyBytes ==> input[j] != Packets.StartByte)
    decreases MaxPingDummyBytes - i
  {
    if |input| <= i || input[i] == Packets.StartByte || i == MaxPingDummyBytes - 1 {
    } else {
      FindStartByteFirst(input, i + 1);
    }
  }

  /** `ping`: writes the ping packet, skips up to 49 bytes before the start
      byte, expects the ping-response type, reads the eight remaining bytes
      and checks the CRC of the first eight of the ten against the last
      two before parsing the response. */
  function PingDevice(p: Port): (s: Step<Ping.PingResponse>)
    ensures s.port.sent == p.sent + [Packets.StartByte, Packets.PingCode]
  {
    var input := p.input;
    var sent := p.sent + [Packets.StartByte, Packets.PingCode];
    match FindStartByte(input, 0)
    case Err(e) =>
      if e == InvalidHeader then Step(Err(InvalidHeader), Port(input[MaxPingDummyBytes..], sent))
      else Step(Err(e), Port([], sent))
    case Ok(k) =>
      if |input| < k + 2 then Step(Err(IOError), Port([], sent))
      else if input[k + 1] != Packets.PingResponseCode then Step(Err(InvalidHeader), Port(input[k + 2..], sent))
      else if |input| < k + 10 then Step(Err(IOError), Port([], sent))
      else
        var buf := input[k..k + 10];
        var q := Port(input[k + 10..], sent);
        if Crc16.Checksum(buf[..8]) != U16FromLe(buf[8], buf[9]) then Step(Err(InvalidCrc), q)
        else Step(Ping.ParsePingResponse(buf), q)
  }

  /** The reply a device sends to a ping: the eight response bytes and
      their CRC. */
  function PingReply(r: Ping.PingResponse): (b: Bytes)
    ensures |b| == 10 && b[..8] == Ping.PingResponseBytes(r)
  {
    var head := Ping.PingResponseBytes(r);
    var b := head + U16ToLe(Crc16.Checksum(head));
    assert b[..8] == head;
    b
  }

  /** A reply preceded by fewer than 50 bytes that are not start bytes is
      parsed back to the response the device encoded. */
  lemma PingRoundTrip(dummies: Bytes, r: Ping.PingResponse, rest: Bytes, sent: Bytes)
    requires |dummies| < MaxPingDummyBytes
    requires forall j :: 0 <= j < |dummies| ==> dummies[j] != Packets.StartByte
    ensures PingDevice(Port(dummies + PingReply(r) + rest, sent))
      == Step(Ok(r), Port(rest, sent + [Packets.StartByte, Packets.PingCode]))
  {
    var p := Port(dummies + PingReply(r) + rest, sent);
    var k := |dummies|;
    PingReplyLayout(dummies, PingReply(r), rest);
    PingDeviceReads(p, k);
    var buf := PingReply(r);
    var head := Ping.PingResponseBytes(r);
    U16LeRoundTrip(Crc16.Checksum(head));
    Ping.PingResponseIgnoresFraming(buf, head);
    Ping.PingResponseRoundTrip(r);
  }

  /** Where the search finds a reply behind fewer than 50 bytes that are
      not start bytes. */
  lemma PingReplyLayout(dummies: Bytes, reply: Bytes, rest: Bytes)
    requires |dummies| < MaxPingDummyBytes && |reply| == 10 && reply[0] == Packets.StartByte
    requires forall j :: 0 <= j < |dummies| ==> dummies[j] != Packets.StartByte
    ensures var input := dummies + reply + rest; var k := |dummies|;
      && FindStartByte(input, 0) == Ok(k)
      && k + 10 <= |input| && input[k..k + 10] == reply && input[k + 10..] == rest
  {
    var input := dummies + reply + rest;
    var k := |dummies|;
    assert input[k] == reply[0];
    FindStartByteFirst(input, 0);
    assert forall j :: 0 <= j < k ==> input[j] == dummies[j];
    assert input[k..k + 10] == reply;
  }

  /** A ping reply behind the start byte at `k` is checked against its
      CRC and then parsed; the ten bytes are consumed either way. */
  lemma PingDeviceReads(p: Port, k: nat)
    requires FindStartByte(p.input, 0) == Ok(k) && k + 10 <= |p.input|
    requires p.input[k + 1] == Packets.PingResponseCode
    ensures var buf := p.input[k..k + 10]; var s := PingDevice(p);
      && s.port == Port(p.input[k + 10..], p.sent + [Packets.StartByte, Packets.PingCode])
      && (s.result.Ok? <==> Crc16.Checksum(buf[..8]) == U16FromLe(buf[8], buf[9]))
      && (s.result.Ok? ==> s.result == Ping.ParsePingResponse(buf))
      && (s.result.Err? ==> s.result == Err(InvalidCrc))
  {
    var buf := p.input[k..k + 10];
    var q := Port(p.input[k + 10..], p.sent + [Packets.StartByte, Packets.PingCode]);
    assert PingDevice(p) == if Crc16.Checksum(buf[..8]) != U16FromLe(buf[8], buf[9]) then Step(Err(InvalidCrc), q)
      else Step(Ping.ParsePingResponse(buf), q);
  }

  /** Fifty bytes without a start byte end the ping with an invalid
      header, after those fifty bytes. */
  lemma PingTooManyDummies(p: Port)
    requires |p.input| >= MaxPingDummyBytes
    requires forall j :: 0 <= j < MaxPingDummyBytes ==> p.input[j] != Packets.StartByte
    ensures PingDevice(p).result == Err(InvalidHeader)
    ensures PingDevice(p).port.input == p.input[MaxPingDummyBytes..]
  {
    FindStartByteFirst(p.input, 0);
  }

  /** An accepted ping reply starts, after fewer than 50 other bytes, with
      the eight bytes of the response it parses to, followed by their
      CRC. */
  lemma PingAccepts(p: Port)
    requires PingDevice(p).result.Ok?
    ensures FindStartByte(p.input, 0).Ok?
    ensures var k := FindStartByte(p.input, 0).value;
      && k + 10 <= |p.input|
      && p.input[k..k + 10] == PingReply(PingDevice(p).result.value)
  {
    var input := p.input;
    var k := FindStartByte(input, 0).value;
    assert k + 10 <= |input| && input[k + 1] == Packets.PingResponseCode;
    PingDeviceReads(p, k);
    var buf := input[k..k + 10];
    assert buf[0] == input[k] && buf[1] == input[k + 1];
    AcceptedReply(buf, PingDevice(p).result.value);
  }

  /** Ten bytes that pass the CRC check and parse to `r` are the reply
      to `r`. */
  lemma AcceptedReply(buf: Bytes, r: Ping.PingResponse)
    requires |buf| == 10 && buf[0] == Packets.StartByte && buf[1] == Packets.PingResponseCode
    requires Ping.ParsePingResponse(buf) == Ok(r)
    requires Crc16.Checksum(buf[..8]) == U16FromLe(buf[8], buf[9])
    ensures buf == PingReply(r)
  {
    ParsedPingResponseBytes(buf);
    assert buf[..8] == Ping.PingResponseBytes(r);
    U16LeBytesRoundTrip(buf[8], buf[9]);
    assert buf[8..] == [buf[8], buf[9]];
    assert buf == buf[..8] + buf[8..];
  }

  /** Bytes that start with the start byte and the ping-response type are,
      in their first eight, the layout of the response they parse to. */
  lemma ParsedPingResponseBytes(b: Bytes)
    requires |b| >= 8 && b[0] == Packets.StartByte && b[1] == Packets.PingResponseCode
    ensures Ping.PingResponseBytes(Ping.ParsePingResponse(b).value) == b[..8]
  {
    var r := Ping.ParsePingResponse(b).value;
    var v := U32ToLe(r.version);
    assert v == [b[5], b[4], b[3], b[2]];
    assert U16ToLe(r.options) == b[6..8];
  }
}

/** The UART transport (`protocols/uart.rs`): the shared serial framing
    with a strict acknowledgement reader. */
module Uart {
  import opened Base
  import opened Errors
  import Packets
  import Ping
  import opened Serial

  /** `read_ack`: the first two bytes that arrive decide. They must be the
      start byte and an acknowledgement code; when two bytes never arrive
      the wait times out. Polling and the clock are not modelled: the
      timeout is the input running out. */
  function ReadAck(p: Port): (s: Step<()>)
    ensures s.port.sent == p.sent
  {
    if |p.input| < 2 then Step(Err(Timeout), Drained(p))
    else
      var q := Port(p.input[2..], p.sent);
      if p.input[0] != Packets.StartByte then Step(Err(InvalidHeader), q)
      else if p.input[1] == Ack then Step(Ok(()), q)
      else if p.input[1] == Nack then Step(Err(NACKSent), q)
      else if p.input[1] == AckAbort then Step(Err(Aborted), q)
      else Step(Err(InvalidHeader), q)
  }

  /** Every acknowledgement frame is read as its meaning; anything else in
      the first two bytes is an invalid header. */
  lemma ReadAckDecides(p: Port)
    requires |p.input| >= 2
    ensures var s := ReadAck(p);
      && s.port == Port(p.input[2..], p.sent)
      && (IsAckCode(p.input[1]) && p.input[0] == Packets.StartByte ==> s.result == AckResult(p.input[1]))
      && (!IsAckCode(p.input[1]) || p.input[0] != Packets.StartByte <==> s.result == Err(InvalidHeader))
  {
  }

  lemma ReadAckReplyFrame(code: u8, rest: Bytes, sent: Bytes)
    requires IsAckCode(code)
    ensures ReadAck(Port(ReplyFrame(code) + rest, sent)) == Step(AckResult(code), Port(rest, sent))
  {
    assert (ReplyFrame(code) + rest)[2..] == rest;
  }

  /** `write_packet_raw`: the frame is written, then acknowledged. */
  function WritePacketRaw(p: Port, frame: Bytes): (s: Step<()>)
    ensures s.port.sent == p.sent + frame
    ensures s.result.Ok? <==> |p.input| >= 2 && p.input[..2] == ReplyFrame(Ack)
  {
    var s := ReadAck(Write(p, frame));
    assert |p.input| >= 2 ==> p.input[..2] == [p.input[0], p.input[1]];
    s
  }

  /** A payload the host writes as a frame is what a receiver of the sent
      bytes reads back. */
  lemma WriteReadRoundTrip(p: Port, code: u8, data: Bytes)
    requires 1 <= |data| <= 0xFFFF
    ensures var sent := WritePacketRaw(p, Packets.ConstructHeader(code, data)).port.sent;
      ReadPacketRaw(Port(sent[|p.sent|..], []), code).result == Ok(data)
  {
    var frame := Packets.ConstructHeader(code, data);
    var sent := WritePacketRaw(p, frame).port.sent;
    assert sent[|p.sent|..] == frame + [];
    ReadPacketRawRoundTrip(code, data, [], []);
  }

  /** `open_with_options`: the serial port is opened first (`portOpened`
      is whether the serial library managed it); an open port is pinged,
      and the connection is usable once the device answers. */
  function Open(portOpened: bool, p: Port): (s: Step<()>)
    ensures !portOpened ==> s == Step(Err(SerialPortError), p)
    ensures s.result.Ok? <==> portOpened && PingDevice(p).result.Ok?
    ensures portOpened ==> s.port == PingDevice(p).port
    ensures portOpened && PingDevice(p).result.Err? ==> s.result == Err(PingDevice(p).result.error)
  {
    if !portOpened then Step(Err(SerialPortError), p)
    else
      var s := PingDevice(p);
      match s.result
      case Ok(_) => Step(Ok(()), s.port)
      case Err(e) => Step(Err(e), s.port)
  }
}

/** The I2C transport on Unix (`protocols/i2c/i2c_unix.rs`): the shared
    serial framing, a tolerant acknowledgement reader, and the
    `path[:address]` identifier. */
module I2c {
  import opened Base
  import opened Errors
  import Packets
  import Parsers
  import opened Serial

  /** The slave address used when the identifier names none
      (`protocols/i2c/mod.rs`). */
  const DefaultSlave: u8 := 0x10

  /** An acknowledgement frame at pair position `j` of the input. */
  predicate ReplyAt(input: Bytes, j: nat) {
    2 * j + 1 < |input| && input[2 * j] == Packets.StartByte && IsAckCode(input[2 * j + 1])
  }

  /** `read_ack`: keeps reading two bytes at a time, past busy bytes
      (0x00), pairs that do not start with the start byte and unknown
      codes, until an acknowledgement frame arrives; the wait times out
      when the input runs out first. */
  function ReadAck(p: Port): (s: Step<()>)
    ensures s.port.sent == p.sent
    ensures s.result.Ok? || s.result == Err(NACKSent) || s.result == Err(Aborted) || s.result == Err(Timeout)
    decreases |p.input|
  {
    if |p.input| < 2 then Step(Err(Timeout), Drained(p))
    else
      var q := Port(p.input[2..], p.sent);
      if p.input[0] == 0x00 then ReadAck(q)
      else if p.input[0] != Packets.StartByte then ReadAck(q)
      else if p.input[1] == Ack then Step(Ok(()), q)
      else if p.input[1] == Nack then Step(Err(NACKSent), q)
      else if p.input[1] == AckAbort then Step(Err(Aborted), q)
      else ReadAck(q)
  }

  lemma ReplyAtShift(input: Bytes, j: nat)
    requires |input| >= 2
    ensures ReplyAt(input, j + 1) <==> ReplyAt(input[2..], j)
  {
  }

  /** The first acknowledgement frame at an even offset decides, and the
      bytes after it stay unread. */
  lemma {:induction false} ReadAckFirstReply(p: Port, j: nat)
    requires ReplyAt(p.input, j)
    requires forall i :: 0 <= i < j ==> !ReplyAt(p.input, i)
    ensures ReadAck(p) == Step(AckResult(p.input[2 * j + 1]), Port(p.input[2 * j + 2..], p.sent))
    decreases j
  {
    if j > 0 {
      var q := Port(p.input[2..], p.sent);
      assert !ReplyAt(p.input, 0);
      forall i | 0 <= i < j - 1
        ensures !ReplyAt(q.input, i)
      {
        ReplyAtShift(p.input, i);
      }
      ReplyAtShift(p.input, j - 1);
      ReadAckFirstReply(q, j - 1);
      assert q.input[2 * (j - 1) + 1] == p.input[2 * j + 1];
      assert q.input[2 * (j - 1) + 2..] == p.input[2 * j + 2..];
    }
  }

  /** Without an acknowledgement frame at any even offset the wait times
      out, whatever else arrives. */
  lemma {:induction false} ReadAckNoReply(p: Port)
    requires forall i: nat :: !ReplyAt(p.input, i)
    ensures ReadAck(p) == Step(Err(Timeout), Port([], p.sent))
    decreases |p.input|
  {
    if |p.input| >= 2 {
      var q := Port(p.input[2..], p.sent);
      assert !ReplyAt(p.input, 0);
      forall i: nat
        ensures !ReplyAt(q.input, i)
      {
        ReplyAtShift(p.input, i);
      }
      ReadAckNoReply(q);
    }
  }

  /** `write_packet_raw`: the frame is written, then acknowledged. */
  function WritePacketRaw(p: Port, frame: Bytes): (s: Step<()>)
    ensures s.port.sent == p.sent + frame
  {
    ReadAck(Write(p, frame))
  }

  /** Writing a frame succeeds exactly when the first acknowledgement
      frame the device sends afterwards is an ACK. */
  lemma WritePacketRawAcknowledged(p: Port, frame: Bytes, j: nat)
    requires ReplyAt(p.input, j)
    requires forall i :: 0 <= i < j ==> !ReplyAt(p.input, i)
    ensures WritePacketRaw(p, frame).result == AckResult(p.input[2 * j + 1])
    ensures WritePacketRaw(p, frame).result.Ok? <==> p.input[2 * j + 1] == Ack
  {
    ReadAckFirstReply(Write(p, frame), j);
  }

  /** The first `:` in `s`, if any. */
  function FindColon(s: string): (r: Option<nat>)
    ensures r.Some? ==> r.value < |s| && s[r.value] == ':' && forall i :: 0 <= i < r.value ==> s[i] != ':'
    ensures r.None? ==> forall i :: 0 <= i < |s| ==> s[i] != ':'
  {
    if |s| == 0 then None
    else if s[0] == ':' then Some(0)
    else match FindColon(s[1..])
      case None => None
      case Some(i) => Some(i + 1)
  }

  /** The device path and slave address an identifier names. */
  datatype Target = Target(path: string, slave: u8)

  /** The identifier parsing of `open_with_options`: `path` alone uses the
      default slave address, `path:address` parses the address as a `u8`
      with `parse_number`, and a further `:`-separated part is rejected,
      though only once the address has parsed. */
  function ParseIdentifier(id: string): (r: Result<Target, CommError>)
  {
    match FindColon(id)
    case None => Ok(Target(id, DefaultSlave))
    case Some(i) =>
      var tail := id[i + 1..];
      var more := FindColon(tail);
      var address := if more.Some? then tail[..more.value] else tail;
      match Parsers.ParseNumber(address, Parsers.U8Max)
      case Err(e) => Err(ParseError(Parsers.NumberErrorMessage(e)))
      case Ok(n) => if more.Some? then Err(InvalidData) else Ok(Target(id[..i], n))
  }

  /** A path without a colon is used whole, with slave address 0x10. */
  lemma ParseIdentifierPathOnly(path: string)
    requires forall i :: 0 <= i < |path| ==> path[i] != ':'
    ensures ParseIdentifier(path) == Ok(Target(path, DefaultSlave))
  {
  }

  /** `path:address` with the address in decimal names that slave. */
  lemma ParseIdentifierWithAddress(path: string, slave: u8)
    requires forall i :: 0 <= i < |path| ==> path[i] != ':'
    ensures ParseIdentifier(path + ":" + Parsers.Render(slave, 10)) == Ok(Target(path, slave))
  {
    var id := path + ":" + Parsers.Render(slave, 10);
    var a := Parsers.Render(slave, 10);
    assert FindColon(id) == Some(|path|) by {
      assert id[|path|] == ':';
      assert forall i :: 0 <= i < |path| ==> id[i] == path[i];
    }
    assert id[|path| + 1..] == a;
    assert FindColon(a).None? by {
      forall i | 0 <= i < |a|
        ensures a[i] != ':'
      {
        assert Parsers.DigitValue(a[i], 10).Some?;
      }
    }
    assert id[..|path|] == path;
    Parsers.DecimalRoundTrip(slave, Parsers.U8Max);
  }

  /** With three parts, an address that does not parse is reported as a
      parse error and one that parses as invalid data. */
  lemma ParseIdentifierThreeParts(path: string, address: string, extra: string)
    requires forall i :: 0 <= i < |path| ==> path[i] != ':'
    requires forall i :: 0 <= i < |address| ==> address[i] != ':'
    ensures var r := ParseIdentifier(path + ":" + address + ":" + extra);
      match Parsers.ParseNumber(address, Parsers.U8Max)
      case Err(e) => r == Err(ParseError(Parsers.NumberErrorMessage(e)))
      case Ok(_) => r == Err(InvalidData)
  {
    var id := path + ":" + address + ":" + extra;
    assert FindColon(id) == Some(|path|) by {
      assert id[|path|] == ':';
      assert forall i :: 0 <= i < |path| ==> id[i] == path[i];
    }
    var tail := id[|path| + 1..];
    assert tail == address + ":" + extra;
    assert FindColon(tail) == Some(|address|) by {
      assert tail[|address|] == ':';
      assert forall i :: 0 <= i < |address| ==> tail[i] == address[i];
    }
    assert tail[..|address|] == address;
  }

  /** `open_with_options`: the identifier is parsed before any I/O; then
      the device file is opened (`file`) and the slave address selected
      with the `I2C_SLAVE` ioctl (`ioctl`), given as their outcomes; a
      device that got that far is pinged. */
  function Open(id: string, file: bool, ioctl: bool, p: Port): (s: Step<Target>)
    ensures ParseIdentifier(id).Err? ==> s == Step(Err(ParseIdentifier(id).error), p)
    ensures ParseIdentifier(id).Ok? && !file ==> s == Step(Err(FileError), p)
    ensures ParseIdentifier(id).Ok? && file && !ioctl ==> s == Step(Err(IOError), p)
    ensures ParseIdentifier(id).Ok? && file && ioctl ==> s.port == PingDevice(p).port
    ensures s.result.Ok? <==> ParseIdentifier(id).Ok? && file && ioctl && PingDevice(p).result.Ok?
    ensures s.result.Ok? ==> s.result.value == ParseIdentifier(id).value
  {
    match ParseIdentifier(id)
    case Err(e) => Step(Err(e), p)
    case Ok(t) =>
      if !file then Step(Err(FileError), p)
      else if !ioctl then Step(Err(IOError), p)
      else
        var s := PingDevice(p);
        match s.result
        case Ok(_) => Step(Ok(t), s.port)
        case Err(e) => Step(Err(e), s.port)
  }
}
