/** The session layer of `McuBoot` (`mboot.rs`) over an abstract transport:
    how a command is sent (with its data phase split into packets of the
    device's maximum packet size), how a command response is read (with
    its data phase reassembled), which statuses each operation accepts, and
    the read-back check of a one-time-programmable word.

    The transport is a script of the results its successive
    `read_packet_raw` calls return, together with the log of the frames it
    was given to write; writing always succeeds. An exhausted script reads
    as a timeout. `CmdResponseTag::from_code`, which is not part of this
    model, is a parameter: it turns a response's tag byte, parameter bytes
    and data phase into a response tag, or fails. */
module Session {
  import opened Base
  import opened Errors
  import Status
  import Tags
  import Commands
  import CommandPacket
  import Packets
  import Property
  import DataPhase

  /** How an operation ends when it does not succeed: a
      `CommunicationError`, or a panic of the host on something the device
      sent (a response too short to slice, a packet size of zero, a
      property value the decoder cannot read). */
  datatype Fault = Error(error: CommError) | Panic

  /** The transport: what its reads will return, and what was written. */
  datatype Device = Device(replies: seq<Result<Bytes, CommError>>, written: seq<Bytes>)

  /** `McuBoot`: the transport and the flag that makes `read_command`
      ignore a response's data-phase flag. */
  datatype McuBoot = McuBoot(device: Device, maskReadDataPhase: bool)

  /** What an operation returns, with the session after it. */
  datatype Io<+T> = Io(result: Result<T, Fault>, boot: McuBoot)

  /** One read of the transport, with the transport after it. */
  datatype Read<+T> = Read(reply: Result<T, CommError>, device: Device)

  /** The response tags the session inspects (`CmdResponseTag`); every
      other kind of response is `OtherTag`. */
  datatype ResponseTag =
      GetPropertyTag(words: seq<u32>)
    | ReadMemoryTag(bytes: Bytes)
    | FlashReadOnceTag(value: u32)
    | KeyProvisioningTag(words: seq<u32>, keyData: Option<Bytes>)
    | TrustProvisioningTag(words: seq<u32>)
    | OtherTag

  /** `CmdResponseTag::from_code(tag, params, data_phase)`. */
  type TagDecoder = (u8, Bytes, Option<Bytes>) -> Option<ResponseTag>

  /** `CmdResponse` */
  datatype CmdResponse = CmdResponse(header: CommandPacket.CommandHeader, status: Status.StatusCode, tag: ResponseTag)

  /** `write_packet_raw` */
  function WriteRaw(d: Device, frame: Bytes): (e: Device)
    ensures e.replies == d.replies && e.written == d.written + [frame]
  {
    Device(d.replies, d.written + [frame])
  }

  /** `read_packet_raw`: the next scripted result. */
  function ReadRaw(d: Device): (r: Read<Bytes>)
    ensures |d.replies| == 0 ==> r == Read(Err(Timeout), d)
    ensures |d.replies| > 0 ==> r == Read(d.replies[0], Device(d.replies[1..], d.written))
  {
    if |d.replies| == 0 then Read(Err(Timeout), d)
    else Read(d.replies[0], Device(d.replies[1..], d.written))
  }

  /** `write_packet_concrete` of a data-phase packet: the raw write of the
      frame the packet constructs. */
  function WritePacketConcrete(d: Device, p: DataPhase.DataPhasePacket): (e: Device)
    ensures e == WriteRaw(d, DataPhase.ConstructDataPhase(p))
    ensures e.written[|d.written|][6..] == p.data
  {
    WriteRaw(d, DataPhase.ConstructDataPhase(p))
  }

  /** `read_packet_concrete::<DataPhasePacket>`: a raw read parsed as a
      data-phase packet; read errors pass through unchanged. */
  function ReadPacketConcrete(d: Device): (r: Read<DataPhase.DataPhasePacket>)
    ensures ReadRaw(d).reply.Err? ==> r.reply == Err(ReadRaw(d).reply.error)
    ensures ReadRaw(d).reply.Ok? ==> r.reply == Ok(DataPhase.DataPhasePacket(ReadRaw(d).reply.value))
    ensures r.device == ReadRaw(d).device
  {
    var raw := ReadRaw(d);
    match raw.reply
    case Err(e) => Read(Err(e), raw.device)
    case Ok(b) =>
      match DataPhase.ParseDataPhase(b)
      case Ok(p) => Read(Ok(p), raw.device)
      case Err(e) => Read(Err(e), raw.device)
  }

  /** `parse_status`: the little-endian word as a status; an undeclared
      value is an unexpected `UnknownStatusCode` that keeps the raw value. */
  function ParseStatus(b: Bytes): (r: Result<Status.StatusCode, CommError>)
    requires |b| == 4
    ensures r.Ok? <==> Status.Declared(U32FromLe(b))
    ensures r.Ok? ==> Status.Code(r.value) == U32FromLe(b)
    ensures r.Err? ==> r.error == UnexpectedStatus(Status.UnknownStatusCode, U32FromLe(b))
  {
    var n := U32FromLe(b);
    match Status.FromCode(n)
    case Some(s) => Ok(s)
    case None => Err(UnexpectedStatus(Status.UnknownStatusCode, n))
  }

  /** A status written as the device writes it is read back as itself. */
  lemma ParseStatusRoundTrip(s: Status.StatusCode)
    ensures ParseStatus(U32ToLe(Status.Code(s))) == Ok(s)
  {
    U32LeRoundTrip(Status.Code(s));
  }

  /** The bytes of `cs`, one after the other. */
  function Flatten(cs: seq<Bytes>): (b: Bytes)
  {
    if |cs| == 0 then [] else cs[0] + Flatten(cs[1..])
  }

  /** The replies of a device that sends the packets `cs` without fault. */
  function Oks(cs: seq<Bytes>): (r: seq<Result<Bytes, CommError>>)
    ensures |r| == |cs| && forall i :: 0 <= i < |cs| ==> r[i] == Ok(cs[i])
  {
    if |cs| == 0 then [] else [Ok(cs[0])] + Oks(cs[1..])
  }

  /** The data-phase loop of `read_command`: packets are appended to `acc`
      until it holds exactly `length` bytes, or the device aborts; any other
      read error ends the command. Overshooting `length` never ends the
      loop, so reading goes on until the transport fails. */
  function ReadDataPhase(d: Device, length: nat, acc: Bytes): (r: Read<Bytes>)
    ensures r.reply.Ok? ==> |r.reply.value| >= |acc| && r.reply.value[..|acc|] == acc
    ensures |r.device.replies| <= |d.replies| && r.device.written == d.written
    decreases |d.replies|
  {
    if |acc| == length then Read(Ok(acc), d)
    else
      var p := ReadPacketConcrete(d);
      match p.reply
      case Ok(packet) =>
        var r := ReadDataPhase(p.device, length, acc + packet.data);
        assert r.reply.Ok? ==> r.reply.value[..|acc|] == (acc + packet.data)[..|acc|];
        r
      case Err(e) => if e == Aborted then Read(Ok(acc), p.device) else Read(Err(e), p.device)
  }

  /** The running totals after each packet of `cs`, starting from `n`,
      all differ from `length`. */
  predicate NeverReaches(n: nat, cs: seq<Bytes>, length: nat)
    decreases |cs|
  {
    |cs| == 0 || (n != length && NeverReaches(n + |cs[0]|, cs[1..], length))
  }

  /** Packets whose running totals never hit the declared length are all
      consumed and appended. */
  lemma {:induction false} ReadDataPhaseConsumes(cs: seq<Bytes>, d: Device, length: nat, acc: Bytes)
    requires NeverReaches(|acc|, cs, length)
    ensures ReadDataPhase(Device(Oks(cs) + d.replies, d.written), length, acc)
      == ReadDataPhase(d, length, acc + Flatten(cs))
    decreases |cs|
  {
    if |cs| == 0 {
      assert Oks(cs) + d.replies == d.replies;
      assert acc + Flatten(cs) == acc;
    } else {
      var e := Device(Oks(cs) + d.replies, d.written);
      assert e.replies[0] == Ok(cs[0]);
      assert e.replies[1..] == Oks(cs[1..]) + d.replies;
      ReadDataPhaseConsumes(cs[1..], d, length, acc + cs[0]);
      assert acc + cs[0] + Flatten(cs[1..]) == acc + Flatten(cs);
    }
  }

  /** Non-empty packets that add up to the declared length never hit it
      early. */
  lemma {:induction false} NonEmptyNeverReaches(n: nat, cs: seq<Bytes>, length: nat)
    requires forall i :: 0 <= i < |cs| ==> |cs[i]| > 0
    requires n + |Flatten(cs)| == length
    ensures NeverReaches(n, cs, length)
    decreases |cs|
  {
    if |cs| > 0 {
      assert |Flatten(cs)| == |cs[0]| + |Flatten(cs[1..])|;
      NonEmptyNeverReaches(n + |cs[0]|, cs[1..], length);
    }
  }

  /** Reassembly: non-empty packets that add up to the declared length
      give exactly their concatenation, and nothing after them is read. */
  lemma ReadDataPhaseExact(cs: seq<Bytes>, d: Device)
    requires forall i :: 0 <= i < |cs| ==> |cs[i]| > 0
    ensures ReadDataPhase(Device(Oks(cs) + d.replies, d.written), |Flatten(cs)|, [])
      == Read(Ok(Flatten(cs)), d)
  {
    NonEmptyNeverReaches(0, cs, |Flatten(cs)|);
    ReadDataPhaseConsumes(cs, d, |Flatten(cs)|, []);
    assert [] + Flatten(cs) == Flatten(cs);
  }

  /** An abort before the declared length ends the data phase with what
      has arrived so far. */
  lemma ReadDataPhaseAborted(cs: seq<Bytes>, d: Device, length: nat)
    requires NeverReaches(0, cs, length) && |Flatten(cs)| != length
    ensures ReadDataPhase(Device(Oks(cs) + [Err(Aborted)] + d.replies, d.written), length, [])
      == Read(Ok(Flatten(cs)), d)
  {
    var tail := Device([Err(Aborted)] + d.replies, d.written);
    assert Oks(cs) + [Err(Aborted)] + d.replies == Oks(cs) + tail.replies;
    ReadDataPhaseConsumes(cs, tail, length, []);
    assert [] + Flatten(cs) == Flatten(cs);
    assert tail.replies[1..] == d.replies;
  }

  /** A response's tag, or `InvalidData` when the decoder rejects it. */
  function Decoded(t: Option<ResponseTag>, header: CommandPacket.CommandHeader, status: Status.StatusCode)
    : (r: Result<CmdResponse, Fault>)
    ensures t.None? <==> r == Err(Error(InvalidData))
    ensures t.Some? ==> r == Ok(CmdResponse(header, status, t.value))
  {
    match t
    case None => Err(Error(InvalidData))
    case Some(tag) => Ok(CmdResponse(header, status, tag))
  }

  /** The parameter-length check of `read_command`, as written: a length
      that is not a multiple of four is always different from four times
      the count, so the count byte never decides anything. */
  predicate ParamsRejected(params: Bytes, count: u8) {
    |params| % 4 != 0 && |params| != 4 * count as int
  }

  /** `read_command`: reads a command response. The bytes are the response
      tag, the flag, the reserved byte, the parameter count, the status
      word and the parameters. With the data-phase flag (and the session
      not masking it), the first parameter is the data-phase length; the
      data-phase packets and a final response follow, whose status
      replaces the first one. */
  function ReadCommand(b: McuBoot, decode: TagDecoder): (s: Io<CmdResponse>)
    ensures s.boot.maskReadDataPhase == b.maskReadDataPhase
    ensures s.boot.device.written == b.device.written
  {
    var first := ReadRaw(b.device);
    var after := McuBoot(first.device, b.maskReadDataPhase);
    match first.reply
    case Err(e) => Io(Err(Error(e)), after)
    case Ok(data) =>
      if |data| < 8 then Io(Err(Panic), after)
      else
        var params := data[8..];
        if ParamsRejected(params, data[3]) then Io(Err(Error(InvalidData)), after)
        else
          match Tags.FlagFromCode(data[1])
          case None => Io(Err(Error(InvalidData)), after)
          case Some(flag) =>
            match ParseStatus(data[4..8])
            case Err(e) => Io(Err(Error(e)), after)
            case Ok(status) =>
              if b.maskReadDataPhase || flag.NoData? then
                Io(Decoded(decode(data[0], params, None), CommandPacket.CommandHeader(flag, data[2]), status), after)
              else ReadWithDataPhase(after, data, decode)
  }

  /** The data-phase branch of `read_command`, after the first response
      `data` was read. */
  function ReadWithDataPhase(b: McuBoot, data: Bytes, decode: TagDecoder): (s: Io<CmdResponse>)
    requires |data| >= 8
    ensures s.boot.maskReadDataPhase == b.maskReadDataPhase
    ensures s.boot.device.written == b.device.written
  {
    var params := data[8..];
    if |params| < 4 then Io(Err(Panic), b)
    else
      var length := U32FromLe(params[..4]);
      var phase := ReadDataPhase(b.device, length, []);
      match phase.reply
      case Err(e) => Io(Err(Error(e)), McuBoot(phase.device, b.maskReadDataPhase))
      case Ok(received) =>
        var last := ReadRaw(phase.device);
        var after := McuBoot(last.device, b.maskReadDataPhase);
        match last.reply
        case Err(e) => Io(Err(Error(e)), after)
        case Ok(fin) =>
          if |fin| < 8 then Io(Err(Panic), after)
          else
            match ParseStatus(fin[4..8])
            case Err(e) => Io(Err(Error(e)), after)
            case Ok(status) =>
              Io(Decoded(decode(data[0], params, Some(received)),
                         CommandPacket.CommandHeader(Tags.NoData, data[2]), status), after)
  }

  /** The bytes of a command response, as a device sends them. */
  function ResponseBytes(tag: u8, flag: Tags.CommandFlag, reserved: u8, status: Status.StatusCode, words: seq<u32>)
    : (r: Bytes)
    ensures |r| == 8 + 4 * |words|
  {
    [tag, Tags.FlagCode(flag), reserved, |words| % 0x100] + U32ToLe(Status.Code(status)) + WordsToLe(words)
  }

  /** Where the fields of a response sit in its bytes. */
  lemma ResponseBytesLayout(tag: u8, flag: Tags.CommandFlag, reserved: u8, status: Status.StatusCode, words: seq<u32>)
    ensures var r := ResponseBytes(tag, flag, reserved, status, words);
      && r[0] == tag && r[1] == Tags.FlagCode(flag) && r[2] == reserved
      && r[4..8] == U32ToLe(Status.Code(status)) && r[8..] == WordsToLe(words)
  {
    var r := ResponseBytes(tag, flag, reserved, status, words);
    var head := [tag, Tags.FlagCode(flag), reserved, |words| % 0x100];
    assert r == head + U32ToLe(Status.Code(status)) + WordsToLe(words);
    assert r[4..8] == U32ToLe(Status.Code(status));
    assert r[8..] == WordsToLe(words);
  }

  /** A response without data phase, or any response while the session
      masks the data-phase flag, is read back field by field: its flag,
      its reserved byte, its status, and the tag the decoder makes of its
      tag byte and parameter bytes; the rest of the script is left
      unread. */
  lemma ReadCommandRoundTrip(tag: u8, flag: Tags.CommandFlag, reserved: u8, status: Status.StatusCode,
                             words: seq<u32>, rest: seq<Result<Bytes, CommError>>, written: seq<Bytes>,
                             mask: bool, decode: TagDecoder)
    requires flag.NoData? || mask
    ensures var data := ResponseBytes(tag, flag, reserved, status, words);
      ReadCommand(McuBoot(Device([Ok(data)] + rest, written), mask), decode)
      == Io(Decoded(decode(tag, WordsToLe(words), None), CommandPacket.CommandHeader(flag, reserved), status),
            McuBoot(Device(rest, written), mask))
  {
    var data := ResponseBytes(tag, flag, reserved, status, words);
    ResponseBytesLayout(tag, flag, reserved, status, words);
    ParseStatusRoundTrip(status);
    Tags.FlagRoundTrip(flag);
    assert ([Ok(data)] + rest)[1..] == rest;
  }

  /** A response with a data phase, read without the mask: the packets that
      follow it are reassembled up to the length in its first parameter,
      the final response's status replaces its own, and the flag comes back
      cleared. */
  lemma ReadCommandDataPhase(tag: u8, reserved: u8, status: Status.StatusCode, words: seq<u32>,
                             cs: seq<Bytes>, fin: Bytes, rest: seq<Result<Bytes, CommError>>,
                             written: seq<Bytes>, decode: TagDecoder)
    requires |words| > 0 && words[0] == |Flatten(cs)|
    requires forall i :: 0 <= i < |cs| ==> |cs[i]| > 0
    requires |fin| >= 8 && ParseStatus(fin[4..8]).Ok?
    ensures var data := ResponseBytes(tag, Tags.HasDataPhase, reserved, status, words);
      ReadCommand(McuBoot(Device([Ok(data)] + Oks(cs) + [Ok(fin)] + rest, written), false), decode)
      == Io(Decoded(decode(tag, WordsToLe(words), Some(Flatten(cs))),
                    CommandPacket.CommandHeader(Tags.NoData, reserved), ParseStatus(fin[4..8]).value),
            McuBoot(Device(rest, written), false))
  {
    var data := ResponseBytes(tag, Tags.HasDataPhase, reserved, status, words);
    var tail := Oks(cs) + [Ok(fin)] + rest;
    DataPhaseResponseFields(tag, reserved, status, words);
    RegroupReplies(Ok(data), Oks(cs), Ok(fin), rest);
    ReadCommandEntersDataPhase(data, tail, written, decode);
    DataPhaseAfterHeader(data, cs, fin, rest, written, decode);
  }

  /** The fields of a response with the data-phase flag, as `read_command`
      finds them. */
  lemma DataPhaseResponseFields(tag: u8, reserved: u8, status: Status.StatusCode, words: seq<u32>)
    requires |words| > 0
    ensures var data := ResponseBytes(tag, Tags.HasDataPhase, reserved, status, words);
      && |data| >= 12 && (|data| - 8) % 4 == 0
      && data[0] == tag && data[1] == 1 && data[2] == reserved
      && ParseStatus(data[4..8]) == Ok(status)
      && data[8..] == WordsToLe(words)
      && U32FromLe(data[8..][..4]) == words[0]
  {
    var data := ResponseBytes(tag, Tags.HasDataPhase, reserved, status, words);
    ResponseBytesLayout(tag, Tags.HasDataPhase, reserved, status, words);
    ParseStatusRoundTrip(status);
    MulMod4(|words|);
    FirstWord(data[8..], words);
  }

  /** The first reply, then the rest of the script. */
  lemma RegroupReplies<T>(first: T, middle: seq<T>, last: T, rest: seq<T>)
    ensures [first] + middle + [last] + rest == [first] + (middle + [last] + rest)
  {
  }

  /** A well-formed response with the data-phase flag, read without the
      mask, continues into the data phase. */
  lemma ReadCommandEntersDataPhase(data: Bytes, tail: seq<Result<Bytes, CommError>>, written: seq<Bytes>,
                                   decode: TagDecoder)
    requires |data| >= 8 && (|data| - 8) % 4 == 0 && data[1] == 1 && ParseStatus(data[4..8]).Ok?
    ensures ReadCommand(McuBoot(Device([Ok(data)] + tail, written), false), decode)
      == ReadWithDataPhase(McuBoot(Device(tail, written), false), data, decode)
  {
    assert ([Ok(data)] + tail)[1..] == tail;
  }

  /** The first parameter word of a response is its first word. */
  lemma FirstWord(params: Bytes, words: seq<u32>)
    requires |words| > 0 && params == WordsToLe(words)
    ensures |params| >= 4 && U32FromLe(params[..4]) == words[0]
  {
    assert params[..4] == params[0..4] == U32ToLe(words[0]);
    U32LeRoundTrip(words[0]);
  }

  /** The data-phase branch for a length in the first parameter word. */
  lemma DataPhaseAfterHeader(data: Bytes, cs: seq<Bytes>, fin: Bytes,
                             rest: seq<Result<Bytes, CommError>>, written: seq<Bytes>, decode: TagDecoder)
    requires |data| >= 12 && U32FromLe(data[8..][..4]) == |Flatten(cs)|
    requires forall i :: 0 <= i < |cs| ==> |cs[i]| > 0
    requires |fin| >= 8 && ParseStatus(fin[4..8]).Ok?
    ensures ReadWithDataPhase(McuBoot(Device(Oks(cs) + [Ok(fin)] + rest, written), false), data, decode)
      == Io(Decoded(decode(data[0], data[8..], Some(Flatten(cs))),
                    CommandPacket.CommandHeader(Tags.NoData, data[2]), ParseStatus(fin[4..8]).value),
            McuBoot(Device(rest, written), false))
  {
    var after := Device([Ok(fin)] + rest, written);
    assert Oks(cs) + [Ok(fin)] + rest == Oks(cs) + after.replies;
    ReadDataPhaseExact(cs, after);
    assert after.replies[1..] == rest;
  }

  /** The parameter-count byte never changes what `read_command` returns:
      responses that differ only there are read alike. */
  lemma ReadCommandIgnoresCount(data: Bytes, count: u8, rest: seq<Result<Bytes, CommError>>,
                                written: seq<Bytes>, mask: bool, decode: TagDecoder)
    requires |data| >= 8
    ensures var other := data[..3] + [count] + data[4..];
      ReadCommand(McuBoot(Device([Ok(other)] + rest, written), mask), decode)
      == ReadCommand(McuBoot(Device([Ok(data)] + rest, written), mask), decode)
  {
    var other := data[..3] + [count] + data[4..];
    assert |other| == |data|;
    assert other[0] == data[0] && other[1] == data[1] && other[2] == data[2];
    assert other[4..8] == data[4..8] && other[8..] == data[8..];
    assert ParamsRejected(data[8..], count) == ParamsRejected(data[8..], data[3]);
    assert ([Ok(other)] + rest)[1..] == rest && ([Ok(data)] + rest)[1..] == rest;
    if |data| - 8 >= 4 && !ParamsRejected(data[8..], data[3]) && data[1] == 1 && !mask {
      assert ReadWithDataPhase(McuBoot(Device(rest, written), mask), other, decode)
        == ReadWithDataPhase(McuBoot(Device(rest, written), mask), data, decode);
    }
  }

  /** A response rejected by `read_command` before it is decoded: too
      short to slice (a panic), parameters that are not whole words, a flag
      byte that is neither 0 nor 1, or a status word that is no declared
      status. */
  lemma ReadCommandRejects(data: Bytes, rest: seq<Result<Bytes, CommError>>, written: seq<Bytes>,
                           mask: bool, decode: TagDecoder)
    ensures var s := ReadCommand(McuBoot(Device([Ok(data)] + rest, written), mask), decode);
      && (|data| < 8 ==> s.result == Err(Panic))
      && (|data| >= 8 && (|data| - 8) % 4 != 0 ==> s.result == Err(Error(InvalidData)))
      && (|data| >= 8 && (|data| - 8) % 4 == 0 && data[1] > 1 ==> s.result == Err(Error(InvalidData)))
      && (|data| >= 8 && (|data| - 8) % 4 == 0 && data[1] <= 1 && !Status.Declared(U32FromLe(data[4..8])) ==>
            s.result == Err(Error(UnexpectedStatus(Status.UnknownStatusCode, U32FromLe(data[4..8])))))
  {
    assert ([Ok(data)] + rest)[0] == Ok(data);
    if |data| >= 8 && (|data| - 8) % 4 != 0 {
      assert |data[8..]| % 4 != 0;
      MulMod4(data[3] as int);
    }
    if |data| >= 8 && (|data| - 8) % 4 == 0 && data[1] <= 1 {
      assert |data[8..]| % 4 == 0;
      Tags.FlagRoundTrip(if data[1] == 0 then Tags.NoData else Tags.HasDataPhase);
    }
  }

  lemma MulMod4(k: int)
    ensures (4 * k) % 4 == 0
  {
    DivUnique(4 * k, 4, k, 0);
  }

  /** `read_cmd_response`: a response is returned only with the `Success`
      status; any other status becomes the matching `UnexpectedStatus`
      error. */
  function ReadCmdResponse(b: McuBoot, decode: TagDecoder): (s: Io<CmdResponse>)
    ensures var r := ReadCommand(b, decode);
      && s.boot == r.boot
      && (r.result.Err? ==> s.result == Err(r.result.error))
      && (r.result.Ok? && Status.IsSuccess(r.result.value.status) ==> s.result == r.result)
      && (r.result.Ok? && !Status.IsSuccess(r.result.value.status) ==>
            s.result == Err(Error(FromStatus(r.result.value.status))))
    ensures s.result.Ok? ==> Status.IsSuccess(s.result.value.status)
    ensures s.boot.maskReadDataPhase == b.maskReadDataPhase
    ensures s.boot.device.written == b.device.written
  {
    var r := ReadCommand(b, decode);
    match r.result
    case Err(f) => r
    case Ok(response) =>
      if Status.IsSuccess(response.status) then r
      else Io(Err(Error(FromStatus(response.status))), r.boot)
  }

  /** The frame `send_command` writes for a command packet: its code byte
      names the command's kind, its flag byte the packet's flag, and the
      bytes after its count read back as the command's parameters. */
  function Frame(c: CommandPacket.Command): (f: Bytes)
    requires Commands.Implemented(c.tag)
    ensures |f| >= 10 && f[1] == Packets.CmdCode
    ensures Tags.CommandFromCode(f[6]) == Some(Commands.Kind(c.tag))
    ensures Tags.FlagFromCode(f[7]) == Some(c.header.flag) && f[8] == c.header.reserved
    ensures CommandPacket.FrameParams(f) == Some(Commands.ToParams(c.tag).words)
  {
    var ps := Commands.ToParams(c.tag).words;
    CommandPacket.ConstructFrameHeader(c.header, ps, Commands.Code(c.tag));
    CommandPacket.ConstructFrameParams(c.header, ps, Commands.Code(c.tag));
    Tags.CommandRoundTrip(Commands.Kind(c.tag));
    CommandPacket.CommandFrame(c)
  }

  /** `send_command` of a command without data phase: exactly one frame,
      the command's, is written; nothing is read and the mask is kept. */
  function SendPlain(b: McuBoot, c: CommandPacket.Command): (e: McuBoot)
    requires Commands.Implemented(c.tag)
    ensures e.maskReadDataPhase == b.maskReadDataPhase
    ensures e.device.replies == b.device.replies
    ensures e.device.written == b.device.written + [Frame(c)]
  {
    McuBoot(WriteRaw(b.device, Frame(c)), b.maskReadDataPhase)
  }

  /** `GetPropertyResponse` */
  datatype GetPropertyResponse = GetPropertyResponse(status: Status.StatusCode, property: Property.PropertyTag, responseWords: seq<u32>)

  /** `get_property`: the property decoded from the words of a successful
      GetProperty response; a different response is an invalid packet, and
      words the property decoder cannot read panic. */
  function GetProperty(b: McuBoot, tag: Tags.PropertyKind, memoryIndex: u32, decode: TagDecoder)
    : (s: Io<GetPropertyResponse>)
    ensures var r := ReadCmdResponse(SendPlain(b, CommandPacket.NewNoneFlag(Commands.GetProperty(tag, memoryIndex))), decode);
      && s.boot == r.boot
      && (r.result.Err? ==> s.result == Err(r.result.error))
      && (r.result.Ok? ==> s.result == PropertyResponse(tag, r.result.value))
    ensures s.boot.maskReadDataPhase == b.maskReadDataPhase
    ensures s.boot.device.written
      == b.device.written + [Frame(CommandPacket.NewNoneFlag(Commands.GetProperty(tag, memoryIndex)))]
  {
    var sent := SendPlain(b, CommandPacket.NewNoneFlag(Commands.GetProperty(tag, memoryIndex)));
    var r := ReadCmdResponse(sent, decode);
    match r.result
    case Err(f) => Io(Err(f), r.boot)
    case Ok(response) => Io(PropertyResponse(tag, response), r.boot)
  }

  /** The property a successful GetProperty response carries: another
      response is an invalid packet, and words the property decoder cannot
      read panic. */
  function PropertyResponse(tag: Tags.PropertyKind, response: CmdResponse): (r: Result<GetPropertyResponse, Fault>)
    ensures !response.tag.GetPropertyTag? ==> r == Err(Error(InvalidPacketReceived))
    ensures response.tag.GetPropertyTag? ==>
      (r.Ok? <==> Property.Decodable(tag, response.tag.words))
    ensures r.Ok? ==>
      && response.tag == GetPropertyTag(r.value.responseWords)
      && r.value.status == response.status
      && r.value.property == Property.FromCode(tag, r.value.responseWords)
      && Property.KindOf(r.value.property) == tag
  {
    match response.tag
    case GetPropertyTag(words) =>
      if Property.Decodable(tag, words) then
        Ok(GetPropertyResponse(response.status, Property.FromCode(tag, words), words))
      else Err(Panic)
    case _ => Err(Error(InvalidPacketReceived))
  }

  /** `data.chunks(n)`: consecutive pieces of `n` bytes, the last one
      possibly shorter; an empty slice has no pieces. */
  function Chunks(data: Bytes, n: nat): (cs: seq<Bytes>)
    requires n > 0
    ensures Flatten(cs) == data
    ensures forall i :: 0 <= i < |cs| ==> 0 < |cs[i]| <= n
    ensures forall i :: 0 <= i < |cs| - 1 ==> |cs[i]| == n
    decreases |data|
  {
    if |data| == 0 then []
    else if |data| <= n then
      assert Flatten([data]) == data + Flatten([]);
      [data]
    else
      var rest := Chunks(data[n..], n);
      var cs := [data[..n]] + rest;
      assert cs[1..] == rest;
      assert data == data[..n] + data[n..];
      cs
  }

  /** The frame of one data-phase packet. */
  function DataFrame(c: Bytes): (f: Bytes)
    ensures |f| >= 6 && f[6..] == c
  {
    DataPhase.ConstructDataPhase(DataPhase.DataPhasePacket(c))
  }

  /** The frames the data phase writes for `cs`, one data packet each. */
  function DataFrames(cs: seq<Bytes>): (fs: seq<Bytes>)
    ensures |fs| == |cs|
  {
    if |cs| == 0 then [] else [DataFrame(cs[0])] + DataFrames(cs[1..])
  }

  /** The data-phase loop of `send_command`: one `write_packet_concrete`
      per piece, that is, one raw write of its data frame. */
  function SendChunks(d: Device, cs: seq<Bytes>): (e: Device)
    ensures e.replies == d.replies && e.written == d.written + DataFrames(cs)
    decreases |cs|
  {
    if |cs| == 0 then d
    else
      var d1 := WriteRaw(d, DataFrame(cs[0]));
      var e := SendChunks(d1, cs[1..]);
      assert DataFrames(cs) == [DataFrame(cs[0])] + DataFrames(cs[1..]);
      AppendFrames(d.written, DataFrame(cs[0]), DataFrames(cs[1..]));
      e
  }

  /** Writing one frame and then several is writing them all at once. */
  lemma AppendFrames(written: seq<Bytes>, f: Bytes, more: seq<Bytes>)
    ensures (written + [f]) + more == written + ([f] + more)
  {
  }

  /** The payloads of frames, each without its six header bytes (a frame
      shorter than a header carries nothing). */
  function Payloads(fs: seq<Bytes>): (ps: seq<Bytes>)
    ensures |ps| == |fs| && forall i :: 0 <= i < |fs| && |fs[i]| >= 6 ==> ps[i] == fs[i][6..]
  {
    if |fs| == 0 then []
    else [if |fs[0]| >= 6 then fs[0][6..] else []] + Payloads(fs[1..])
  }

  /** The data frames of a split carry the pieces. */
  lemma {:induction false} DataFramePayloads(cs: seq<Bytes>)
    ensures Payloads(DataFrames(cs)) == cs
    decreases |cs|
  {
    if |cs| > 0 {
      DataFramePayloads(cs[1..]);
      assert DataFrames(cs) == [DataFrame(cs[0])] + DataFrames(cs[1..]);
    }
  }

  /** The data phase end to end: the payloads of the data frames the host
      writes for `data`, read by a receiver that expects `|data|` bytes,
      reassemble exactly `data`, whatever the packet size. */
  lemma DataPhaseRoundTrip(data: Bytes, n: nat, d: Device)
    requires n > 0
    ensures ReadDataPhase(Device(Oks(Payloads(DataFrames(Chunks(data, n)))) + d.replies, d.written), |data|, [])
      == Read(Ok(data), d)
  {
    var cs := Chunks(data, n);
    DataFramePayloads(cs);
    ReadDataPhaseExact(cs, d);
  }

  /** What `send_command` does before the data phase of a command with
      data: it asks for the maximum packet size (a GetProperty command of
      its own) and, unless the command is `NoCommand`, writes the command
      frame and reads the intermediate response. The result is the packet
      size. */
  function BeforeDataPhase(b: McuBoot, c: CommandPacket.Command, decode: TagDecoder): (s: Io<u32>)
    requires Commands.Implemented(c.tag)
    ensures s.boot.maskReadDataPhase == b.maskReadDataPhase
  {
    var gp := GetProperty(b, Tags.MaxPacketSize, 0, decode);
    match gp.result
    case Err(f) => Io(Err(f), gp.boot)
    case Ok(response) =>
      if !response.property.MaxPacketSize? then Io(Err(Error(InvalidData)), gp.boot)
      else
        var size := response.property.value;
        if c.tag.NoCommand? then Io(Ok(size), gp.boot)
        else
          var r := ReadCmdResponse(SendPlain(gp.boot, c), decode);
          match r.result
          case Err(f) => Io(Err(f), r.boot)
          case Ok(_) => Io(Ok(size), r.boot)
  }

  /** The frame of the maximum-packet-size query. */
  function MaxPacketSizeQuery(): Bytes {
    Frame(CommandPacket.NewNoneFlag(Commands.GetProperty(Tags.MaxPacketSize, 0)))
  }

  /** Before the data phase, the query is written first and the command
      frame second, except for `NoCommand`, which writes no command frame. */
  lemma BeforeDataPhaseWrites(b: McuBoot, c: CommandPacket.Command, decode: TagDecoder)
    requires Commands.Implemented(c.tag)
    ensures var s := BeforeDataPhase(b, c, decode);
      s.result.Ok? ==>
        s.boot.device.written == b.device.written + [MaxPacketSizeQuery()] + (if c.tag.NoCommand? then [] else [Frame(c)])
  {
    var gp := GetProperty(b, Tags.MaxPacketSize, 0, decode);
    assert gp.boot.device.written == b.device.written + [MaxPacketSizeQuery()];
    var s := BeforeDataPhase(b, c, decode);
    if gp.result.Err? || !gp.result.value.property.MaxPacketSize? || c.tag.NoCommand? {
      assert s.boot == gp.boot;
    } else {
      var sent := SendPlain(gp.boot, c);
      var r := ReadCmdResponse(sent, decode);
      assert s.boot == r.boot;
      assert r.boot.device.written == sent.device.written;
    }
  }

  /** The data phase of `send_command` once the preamble `pre` has run: a
      packet size of zero panics in `chunks`; otherwise the data goes out
      in pieces of that size. */
  function SendDataPhase(pre: Io<u32>, data: Bytes): (s: Io<()>)
    ensures s.boot.maskReadDataPhase == pre.boot.maskReadDataPhase
    ensures pre.result.Err? ==> s == Io(Err(pre.result.error), pre.boot)
    ensures pre.result == Ok(0) ==> s == Io(Err(Panic), pre.boot)
    ensures pre.result.Ok? && pre.result.value > 0 ==>
      && s.result == Ok(())
      && s.boot.device.replies == pre.boot.device.replies
      && s.boot.device.written == pre.boot.device.written + DataFrames(Chunks(data, pre.result.value))
  {
    match pre.result
    case Err(f) => Io(Err(f), pre.boot)
    case Ok(size) =>
      if size == 0 then Io(Err(Panic), pre.boot)
      else Io(Ok(()), McuBoot(SendChunks(pre.boot.device, Chunks(data, size)), pre.boot.maskReadDataPhase))
  }

  /** `send_command`: the frame of a command without data; for a command
      with data, the preamble and then the data phase. */
  function SendCommand(b: McuBoot, c: CommandPacket.Command, decode: TagDecoder): (s: Io<()>)
    requires Commands.Implemented(c.tag)
    ensures !Commands.HasPayload(c.tag) ==> s == Io(Ok(()), SendPlain(b, c))
    ensures Commands.HasPayload(c.tag) ==>
      s == SendDataPhase(BeforeDataPhase(b, c, decode), Commands.Payload(c.tag))
    ensures s.boot.maskReadDataPhase == b.maskReadDataPhase
  {
    var p := Commands.ToParams(c.tag);
    if p.data.None? then Io(Ok(()), SendPlain(b, c))
    else
      SendDataPhase(BeforeDataPhase(b, c, decode), p.data.value)
  }

  /** Every frame of the data phase is at least a header long, and
      carries at most `size` bytes of data. */
  lemma {:induction false} DataFramesBounded(cs: seq<Bytes>, size: nat)
    requires forall i :: 0 <= i < |cs| ==> |cs[i]| <= size
    ensures forall i :: 0 <= i < |cs| ==> 6 <= |DataFrames(cs)[i]| <= size + 6
    decreases |cs|
  {
    if |cs| > 0 {
      DataFramesBounded(cs[1..], size);
      assert DataFrames(cs) == [DataFrame(cs[0])] + DataFrames(cs[1..]);
      var f := DataFrame(cs[0]);
      assert |f| == 6 + |cs[0]| by { assert f[6..] == cs[0]; }
      forall i | 1 <= i < |cs| ensures 6 <= |DataFrames(cs)[i]| <= size + 6 {
        assert DataFrames(cs)[i] == DataFrames(cs[1..])[i - 1];
        assert cs[1..][i - 1] == cs[i];
      }
    }
  }

  /** The data phase once a positive packet size is known: the payloads of
      the frames it writes concatenate to the data, in packets no larger
      than that size. */
  lemma DataPhaseDelivers(pre: Io<u32>, data: Bytes)
    requires pre.result.Ok? && pre.result.value > 0
    ensures var s := SendDataPhase(pre, data);
      var tail := s.boot.device.written[|pre.boot.device.written|..];
      && s.result.Ok?
      && (forall i :: 0 <= i < |tail| ==> 6 <= |tail[i]| <= pre.result.value as int + 6)
      && Flatten(Payloads(tail)) == data
  {
    var s := SendDataPhase(pre, data);
    var cs := Chunks(data, pre.result.value);
    var tail := s.boot.device.written[|pre.boot.device.written|..];
    assert tail == DataFrames(cs);
    DataFramePayloads(cs);
    DataFramesBounded(cs, pre.result.value);
  }

  /** The data a command carries reaches the device whole: the payloads of
      everything `send_command` writes after the preamble concatenate to
      the command's bytes, in packets no larger than the device's size. */
  lemma SendCommandDelivers(b: McuBoot, c: CommandPacket.Command, decode: TagDecoder)
    requires Commands.Implemented(c.tag) && Commands.HasPayload(c.tag)
    requires BeforeDataPhase(b, c, decode).result.Ok?
    requires BeforeDataPhase(b, c, decode).result.value > 0
    ensures var pre := BeforeDataPhase(b, c, decode);
      var s := SendCommand(b, c, decode);
      var tail := s.boot.device.written[|pre.boot.device.written|..];
      && s.result.Ok?
      && (forall i :: 0 <= i < |tail| ==> 6 <= |tail[i]| <= pre.result.value as int + 6)
      && Flatten(Payloads(tail)) == Commands.Payload(c.tag)
  {
    DataPhaseDelivers(BeforeDataPhase(b, c, decode), Commands.Payload(c.tag));
  }

  /** `ReadMemoryResponse`: the status, the response words (the byte
      count) and the bytes read. */
  datatype ReadMemoryResponse = ReadMemoryResponse(status: Status.StatusCode, responseWords: seq<u32>, bytes: Bytes)

  /** The response of a read: its words are the byte count. */
  function MemoryResponse(status: Status.StatusCode, bytes: Bytes): (r: ReadMemoryResponse)
    ensures r.status == status && r.bytes == bytes
    ensures |bytes| < 0x1_0000_0000 ==> r.responseWords == [|bytes|]
  {
    ReadMemoryResponse(status, [Commands.LenU32(bytes)], bytes)
  }

  /** The statuses `read_memory` accepts. */
  predicate ReadMemoryAccepts(s: Status.StatusCode) {
    Status.IsSuccess(s) || s == Status.MemoryBlankPageReadDisallowed
  }

  /** `read_memory`: the bytes of a ReadMemory response whose status is
      `Success` or `MemoryBlankPageReadDisallowed`; any other status is an
      `UnexpectedStatus` error. */
  function ReadMemory(b: McuBoot, startAddress: u32, byteCount: u32, memoryId: u32, decode: TagDecoder)
    : (s: Io<ReadMemoryResponse>)
    ensures s.boot.maskReadDataPhase == b.maskReadDataPhase
    ensures s.boot.device.written
      == b.device.written + [Frame(CommandPacket.NewNoneFlag(Commands.ReadMemory(startAddress, byteCount, memoryId)))]
    ensures s.result.Ok? ==> ReadMemoryAccepts(s.result.value.status)
    ensures var r := ReadCommand(SendPlain(b, CommandPacket.NewNoneFlag(Commands.ReadMemory(startAddress, byteCount, memoryId))), decode);
      && s.boot == r.boot
      && (r.result.Err? ==> s.result == Err(r.result.error))
      && (r.result.Ok? && !ReadMemoryAccepts(r.result.value.status) ==>
            s.result == Err(Error(FromStatus(r.result.value.status))))
      && (r.result.Ok? && ReadMemoryAccepts(r.result.value.status) ==>
            s.result == if r.result.value.tag.ReadMemoryTag?
                        then Ok(MemoryResponse(r.result.value.status, r.result.value.tag.bytes))
                        else Err(Error(InvalidPacketReceived)))
  {
    var sent := SendPlain(b, CommandPacket.NewNoneFlag(Commands.ReadMemory(startAddress, byteCount, memoryId)));
    var r := ReadCommand(sent, decode);
    match r.result
    case Err(f) => Io(Err(f), r.boot)
    case Ok(response) =>
      if !ReadMemoryAccepts(response.status) then Io(Err(Error(FromStatus(response.status))), r.boot)
      else
        match response.tag
        case ReadMemoryTag(bytes) => Io(Ok(MemoryResponse(response.status, bytes)), r.boot)
        case _ => Io(Err(Error(InvalidPacketReceived)), r.boot)
  }

  /** `fuse_read`: like `read_memory`, but through `read_cmd_response`, so
      only `Success` is accepted. */
  function FuseRead(b: McuBoot, startAddress: u32, byteCount: u32, memoryId: u32, decode: TagDecoder)
    : (s: Io<ReadMemoryResponse>)
    ensures var r := ReadCmdResponse(SendPlain(b, CommandPacket.NewNoneFlag(Commands.FuseRead(startAddress, byteCount, memoryId))), decode);
      && s.boot == r.boot
      && (r.result.Err? ==> s.result == Err(r.result.error))
      && (r.result.Ok? ==>
            s.result == if r.result.value.tag.ReadMemoryTag?
                        then Ok(MemoryResponse(r.result.value.status, r.result.value.tag.bytes))
                        else Err(Error(InvalidPacketReceived)))
    ensures s.result.Ok? ==> Status.IsSuccess(s.result.value.status)
  {
    var sent := SendPlain(b, CommandPacket.NewNoneFlag(Commands.FuseRead(startAddress, byteCount, memoryId)));
    var r := ReadCmdResponse(sent, decode);
    match r.result
    case Err(f) => Io(Err(f), r.boot)
    case Ok(response) =>
      if !Status.IsSuccess(response.status) then Io(Err(Error(FromStatus(response.status))), r.boot)
      else
        match response.tag
        case ReadMemoryTag(bytes) => Io(Ok(MemoryResponse(response.status, bytes)), r.boot)
        case _ => Io(Err(Error(InvalidPacketReceived)), r.boot)
  }

  /** `read_memory` against a device whose next reply is a ReadMemory
      response without data phase: exactly the ReadMemory frame is written
      and that one reply consumed; an accepted status gives the decoded
      bytes with their count, any other status is the matching
      `UnexpectedStatus` error. */
  lemma ReadMemoryReply(a: u32, n: u32, m: u32, decode: TagDecoder, tag: u8, status: Status.StatusCode,
                        bytes: Bytes, words: seq<u32>, rest: seq<Result<Bytes, CommError>>,
                        written: seq<Bytes>, mask: bool)
    requires |bytes| < 0x1_0000_0000
    requires decode(tag, WordsToLe(words), None) == Some(ReadMemoryTag(bytes))
    ensures var reply := ResponseBytes(tag, Tags.NoData, 0, status, words);
      var s := ReadMemory(McuBoot(Device([Ok(reply)] + rest, written), mask), a, n, m, decode);
      && s.boot == McuBoot(Device(rest, written + [Frame(CommandPacket.NewNoneFlag(Commands.ReadMemory(a, n, m)))]), mask)
      && s.result == if ReadMemoryAccepts(status) then Ok(ReadMemoryResponse(status, [|bytes|], bytes))
                     else Err(Error(FromStatus(status)))
  {
    var frame := Frame(CommandPacket.NewNoneFlag(Commands.ReadMemory(a, n, m)));
    ReadCommandRoundTrip(tag, Tags.NoData, 0, status, words, rest, written + [frame], mask, decode);
  }

  /** `read_memory` against a device that answers with a data phase (the
      usual case): the packets `cs` that follow the first response are the
      bytes read, and the final response's status decides, as above. */
  lemma ReadMemoryDataPhaseReply(a: u32, n: u32, m: u32, decode: TagDecoder, tag: u8, status: Status.StatusCode,
                                 words: seq<u32>, cs: seq<Bytes>, fin: Bytes,
                                 rest: seq<Result<Bytes, CommError>>, written: seq<Bytes>)
    requires |words| > 0 && words[0] == |Flatten(cs)|
    requires forall i :: 0 <= i < |cs| ==> |cs[i]| > 0
    requires |fin| >= 8 && ParseStatus(fin[4..8]).Ok?
    requires decode(tag, WordsToLe(words), Some(Flatten(cs))) == Some(ReadMemoryTag(Flatten(cs)))
    ensures var reply := ResponseBytes(tag, Tags.HasDataPhase, 0, status, words);
      var final := ParseStatus(fin[4..8]).value;
      var s := ReadMemory(McuBoot(Device([Ok(reply)] + Oks(cs) + [Ok(fin)] + rest, written), false), a, n, m, decode);
      && s.boot == McuBoot(Device(rest, written + [Frame(CommandPacket.NewNoneFlag(Commands.ReadMemory(a, n, m)))]), false)
      && s.result == if ReadMemoryAccepts(final) then Ok(ReadMemoryResponse(final, [|Flatten(cs)|], Flatten(cs)))
                     else Err(Error(FromStatus(final)))
  {
    var frame := Frame(CommandPacket.NewNoneFlag(Commands.ReadMemory(a, n, m)));
    ReadCommandDataPhase(tag, 0, status, words, cs, fin, rest, written + [frame], decode);
  }

  /** A blank page that may not be read is data to `read_memory`: the
      bytes come back with the status. */
  lemma BlankPageReadMemory(a: u32, n: u32, m: u32, decode: TagDecoder, bytes: Bytes, words: seq<u32>,
                            rest: seq<Result<Bytes, CommError>>, written: seq<Bytes>, mask: bool)
    requires |bytes| < 0x1_0000_0000
    requires decode(0xA3, WordsToLe(words), None) == Some(ReadMemoryTag(bytes))
    ensures var reply := ResponseBytes(0xA3, Tags.NoData, 0, Status.MemoryBlankPageReadDisallowed, words);
      ReadMemory(McuBoot(Device([Ok(reply)] + rest, written), mask), a, n, m, decode).result
      == Ok(ReadMemoryResponse(Status.MemoryBlankPageReadDisallowed, [|bytes|], bytes))
  {
    var frame := Frame(CommandPacket.NewNoneFlag(Commands.ReadMemory(a, n, m)));
    ReadCommandRoundTrip(0xA3, Tags.NoData, 0, Status.MemoryBlankPageReadDisallowed, words, rest, written + [frame], mask, decode);
  }

  /** The same reply is an error to `fuse_read`, which accepts only
      `Success`. */
  lemma BlankPageFuseRead(a: u32, n: u32, m: u32, decode: TagDecoder, bytes: Bytes, words: seq<u32>,
                          rest: seq<Result<Bytes, CommError>>, written: seq<Bytes>, mask: bool)
    requires decode(0xA3, WordsToLe(words), None) == Some(ReadMemoryTag(bytes))
    ensures var reply := ResponseBytes(0xA3, Tags.NoData, 0, Status.MemoryBlankPageReadDisallowed, words);
      FuseRead(McuBoot(Device([Ok(reply)] + rest, written), mask), a, n, m, decode).result
      == Err(Error(UnexpectedStatus(Status.MemoryBlankPageReadDisallowed, Status.Code(Status.MemoryBlankPageReadDisallowed))))
  {
    var frame := Frame(CommandPacket.NewNoneFlag(Commands.FuseRead(a, n, m)));
    ReadCommandRoundTrip(0xA3, Tags.NoData, 0, Status.MemoryBlankPageReadDisallowed, words, rest, written + [frame], mask, decode);
  }

  /** `flash_read_once`: the word of a successful FlashReadOnce response. */
  function FlashReadOnce(b: McuBoot, index: u32, count: u32, decode: TagDecoder): (s: Io<u32>)
    ensures s.boot.maskReadDataPhase == b.maskReadDataPhase
    ensures s.boot.device.written
      == b.device.written + [Frame(CommandPacket.NewNoneFlag(Commands.FlashReadOnce(index, count)))]
    ensures var r := ReadCmdResponse(SendPlain(b, CommandPacket.NewNoneFlag(Commands.FlashReadOnce(index, count))), decode);
      && s.boot == r.boot
      && (r.result.Err? ==> s.result == Err(r.result.error))
      && (r.result.Ok? ==> s.result == if r.result.value.tag.FlashReadOnceTag?
                                       then Ok(r.result.value.tag.value)
                                       else Err(Error(InvalidPacketReceived)))
  {
    var sent := SendPlain(b, CommandPacket.NewNoneFlag(Commands.FlashReadOnce(index, count)));
    var r := ReadCmdResponse(sent, decode);
    match r.result
    case Err(f) => Io(Err(f), r.boot)
    case Ok(response) =>
      match response.tag
      case FlashReadOnceTag(v) => Io(Ok(v), r.boot)
      case _ => Io(Err(Error(InvalidPacketReceived)), r.boot)
  }

  /** `flash_read_once` against a device whose next reply is a
      FlashReadOnce response: only the FlashReadOnce frame is written and
      that one reply consumed; a `Success` status gives the word, any other
      status is the matching `UnexpectedStatus` error. */
  lemma FlashReadOnceReply(index: u32, count: u32, decode: TagDecoder, tag: u8, status: Status.StatusCode,
                           w: u32, words: seq<u32>, rest: seq<Result<Bytes, CommError>>,
                           written: seq<Bytes>, mask: bool)
    requires decode(tag, WordsToLe(words), None) == Some(FlashReadOnceTag(w))
    ensures var reply := ResponseBytes(tag, Tags.NoData, 0, status, words);
      var s := FlashReadOnce(McuBoot(Device([Ok(reply)] + rest, written), mask), index, count, decode);
      && s.boot == McuBoot(Device(rest, written + [Frame(CommandPacket.NewNoneFlag(Commands.FlashReadOnce(index, count)))]), mask)
      && s.result == if Status.IsSuccess(status) then Ok(w) else Err(Error(FromStatus(status)))
  {
    var frame := Frame(CommandPacket.NewNoneFlag(Commands.FlashReadOnce(index, count)));
    ReadCommandRoundTrip(tag, Tags.NoData, 0, status, words, rest, written + [frame], mask, decode);
  }

  /** The verify rule of `flash_program_once`: every bit set in `data` is
      set in the word read back (`read & data == data`); bits that were
      already programmed do not count against it. */
  predicate Covers(read: u32, data: u32) {
    (read as bv32) & (data as bv32) == data as bv32
  }

  /** `index & ((1 << 24) - 1)`: the low 24 bits of the index. */
  function VerifyIndex(index: u32): (i: u32)
    ensures i < 0x100_0000
    ensures index < 0x100_0000 ==> i == index
  {
    index % 0x100_0000
  }

  /** `flash_program_once`: the status of a successful FlashProgramOnce
      response; with `verify`, the word is read back at the low 24 bits of
      the index and a word missing a programmed bit turns the result into
      `OtpVerifyFail`. */
  function FlashProgramOnce(b: McuBoot, index: u32, count: u32, data: u32, verify: bool, decode: TagDecoder)
    : (s: Io<Status.StatusCode>)
    ensures var r := ReadCmdResponse(SendPlain(b, CommandPacket.NewNoneFlag(Commands.FlashProgramOnce(index, count, data))), decode);
      && (r.result.Err? ==> s == Io(Err(r.result.error), r.boot))
      && (r.result.Ok? && !verify ==> s == Io(Ok(r.result.value.status), r.boot))
      && (r.result.Ok? && verify ==>
            var v := FlashReadOnce(r.boot, VerifyIndex(index), count, decode);
            && s.boot == v.boot
            && (v.result.Err? ==> s.result == v.result)
            && (v.result.Ok? && Covers(v.result.value, data) ==> s.result == Ok(r.result.value.status))
            && (v.result.Ok? && !Covers(v.result.value, data) ==> s.result == Ok(Status.OtpVerifyFail)))
  {
    var sent := SendPlain(b, CommandPacket.NewNoneFlag(Commands.FlashProgramOnce(index, count, data)));
    var r := ReadCmdResponse(sent, decode);
    match r.result
    case Err(f) => Io(Err(f), r.boot)
    case Ok(response) =>
      if verify && Status.IsSuccess(response.status) then
        var v := FlashReadOnce(r.boot, VerifyIndex(index), count, decode);
        match v.result
        case Ok(word) => Io(Ok(if Covers(word, data) then response.status else Status.OtpVerifyFail), v.boot)
        case Err(f) => Io(Err(f), v.boot)
      else Io(Ok(response.status), r.boot)
  }

  /** `OtpVerifyFail` comes back exactly when the verifying read returned
      a word missing one of the programmed bits: the device's own
      `OtpVerifyFail` is an error, not a status. */
  lemma VerifyFailOnlyFromReadBack(b: McuBoot, index: u32, count: u32, data: u32, verify: bool, decode: TagDecoder)
    ensures var s := FlashProgramOnce(b, index, count, data, verify, decode);
      var r := ReadCmdResponse(SendPlain(b, CommandPacket.NewNoneFlag(Commands.FlashProgramOnce(index, count, data))), decode);
      s.result == Ok(Status.OtpVerifyFail) <==>
        verify && r.result.Ok? &&
        var v := FlashReadOnce(r.boot, VerifyIndex(index), count, decode);
        v.result.Ok? && !Covers(v.result.value, data)
  {
  }

  /** The verifying read asks for the word at the masked index: after a
      successful program the second command written is FlashReadOnce at
      the low 24 bits of the index. */
  lemma VerifyReadsMaskedIndex(b: McuBoot, index: u32, count: u32, data: u32, decode: TagDecoder)
    requires ReadCmdResponse(SendPlain(b, CommandPacket.NewNoneFlag(Commands.FlashProgramOnce(index, count, data))), decode).result.Ok?
    ensures var s := FlashProgramOnce(b, index, count, data, true, decode);
      var n := |b.device.written|;
      && |s.boot.device.written| == n + 2
      && s.boot.device.written[n] == Frame(CommandPacket.NewNoneFlag(Commands.FlashProgramOnce(index, count, data)))
      && s.boot.device.written[n + 1] == Frame(CommandPacket.NewNoneFlag(Commands.FlashReadOnce(VerifyIndex(index), count)))
  {
  }

  /** What `key_provisioning` returns: a status, or the key store read
      with its words and bytes (an absent data phase reads as no bytes). */
  datatype KeyProvisioningResponse =
      KeyStatus(status: Status.StatusCode)
    | KeyStore(status: Status.StatusCode, responseWords: seq<u32>, bytes: Bytes)

  /** The answer to `ReadKeyStore` made of its response: the status, the
      words and the key data (none reads as no bytes), provided the
      response carries a KeyProvisioning tag. */
  function KeyStoreOf(r: Io<CmdResponse>): (s: Io<KeyProvisioningResponse>)
    ensures s.boot == r.boot
    ensures r.result.Err? ==> s.result == Err(r.result.error)
    ensures r.result.Ok? && r.result.value.tag.KeyProvisioningTag? ==>
      var t := r.result.value.tag;
      s.result == Ok(KeyStore(r.result.value.status, t.words, if t.keyData.Some? then t.keyData.value else []))
    ensures r.result.Ok? && !r.result.value.tag.KeyProvisioningTag? ==> s.result == Err(Error(InvalidPacketReceived))
  {
    match r.result
    case Err(f) => Io(Err(f), r.boot)
    case Ok(response) =>
      match response.tag
      case KeyProvisioningTag(words, keyData) =>
        Io(Ok(KeyStore(response.status, words, match keyData case Some(k) => k case None => [])), r.boot)
      case _ => Io(Err(Error(InvalidPacketReceived)), r.boot)
  }

  /** The answer to any other key-provisioning operation: the status of
      its response. */
  function KeyStatusOf(r: Io<CmdResponse>): (s: Io<KeyProvisioningResponse>)
    ensures s.boot == r.boot
    ensures r.result.Err? ==> s.result == Err(r.result.error)
    ensures r.result.Ok? ==> s.result == Ok(KeyStatus(r.result.value.status))
  {
    match r.result
    case Err(f) => Io(Err(f), r.boot)
    case Ok(response) => Io(Ok(KeyStatus(response.status)), r.boot)
  }

  /** `key_provisioning`. `ReadKeyStore` keeps the response's data phase.
      Every other operation is sent with the data-phase flag masked (their
      intermediate responses wrongly carry it) and answers with a status;
      the mask is cleared only after a successful send, so a failed send
      leaves it set. */
  function KeyProvisioning(b: McuBoot, op: Commands.KeyProvOperation, decode: TagDecoder)
    : (s: Io<KeyProvisioningResponse>)
    ensures s.result.Ok? ==> (s.result.value.KeyStore? <==> op.ReadKeyStore?)
    ensures s.result.Ok? ==> Status.IsSuccess(s.result.value.status)
    ensures op.ReadKeyStore? ==>
      var r := ReadCmdResponse(SendPlain(b, CommandPacket.NewNoneFlag(Commands.KeyProvisioning(op))), decode);
      && s.boot == r.boot
      && (r.result.Err? ==> s.result == Err(r.result.error))
      && (r.result.Ok? && r.result.value.tag.KeyProvisioningTag? ==>
            var t := r.result.value.tag;
            s.result == Ok(KeyStore(r.result.value.status, t.words, if t.keyData.Some? then t.keyData.value else [])))
      && (r.result.Ok? && !r.result.value.tag.KeyProvisioningTag? ==> s.result == Err(Error(InvalidPacketReceived)))
    ensures !op.ReadKeyStore? ==>
      var sent := SendCommand(McuBoot(b.device, true), CommandPacket.NewNoneFlag(Commands.KeyProvisioning(op)), decode);
      && (sent.result.Err? ==> s == Io(Err(sent.result.error), sent.boot) && s.boot.maskReadDataPhase)
      && (sent.result.Ok? ==>
            var r := ReadCmdResponse(McuBoot(sent.boot.device, false), decode);
            && s.boot == r.boot && !s.boot.maskReadDataPhase
            && (r.result.Err? ==> s.result == Err(r.result.error))
            && (r.result.Ok? ==> s.result == Ok(KeyStatus(r.result.value.status))))
  {
    if op.ReadKeyStore? then ReadKeyStore(b, decode) else KeyOperation(b, op, decode)
  }

  /** The `ReadKeyStore` branch of `key_provisioning`: the command goes out
      as a plain frame, since it carries no data, and its response is read
      with the session's own mask. */
  function ReadKeyStore(b: McuBoot, decode: TagDecoder): (s: Io<KeyProvisioningResponse>)
    ensures s == KeyStoreOf(ReadCmdResponse(SendPlain(b, CommandPacket.NewNoneFlag(Commands.KeyProvisioning(Commands.ReadKeyStore))), decode))
  {
    var c := CommandPacket.NewNoneFlag(Commands.KeyProvisioning(Commands.ReadKeyStore));
    var sent := SendCommand(b, c, decode);
    assert sent == Io(Ok(()), SendPlain(b, c)) by { assert !Commands.HasPayload(c.tag); }
    match sent.result
    case Err(f) => Io(Err(f), sent.boot)
    case Ok(_) => KeyStoreOf(ReadCmdResponse(sent.boot, decode))
  }

  /** Every other operation of `key_provisioning`: sent with the mask set,
      answered by a response read with the mask cleared. */
  function KeyOperation(b: McuBoot, op: Commands.KeyProvOperation, decode: TagDecoder)
    : (s: Io<KeyProvisioningResponse>)
    requires !op.ReadKeyStore?
    ensures var sent := SendCommand(McuBoot(b.device, true), CommandPacket.NewNoneFlag(Commands.KeyProvisioning(op)), decode);
      && (sent.result.Err? ==> s == Io(Err(sent.result.error), sent.boot))
      && (sent.result.Ok? ==> s == KeyStatusOf(ReadCmdResponse(McuBoot(sent.boot.device, false), decode)))
  {
    var sent := SendCommand(McuBoot(b.device, true), CommandPacket.NewNoneFlag(Commands.KeyProvisioning(op)), decode);
    match sent.result
    case Err(f) => Io(Err(f), sent.boot)
    case Ok(_) => KeyStatusOf(ReadCmdResponse(McuBoot(sent.boot.device, false), decode))
  }

  /** `key_provisioning(ReadKeyStore)` against a device whose next reply is
      a KeyProvisioning response without data phase: only the command's
      frame is written and that one reply consumed; a `Success` status
      gives the key store's words with no bytes, any other status is the
      matching `UnexpectedStatus` error. */
  lemma ReadKeyStoreReply(decode: TagDecoder, tag: u8, status: Status.StatusCode, ws: seq<u32>,
                          words: seq<u32>, rest: seq<Result<Bytes, CommError>>, written: seq<Bytes>, mask: bool)
    requires decode(tag, WordsToLe(words), None) == Some(KeyProvisioningTag(ws, None))
    ensures var reply := ResponseBytes(tag, Tags.NoData, 0, status, words);
      var s := KeyProvisioning(McuBoot(Device([Ok(reply)] + rest, written), mask), Commands.ReadKeyStore, decode);
      && s.boot == McuBoot(Device(rest, written + [Frame(CommandPacket.NewNoneFlag(Commands.KeyProvisioning(Commands.ReadKeyStore)))]), mask)
      && s.result == if Status.IsSuccess(status) then Ok(KeyStore(status, ws, [])) else Err(Error(FromStatus(status)))
  {
    var frame := Frame(CommandPacket.NewNoneFlag(Commands.KeyProvisioning(Commands.ReadKeyStore)));
    ReadCommandRoundTrip(tag, Tags.NoData, 0, status, words, rest, written + [frame], mask, decode);
  }
}
