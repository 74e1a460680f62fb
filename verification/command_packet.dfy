/** Command packets (`packets/command.rs`): the command frame carrying a
    command's code, flag, reserved byte and little-endian parameters, the
    two constructors of a command packet, and the frames its unit tests
    pin down. */
module CommandPacket {
  import opened Base
  import Crc16
  import Tags
  import Commands
  import Packets

  /** `CommandHeader`: the flag and reserved byte of a command frame. */
  datatype CommandHeader = CommandHeader(flag: Tags.CommandFlag, reserved: u8)

  /** The payload of a command frame: code, flag, reserved byte, the
      parameter count (`len() as u8`), then the little-endian parameters. */
  function CommandPart(h: CommandHeader, params: seq<u32>, code: u8): (part: Bytes)
    ensures |part| == 4 + 4 * |params|
    ensures part[..4] == [code, Tags.FlagCode(h.flag), h.reserved, |params| % 0x100]
    ensures part[4..] == WordsToLe(params)
  {
    [code, Tags.FlagCode(h.flag), h.reserved, |params| % 0x100] + WordsToLe(params)
  }

  /** `CommandHeader::construct_frame`: a command-type frame around the
      command part. */
  function ConstructFrame(h: CommandHeader, params: seq<u32>, code: u8): (r: Bytes)
    ensures |r| == 10 + 4 * |params| && r[1] == Packets.CmdCode
  {
    Packets.ConstructHeader(Packets.CmdCode, CommandPart(h, params, code))
  }

  /** The length field of a command frame counts the command part. */
  lemma ConstructFrameLength(h: CommandHeader, params: seq<u32>, code: u8)
    requires 4 + 4 * |params| < 0x1_0000
    ensures var r := ConstructFrame(h, params, code); U16FromLe(r[2], r[3]) == 4 + 4 * |params|
  {
    var part := CommandPart(h, params, code);
    assert |part| % 0x1_0000 == |part|;
  }

  /** Byte 6 of a command frame is the code, the flag byte decodes to the
      flag, then come the reserved byte and the parameter count modulo 256. */
  lemma ConstructFrameHeader(h: CommandHeader, params: seq<u32>, code: u8)
    ensures var r := ConstructFrame(h, params, code);
      r[6] == code && Tags.FlagFromCode(r[7]) == Some(h.flag) && r[8] == h.reserved && r[9] == |params| % 0x100
  {
    var part := CommandPart(h, params, code);
    var r := Packets.ConstructHeader(Packets.CmdCode, part);
    assert r[6..][0] == part[0] == code;
    assert r[6..][1] == part[1] == Tags.FlagCode(h.flag);
    assert r[6..][2] == part[2] == h.reserved;
    assert r[6..][3] == part[3] == |params| % 0x100;
    Tags.FlagRoundTrip(h.flag);
  }

  /** A count below 256 is written unchanged. */
  lemma {:induction false} ConstructFrameCount(h: CommandHeader, params: seq<u32>, code: u8)
    requires |params| < 0x100
    ensures ConstructFrame(h, params, code)[9] == |params|
  {
    DivUnique(|params|, 0x100, 0, |params|);
    ConstructFrameHeader(h, params, code);
  }

  /** The parameters of a command frame as a reader splits them: the
      little-endian words after the count byte, when the bytes after it are
      whole words. */
  function FrameParams(r: Bytes): (ws: Option<seq<u32>>)
    ensures ws.Some? <==> |r| >= 10 && (|r| - 10) % 4 == 0
  {
    if |r| >= 10 && (|r| - 10) % 4 == 0 then Some(LeToWords(r[10..])) else None
  }

  /** The words a reader splits off are exactly the bytes after the count. */
  lemma FrameParamsBytes(r: Bytes)
    requires |r| >= 10 && (|r| - 10) % 4 == 0
    ensures WordsToLe(FrameParams(r).value) == r[10..]
  {
    BytesRoundTrip(r[10..]);
  }

  /** After the count byte come the parameters, little-endian. */
  lemma ConstructFrameRest(h: CommandHeader, params: seq<u32>, code: u8)
    ensures ConstructFrame(h, params, code)[10..] == WordsToLe(params)
  {
    var part := CommandPart(h, params, code);
    var r := Packets.ConstructHeader(Packets.CmdCode, part);
    assert r[10..] == r[6..][4..];
  }

  /** The bytes after the count read back as the parameters. */
  lemma ConstructFrameParams(h: CommandHeader, params: seq<u32>, code: u8)
    ensures FrameParams(ConstructFrame(h, params, code)) == Some(params)
  {
    ConstructFrameRest(h, params, code);
    WordsRoundTrip(params);
  }

  /** `CommandPacket`: a command with its header. */
  datatype Command = Command(header: CommandHeader, tag: Commands.CommandTag)

  /** `CommandPacket::new_none_flag`: a command without a data phase. */
  function NewNoneFlag(tag: Commands.CommandTag): (p: Command)
    ensures p.header.flag.NoData? && p.header.reserved == 0 && p.tag == tag
  {
    Command(CommandHeader(Tags.NoData, 0), tag)
  }

  /** `CommandPacket::new_data_phase`: a command followed by a data phase. */
  function NewDataPhase(tag: Commands.CommandTag): (p: Command)
    ensures p.header.flag.HasDataPhase? && p.header.reserved == 0 && p.tag == tag
  {
    Command(CommandHeader(Tags.HasDataPhase, 0), tag)
  }

  /** The frame `send_command` writes for a command: the command frame of
      its header, its parameters and its tag's code. */
  function CommandFrame(p: Command): (r: Bytes)
    requires Commands.Implemented(p.tag)
  {
    ConstructFrame(p.header, Commands.ToParams(p.tag).words, Commands.Code(p.tag))
  }

  /** A packet made by `new_none_flag` goes on the wire with its tag's
      code, flag byte 0 and reserved byte 0, followed by its parameters. */
  lemma NoneFlagFrame(tag: Commands.CommandTag)
    requires Commands.Implemented(tag)
    ensures var f := CommandFrame(NewNoneFlag(tag));
      && f[6] == Commands.Code(tag) && f[7] == 0 && f[8] == 0
      && FrameParams(f) == Some(Commands.ToParams(tag).words)
  {
    var p := NewNoneFlag(tag);
    ConstructFrameHeader(p.header, Commands.ToParams(tag).words, Commands.Code(tag));
    ConstructFrameParams(p.header, Commands.ToParams(tag).words, Commands.Code(tag));
    Tags.FlagRoundTrip(Tags.NoData);
  }

  /** A packet made by `new_data_phase` differs on the wire only in its
      flag byte, 1: same code, reserved byte 0 and parameters. */
  lemma DataPhaseFlagFrame(tag: Commands.CommandTag)
    requires Commands.Implemented(tag)
    ensures var f := CommandFrame(NewDataPhase(tag));
      && f[6] == Commands.Code(tag) && f[7] == 1 && f[8] == 0
      && FrameParams(f) == Some(Commands.ToParams(tag).words)
  {
    var p := NewDataPhase(tag);
    ConstructFrameHeader(p.header, Commands.ToParams(tag).words, Commands.Code(tag));
    ConstructFrameParams(p.header, Commands.ToParams(tag).words, Commands.Code(tag));
    Tags.FlagRoundTrip(Tags.HasDataPhase);
  }
}

/** CRC-16 evaluations of the two command frames the unit tests of
    `packets/command.rs` spell out, byte by byte. */
module CommandPacketChecksums {
  import opened Base
  import Crc16

  /** The checksum of the `GetProperty(CurrentVersion, 0)` frame without its CRC field. */
  lemma GetPropertyChecksum(s: Bytes)
    requires |s| == 16 && s[0] == 0x5A && s[1] == 0xA4 && s[2] == 0x0C && s[3] == 0x00 &&
      s[4] == 0x07 && s[5] == 0x00 && s[6] == 0x00 && s[7] == 0x02 && s[8] == 0x01 &&
      s[9] == 0x00 && s[10] == 0x00 && s[11] == 0x00 && s[12] == 0x00 && s[13] == 0x00 &&
      s[14] == 0x00 && s[15] == 0x00
    ensures Crc16.Checksum(s) == 0x334B
  {
    Crc16.FeedAt(s, 0, 0x0000, 0xFBBF);
    Crc16.FeedAt(s, 1, 0xFBBF, 0x141A);
    Crc16.FeedAt(s, 2, 0x141A, 0x8939);
    Crc16.FeedAt(s, 3, 0x8939, 0x39A1);
    Crc16.FeedAt(s, 4, 0x39A1, 0x769D);
    Crc16.FeedAt(s, 5, 0x769D, 0x8351);
    Crc16.FeedAt(s, 6, 0x8351, 0xF0EB);
    Crc16.FeedAt(s, 7, 0xF0EB, 0x245D);
    Crc16.FeedAt(s, 8, 0x245D, 0x29C7);
    Crc16.FeedAt(s, 9, 0x29C7, 0x724B);
    Crc16.FeedAt(s, 10, 0x724B, 0x15D5);
    Crc16.FeedAt(s, 11, 0x15D5, 0x9794);
    Crc16.FeedAt(s, 12, 0x9794, 0x675E);
    Crc16.FeedAt(s, 13, 0x675E, 0x4241);
    Crc16.FeedAt(s, 14, 0x4241, 0x2986);
    Crc16.FeedAt(s, 15, 0x2986, 0x334B);
    Value334B();
  }

  /** The checksum of the `FlashProgramOnce(0x51, 4, 0x12345678)` frame without its CRC field. */
  lemma FlashProgramOnceChecksum(s: Bytes)
    requires |s| == 20 && s[0] == 0x5A && s[1] == 0xA4 && s[2] == 0x10 && s[3] == 0x00 &&
      s[4] == 0x0E && s[5] == 0x00 && s[6] == 0x00 && s[7] == 0x03 && s[8] == 0x51 &&
      s[9] == 0x00 && s[10] == 0x00 && s[11] == 0x00 && s[12] == 0x04 && s[13] == 0x00 &&
      s[14] == 0x00 && s[15] == 0x00 && s[16] == 0x78 && s[17] == 0x56 && s[18] == 0x34 &&
      s[19] == 0x12
    ensures Crc16.Checksum(s) == 0x601B
  {
    Crc16.FeedAt(s, 0, 0x0000, 0xFBBF);
    Crc16.FeedAt(s, 1, 0xFBBF, 0x141A);
    Crc16.FeedAt(s, 2, 0x141A, 0x5A84);
    Crc16.FeedAt(s, 3, 0x5A84, 0x7FBF);
    Crc16.FeedAt(s, 4, 0x7FBF, 0xD1B6);
    Crc16.FeedAt(s, 5, 0xD1B6, 0x6D5C);
    Crc16.FeedAt(s, 6, 0x6D5C, 0xE10B);
    Crc16.FeedAt(s, 7, 0xE10B, 0xD66C);
    Crc16.FeedAt(s, 8, 0xD66C, 0x8D6F);
    Crc16.FeedAt(s, 9, 0x8D6F, 0x2F25);
    Crc16.FeedAt(s, 10, 0x2F25, 0xF08D);
    Crc16.FeedAt(s, 11, 0xF08D, 0x621F);
    Crc16.FeedAt(s, 12, 0x621F, 0x1360);
    Crc16.FeedAt(s, 13, 0x1360, 0x4252);
    Crc16.FeedAt(s, 14, 0x4252, 0x3A86);
    Crc16.FeedAt(s, 15, 0x3A86, 0x1119);
    Crc16.FeedAt(s, 16, 0x1119, 0xE48F);
    Crc16.FeedAt(s, 17, 0xE48F, 0x0899);
    Crc16.FeedAt(s, 18, 0x0899, 0x6EDF);
    Crc16.FeedAt(s, 19, 0x6EDF, 0x601B);
    Value601B();
  }

  /** The register 0x334B stands for the number 0x334B. */
  lemma Value334B()
    ensures Crc16.Value(0x334B, 16) == 0x334B
  {
    assert Crc16.Value(0x334B, 1) == 0x0;
    assert Crc16.Value(0x334B, 2) == 0x0;
    assert Crc16.Value(0x334B, 3) == 0x1;
    assert Crc16.Value(0x334B, 4) == 0x3;
    assert Crc16.Value(0x334B, 5) == 0x6;
    assert Crc16.Value(0x334B, 6) == 0xC;
    assert Crc16.Value(0x334B, 7) == 0x19;
    assert Crc16.Value(0x334B, 8) == 0x33;
    assert Crc16.Value(0x334B, 9) == 0x66;
    assert Crc16.Value(0x334B, 10) == 0xCD;
    assert Crc16.Value(0x334B, 11) == 0x19A;
    assert Crc16.Value(0x334B, 12) == 0x334;
    assert Crc16.Value(0x334B, 13) == 0x669;
    assert Crc16.Value(0x334B, 14) == 0xCD2;
    assert Crc16.Value(0x334B, 15) == 0x19A5;
  }

  /** The register 0x601B stands for the number 0x601B. */
  lemma Value601B()
    ensures Crc16.Value(0x601B, 16) == 0x601B
  {
    assert Crc16.Value(0x601B, 1) == 0x0;
    assert Crc16.Value(0x601B, 2) == 0x1;
    assert Crc16.Value(0x601B, 3) == 0x3;
    assert Crc16.Value(0x601B, 4) == 0x6;
    assert Crc16.Value(0x601B, 5) == 0xC;
    assert Crc16.Value(0x601B, 6) == 0x18;
    assert Crc16.Value(0x601B, 7) == 0x30;
    assert Crc16.Value(0x601B, 8) == 0x60;
    assert Crc16.Value(0x601B, 9) == 0xC0;
    assert Crc16.Value(0x601B, 10) == 0x180;
    assert Crc16.Value(0x601B, 11) == 0x300;
    assert Crc16.Value(0x601B, 12) == 0x601;
    assert Crc16.Value(0x601B, 13) == 0xC03;
    assert Crc16.Value(0x601B, 14) == 0x1806;
    assert Crc16.Value(0x601B, 15) == 0x300D;
  }
}

/** The frames the unit tests of `packets/command.rs` expect, and the
    recovery of a command from its frame. */
module CommandPacketTests {
  import opened Base
  import Crc16
  import Tags
  import Commands
  import Packets
  import CommandPacket
  import CommandPacketChecksums

  /** The code byte of a command's frame names the command's kind, and
      the flag byte the header's flag. */
  lemma CommandFrameHeader(p: CommandPacket.Command)
    requires Commands.Implemented(p.tag)
    ensures var r := CommandPacket.CommandFrame(p);
      Tags.CommandFromCode(r[6]) == Some(Commands.Kind(p.tag)) && Tags.FlagFromCode(r[7]) == Some(p.header.flag)
  {
    var ps := Commands.ToParams(p.tag);
    CommandPacket.ConstructFrameHeader(p.header, ps.words, Commands.Code(p.tag));
    Tags.CommandRoundTrip(Commands.Kind(p.tag));
  }

  /** The count byte of a command's frame is the number of parameters: no
      command has more than 255, so `len() as u8` never wraps. */
  lemma CommandFrameCount(p: CommandPacket.Command)
    requires Commands.Implemented(p.tag)
    ensures CommandPacket.CommandFrame(p)[9] == |Commands.ToParams(p.tag).words|
  {
    var ps := Commands.ToParams(p.tag).words;
    CommandPacket.ConstructFrameCount(p.header, ps, Commands.Code(p.tag));
  }

  /** A command frame loses nothing: the kind its code byte names (see
      `CommandFrameHeader`), the parameters read back from the frame and the
      data phase give the command again. */
  lemma CommandFrameRecoversCommand(p: CommandPacket.Command)
    requires Commands.Implemented(p.tag)
    requires Commands.HasPayload(p.tag) ==> |Commands.Payload(p.tag)| < 0x1_0000_0000
    ensures var ws := CommandPacket.FrameParams(CommandPacket.CommandFrame(p));
      ws.Some? && Commands.FromParams(Commands.Kind(p.tag), Commands.Params(ws.value, Commands.ToParams(p.tag).data)) == Some(p.tag)
  {
    var ps := Commands.ToParams(p.tag);
    CommandPacket.ConstructFrameParams(p.header, ps.words, Commands.Code(p.tag));
    Commands.ParamsRoundTrip(p.tag);
    assert Commands.Params(ps.words, ps.data) == ps;
  }

  /** The frame of `GetProperty(CurrentVersion, 0)` without a data phase. */
  lemma GetPropertyFrame(tag: Commands.CommandTag)
    requires tag == Commands.GetProperty(Tags.CurrentVersion, 0)
    ensures CommandPacket.CommandFrame(CommandPacket.NewNoneFlag(tag)) ==
      [0x5A, 0xA4, 0x0C, 0x00, 0x4B, 0x33, 0x07, 0x00, 0x00, 0x02, 0x01, 0x00, 0x00, 0x00, 0x00, 0x00, 0x00, 0x00]
  {
    var part := CommandPacket.CommandPart(CommandPacket.CommandHeader(Tags.NoData, 0), Commands.ToParams(tag).words, Commands.Code(tag));
    NoneFlagFrameIs(tag);
    GetPropertyPart(tag);
    GetPropertyFramed(part);
  }

  lemma GetPropertyFramed(part: Bytes)
    requires part == [0x07, 0x00, 0x00, 0x02, 0x01, 0x00, 0x00, 0x00, 0x00, 0x00, 0x00, 0x00]
    ensures Packets.ConstructHeader(Packets.CmdCode, part) ==
      [0x5A, 0xA4, 0x0C, 0x00, 0x4B, 0x33, 0x07, 0x00, 0x00, 0x02, 0x01, 0x00, 0x00, 0x00, 0x00, 0x00, 0x00, 0x00]
  {
    assert U16ToLe(|part|) == [0x0C, 0x00];
    var covered := [Packets.StartByte, Packets.CmdCode] + U16ToLe(|part|) + part;
    assert covered == [0x5A, 0xA4, 0x0C, 0x00, 0x07, 0x00, 0x00, 0x02, 0x01, 0x00, 0x00, 0x00, 0x00, 0x00, 0x00, 0x00];
    CommandPacketChecksums.GetPropertyChecksum(covered);
    Packets.ConstructHeaderWith(Packets.CmdCode, part, 0x334B);
    GetPropertyHeader(part, Packets.ConstructHeader(Packets.CmdCode, part));
  }

  lemma GetPropertyPart(tag: Commands.CommandTag)
    requires tag == Commands.GetProperty(Tags.CurrentVersion, 0)
    ensures CommandPacket.CommandPart(CommandPacket.CommandHeader(Tags.NoData, 0), Commands.ToParams(tag).words, Commands.Code(tag)) ==
      [0x07, 0x00, 0x00, 0x02, 0x01, 0x00, 0x00, 0x00, 0x00, 0x00, 0x00, 0x00]
  {
    GetPropertyParams(tag);
    GetPropertyWords(Commands.ToParams(tag).words);
  }

  lemma GetPropertyParams(tag: Commands.CommandTag)
    requires tag == Commands.GetProperty(Tags.CurrentVersion, 0)
    ensures Commands.ToParams(tag).words == [1, 0] && Commands.Code(tag) == 7
  {
    assert Tags.PropertyCode(Tags.CurrentVersion) == 1;
  }

  lemma GetPropertyWords(ps: seq<u32>)
    requires ps == [1, 0]
    ensures WordsToLe(ps) == [0x01, 0x00, 0x00, 0x00, 0x00, 0x00, 0x00, 0x00]
  {
    assert ps[1..] == [0] && ps[1..][1..] == [];
  }

  lemma GetPropertyHeader(part: Bytes, f: Bytes)
    requires |part| == 12 && part[0] == 0x07 && part[1] == 0x00 && part[2] == 0x00 &&
      part[3] == 0x02 && part[4] == 0x01 && part[5] == 0x00 && part[6] == 0x00 &&
      part[7] == 0x00 && part[8] == 0x00 && part[9] == 0x00 && part[10] == 0x00 &&
      part[11] == 0x00
    requires f == [Packets.StartByte, Packets.CmdCode] + U16ToLe(|part|) + U16ToLe(0x334B) + part
    ensures f ==
      [0x5A, 0xA4, 0x0C, 0x00, 0x4B, 0x33, 0x07, 0x00, 0x00, 0x02, 0x01, 0x00, 0x00, 0x00, 0x00, 0x00, 0x00, 0x00]
  {
    assert U16ToLe(0x334B) == [0x4B, 0x33];
    assert U16ToLe(|part|) == [0x0C, 0];
  }

  /** The frame of `FlashProgramOnce(0x51, 4, 0x12345678)` without a data
      phase. */
  lemma FlashProgramOnceFrame(tag: Commands.CommandTag)
    requires tag == Commands.FlashProgramOnce(0x51, 4, 0x12345678)
    ensures CommandPacket.CommandFrame(CommandPacket.NewNoneFlag(tag)) ==
      [90, 164, 16, 0, 27, 96, 14, 0, 0, 3, 81, 0, 0, 0, 4, 0, 0, 0, 120, 86, 52, 18]
  {
    var part := CommandPacket.CommandPart(CommandPacket.CommandHeader(Tags.NoData, 0), Commands.ToParams(tag).words, Commands.Code(tag));
    NoneFlagFrameIs(tag);
    FlashProgramOncePart(tag);
    FlashProgramOnceFramed(part);
  }

  lemma FlashProgramOnceFramed(part: Bytes)
    requires part == [14, 0, 0, 3, 81, 0, 0, 0, 4, 0, 0, 0, 120, 86, 52, 18]
    ensures Packets.ConstructHeader(Packets.CmdCode, part) ==
      [90, 164, 16, 0, 27, 96, 14, 0, 0, 3, 81, 0, 0, 0, 4, 0, 0, 0, 120, 86, 52, 18]
  {
    FlashProgramOnceCrc(part);
    Packets.ConstructHeaderWith(Packets.CmdCode, part, 0x601B);
    FlashProgramOnceHeader(part, Packets.ConstructHeader(Packets.CmdCode, part));
  }

  /** A packet made by `new_none_flag` is framed around the command part
      with flag `NoData` and reserved byte 0. */
  lemma NoneFlagFrameIs(tag: Commands.CommandTag)
    requires Commands.Implemented(tag)
    ensures CommandPacket.CommandFrame(CommandPacket.NewNoneFlag(tag))
      == Packets.ConstructHeader(Packets.CmdCode,
           CommandPacket.CommandPart(CommandPacket.CommandHeader(Tags.NoData, 0), Commands.ToParams(tag).words, Commands.Code(tag)))
  {
  }

  lemma FlashProgramOnceCrc(part: Bytes)
    requires part == [14, 0, 0, 3, 81, 0, 0, 0, 4, 0, 0, 0, 120, 86, 52, 18]
    ensures Crc16.Checksum([Packets.StartByte, Packets.CmdCode] + U16ToLe(|part|) + part) == 0x601B
  {
    assert U16ToLe(|part|) == [16, 0];
    var covered := [Packets.StartByte, Packets.CmdCode] + U16ToLe(|part|) + part;
    assert covered == [90, 164, 16, 0, 14, 0, 0, 3, 81, 0, 0, 0, 4, 0, 0, 0, 120, 86, 52, 18];
    CommandPacketChecksums.FlashProgramOnceChecksum(covered);
  }

  lemma FlashProgramOncePart(tag: Commands.CommandTag)
    requires tag == Commands.FlashProgramOnce(0x51, 4, 0x12345678)
    ensures CommandPacket.CommandPart(CommandPacket.CommandHeader(Tags.NoData, 0), Commands.ToParams(tag).words, Commands.Code(tag)) ==
      [14, 0, 0, 3, 81, 0, 0, 0, 4, 0, 0, 0, 120, 86, 52, 18]
  {
    FlashProgramOnceParams(tag);
    FlashProgramOnceWords(Commands.ToParams(tag).words);
  }

  lemma FlashProgramOnceParams(tag: Commands.CommandTag)
    requires tag == Commands.FlashProgramOnce(0x51, 4, 0x12345678)
    ensures Commands.ToParams(tag).words == [0x51, 4, 0x12345678] && Commands.Code(tag) == 14
  {
  }

  lemma FlashProgramOnceWords(ps: seq<u32>)
    requires ps == [0x51, 4, 0x12345678]
    ensures WordsToLe(ps) == [81, 0, 0, 0, 4, 0, 0, 0, 120, 86, 52, 18]
  {
    assert U32ToLe(0x12345678) == [0x78, 0x56, 0x34, 0x12];
    assert ps[1..][1..] == [0x12345678];
    assert WordsToLe(ps[1..][1..]) == [0x78, 0x56, 0x34, 0x12];
    assert WordsToLe(ps[1..]) == [4, 0, 0, 0] + WordsToLe(ps[1..][1..]);
  }

  lemma FlashProgramOnceHeader(part: Bytes, f: Bytes)
    requires |part| == 16 && part[0] == 0x0E && part[1] == 0x00 && part[2] == 0x00 &&
      part[3] == 0x03 && part[4] == 0x51 && part[5] == 0x00 && part[6] == 0x00 &&
      part[7] == 0x00 && part[8] == 0x04 && part[9] == 0x00 && part[10] == 0x00 &&
      part[11] == 0x00 && part[12] == 0x78 && part[13] == 0x56 && part[14] == 0x34 &&
      part[15] == 0x12
    requires f == [Packets.StartByte, Packets.CmdCode] + U16ToLe(|part|) + U16ToLe(0x601B) + part
    ensures f ==
      [90, 164, 16, 0, 27, 96, 14, 0, 0, 3, 81, 0, 0, 0, 4, 0, 0, 0, 120, 86, 52, 18]
  {
    assert U16ToLe(0x601B) == [27, 96];
    assert U16ToLe(|part|) == [16, 0];
  }
}
