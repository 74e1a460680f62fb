/** McuBoot packets: the common serial frame (start byte, packet type,
    little-endian payload length, little-endian CRC-16 of everything but
    the CRC field, payload), the command frame that carries a command's
    tag, flag and parameters, data-phase packets and the ping response. */
module Packets {
  import opened Base
  import Crc16

  const StartByte: u8 := 0x5A
  /** Packet types. */
  const AbortCode: u8 := 0xA3
  const CmdCode: u8 := 0xA4
  const DataCode: u8 := 0xA5
  const PingCode: u8 := 0xA6
  const PingResponseCode: u8 := 0xA7

  /** The packet types are five different bytes, none of them the start
      byte, so the second byte of a frame always tells its type. */
  lemma PacketCodesDistinct()
    ensures |{AbortCode, CmdCode, DataCode, PingCode, PingResponseCode}| == 5
    ensures StartByte !in {AbortCode, CmdCode, DataCode, PingCode, PingResponseCode}
  {
  }

  /** `construct_header`: the frame of a payload. The length field is
      `len() as u16`, so it wraps for payloads of 64 KiB and more; the CRC
      covers the four header bytes and the payload. */
  function ConstructHeader(code: u8, data: Bytes): (r: Bytes)
    ensures |r| == 6 + |data|
    ensures r[0] == StartByte && r[1] == code
    ensures U16FromLe(r[2], r[3]) == |data| % 0x1_0000
    ensures r[6..] == data
  {
    var v := [StartByte, code] + U16ToLe(|data| % 0x1_0000);
    var r := v + U16ToLe(Crc16.Checksum(v + data)) + data;
    assert r[..4] == v && r[6..] == data;
    r
  }

  /** The CRC field of a frame is the checksum of the frame without it. */
  lemma ConstructHeaderChecksum(code: u8, data: Bytes)
    ensures var r := ConstructHeader(code, data);
      U16FromLe(r[4], r[5]) == Crc16.Checksum(r[..4] + r[6..])
  {
    var r := ConstructHeader(code, data);
    var v := [StartByte, code] + U16ToLe(|data| % 0x1_0000);
    assert r == v + U16ToLe(Crc16.Checksum(v + data)) + data;
    assert r[..4] == v && r[6..] == data;
    assert [r[4], r[5]] == U16ToLe(Crc16.Checksum(v + data));
  }

  /** A payload of exactly 64 KiB is framed with length field 0, which a
      reader takes for an abort. */
  lemma HeaderLengthWraps(code: u8, data: Bytes)
    requires |data| == 0x1_0000
    ensures ConstructHeader(code, data)[2] == 0 && ConstructHeader(code, data)[3] == 0
  {
    var r := ConstructHeader(code, data);
    assert U16ToLe(U16FromLe(r[2], r[3])) == [r[2], r[3]];
  }

  /** A frame is determined by its code, payload and checksum. */
  lemma ConstructHeaderWith(code: u8, data: Bytes, crc: u16)
    requires |data| < 0x1_0000
    requires Crc16.Checksum([StartByte, code] + U16ToLe(|data|) + data) == crc
    ensures ConstructHeader(code, data) == [StartByte, code] + U16ToLe(|data|) + U16ToLe(crc) + data
  {
    DivUnique(|data|, 0x1_0000, 0, |data|);
  }
}
