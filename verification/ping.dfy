/** The ping response (`packets/ping.rs`): the protocol version and
    options a device announces when pinged. */
module Ping {
  import opened Base
  import Errors
  import Packets

  /** `PingResponse`: the protocol version and options a device reports. */
  datatype PingResponse = PingResponse(version: u32, options: u16)

  /** `PingResponse::parse`. The version is the big-endian word at bytes
      2..6 and the options the little-endian half-word at bytes 6..8; the
      slicing panics on fewer than 8 bytes, which every caller rules out. */
  function ParsePingResponse(b: Bytes): (r: Result<PingResponse, Errors.CommError>)
    requires |b| >= 8
    ensures r.Ok?
    ensures U32ToLe(r.value.version) == [b[5], b[4], b[3], b[2]]
    ensures U16ToLe(r.value.options) == b[6..8]
  {
    Ok(PingResponse.PingResponse(U32FromBe(b[2..6]), U16FromLe(b[6], b[7])))
  }

  /** The eight leading bytes of a ping response as a device lays them out:
      start byte, type, version big-endian, options little-endian. */
  function PingResponseBytes(p: PingResponse): (r: Bytes)
    ensures |r| == 8 && r[..2] == [Packets.StartByte, Packets.PingResponseCode]
  {
    var v := U32ToLe(p.version);
    [Packets.StartByte, Packets.PingResponseCode, v[3], v[2], v[1], v[0]] + U16ToLe(p.options)
  }

  lemma PingResponseRoundTrip(p: PingResponse)
    ensures ParsePingResponse(PingResponseBytes(p)) == Ok(p)
  {
    var r := ParsePingResponse(PingResponseBytes(p)).value;
    assert U32ToLe(r.version) == U32ToLe(p.version);
    assert U32FromLe(U32ToLe(r.version)) == U32FromLe(U32ToLe(p.version));
    U32LeRoundTrip(r.version);
    U32LeRoundTrip(p.version);
    assert U16FromLe(U16ToLe(r.options)[0], U16ToLe(r.options)[1]) == r.options;
  }

  /** Only bytes 2..8 matter: the start byte and packet type, and anything
      after the options, do not reach the parsed response. */
  lemma PingResponseIgnoresFraming(a: Bytes, b: Bytes)
    requires |a| >= 8 && |b| >= 8 && a[2..8] == b[2..8]
    ensures ParsePingResponse(a) == ParsePingResponse(b)
  {
    assert a[2..6] == a[2..8][..4] == b[2..8][..4] == b[2..6];
  }
}
