/** Data-phase packets (`packets/data_phase.rs`): the raw bytes that follow
    a command with the data-phase flag. */
module DataPhase {
  import opened Base
  import Errors
  import Packets

  /** `DataPhasePacket`: the payload of one data-phase packet. */
  datatype DataPhasePacket = DataPhasePacket(data: Bytes)

  /** `DataPhasePacket::construct`: a data-type frame around the bytes. */
  function ConstructDataPhase(p: DataPhasePacket): (r: Bytes)
    ensures |r| == 6 + |p.data| && r[1] == Packets.DataCode
  {
    Packets.ConstructHeader(Packets.DataCode, p.data)
  }

  /** `DataPhasePacket::parse`: the received payload, whatever it holds. */
  function ParseDataPhase(b: Bytes): Result<DataPhasePacket, Errors.CommError> {
    Ok(DataPhasePacket(b))
  }

  /** Parsing the payload of a constructed data-phase frame gives the packet
      back. */
  lemma DataPhaseRoundTrip(p: DataPhasePacket)
    ensures ParseDataPhase(ConstructDataPhase(p)[6..]) == Ok(p)
  {
  }
}
