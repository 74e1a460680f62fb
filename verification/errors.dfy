/** The errors a communication with a McuBoot device can end in
    (`CommunicationError`). The wrapped library errors of the serial-port,
    I/O and file variants carry nothing the model inspects, so those
    variants have no fields. */
module Errors {
  import opened Base
  import Status

  datatype CommError =
      SerialPortError
    | IOError
    | FileError
    | NACKSent
    | InvalidCrc
    | InvalidHeader
    | InvalidData
    | InvalidPacketReceived
    | ParseError(message: string)
    | UnexpectedStatus(status: Status.StatusCode, code: u32)
    | Aborted
    | UnsupportedPlatform
    | Timeout

  /** `From<StatusCode>`: a status the device reported becomes an
      `UnexpectedStatus` error that keeps both the status and its
      discriminant, and the discriminant decodes back to the status. */
  function FromStatus(s: Status.StatusCode): (e: CommError)
    ensures e.UnexpectedStatus? && e.status == s
    ensures Status.FromCode(e.code) == Some(s)
  {
    Status.FromCodeOfCode(s);
    UnexpectedStatus(s, Status.Code(s))
  }
}
