# rblhost McuBoot host, modelled in Dafny

rblhost is a host for the McuBoot ROM bootloader of NXP microcontrollers. It
talks to the bootloader over UART, I2C or USB-HID. This project models the
protocol core of that host as pure functions over byte sequences, and proves
what the host promises about it.

- **Framing.** `construct_header` frames a payload with start byte 0x5A, a
  packet type, a 16-bit little-endian length and a CRC-16/XMODEM checksum.
- **Command packets.** A command's code, flag, reserved byte, parameter count
  and little-endian parameters form its frame. `CommandTag::to_params`
  encodes the commands into parameters and an optional data phase.
- **Transports.**
  - UART and I2C read a framed packet, acknowledge it and ping the device.
  - USB re-frames packets as HID reports.
  - The text forms of USB and I2C identifiers are parsed.
- **Status and tags.** The status codes, command, property and flag
  discriminants are tables. Their round trips and name lookups are proved.
- **Property decoding.** `PropertyTag::from_code` and every sub-parser decode
  the words of a GetProperty response.
- **Session logic.** `McuBoot` is modelled with:
  - `send_command`, including the max-packet-size query and the chunked
    data phase;
  - `read_command`, including data-phase reassembly and the
    `mask_read_data_phase` switch;
  - `read_cmd_response`, `get_property`, `read_memory`, `fuse_read`,
    `flash_read_once`, `flash_program_once` (with its OTP verify step) and
    `key_provisioning`.
- **C API.** The `extern "C"` functions are modelled over a heap of boxed
  allocations. The model checks NULL handling, status numbers and texts,
  and that every array handed to C is freed by the matching free function,
  except the words of `mboot_read_memory`, which leak (see Findings).

How the model stands in for the world outside the code:

- A device is a script of replies. The host's writes are recorded as a
  sequence of frames.
- A script that runs out stands for a timeout.
- Panics the device can provoke are the error `Fault.Panic`. These are a
  packet too short to slice, a packet size of zero, an undeclared status
  where the source calls `expect`, the `unimplemented!` arms for the
  FuseLockedStatus and LastError properties, and an odd word count in the
  reserved regions; the last three are the responses that fail
  `Property.Decodable` (see `Property.FromCode` under "## Left out").
- Calls into code the model does not contain are function parameters. These
  are the HID library, the serial or I2C port opened by `mboot_create`, the
  response-tag decoder `CmdResponseTag::from_code`, and the session calls the
  C API wraps.

Modules follow the source files:

| Module | Models |
|---|---|
| `Base` | bytes, little-/big-endian words, `Option`/`Result` |
| `Crc16` | the checksum |
| `Packets` | `packets.rs` |
| `CommandPacket` | `packets/command.rs` |
| `DataPhase` | `packets/data_phase.rs` |
| `Ping` | `packets/ping.rs` |
| `Errors` | `protocols.rs` errors |
| `Status` | `tags/status.rs` |
| `Tags` | discriminant tables |
| `Commands` | `tags/command.rs` |
| `Property` | `tags/property.rs` |
| `Memory` | `memory.rs` |
| `Parsers` | `parsers.rs` |
| `Serial`, `Uart`, `I2c` | the UART and Unix I2C transports |
| `Usb` | the USB-HID transport |
| `Session` | `mboot.rs` |
| `CApi` | `c_api.rs` |

## Model

| member | source | states |
|---|---|---|
| Crc16.CheckValue | src/mboot/packets.rs:67 | the checksum of ASCII "123456789" is 0x31C3, the catalogue check value of CRC-16/XMODEM |
| Base.U16LeRoundTrip | src/mboot/packets.rs:102-103 | `u16::from_le_bytes` undoes `u16::to_le_bytes` |
| Base.U16LeBytesRoundTrip | src/mboot/packets.rs:102-103 | `u16::to_le_bytes` undoes `u16::from_le_bytes` |
| Base.WordsToLe | src/mboot/packets/command.rs:61 | the little-endian bytes of words: four per word, word `i` at bytes `4i..4i+4` |
| Base.LeToWords | src/mboot.rs:887-890 | splitting bytes whose length is a multiple of four into little-endian words gives one word per four bytes |
| Base.WordsRoundTrip | src/mboot/packets/command.rs:61 | splitting the little-endian bytes of words gives the words back |
| Base.BytesRoundTrip | src/mboot/packets/command.rs:61 | re-encoding the words split from bytes of length divisible by four gives the bytes back |
| Packets.ConstructHeader | src/mboot/packets.rs:101-114 | a frame is start byte 0x5A, the packet type, the payload length truncated to 16 bits, then from byte 6 the payload; it is six bytes longer than the payload |
| Packets.ConstructHeaderChecksum | src/mboot/packets.rs:105-111 | the CRC field of a frame is the checksum of the frame without it, stored little-endian at bytes 4 and 5 |
| Packets.HeaderLengthWraps | src/mboot/packets.rs:102 | a 64 KiB payload gets length field 0, the length of an abort frame |
| Packets.ConstructHeaderWith | src/mboot/packets.rs:101-114 | a frame is determined by its type, payload and checksum |
| Packets.PacketCodesDistinct | src/mboot/packets.rs:70-79 | the five packet types are distinct and none is the start byte |
| Errors.FromStatus | src/mboot/protocols.rs:97-99 | a reported status becomes `UnexpectedStatus` keeping the status and its number |
| Status.FromCode | src/mboot/tags/status.rs:24-28 | a number is accepted exactly when it is the discriminant of a status, and then gives that status |
| Status.FromCodeOfCode | src/mboot/tags/status.rs:24-885 | every status survives the round trip through its discriminant |
| Status.SuccessIsZero | src/mboot/tags/status.rs:24-30 | `is_success` holds exactly for discriminant 0; AppCrcCheckPassed, ReliableUpdateSuccess and El2goProvSuccess are not success |
| Status.CodeAtMost | src/mboot/tags/status.rs:877-878 | no discriminant lies above UnknownStatusCode's 0xDEADBEEF |
| Status.TextsOfNamedStatuses | src/mboot/tags/status.rs:30-878 | Success and Fail display as their variant names; MemoryBlankPageReadDisallowed, OtpVerifyFail and UnknownStatusCode display their `#[display]` texts |
| Tags.FlagCode | src/mboot/tags/command_flag.rs:24-35 | a flag's code is 0 or 1 |
| Tags.FlagFromCode | src/mboot/tags/command_flag.rs:24-35 | exactly 0 and 1 are flags, each the flag with that code |
| Tags.FlagRoundTrip | src/mboot/tags/command_flag.rs:24-35 | a flag survives the trip through its code |
| Tags.CommandFromCode | src/mboot/tags/command.rs:314-319 | a command kind found for a byte has that byte as its discriminant |
| Tags.CommandRoundTrip | src/mboot/tags/command.rs:35-245 | every command kind survives the trip through its discriminant |
| Tags.CommandCodeInjective | src/mboot/tags/command.rs:35-245 | distinct command kinds have distinct discriminants |
| Tags.PropertyCode | src/mboot/tags/property.rs:301-305 | property discriminants run from 0x01 to 0x26 |
| Tags.PropertyFromCode | src/mboot/tags/property.rs:54-61 | a byte names a property kind exactly when it is in 0x01..0x26, and the kind has it as its discriminant |
| Tags.PropertyRoundTrip | src/mboot/tags/property.rs:54-190 | every property kind survives the trip through its discriminant |
| Tags.PropertyFromName | src/mboot/tags/property.rs:55-58 | `from_str` on kebab-case names: a result is a kind whose name is exactly the text |
| Tags.PropertyNamesDistinct | src/mboot/tags/property.rs:55-61 | different property kinds have different names |
| Tags.PropertyNameRoundTrip | src/mboot/tags/property.rs:55-58 | every property kind is found by its name |
| Tags.PropertyFromNameComplete | src/mboot/tags/property.rs:55-58 | name lookup fails exactly on text that is no kind's name |
| Tags.PropertyNameStartsWithLetter | src/mboot/tags/property.rs:55-58 | every property name starts with a lowercase letter |
| Commands.KeyTypeFromCode | src/mboot/tags/command.rs:577-612 | `try_from(u32)` accepts exactly the ids 2, 3 and 7 to 12, each giving the key type with that id |
| Commands.KeyTypeCodeRoundTrip | src/mboot/tags/command.rs:577-618 | a key type survives the trip through its id |
| Commands.KeyTypeFromName | src/mboot/tags/command.rs:577-612 | a key type found for a text has that text as its serialized name |
| Commands.KeyTypeNameRoundTrip | src/mboot/tags/command.rs:577-612 | a key type survives the trip through its name |
| Commands.ParseKeyType | src/mboot/tags/command.rs:634-641 | all-digit text is read as an id and must be a declared one; other text must be a name; invalid name is reported exactly when the text is neither numeric nor a name |
| Commands.ParseKeyTypeById | src/mboot/tags/command.rs:634-641 | every key type is accepted by its id in decimal |
| Commands.ParseKeyTypeByName | src/mboot/tags/command.rs:634-641 | every key type is accepted by its name |
| Commands.HexIdIsAName | src/mboot/tags/command.rs:634-641 | a `0x` id is not numeric text, so it is looked up as a name |
| Commands.UndeclaredId | src/mboot/tags/command.rs:634-641 | an id that is no key type is rejected |
| Commands.TrustParams | src/mboot/tags/command.rs:401-442 | trust provisioning sends selector 0 or 1 and then its fields, with no data phase |
| Commands.KeyParams | src/mboot/tags/command.rs:544-564 | key provisioning: the operation selector first; only SetUserKey and WriteKeyStore have a data phase, and their length parameter is the key's length |
| Commands.ToParams | src/mboot/tags/command.rs:255-311 | a command has a data phase exactly when it carries bytes; the data phase is those bytes |
| Commands.LengthParamMatchesPayload | src/mboot/tags/command.rs:255-311 | the length parameter of every data-phase command equals the data-phase length |
| Commands.ParamsRoundTrip | src/mboot/tags/command.rs:255-311 | the kind, the parameters and the data phase determine the command |
| Commands.ParamsInjective | src/mboot/tags/command.rs:255-311 | two commands of one kind with equal encodings are equal |
| CommandPacket.ConstructFrame | src/mboot/packets/command.rs:52-64 | a command frame is of the command packet type and ten bytes plus four per parameter long |
| CommandPacket.ConstructFrameLength | src/mboot/packets/command.rs:52-64 | the length field counts four header bytes and four bytes per parameter |
| CommandPacket.ConstructFrameHeader | src/mboot/packets/command.rs:53 | byte 6 is the command code, byte 7 decodes to the flag, byte 8 is the reserved byte |
| CommandPacket.ConstructFrameCount | src/mboot/packets/command.rs:53 | the count byte is the parameter count modulo 256 |
| CommandPacket.ConstructFrameParams | src/mboot/packets/command.rs:61 | the bytes after the count read back as the parameters |
| CommandPacket.NoneFlagFrame | src/mboot/packets/command.rs:114-122 | a packet made by `new_none_flag` goes on the wire with its tag's code, flag byte 0, reserved byte 0, and its parameters after the count |
| CommandPacket.DataPhaseFlagFrame | src/mboot/packets/command.rs:136-144 | a packet made by `new_data_phase` differs on the wire only in its flag byte, 1 |
| CommandPacketTests.CommandFrameHeader | src/mboot/packets/command.rs:52-64 | the code byte of a command's frame names its kind and the flag byte its flag |
| CommandPacketTests.CommandFrameCount | src/mboot/packets/command.rs:53 | the count byte is the number of parameters: no command has 256 |
| CommandPacketTests.CommandFrameRecoversCommand | src/mboot/packets/command.rs:52-64 | a command frame and the data phase determine the command |
| CommandPacketTests.GetPropertyFrame | src/mboot/packets/command.rs:176-188 | the frame of `GetProperty(CurrentVersion, 0)` is the 18 bytes of the source's test |
| CommandPacketTests.FlashProgramOnceFrame | src/mboot/packets/command.rs:191-205 | the frame of `FlashProgramOnce(0x51, 4, 0x12345678)` is the 22 bytes of the source's test |
| DataPhase.ConstructDataPhase | src/mboot/packets/data_phase.rs:64-66 | a data packet is a frame of type 0xA5 around its bytes |
| DataPhase.DataPhaseRoundTrip | src/mboot/packets/data_phase.rs:64-83 | parsing the payload of a constructed data frame gives the packet back |
| Ping.ParsePingResponse | src/mboot/packets/ping.rs:49-54 | version is the big-endian word at bytes 2..6, options the little-endian half-word at 6..8 |
| Ping.PingResponseRoundTrip | src/mboot/packets/ping.rs:49-54 | a response laid out as a device sends it is parsed back |
| Ping.PingResponseIgnoresFraming | src/mboot/packets/ping.rs:49-54 | only bytes 2..8 matter to the parse |
| Parsers.FromStrRadix | src/parsers.rs:14 | accepted text is an optional `+` and at least one digit of the radix; the value is that of the digits and at most the type maximum |
| Parsers.ParseNumber | src/parsers.rs:11-20 | the text is accepted exactly when, after a lowercase `0x` prefix, it is an optionally `+`-signed base-16 numeral, or without that prefix a base-10 numeral, whose value fits the target type; the result is that value; a rejection names the whole text and the base tried |
| Parsers.DecimalRoundTrip | src/parsers.rs:11-20 | a number rendered in decimal is parsed back when it fits |
| Parsers.HexRoundTrip | src/parsers.rs:11-20 | a number rendered as `0x` and hex digits is parsed back when it fits |
| Parsers.UppercasePrefixRejected | src/parsers.rs:12 | `0X1F` is not read as hexadecimal and is rejected |
| Parsers.PlusSign | src/parsers.rs:14-18 | a lone `+` is rejected, a leading `+` is otherwise accepted |
| Parsers.RemoveSpaces | src/parsers.rs:39 | the text without its spaces, other characters in order |
| Parsers.ParsePairs | src/parsers.rs:43-49 | each output byte is the hex value of its pair, and an error names a two-character pair that is not a hex byte |
| Parsers.ParsePairsExact | src/parsers.rs:43-49 | the parse succeeds exactly when every pair is a hex byte; otherwise the error names the first pair that is not one, every earlier pair being one |
| Parsers.ParseHexBraces | src/parsers.rs:37-49 | the digits left after trimming and removing spaces have odd length exactly when the result is the odd-length error; with even length the result is those digits read pairwise as hex bytes |
| Parsers.HexBracesRoundTrip | src/parsers.rs:37-49 | bytes written as `{{` hex digits `}}` are parsed back |
| Memory.ParseRegions | src/mboot/memory.rs:113-117 | consecutive pairs of words become regions, start and end |
| Memory.RegionsRoundTrip | src/mboot/memory.rs:113-117 | the words of regions parse back to the regions |
| Memory.RegionWordsRoundTrip | src/mboot/memory.rs:113-117 | words of even count are the words of the regions they parse to |
| Memory.ParseAttributes | src/mboot/memory.rs:161-195 | each of the five attributes is present exactly when its flag bit is set in the first word, and then holds word 1 (start address), 2 (total size), 3 (page size), 4 (sector size) or 5 (block size) |
| Memory.AttributesRoundTrip | src/mboot/memory.rs:161-195 | the words a device sends for a set of attributes parse back to them |
| Memory.HighFlagsIgnored | src/mboot/memory.rs:161-195 | only the low five flag bits are looked at |
| Memory.NoFlagsNoAttributes | src/mboot/memory.rs:161-195 | a zero flags word describes no attribute |
| Property.ParseVersion | src/mboot/tags/property.rs:339-347 | mark, major, minor and fix are the big-endian bytes of the word |
| Property.VersionRoundTrip | src/mboot/tags/property.rs:339-347 | the word rebuilt from a version is the word |
| Property.PeripheryCode | src/mboot/tags/property.rs:363-402 | each peripheral code is two to the power of that peripheral's bit |
| Property.ParseIrqNotifierPin | src/mboot/tags/property.rs:442-449 | pin from bits 0..7, port from 8..15, enabled from bit 31 |
| Property.IrqRoundTrip | src/mboot/tags/property.rs:442-449 | a pin configuration survives encoding and parsing |
| Property.IrqMiddleBitsIgnored | src/mboot/tags/property.rs:442-449 | bits 16 to 30 do not affect the parse |
| Property.ParsePfrKeystoreUpdateOpt | src/mboot/tags/property.rs:483-489 | 1 is WriteMemory, every other word KeyProvisioning |
| Property.PfrRoundTrip | src/mboot/tags/property.rs:483-489 | each option survives the trip through its code |
| Property.ParseFlashReadMargin | src/mboot/tags/property.rs:518-525 | words 0, 1 and 2 are the margins with those codes, and any larger word is Normal |
| Property.MarginRoundTrip | src/mboot/tags/property.rs:518-525 | each margin survives the trip through its code |
| Property.ParseSHEFlashPartition | src/mboot/tags/property.rs:566-571 | max keys from bits 0..1, flash size from bits 8..9 |
| Property.PartitionRoundTrip | src/mboot/tags/property.rs:566-571 | a partition survives encoding and parsing |
| Property.ParseSHEBootMode | src/mboot/tags/property.rs:610-615 | the size is below 2^30 and the mode below 4 |
| Property.BootModeWordOfParse | src/mboot/tags/property.rs:610-615 | the two fields rebuild the word |
| Property.BootModeRoundTrip | src/mboot/tags/property.rs:610-615 | a boot mode survives encoding and parsing |
| Property.FromCode | src/mboot/tags/property.rs:210-278 | words that can be decoded give a property of the requested kind; the value for each kind is stated by the lemmas that follow |
| Property.AvailablePeripheralsExact | src/mboot/tags/property.rs:218-223 | the peripherals listed are exactly those whose bit is set in the low byte of the first word, in declaration order |
| Property.AvailableCommandsExact | src/mboot/tags/property.rs:227-237 | a command kind is listed exactly when its code is in 1..0x9F and bit `code - 1` of the first word is set |
| Property.AvailableCommandsNeverLists | src/mboot/tags/property.rs:227-237 | NoCommand and the 0xC1..0xC3 configuration commands are never listed |
| Property.UniqueDeviceIdBytes | src/mboot/tags/property.rs:214-217 | the device id is the little-endian bytes of all words, and splitting it gives the words back |
| Property.ReservedRegionsPairs | src/mboot/tags/property.rs:243 | reserved regions skip two words and pair the rest |
| Property.SecurityStates | src/mboot/tags/property.rs:247-249 | the security and life-cycle states are unsecured exactly for words 0 and 0x5AA55AA5 |
| Property.FlagProperties | src/mboot/tags/property.rs:241-266 | VerifyWrites, ValidateRegions, FlashFacSupport, FuseProgramVoltage and VerifyErase are true exactly for a non-zero first word |
| Property.FirstWordDecides | src/mboot/tags/property.rs:210-278 | every other property depends on the first word only |
| Property.WordProperties | src/mboot/tags/property.rs:224-245 | FlashStartAddress, FlashSize, FlashSectorSize, FlashBlockCount, MaxPacketSize, RAMStartAddress and RAMSize are the first word unchanged |
| Property.MoreWordProperties | src/mboot/tags/property.rs:246-266 | SystemDeviceId, FlashAccessSegmentSize, FlashAccessSegmentCount and FlashPageSize are the first word unchanged |
| Property.BootWordProperties | src/mboot/tags/property.rs:254-256 | ByteWriteTimeoutMs, BootStatusRegister and FirmwareVersion are the first word unchanged |
| Property.ParsedWordProperties | src/mboot/tags/property.rs:212-213 | CurrentVersion and TargetVersion are the version parsed from the first word; FlashReadMargin and IrqNotifierPin are their own parsers applied to it |
| Property.MoreParsedWordProperties | src/mboot/tags/property.rs:253-260 | PFRKeystoreUpdateOpt, SHEFlashPartition and SHEBootMode are their own parsers applied to the first word |
| Property.StatusProperties | src/mboot/tags/property.rs:238-273 | CRCCheckStatus, QSPIInitStatus and ReliableUpdateStatus carry the first word as their status when it is a declared status code |
| Property.ExternalMemoryAttributesParsed | src/mboot/tags/property.rs:250 | the external memory attributes are parsed from all the words |
| Property.ParseProperty | src/mboot/tags/property.rs:293-298 | a result matches the number or the name given; unknown number exactly for a `u8` outside 1..0x26; unknown name exactly for text that is neither a number nor a name |
| Property.ParsePropertyName | src/mboot/tags/property.rs:293-298 | every property kind is found by its name |
| Property.ParsePropertyNumber | src/mboot/tags/property.rs:293-298 | every property kind is found by its discriminant in decimal |
| Property.ParsePropertyOutOfRange | src/mboot/tags/property.rs:293-298 | `256` does not fit a `u8`, so name lookup fails on it |
| Property.NotAName | src/mboot/tags/property.rs:293-298 | text starting with a digit is no property's name |
| Serial.AckResult | src/mboot/protocols.rs:255-259 | ACK is success, NACK a NACK error, ACK_ABORT an abort |
| Serial.ReadPacketRaw | src/mboot/protocols/uart.rs:88-116 | the only thing a read sends is one ACK frame, and a returned payload was acknowledged |
| Serial.ReadPacketRawWrongHeader | src/mboot/protocols/uart.rs:88-98 | a wrong start byte or type ends the read after two bytes, before any acknowledgement |
| Serial.ReadPacketRawConsumes | src/mboot/protocols/uart.rs:88-116 | a complete packet consumes exactly its six header bytes and its payload |
| Serial.ReadPacketRawChecks | src/mboot/protocols/uart.rs:100-116 | of a complete packet: a CRC mismatch is exactly the CRC error; otherwise length 0 is an abort and any other length returns the payload |
| Serial.ReadPacketRawRoundTrip | src/mboot/protocols/uart.rs:88-116 | a constructed frame of 1 to 0xFFFF bytes is read back as its payload, an empty one as an abort |
| Serial.ReadPacketRawAbortFrame | src/mboot/protocols/uart.rs:109-112 | the frame of an empty payload is read as an abort, after the ACK |
| Serial.ReadPacketRawAccepts | src/mboot/protocols/uart.rs:88-116 | an accepted payload is the payload of the constructed frame the input starts with |
| Serial.FindStartByteFirst | src/mboot/protocols/uart.rs:137-155 | the search finds the first start byte among the first 50 bytes, or fails having read 50 |
| Serial.PingDevice | src/mboot/protocols/uart.rs:131-185 | ping sends exactly the two-byte ping frame |
| Serial.PingRoundTrip | src/mboot/protocols/uart.rs:131-185 | a reply behind fewer than 50 other bytes parses back to the response |
| Serial.PingTooManyDummies | src/mboot/protocols/uart.rs:137-155 | fifty bytes without a start byte end the ping with an invalid header |
| Serial.PingAccepts | src/mboot/protocols/uart.rs:131-185 | an accepted ping reply is the reply to the response it parsed to |
| Uart.ReadAck | src/mboot/protocols/uart.rs:192-222 | waiting for an acknowledgement sends nothing |
| Uart.ReadAckDecides | src/mboot/protocols/uart.rs:192-222 | two bytes are consumed; an acknowledgement frame gives its meaning, anything else exactly an invalid header |
| Uart.ReadAckReplyFrame | src/mboot/protocols/uart.rs:192-222 | each acknowledgement frame is read as its meaning and consumes two bytes |
| Uart.WritePacketRaw | src/mboot/protocols/uart.rs:82-86 | the frame is sent whole; the write succeeds exactly when the next two bytes are the ACK frame |
| Uart.WriteReadRoundTrip | src/mboot/protocols/uart.rs:82-116 | a payload the host writes is what a receiver of those bytes reads |
| Uart.Open | src/mboot/protocols/uart.rs:32-59 | a port the serial library cannot open fails with a serial-port error and nothing is exchanged; otherwise the connection opens exactly when the device answers the ping, and a failed ping's error is returned |
| I2c.ReadAck | src/mboot/protocols/i2c/i2c_unix.rs:234-277 | waiting sends nothing and ends in success, NACK, abort or timeout |
| I2c.ReadAckFirstReply | src/mboot/protocols/i2c/i2c_unix.rs:234-277 | the first acknowledgement frame at an even offset decides, and the bytes after it stay unread |
| I2c.ReadAckNoReply | src/mboot/protocols/i2c/i2c_unix.rs:234-277 | without an acknowledgement frame the wait times out |
| I2c.WritePacketRaw | src/mboot/protocols/i2c/i2c_unix.rs:124-128 | the frame is sent whole before the acknowledgement is awaited |
| I2c.WritePacketRawAcknowledged | src/mboot/protocols/i2c/i2c_unix.rs:124-128 | a write succeeds exactly when the first acknowledgement frame is an ACK |
| I2c.ParseIdentifierPathOnly | src/mboot/protocols/i2c/i2c_unix.rs:51-64 | a path without a colon is used whole with slave address 0x10 |
| I2c.ParseIdentifierWithAddress | src/mboot/protocols/i2c/i2c_unix.rs:51-64 | `path:address` names that slave |
| I2c.ParseIdentifierThreeParts | src/mboot/protocols/i2c/i2c_unix.rs:51-64 | with three parts, a bad address is a parse error |
| I2c.Open | src/mboot/protocols/i2c/i2c_unix.rs:44-102 | a bad identifier fails before any I/O; a device file that cannot be opened gives a file error and a refused `I2C_SLAVE` ioctl an I/O error, both before any exchange; otherwise the connection opens exactly when the ping succeeds, with the parsed path and slave address |
| Usb.HidReport | src/mboot/protocols/usb.rs:99-140 | a report is the id, a zero byte, the low and high length bytes, then the payload |
| Usb.HidReportLength | src/mboot/protocols/usb.rs:99-140 | the length bytes of a payload under 64 KiB are its little-endian length |
| Usb.Reframe | src/mboot/protocols/usb.rs:99-140 | a frame is rejected only as an invalid header or invalid data |
| Usb.ReframeAccepts | src/mboot/protocols/usb.rs:99-140 | an accepted frame is a command or data frame whose report carries its length and payload |
| Usb.ReframeCases | src/mboot/protocols/usb.rs:99-140 | short or wrongly started frames are invalid headers; a frame shorter than its declared length is invalid data, checked before the type; other types are invalid headers; command and data frames become reports |
| Usb.ReframeConstructHeader | src/mboot/protocols/usb.rs:99-140 | a constructed command or data frame becomes the report of its payload |
| Usb.ReframeIgnoresCrc | src/mboot/protocols/usb.rs:99-140 | the CRC field does not matter to the report |
| Usb.WritePacketRaw | src/mboot/protocols/usb.rs:99-140 | the report is written exactly when re-framing succeeds; otherwise nothing is written |
| Usb.ReadPacketRaw | src/mboot/protocols/usb.rs:143-190 | with no report pending the read is an invalid header; otherwise exactly one report is consumed |
| Usb.ReadPacketRawRoundTrip | src/mboot/protocols/usb.rs:143-190 | a command response of 1 to 1020 bytes is read back as its payload |
| Usb.WriteReadRoundTrip | src/mboot/protocols/usb.rs:99-190 | the report the host writes, read under the matching incoming id, gives the payload |
| Usb.CmdInPadded | src/mboot/protocols/usb.rs:143-190 | a short command response is completed with the buffer's zeros |
| Usb.CmdInOverlong | src/mboot/protocols/usb.rs:143-190 | a command response declaring more than 1020 bytes panics |
| Usb.OtherReport | src/mboot/protocols/usb.rs:143-190 | any other report, or a short data report, delivers the bytes after its header |
| Usb.ShortOrAborted | src/mboot/protocols/usb.rs:143-190 | fewer than four bytes is an invalid header and a zero length an abort |
| Usb.TrimPadded | src/mboot/protocols/usb.rs:265 | `trim` removes exactly the whitespace around a text that neither starts nor ends with whitespace |
| Usb.ParseTrimmed | src/mboot/protocols/usb.rs:267-279 | a `0x`/`0X` prefix selects hexadecimal; without it the text reads as decimal exactly when it is a decimal numeral fitting a `u16`, and as hexadecimal otherwise, so the unprefixed-letter test never changes the outcome |
| Usb.DecimalRoundTrip | src/mboot/protocols/usb.rs:264-280 | a decimal number in range, with any surrounding whitespace, is read as itself |
| Usb.HexRoundTrip | src/mboot/protocols/usb.rs:264-280 | a `0x` number in range, with any surrounding whitespace, is read as itself |
| Usb.LeadingZeroIsDecimal | src/mboot/protocols/usb.rs:264-280 | `0135` is decimal 135 |
| Usb.ShortHexFallback | src/mboot/protocols/usb.rs:264-280 | `ab` is read through the hexadecimal fallback as 0xAB |
| Usb.ParseUsbIdentifier | src/mboot/protocols/usb.rs:240-261 | every failure is a parse error |
| Usb.IdentifierWithSeparator | src/mboot/protocols/usb.rs:240-261 | both ids are read from either side of the first separator |
| Usb.IdentifierVidOnly | src/mboot/protocols/usb.rs:240-261 | without a separator the text is the VID and the PID is 0 |
| Usb.ClampTimeout | src/mboot/protocols/usb.rs:62 | the timeout handed to the library is at most `i32::MAX` |
| Usb.OpenWithOptions | src/mboot/protocols/usb.rs:43-78 | a bad identifier fails with its parse error before the HID library is touched |
| Usb.OpenedConnection | src/mboot/protocols/usb.rs:43-88 | an opened connection keeps the identifier and parsed ids and reports the timeout clamped to `i32::MAX` |
| Session.WritePacketConcrete | src/mboot/protocols.rs:174-179 | writing a data packet is one raw write of its frame |
| Session.ReadPacketConcrete | src/mboot/protocols.rs:191-197 | a raw read parsed as a data packet; read errors pass through |
| Session.ParseStatus | src/mboot.rs:1016-1022 | a declared status is returned; an undeclared one is an `UnknownStatusCode` error keeping the number |
| Session.ParseStatusRoundTrip | src/mboot.rs:1016-1022 | a status written as a device writes it is read back |
| Session.ReadDataPhase | src/mboot.rs:921-937 | the data-phase loop only reads: it keeps the bytes it already has as a prefix and writes nothing |
| Session.ReadDataPhaseExact | src/mboot.rs:921-937 | non-empty packets that add up to the declared length reassemble to their concatenation |
| Session.ReadDataPhaseAborted | src/mboot.rs:934 | an abort before the declared length keeps what arrived |
| Session.ReadCommand | src/mboot.rs:884-955 | reading a response writes nothing and leaves the data-phase mask as it was |
| Session.ReadCommandRoundTrip | src/mboot.rs:884-916 | a response without data phase, or any masked response, is read back field by field |
| Session.ReadCommandDataPhase | src/mboot.rs:917-953 | a data-phase response collects the following packets up to the length in its first word, then reads the final status |
| Session.ReadCommandIgnoresCount | src/mboot.rs:887-892 | the parameter-count byte never changes the result |
| Session.ReadCommandRejects | src/mboot.rs:887-898 | a packet too short to slice panics; parameters that are not whole words and a flag byte above 1 are `InvalidData`; an undeclared status word is `UnexpectedStatus` with the unknown-status code and that word |
| Session.ReadCmdResponse | src/mboot.rs:779-787 | a response is returned only with status Success; any other status is the matching error |
| Session.Frame | src/mboot.rs:819-822 | the frame written for a command names its kind in the code byte and its flag in the flag byte, and its parameter bytes read back as the command's parameters |
| Session.SendPlain | src/mboot.rs:853-855 | a command without data phase appends exactly its frame to what was written, reads nothing and keeps the mask |
| Session.GetProperty | src/mboot.rs:150-169 | exactly the query frame is written; a successful GetProperty response gives its words, its status and a property of the requested kind; other responses are invalid |
| Session.Chunks | src/mboot.rs:842-846 | the pieces are non-empty, at most `n` long, all but the last exactly `n`, and concatenate to the data |
| Session.SendChunks | src/mboot.rs:842-851 | the device receives one data frame per piece, in order, and nothing is read |
| Session.DataFramePayloads | src/mboot.rs:842-851 | the payloads of the frames are the pieces |
| Session.DataPhaseRoundTrip | src/mboot.rs:842-851 | the payloads the host writes concatenate to the data |
| Session.BeforeDataPhase | src/mboot.rs:827-838 | the preamble leaves the data-phase mask as it was |
| Session.BeforeDataPhaseWrites | src/mboot.rs:827-838 | the query frame is written first and the command frame second; NoCommand writes the query alone |
| Session.SendDataPhase | src/mboot.rs:840-852 | an earlier error passes through; a packet size of zero panics; otherwise the data frames of the pieces are written and nothing is read |
| Session.SendCommand | src/mboot.rs:819-857 | a command without data writes its frame; one with data runs the preamble and then the data phase; the mask is unchanged |
| Session.DataFramesBounded | src/mboot.rs:842-851 | every data frame is between six bytes and the packet size plus six bytes long |
| Session.SendCommandDelivers | src/mboot.rs:819-857 | the data a command carries reaches the device whole, in frames within the packet size |
| Session.ReadMemory | src/mboot.rs:407-436 | exactly the ReadMemory frame is written and the mask kept; a result carries status Success or MemoryBlankPageReadDisallowed; a response with any other status is the matching `UnexpectedStatus` error and one with another tag is invalid |
| Session.ReadMemoryReply | src/mboot.rs:407-436 | against a scripted ReadMemory reply, only the command frame is written and one reply consumed; an accepted status gives the decoded bytes with the byte count as the only word, any other status its `UnexpectedStatus` error |
| Session.ReadMemoryDataPhaseReply | src/mboot.rs:407-436 | against a ReadMemory reply with a data phase, only the command frame is written and the whole script up to the final response consumed; an accepted final status gives the bytes of the data-phase packets with their count as the only word, any other final status its `UnexpectedStatus` error |
| Session.FuseRead | src/mboot.rs:686-706 | only status Success is accepted; the bytes come back with the byte count as the only word |
| Session.BlankPageReadMemory | src/mboot.rs:418-421 | a blank-page refusal is data to read_memory |
| Session.BlankPageFuseRead | src/mboot.rs:696-699 | the same reply is an error to fuse_read |
| Session.FlashReadOnce | src/mboot.rs:593-602 | exactly the FlashReadOnce frame is written and the mask kept; the word of a successful FlashReadOnce response, another tag being invalid |
| Session.FlashReadOnceReply | src/mboot.rs:593-602 | against a scripted FlashReadOnce reply, only the command frame is written and one reply consumed; status Success gives the decoded word, any other status its `UnexpectedStatus` error |
| Session.FlashProgramOnce | src/mboot.rs:636-659 | with verify, a successful program reads back the word and reports OtpVerifyFail when a programmed bit is missing |
| Session.VerifyFailOnlyFromReadBack | src/mboot.rs:644-655 | OtpVerifyFail comes back exactly when the verify read lacks a programmed bit |
| Session.VerifyReadsMaskedIndex | src/mboot.rs:646 | the verify read asks for the index masked to 24 bits |
| Session.KeyProvisioning | src/mboot.rs:542-569 | ReadKeyStore writes its frame and gives the status, words and key data (none reads as no bytes) of a Success response with a KeyProvisioning tag, another tag being invalid; other operations are sent with the mask set and give the status of a Success response read with the mask cleared; a failed send leaves the mask set |
| Session.ReadKeyStoreReply | src/mboot.rs:542-569 | against a scripted KeyProvisioning reply without data phase, ReadKeyStore writes only its frame and consumes one reply; Success gives the key store's words with no bytes, any other status its `UnexpectedStatus` error |
| CApi.Allocate | src/c_api.rs:227 | a fresh address is live and holds the block; nothing else changes |
| CApi.FreeBoxData | src/c_api.rs:134-138 | NULL is ignored; otherwise exactly that allocation ends |
| CApi.FreeAllocated | src/c_api.rs:134-138 | freeing what was just allocated restores the allocations |
| CApi.AsI32 | src/c_api.rs:125 | the status discriminant read as a signed 32-bit number |
| CApi.AsI32Injective | src/c_api.rs:125 | the signed reading determines the status number |
| CApi.ReturnError | src/c_api.rs:123-128 | a status becomes its number modulo 2^32; any error becomes -3 |
| CApi.StatusText | src/c_api.rs:94-109 | the text for a non-negative number is the `Display` text of the status with that number, or invalid status code; -1, -2 and -3 have their fixed texts; other negative numbers are unknown |
| CApi.StatusTextOfReturn | src/c_api.rs:94-128 | the text of what `return_error` returns is the status's `Display` text, or the communication-error text |
| CApi.StatusCall | src/c_api.rs:123-128 | a wrapped session call that panics aborts the process; otherwise the session is stored back, -3 is returned exactly when the call returns an error, a status returns its number modulo 2^32, never -1 or -2, and no allocation is made or ended |
| CApi.ReportedStatusText | src/c_api.rs:94-128 | the text of a wrapper's result is the `Display` text of the status it reports, for statuses below 2^31, and the communication-error text for an error |
| CApi.UnknownStatusReadsAsError | src/c_api.rs:94-125 | UnknownStatusCode does not fit a positive i32, so its number reads as an unknown error |
| CApi.GetStatusText | src/c_api.rs:94-109 | the text is allocated fresh for the caller |
| CApi.FreeStatusText | src/c_api.rs:116-120 | NULL is ignored; otherwise exactly that text is freed |
| CApi.StatusTextFreed | src/c_api.rs:94-120 | a status text is freed without trace |
| CApi.Create | src/c_api.rs:153-172 | a session is allocated exactly when the path is valid UTF-8 and the transport opens |
| CApi.Destroy | src/c_api.rs:180-182 | NULL is ignored; otherwise exactly the session is freed |
| CApi.CreateDestroy | src/c_api.rs:153-182 | create then destroy leaves the heap as it was |
| CApi.WriteMemory | src/c_api.rs:316-331 | -1 exactly for a NULL session or bytes, and then nothing changes; otherwise -3 exactly when the session call returns an error, an abort exactly when it panics, else the status number modulo 2^32; no allocation is made or ended |
| CApi.FlashEraseAll | src/c_api.rs:340-347 | -1 exactly for a NULL session, and then nothing changes; otherwise -3 exactly when the session call returns an error, an abort exactly when it panics, else the status number modulo 2^32; no allocation is made or ended |
| CApi.ReceiveSbFile | src/c_api.rs:357-364 | -1 exactly for a NULL session or bytes, and then nothing changes; otherwise -3 exactly when the session call returns an error, an abort exactly when it panics, else the status number modulo 2^32; no allocation is made or ended |
| CApi.FlashProgramOnce | src/c_api.rs:373-385 | -1 exactly for a NULL session, and then nothing changes; otherwise -3 exactly when the session call returns an error, an abort exactly when it panics, else the status number modulo 2^32; no allocation is made or ended |
| CApi.FlashReadOnce | src/c_api.rs:395-404 | NULL is -1; a panic aborts the process; otherwise the result is non-negative exactly when the read succeeded, and then it is the word; an error is -3 |
| CApi.GetProperty | src/c_api.rs:196-241 | NULL is -1; an unknown tag is -2 with the response reset; an error is -3 with the response reset; success returns the status number and hands C a fresh array of the words (a lone zero word when none) |
| CApi.FreeResponseWords | src/c_api.rs:413-415 | NULL is ignored; otherwise exactly the array is freed |
| CApi.ReadMemory | src/c_api.rs:257-306 | NULL is -1; an error is -3 with the response reset; success hands C a fresh box holding the slice of the words, which sit in a further fresh allocation, and a fresh bytes array holding a lone zero byte when there are none; the word count is the number of words |
| CApi.ReadMemoryCorrected | src/c_api.rs:257-306 | with the words handed over once, success hands C two fresh, distinct arrays holding the words and the bytes |
| CApi.FreeBytes | src/c_api.rs:424-426 | NULL is ignored; otherwise exactly the array is freed |
| CApi.FreeReadMemoryResponse | src/c_api.rs:433-439 | exactly the non-NULL arrays of the response are freed |
| CApi.GetPropertyWordsFreed | src/c_api.rs:196-241 | freeing the words of a successful call leaves the same live addresses as before the call |
| CApi.GetPropertyAllocatesOnlyArray | src/c_api.rs:196-241 | get_property allocates exactly when it hands C an array |
| CApi.ReadMemoryAllocatesOnlyArrays | src/c_api.rs:257-306 | read_memory allocates exactly when it hands C arrays |
| CApi.ReadMemoryResponseLeaks | src/c_api.rs:277-279 | freeing both arrays of a successful response leaves exactly one allocation more than before the call, holding the words |
| CApi.ReadMemoryCorrectedFreed | src/c_api.rs:433-439 | with the words handed over once, freeing both arrays gives back the live addresses of before the call |

## Left out

- Timing, polling intervals, progress bars and logging are not modelled. A
  device that has nothing more to send, shown as a script that runs out,
  stands for a timeout.
- Transport write failures: writes always succeed in the session model.
  Transport errors come only from reads.
- The Windows I2C backend, `protocol_impl.rs` dispatch and the trait's
  default `open_with_options` are left out. Every transport overrides the
  default.
- `CmdResponseTag::from_code` is not part of this model. It is the
  `TagDecoder` parameter of `Session.ReadCommand`.
- The HID library, the serial port and the I2C device enter as the outcomes
  of opening them: the HID initialisation and device open (`Usb.OpenWithOptions`),
  the serial port's open (`Uart.Open`), and the device file's open and the
  `I2C_SLAVE` ioctl (`I2c.Open`). Their bytes are the `Port` parameter.
  The UART baud rate, timeout and polling interval are not modelled.
  `mboot_create`'s opening of a transport is the `open` parameter.
- Session methods outside the modelled set are parameters of the C API
  entry points that wrap them, e.g. `write_memory`, `flash_erase_all` and
  `receive_sb_file`.
- Display and Debug formatters other than the status texts, colour markup in parse errors, the CLI and
  the Python bindings are left out.
- `parse_file` and the file branch of `parse_hex_values` read files and are
  left out.
- The C API's raw-pointer layout is left out: the model tracks ownership
  only.
  - A boxed slice is one allocation holding the address of another; the
    model does not follow what C reads through it.
  - The free functions drop the arrays as single values.
  - `mboot_create` dereferences its path without a NULL check.
- A panic inside an `extern "C"` function aborts the process. It is modelled
  as `ProcessAborted`.
- Parsers.ParseHexBraces: requires ASCII text. On other text the source's
  `from_utf8(..).unwrap()` can panic on a character split between pairs.
- Property.FromCode: requires `Decodable`, the words on which
  `from_code` does not panic. `Session.GetProperty` turns a response that
  fails it into `Panic`, dropping the panic message.
- Commands.ParseKeyType: `char::is_numeric` is modelled for ASCII digits
  only. Text with other Unicode numerals is looked up as a name, where the
  source would report a number parse error.

## Findings

| source | as written | input that shows it | evidently intended | confidence | as-written member | corrected member |
|---|---|---|---|---|---|---|
| src/c_api.rs:277-279, 433-439 | `Box::new(res.response_words)` boxes the already boxed slice of words again, so C is handed the address of a box holding the slice's pointer and length, where it expects the words; `mboot_free_read_memory_response` frees that box only, and the words' own allocation is never freed | any successful `mboot_read_memory` followed by `mboot_free_read_memory_response` | hand over the words with `Box::into_raw(res.response_words)`, as `mboot_get_property` does | high, not executed | CApi.ReadMemoryResponseLeaks | CApi.ReadMemoryCorrectedFreed |
