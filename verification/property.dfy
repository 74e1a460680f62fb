/** Decoding of property values: the words a device returns for
    GetProperty become a typed value according to the property asked for.
    Bit fields are read with division and remainder (`v >> k & m` is
    `(v / 2^k) % (m + 1)` for a mask `m` of low ones). */
module Property {
  import opened Base
  import Status
  import Tags
  import Memory
  import Parsers

  type StatusCode = Status.StatusCode

  /** `Version`: a mark character and three version numbers. */
  datatype Version = Version(mark: char, major: u8, minor: u8, fixation: u8)

  /** The word a version is reported in: the mark's code in the top byte,
      then major, minor and fixation. */
  function VersionWord(v: Version): (w: u32)
    requires v.mark as int < 0x100
  {
    v.mark as int * 0x100_0000 + v.major as int * 0x1_0000 + v.minor as int * 0x100 + v.fixation as int
  }

  /** `Version::parse`: the big-endian bytes of the word. A byte is always
      a valid `char`, so the `unwrap` cannot fail. */
  function ParseVersion(num: u32): (v: Version)
    ensures v.mark as int < 0x100 && VersionWord(v) == num
  {
    var b := U32ToLe(num);
    Version(b[3] as char, b[2], b[1], b[0])
  }

  lemma VersionRoundTrip(v: Version)
    requires v.mark as int < 0x100
    ensures ParseVersion(VersionWord(v)) == v
  {
    var w := VersionWord(v);
    var b := [v.fixation, v.minor, v.major, v.mark as int];
    assert U32FromLe(b) == w;
    assert U32ToLe(w) == b;
  }

  /** `PeripheryTag`: the interfaces a bootloader can listen on. */
  datatype PeripheryTag = Uart | I2CSlave | SPISlave | Can | UsbHid | UsbCdc | UsbDfu | Lin

  /** The bit a peripheral occupies; its `repr(u8)` code is `1 << bit`. */
  function PeripheryBit(p: PeripheryTag): (k: nat)
    ensures k < 8
  {
    match p
    case Uart => 0
    case I2CSlave => 1
    case SPISlave => 2
    case Can => 3
    case UsbHid => 4
    case UsbCdc => 5
    case UsbDfu => 6
    case Lin => 7
  }

  /** `u8::from(PeripheryTag)`: 0x01, 0x02, 0x04, ..., 0x80. */
  function PeripheryCode(p: PeripheryTag): (c: u8)
    ensures c == Pow2(PeripheryBit(p))
  {
    assert Pow2(1) == 2 && Pow2(2) == 4 && Pow2(3) == 8 && Pow2(4) == 16;
    assert Pow2(5) == 32 && Pow2(6) == 64 && Pow2(7) == 128;
    match p
    case Uart => 0x01
    case I2CSlave => 0x02
    case SPISlave => 0x04
    case Can => 0x08
    case UsbHid => 0x10
    case UsbCdc => 0x20
    case UsbDfu => 0x40
    case Lin => 0x80
  }

  /** `PeripheryTag::iter()` */
  const AllPeripherals: seq<PeripheryTag> := [Uart, I2CSlave, SPISlave, Can, UsbHid, UsbCdc, UsbDfu, Lin]

  lemma AllPeripheralsComplete(p: PeripheryTag)
    ensures p in AllPeripherals
  {
    match p
    case Uart => assert AllPeripherals[0] == p;
    case I2CSlave => assert AllPeripherals[1] == p;
    case SPISlave => assert AllPeripherals[2] == p;
    case Can => assert AllPeripherals[3] == p;
    case UsbHid => assert AllPeripherals[4] == p;
    case UsbCdc => assert AllPeripherals[5] == p;
    case UsbDfu => assert AllPeripherals[6] == p;
    case Lin => assert AllPeripherals[7] == p;
  }

  /** The peripherals of `ps` whose bit is set in `mask`, in the order of
      `ps` (`filter(|per| u8::from(*per) & num != 0)`). */
  function FilterPeripherals(mask: nat, ps: seq<PeripheryTag>): (r: seq<PeripheryTag>)
    ensures forall p :: p in r <==> p in ps && Bit(mask, PeripheryBit(p))
    ensures |r| <= |ps|
  {
    if |ps| == 0 then []
    else if Bit(mask, PeripheryBit(ps[0])) then [ps[0]] + FilterPeripherals(mask, ps[1..])
    else FilterPeripherals(mask, ps[1..])
  }

  /** The command kinds of `ks` that a GetProperty(AvailableCommands) word
      announces: the code is in 1..0x9F and bit `code - 1` is set. */
  function FilterCommands(word: u32, ks: seq<Tags.CommandKind>): (r: seq<Tags.CommandKind>)
    ensures forall k :: k in r <==> k in ks && 0 < Tags.CommandCode(k) < 0xA0 && Bit(word, Tags.CommandCode(k) - 1)
    ensures |r| <= |ks|
  {
    if |ks| == 0 then []
    else
      var c := Tags.CommandCode(ks[0]);
      if 0 < c < 0xA0 && Bit(word, c - 1) then [ks[0]] + FilterCommands(word, ks[1..])
      else FilterCommands(word, ks[1..])
  }

  /** `FlashSecurityState` / `LifeCycleState`: the two words a device
      reports for the unsecured (development) state. */
  predicate Unsecured(w: u32) {
    w == 0 || w == 0x5AA5_5AA5
  }

  /** `IrqNotifierPin` */
  datatype IrqNotifierPin = IrqPin(pin: u8, port: u8, enabled: bool)

  /** The word a pin configuration is reported in, with bits 16 to 30 clear. */
  function IrqWord(p: IrqNotifierPin): u32 {
    p.pin as int + 0x100 * p.port as int + (if p.enabled then 0x8000_0000 else 0)
  }

  /** `IrqNotifierPin::parse`: pin from bits 0..7, port from bits 8..15,
      enabled from bit 31. */
  function ParseIrqNotifierPin(value: u32): (r: IrqNotifierPin)
    ensures r.pin == value % 0x100
    ensures r.port == (value / 0x100) % 0x100
    ensures r.enabled <==> Bit(value, 31)
  {
    Bit31(value);
    IrqPin(value % 0x100, (value / 0x100) % 0x100, value >= 0x8000_0000)
  }

  /** Bit 31 of a 32-bit word is its top half. */
  lemma Bit31(value: u32)
    ensures Bit(value, 31) <==> value >= 0x8000_0000
  {
    Pow2Value31();
  }

  lemma Pow2Value31()
    ensures Pow2(31) == 0x8000_0000
  {
    assert Pow2(8) == 0x100;
    assert Pow2(16) == 0x1_0000;
    assert Pow2(24) == 0x100_0000;
  }

  lemma IrqRoundTrip(p: IrqNotifierPin)
    ensures ParseIrqNotifierPin(IrqWord(p)) == p
  {
    var w := IrqWord(p);
    var e := if p.enabled then 0x8000 else 0;
    assert w == p.pin as int + 0x100 * (p.port as int + 0x100 * e);
    ByteSplit(p.pin, p.port as int + 0x100 * e);
    ByteSplit(p.port, e);
  }

  /** Bits 16 to 30 do not affect the decoded pin configuration. */
  lemma IrqMiddleBitsIgnored(a: u32, b: u32)
    requires a % 0x1_0000 == b % 0x1_0000 && (a >= 0x8000_0000 <==> b >= 0x8000_0000)
    ensures ParseIrqNotifierPin(a) == ParseIrqNotifierPin(b)
  {
    LowHalfBytes(a);
    LowHalfBytes(b);
  }

  /** The low two bytes of a word are the bytes of its low half. */
  lemma LowHalfBytes(a: nat)
    ensures a % 0x100 == (a % 0x1_0000) % 0x100
    ensures (a / 0x100) % 0x100 == (a % 0x1_0000) / 0x100
  {
    var q := a / 0x1_0000;
    var r := a % 0x1_0000;
    var hi := r / 0x100;
    var lo := r % 0x100;
    assert a == 0x100 * (0x100 * q + hi) + lo;
    DivUnique(a, 0x100, 0x100 * q + hi, lo);
    DivUnique(0x100 * q + hi, 0x100, q, hi);
  }

  /** `PfrKeystoreUpdateOpt` */
  datatype PfrKeystoreUpdateOpt = KeyProvisioning | WriteMemory

  function PfrCode(o: PfrKeystoreUpdateOpt): u32 {
    match o
    case KeyProvisioning => 0
    case WriteMemory => 1
  }

  /** `PfrKeystoreUpdateOpt::parse`: 1 is WriteMemory, anything else
      KeyProvisioning. */
  function ParsePfrKeystoreUpdateOpt(value: u32): (r: PfrKeystoreUpdateOpt)
    ensures r == WriteMemory <==> value == 1
  {
    if value == 1 then WriteMemory else KeyProvisioning
  }

  lemma PfrRoundTrip(o: PfrKeystoreUpdateOpt)
    ensures ParsePfrKeystoreUpdateOpt(PfrCode(o)) == o
  {
  }

  /** `FlashReadMargin` */
  datatype FlashReadMargin = Normal | User | Factory

  function MarginCode(m: FlashReadMargin): u32 {
    match m
    case Normal => 0
    case User => 1
    case Factory => 2
  }

  /** `FlashReadMargin::parse`: 1 is User, 2 Factory, anything else Normal. */
  function ParseFlashReadMargin(value: u32): (r: FlashReadMargin)
    ensures MarginCode(r) == value || (r == Normal && value > 2)
  {
    match value
    case 1 => User
    case 2 => Factory
    case _ => Normal
  }

  lemma MarginRoundTrip(m: FlashReadMargin)
    ensures ParseFlashReadMargin(MarginCode(m)) == m
  {
  }

  /** `SHEFlashPartition` */
  datatype SHEFlashPartition = Partition(maxKeys: u8, flashSize: u8)

  function PartitionWord(p: SHEFlashPartition): u32
    requires p.maxKeys < 4 && p.flashSize < 4
  {
    p.maxKeys as int + 0x100 * p.flashSize as int
  }

  /** `SHEFlashPartition::parse`: max keys from bits 0..1, flash size from
      bits 8..9. */
  function ParseSHEFlashPartition(value: u32): (r: SHEFlashPartition)
    ensures r.maxKeys < 4 && r.flashSize < 4
    ensures r.maxKeys == value % 4 && r.flashSize == (value / 0x100) % 4
  {
    Partition(value % 4, (value / 0x100) % 4)
  }

  lemma PartitionRoundTrip(p: SHEFlashPartition)
    requires p.maxKeys < 4 && p.flashSize < 4
    ensures ParseSHEFlashPartition(PartitionWord(p)) == p
  {
    var w := PartitionWord(p);
    DivUnique(w, 0x100, p.flashSize as int, p.maxKeys as int);
    DivUnique(w, 4, 0x40 * p.flashSize as int, p.maxKeys as int);
  }

  /** `SHEBootMode` */
  datatype SHEBootMode = BootMode(size: u32, mode: u8)

  function BootModeWord(b: SHEBootMode): u32
    requires b.size < 0x4000_0000 && b.mode < 4
  {
    b.size + 0x4000_0000 * b.mode
  }

  /** `SHEBootMode::parse`: size from the low 30 bits, mode from the top
      two; the two fields together are the whole word. */
  function ParseSHEBootMode(value: u32): (r: SHEBootMode)
    ensures r.size < 0x4000_0000 && r.mode < 4
  {
    BootMode(value % 0x4000_0000, value / 0x4000_0000)
  }

  /** Nothing of the word is lost: the two fields rebuild it. */
  lemma BootModeWordOfParse(value: u32)
    ensures BootModeWord(ParseSHEBootMode(value)) == value
  {
  }

  lemma BootModeRoundTrip(b: SHEBootMode)
    requires b.size < 0x4000_0000 && b.mode < 4
    ensures ParseSHEBootMode(BootModeWord(b)) == b
  {
  }

  /** A decoded property value (`PropertyTag`): the property kind with its
      value. `FuseLockedStatus` and `LastError` are declared but never
      decoded. */
  datatype PropertyTag =
      CurrentVersion(version: Version)
    | AvailablePeripherals(peripherals: seq<PeripheryTag>)
    | FlashStartAddress(value: u32)
    | FlashSize(value: u32)
    | FlashSectorSize(value: u32)
    | FlashBlockCount(value: u32)
    | AvailableCommands(commands: seq<Tags.CommandKind>)
    | CRCCheckStatus(status: StatusCode)
    | LastError(value: u32)
    | VerifyWrites(flag: bool)
    | MaxPacketSize(value: u32)
    | ReservedRegions(reserved: Memory.ReservedRegions)
    | ValidateRegions(flag: bool)
    | RAMStartAddress(value: u32)
    | RAMSize(value: u32)
    | SystemDeviceId(value: u32)
    | FlashSecurityState(flag: bool)
    | UniqueDeviceId(bytes: Bytes)
    | FlashFacSupport(flag: bool)
    | FlashAccessSegmentSize(value: u32)
    | FlashAccessSegmentCount(value: u32)
    | FlashReadMargin(margin: FlashReadMargin)
    | QSPIInitStatus(status: StatusCode)
    | TargetVersion(version: Version)
    | ExternalMemoryAttributes(attributes: Memory.ExternalMemoryAttributes)
    | ReliableUpdateStatus(status: StatusCode)
    | FlashPageSize(value: u32)
    | IrqNotifierPin(irq: IrqNotifierPin)
    | PFRKeystoreUpdateOpt(option: PfrKeystoreUpdateOpt)
    | ByteWriteTimeoutMs(value: u32)
    | FuseLockedStatus
    | BootStatusRegister(value: u32)
    | FirmwareVersion(value: u32)
    | FuseProgramVoltage(flag: bool)
    | VerifyErase(flag: bool)
    | SHEFlashPartition(partition: SHEFlashPartition)
    | SHEBootMode(bootMode: SHEBootMode)
    | LifeCycleState(flag: bool)

  /** The kind of a decoded value (`PropertyTagDiscriminants::from`). */
  function KindOf(p: PropertyTag): Tags.PropertyKind {
    match p
    case CurrentVersion(_) => Tags.CurrentVersion
    case AvailablePeripherals(_) => Tags.AvailablePeripherals
    case FlashStartAddress(_) => Tags.FlashStartAddress
    case FlashSize(_) => Tags.FlashSize
    case FlashSectorSize(_) => Tags.FlashSectorSize
    case FlashBlockCount(_) => Tags.FlashBlockCount
    case AvailableCommands(_) => Tags.AvailableCommands
    case CRCCheckStatus(_) => Tags.CRCCheckStatus
    case LastError(_) => Tags.LastError
    case VerifyWrites(_) => Tags.VerifyWrites
    case MaxPacketSize(_) => Tags.MaxPacketSize
    case ReservedRegions(_) => Tags.ReservedRegions
    case ValidateRegions(_) => Tags.ValidateRegions
    case RAMStartAddress(_) => Tags.RAMStartAddress
    case RAMSize(_) => Tags.RAMSize
    case SystemDeviceId(_) => Tags.SystemDeviceId
    case FlashSecurityState(_) => Tags.FlashSecurityState
    case UniqueDeviceId(_) => Tags.UniqueDeviceId
    case FlashFacSupport(_) => Tags.FlashFacSupport
    case FlashAccessSegmentSize(_) => Tags.FlashAccessSegmentSize
    case FlashAccessSegmentCount(_) => Tags.FlashAccessSegmentCount
    case FlashReadMargin(_) => Tags.FlashReadMargin
    case QSPIInitStatus(_) => Tags.QSPIInitStatus
    case TargetVersion(_) => Tags.TargetVersion
    case ExternalMemoryAttributes(_) => Tags.ExternalMemoryAttributes
    case ReliableUpdateStatus(_) => Tags.ReliableUpdateStatus
    case FlashPageSize(_) => Tags.FlashPageSize
    case IrqNotifierPin(_) => Tags.IrqNotifierPin
    case PFRKeystoreUpdateOpt(_) => Tags.PFRKeystoreUpdateOpt
    case ByteWriteTimeoutMs(_) => Tags.ByteWriteTimeoutMs
    case FuseLockedStatus => Tags.FuseLockedStatus
    case BootStatusRegister(_) => Tags.BootStatusRegister
    case FirmwareVersion(_) => Tags.FirmwareVersion
    case FuseProgramVoltage(_) => Tags.FuseProgramVoltage
    case VerifyErase(_) => Tags.VerifyErase
    case SHEFlashPartition(_) => Tags.SHEFlashPartition
    case SHEBootMode(_) => Tags.SHEBootMode
    case LifeCycleState(_) => Tags.LifeCycleState
  }

  /** What `PropertyTag::from_code` needs of the device's words to run
      without panicking: a first word for every property that reads one, a
      declared status for the three status-valued properties, an even
      number of words after the first two for the reserved regions, the
      flagged slots for the external memory attributes, and neither of the
      two kinds it leaves unimplemented. */
  predicate Decodable(tag: Tags.PropertyKind, data: seq<u32>) {
    match tag
    case UniqueDeviceId => true
    case ReservedRegions => |data| >= 2 && |data| % 2 == 0
    case ExternalMemoryAttributes => Memory.AttributesReadable(data)
    case CRCCheckStatus => |data| >= 1 && Status.Declared(data[0])
    case QSPIInitStatus => |data| >= 1 && Status.Declared(data[0])
    case ReliableUpdateStatus => |data| >= 1 && Status.Declared(data[0])
    case FuseLockedStatus => false
    case LastError => false
    case _ => |data| >= 1
  }

  /** `PropertyTag::from_code`: decodes the words of a GetProperty response
      as the value of property `tag`. */
  function FromCode(tag: Tags.PropertyKind, data: seq<u32>): (r: PropertyTag)
    requires Decodable(tag, data)
    ensures KindOf(r) == tag
  {
    var c := Tags.PropertyCode(tag);
    if c <= 0x0A then FromCode0(tag, data)
    else if c <= 0x14 then FromCode1(tag, data)
    else if c <= 0x1F then FromCode2(tag, data)
    else FromCode3(tag, data)
  }

  function FromCode0(tag: Tags.PropertyKind, data: seq<u32>): (r: PropertyTag)
    requires Decodable(tag, data) && 0x01 <= Tags.PropertyCode(tag) <= 0x0A
    ensures KindOf(r) == tag
  {
    match tag
    case CurrentVersion => CurrentVersion(ParseVersion(data[0]))
    case AvailablePeripherals => AvailablePeripherals(FilterPeripherals(data[0] % 0x100, AllPeripherals))
    case FlashStartAddress => FlashStartAddress(data[0])
    case FlashSize => FlashSize(data[0])
    case FlashSectorSize => FlashSectorSize(data[0])
    case FlashBlockCount => FlashBlockCount(data[0])
    case AvailableCommands => AvailableCommands(FilterCommands(data[0], Tags.AllCommandKinds))
    case CRCCheckStatus => CRCCheckStatus(data[0])
    case VerifyWrites => VerifyWrites(data[0] != 0)
    case _ => assert false; FuseLockedStatus
  }

  function FromCode1(tag: Tags.PropertyKind, data: seq<u32>): (r: PropertyTag)
    requires Decodable(tag, data) && 0x0B <= Tags.PropertyCode(tag) <= 0x14
    ensures KindOf(r) == tag
  {
    match tag
    case MaxPacketSize => MaxPacketSize(data[0])
    case ReservedRegions => ReservedRegions(Memory.ParseRegions(data[2..]))
    case ValidateRegions => ValidateRegions(data[0] != 0)
    case RAMStartAddress => RAMStartAddress(data[0])
    case RAMSize => RAMSize(data[0])
    case SystemDeviceId => SystemDeviceId(data[0])
    case FlashSecurityState => FlashSecurityState(data[0] == 0 || data[0] == 0x5AA5_5AA5)
    case UniqueDeviceId => UniqueDeviceId(WordsToLe(data))
    case FlashFacSupport => FlashFacSupport(data[0] != 0)
    case FlashAccessSegmentSize => FlashAccessSegmentSize(data[0])
    case _ => assert false; FuseLockedStatus
  }

  function FromCode2(tag: Tags.PropertyKind, data: seq<u32>): (r: PropertyTag)
    requires Decodable(tag, data) && 0x15 <= Tags.PropertyCode(tag) <= 0x1F
    ensures KindOf(r) == tag
  {
    match tag
    case FlashAccessSegmentCount => FlashAccessSegmentCount(data[0])
    case FlashReadMargin => FlashReadMargin(ParseFlashReadMargin(data[0]))
    case QSPIInitStatus => QSPIInitStatus(data[0])
    case TargetVersion => TargetVersion(ParseVersion(data[0]))
    case ExternalMemoryAttributes => ExternalMemoryAttributes(Memory.ParseAttributes(data))
    case ReliableUpdateStatus => ReliableUpdateStatus(data[0])
    case FlashPageSize => FlashPageSize(data[0])
    case IrqNotifierPin => IrqNotifierPin(ParseIrqNotifierPin(data[0]))
    case PFRKeystoreUpdateOpt => PFRKeystoreUpdateOpt(ParsePfrKeystoreUpdateOpt(data[0]))
    case ByteWriteTimeoutMs => ByteWriteTimeoutMs(data[0])
    case _ => assert false; FuseLockedStatus
  }

  function FromCode3(tag: Tags.PropertyKind, data: seq<u32>): (r: PropertyTag)
    requires Decodable(tag, data) && 0x20 <= Tags.PropertyCode(tag) <= 0x26
    ensures KindOf(r) == tag
  {
    match tag
    case BootStatusRegister => BootStatusRegister(data[0])
    case FirmwareVersion => FirmwareVersion(data[0])
    case FuseProgramVoltage => FuseProgramVoltage(data[0] != 0)
    case VerifyErase => VerifyErase(data[0] != 0)
    case SHEFlashPartition => SHEFlashPartition(ParseSHEFlashPartition(data[0]))
    case SHEBootMode => SHEBootMode(ParseSHEBootMode(data[0]))
    case LifeCycleState => LifeCycleState(data[0] == 0 || data[0] == 0x5AA5_5AA5)
    case _ => assert false; FuseLockedStatus
  }


  /** The peripherals listed are exactly those whose bit is set in the low
      byte of the first word, in declaration order. */
  lemma AvailablePeripheralsExact(data: seq<u32>)
    requires |data| >= 1
    ensures FromCode(Tags.AvailablePeripherals, data).AvailablePeripherals?
    ensures forall p :: p in FromCode(Tags.AvailablePeripherals, data).peripherals <==> Bit(data[0], PeripheryBit(p))
  {
    assert Pow2(8) == 0x100 by {
      assert Pow2(4) == 16;
    }
    forall p: PeripheryTag
      ensures Bit(data[0] % 0x100, PeripheryBit(p)) <==> Bit(data[0], PeripheryBit(p))
      ensures p in AllPeripherals
    {
      BitOfLowBits(data[0], PeripheryBit(p), 8);
      AllPeripheralsComplete(p);
    }
  }

  /** A command is listed iff its code `t` is in 1..0x9F and bit `t - 1` of
      the first word is set. */
  lemma AvailableCommandsExact(data: seq<u32>)
    requires |data| >= 1
    ensures FromCode(Tags.AvailableCommands, data).AvailableCommands?
    ensures forall k :: k in FromCode(Tags.AvailableCommands, data).commands <==>
      0 < Tags.CommandCode(k) < 0xA0 && Bit(data[0], Tags.CommandCode(k) - 1)
  {
    forall k: Tags.CommandKind
      ensures k in Tags.AllCommandKinds
    {
      Tags.CommandKindListed(k);
    }
  }

  lemma AvailableCommandsDecoded(data: seq<u32>)
    requires |data| >= 1
    ensures FromCode(Tags.AvailableCommands, data) == AvailableCommands(FilterCommands(data[0], Tags.AllCommandKinds))
  {
  }

  /** A command whose code is outside 1..0x9F is never listed. */
  lemma AvailableCommandsOutOfRange(data: seq<u32>, k: Tags.CommandKind)
    requires |data| >= 1
    requires !(0 < Tags.CommandCode(k) < 0xA0)
    ensures k !in FromCode(Tags.AvailableCommands, data).commands
  {
    AvailableCommandsDecoded(data);
    var cmds := FilterCommands(data[0], Tags.AllCommandKinds);
    assert k !in cmds;
  }

  /** NoCommand (code 0) and the interface configuration commands (0xC1 to
      0xC3) are never listed, whatever the device reports. */
  lemma AvailableCommandsNeverLists(data: seq<u32>)
    requires |data| >= 1
    ensures FromCode(Tags.AvailableCommands, data).AvailableCommands?
    ensures Tags.NoCommand !in FromCode(Tags.AvailableCommands, data).commands
    ensures Tags.ConfigureI2C !in FromCode(Tags.AvailableCommands, data).commands
    ensures Tags.ConfigureSPI !in FromCode(Tags.AvailableCommands, data).commands
    ensures Tags.ConfigureCAN !in FromCode(Tags.AvailableCommands, data).commands
  {
    assert Tags.CommandCode(Tags.NoCommand) == 0 && Tags.CommandCode(Tags.ConfigureI2C) == 0xC1;
    assert Tags.CommandCode(Tags.ConfigureSPI) == 0xC2 && Tags.CommandCode(Tags.ConfigureCAN) == 0xC3;
    AvailableCommandsOutOfRange(data, Tags.NoCommand);
    AvailableCommandsOutOfRange(data, Tags.ConfigureI2C);
    AvailableCommandsOutOfRange(data, Tags.ConfigureSPI);
    AvailableCommandsOutOfRange(data, Tags.ConfigureCAN);
  }

  /** The unique device id is the little-endian bytes of every word, and
      reading them back as words gives the response unchanged. */
  lemma UniqueDeviceIdBytes(data: seq<u32>)
    ensures FromCode(Tags.UniqueDeviceId, data).UniqueDeviceId?
    ensures |FromCode(Tags.UniqueDeviceId, data).bytes| == 4 * |data|
    ensures LeToWords(FromCode(Tags.UniqueDeviceId, data).bytes) == data
  {
    WordsRoundTrip(data);
  }

  /** Reserved regions skip the first two words and pair up the rest. */
  lemma ReservedRegionsPairs(data: seq<u32>)
    requires |data| >= 2 && |data| % 2 == 0
    ensures FromCode(Tags.ReservedRegions, data).ReservedRegions?
    ensures |FromCode(Tags.ReservedRegions, data).reserved.regions| == |data| / 2 - 1
    ensures forall i :: 0 <= i < |data| / 2 - 1 ==>
      FromCode(Tags.ReservedRegions, data).reserved.regions[i] == (data[2 * i + 2], data[2 * i + 3])
  {
  }

  /** The yes/no properties are true exactly for a non-zero first word. */
  lemma FlagProperties(data: seq<u32>)
    requires |data| >= 1
    ensures FromCode(Tags.VerifyWrites, data) == VerifyWrites(data[0] != 0)
    ensures FromCode(Tags.ValidateRegions, data) == ValidateRegions(data[0] != 0)
    ensures FromCode(Tags.FlashFacSupport, data) == FlashFacSupport(data[0] != 0)
    ensures FromCode(Tags.FuseProgramVoltage, data) == FuseProgramVoltage(data[0] != 0)
    ensures FromCode(Tags.VerifyErase, data) == VerifyErase(data[0] != 0)
  {
    // one kind at a time keeps each step small
    assert FromCode(Tags.VerifyWrites, data) == VerifyWrites(data[0] != 0) by {}
    assert FromCode(Tags.ValidateRegions, data) == ValidateRegions(data[0] != 0) by {}
    assert FromCode(Tags.FlashFacSupport, data) == FlashFacSupport(data[0] != 0) by {}
    assert FromCode(Tags.FuseProgramVoltage, data) == FuseProgramVoltage(data[0] != 0) by {}
    assert FromCode(Tags.VerifyErase, data) == VerifyErase(data[0] != 0) by {}
  }

  /** The security and life-cycle states are "unsecured" / "development"
      exactly for the words 0 and 0x5AA55AA5. */
  lemma SecurityStates(data: seq<u32>)
    requires |data| >= 1
    ensures FromCode(Tags.FlashSecurityState, data) == FlashSecurityState(Unsecured(data[0]))
    ensures FromCode(Tags.LifeCycleState, data) == LifeCycleState(Unsecured(data[0]))
    ensures Unsecured(data[0]) <==> data[0] in {0, 0x5AA5_5AA5}
  {
  }

  /** Every property except the unique id, the reserved regions and the
      external memory attributes is decided by the first word alone. */
  lemma FirstWordDecides(tag: Tags.PropertyKind, d1: seq<u32>, d2: seq<u32>)
    requires tag != Tags.UniqueDeviceId && tag != Tags.ReservedRegions && tag != Tags.ExternalMemoryAttributes
    requires Decodable(tag, d1) && Decodable(tag, d2) && d1[0] == d2[0]
    ensures FromCode(tag, d1) == FromCode(tag, d2)
  {
  }

  /** The properties that are a plain number carry the first word as it
      came from the device. */
  lemma WordProperties(data: seq<u32>)
    requires |data| >= 1
    ensures FromCode(Tags.FlashStartAddress, data) == FlashStartAddress(data[0])
    ensures FromCode(Tags.FlashSize, data) == FlashSize(data[0])
    ensures FromCode(Tags.FlashSectorSize, data) == FlashSectorSize(data[0])
    ensures FromCode(Tags.FlashBlockCount, data) == FlashBlockCount(data[0])
    ensures FromCode(Tags.MaxPacketSize, data) == MaxPacketSize(data[0])
    ensures FromCode(Tags.RAMStartAddress, data) == RAMStartAddress(data[0])
    ensures FromCode(Tags.RAMSize, data) == RAMSize(data[0])
  {
    // one kind at a time keeps each step small
    assert FromCode(Tags.FlashStartAddress, data) == FlashStartAddress(data[0]) by {}
    assert FromCode(Tags.FlashSize, data) == FlashSize(data[0]) by {}
    assert FromCode(Tags.FlashSectorSize, data) == FlashSectorSize(data[0]) by {}
    assert FromCode(Tags.FlashBlockCount, data) == FlashBlockCount(data[0]) by {}
    assert FromCode(Tags.MaxPacketSize, data) == MaxPacketSize(data[0]) by {}
    assert FromCode(Tags.RAMStartAddress, data) == RAMStartAddress(data[0]) by {}
    assert FromCode(Tags.RAMSize, data) == RAMSize(data[0]) by {}
  }

  /** The remaining plain-number properties, likewise. */
  lemma MoreWordProperties(data: seq<u32>)
    requires |data| >= 1
    ensures FromCode(Tags.SystemDeviceId, data) == SystemDeviceId(data[0])
    ensures FromCode(Tags.FlashAccessSegmentSize, data) == FlashAccessSegmentSize(data[0])
    ensures FromCode(Tags.FlashAccessSegmentCount, data) == FlashAccessSegmentCount(data[0])
    ensures FromCode(Tags.FlashPageSize, data) == FlashPageSize(data[0])
  {
    // one kind at a time keeps each step small
    assert FromCode(Tags.SystemDeviceId, data) == SystemDeviceId(data[0]) by {}
    assert FromCode(Tags.FlashAccessSegmentSize, data) == FlashAccessSegmentSize(data[0]) by {}
    assert FromCode(Tags.FlashAccessSegmentCount, data) == FlashAccessSegmentCount(data[0]) by {}
    assert FromCode(Tags.FlashPageSize, data) == FlashPageSize(data[0]) by {}
  }

  /** The timing and boot-status words, likewise. */
  lemma BootWordProperties(data: seq<u32>)
    requires |data| >= 1
    ensures FromCode(Tags.ByteWriteTimeoutMs, data) == ByteWriteTimeoutMs(data[0])
    ensures FromCode(Tags.BootStatusRegister, data) == BootStatusRegister(data[0])
    ensures FromCode(Tags.FirmwareVersion, data) == FirmwareVersion(data[0])
  {
    // one kind at a time keeps each step small
    assert FromCode(Tags.ByteWriteTimeoutMs, data) == ByteWriteTimeoutMs(data[0]) by {}
    assert FromCode(Tags.BootStatusRegister, data) == BootStatusRegister(data[0]) by {}
    assert FromCode(Tags.FirmwareVersion, data) == FirmwareVersion(data[0]) by {}
  }

  /** The properties with a structured value apply their own parser to the
      first word. */
  lemma ParsedWordProperties(data: seq<u32>)
    requires |data| >= 1
    ensures FromCode(Tags.CurrentVersion, data) == CurrentVersion(ParseVersion(data[0]))
    ensures FromCode(Tags.TargetVersion, data) == TargetVersion(ParseVersion(data[0]))
    ensures FromCode(Tags.FlashReadMargin, data) == FlashReadMargin(ParseFlashReadMargin(data[0]))
    ensures FromCode(Tags.IrqNotifierPin, data) == IrqNotifierPin(ParseIrqNotifierPin(data[0]))
  {
    // one kind at a time keeps each step small
    assert FromCode(Tags.CurrentVersion, data) == CurrentVersion(ParseVersion(data[0])) by {}
    assert FromCode(Tags.TargetVersion, data) == TargetVersion(ParseVersion(data[0])) by {}
    assert FromCode(Tags.FlashReadMargin, data) == FlashReadMargin(ParseFlashReadMargin(data[0])) by {}
    assert FromCode(Tags.IrqNotifierPin, data) == IrqNotifierPin(ParseIrqNotifierPin(data[0])) by {}
  }

  /** The remaining structured properties, likewise. */
  lemma MoreParsedWordProperties(data: seq<u32>)
    requires |data| >= 1
    ensures FromCode(Tags.PFRKeystoreUpdateOpt, data) == PFRKeystoreUpdateOpt(ParsePfrKeystoreUpdateOpt(data[0]))
    ensures FromCode(Tags.SHEFlashPartition, data) == SHEFlashPartition(ParseSHEFlashPartition(data[0]))
    ensures FromCode(Tags.SHEBootMode, data) == SHEBootMode(ParseSHEBootMode(data[0]))
  {
    // one kind at a time keeps each step small
    assert FromCode(Tags.PFRKeystoreUpdateOpt, data) == PFRKeystoreUpdateOpt(ParsePfrKeystoreUpdateOpt(data[0])) by {}
    assert FromCode(Tags.SHEFlashPartition, data) == SHEFlashPartition(ParseSHEFlashPartition(data[0])) by {}
    assert FromCode(Tags.SHEBootMode, data) == SHEBootMode(ParseSHEBootMode(data[0])) by {}
  }

  /** The three status-valued properties carry the first word as a status
      code, once it is a declared one. */
  lemma StatusProperties(data: seq<u32>)
    requires |data| >= 1 && Status.Declared(data[0])
    ensures FromCode(Tags.CRCCheckStatus, data) == CRCCheckStatus(data[0])
    ensures FromCode(Tags.QSPIInitStatus, data) == QSPIInitStatus(data[0])
    ensures FromCode(Tags.ReliableUpdateStatus, data) == ReliableUpdateStatus(data[0])
  {
  }

  /** The external memory attributes are parsed from all the words. */
  lemma ExternalMemoryAttributesParsed(data: seq<u32>)
    requires Memory.AttributesReadable(data)
    ensures FromCode(Tags.ExternalMemoryAttributes, data) == ExternalMemoryAttributes(Memory.ParseAttributes(data))
  {
  }

  /** Why `parse_property` rejected its input. */
  datatype PropertyParseError = UnknownNumber | UnknownName

  /** `PropertyTagDiscriminants::parse_property`: a `u8` number is looked up
      as a discriminant; anything that does not parse as a `u8` (including
      a number above 255) is looked up as a kebab-case name. */
  function ParseProperty(s: string): (r: Result<Tags.PropertyKind, PropertyParseError>)
    ensures r.Ok? ==>
      || (Parsers.ParseNumber(s, Parsers.U8Max).Ok? && Tags.PropertyCode(r.value) == Parsers.ParseNumber(s, Parsers.U8Max).value)
      || (Parsers.ParseNumber(s, Parsers.U8Max).Err? && Tags.PropertyName(r.value) == s)
    ensures r == Err(UnknownNumber) <==>
      Parsers.ParseNumber(s, Parsers.U8Max).Ok? && !(1 <= Parsers.ParseNumber(s, Parsers.U8Max).value <= 0x26)
    ensures r == Err(UnknownName) <==>
      Parsers.ParseNumber(s, Parsers.U8Max).Err? && forall k: Tags.PropertyKind :: Tags.PropertyName(k) != s
  {
    Tags.PropertyFromNameComplete(s);
    match Parsers.ParseNumber(s, Parsers.U8Max)
    case Ok(n) =>
      (match Tags.PropertyFromCode(n) case Some(k) => Ok(k) case None => Err(UnknownNumber))
    case Err(_) =>
      (match Tags.PropertyFromName(s) case Some(k) => Ok(k) case None => Err(UnknownName))
  }

  /** A text starting with a lowercase letter is not a number. */
  lemma LetterIsNotNumber(s: string, max: nat)
    requires |s| > 0 && 'a' <= s[0] <= 'z'
    ensures Parsers.ParseNumber(s, max).Err?
  {
    assert s[0] != '0';
    assert !Parsers.StartsWith(s, "0x");
    assert Parsers.DigitValue(s[0], 10).None?;
  }

  /** Every property is found by its kebab-case name. */
  lemma ParsePropertyName(k: Tags.PropertyKind)
    ensures ParseProperty(Tags.PropertyName(k)) == Ok(k)
  {
    Tags.PropertyNameStartsWithLetter(k);
    LetterIsNotNumber(Tags.PropertyName(k), Parsers.U8Max);
    Tags.PropertyNameRoundTrip(k);
  }

  /** Every property is found by its discriminant written in decimal. */
  lemma ParsePropertyNumber(k: Tags.PropertyKind)
    ensures ParseProperty(Parsers.Render(Tags.PropertyCode(k), 10)) == Ok(k)
  {
    Parsers.DecimalRoundTrip(Tags.PropertyCode(k), Parsers.U8Max);
    Tags.PropertyRoundTrip(k);
  }

  /** "256" does not fit a `u8`, so it is looked up as a name and fails. */
  lemma ParsePropertyOutOfRange()
    ensures ParseProperty("256") == Err(UnknownName)
  {
    TooLargeForU8();
    NotAName("256");
  }

  lemma TooLargeForU8()
    ensures Parsers.ParseNumber("256", Parsers.U8Max).Err?
  {
    assert "256"[..2][0] != "0x"[0];
    assert Parsers.AllDigits("256", 10);
    assert Parsers.DigitsValue("256", 10) == 256 by {
      assert "256"[..2] == "25" && "25"[..1] == "2" && "2"[..0] == "";
    }
  }

  /** A text starting with a digit is no property's name. */
  lemma NotAName(s: string)
    requires |s| > 0 && '0' <= s[0] <= '9'
    ensures forall k: Tags.PropertyKind :: Tags.PropertyName(k) != s
  {
    forall k: Tags.PropertyKind
      ensures Tags.PropertyName(k) != s
    {
      Tags.PropertyNameStartsWithLetter(k);
    }
  }
}
