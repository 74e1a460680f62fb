/** The numeric tables of the command header: the command kinds (the
    discriminants of `CommandTag`), the property kinds (the discriminants of
    `PropertyTag`, with their kebab-case names) and the command flag.
    `ToAddress::code` reads an enum's `repr(u8)` discriminant; here that is
    a plain table per enum. */
module Tags {
  import opened Base

  /** `CommandFlag` (a `repr(u8)` enum). */
  datatype CommandFlag = NoData | HasDataPhase

  /** `u8` of a flag: its discriminant. */
  function FlagCode(f: CommandFlag): (r: u8)
    ensures r <= 1
  {
    match f
    case NoData => 0
    case HasDataPhase => 1
  }

  /** `CommandFlag::try_from(u8)`: only a declared discriminant is accepted. */
  function FlagFromCode(n: int): (r: Option<CommandFlag>)
    ensures r.Some? <==> (n == 0 || n == 1)
    ensures r.Some? ==> FlagCode(r.value) == n
  {
    if n == 0 then Some(NoData) else if n == 1 then Some(HasDataPhase) else None
  }

  lemma FlagRoundTrip(f: CommandFlag)
    ensures FlagFromCode(FlagCode(f)) == Some(f)
  {
  }

  /** `CommandTagDiscriminants`: which command, without its fields. */
  datatype CommandKind =
      NoCommand
    | FlashEraseAll
    | FlashEraseRegion
    | ReadMemory
    | WriteMemory
    | FillMemory
    | FlashSecurityDisable
    | GetProperty
    | ReceiveSBFile
    | Execute
    | Call
    | Reset
    | SetProperty
    | FlashEraseAllUnsecure
    | FlashProgramOnce
    | FlashReadOnce
    | FlashReadResource
    | ConfigureMemory
    | ReliableUpdate
    | GenerateKeyBlob
    | FuseProgram
    | KeyProvisioning
    | TrustProvisioning
    | FuseRead
    | UpdateLifeCycle
    | EleMessage
    | EL2GO
    | ConfigureI2C
    | ConfigureSPI
    | ConfigureCAN

  /** The `repr(u8)` discriminant of a command kind. */
  function CommandCode(k: CommandKind): u8 {
    match k
    case NoCommand => 0x00
    case FlashEraseAll => 0x01
    case FlashEraseRegion => 0x02
    case ReadMemory => 0x03
    case WriteMemory => 0x04
    case FillMemory => 0x05
    case FlashSecurityDisable => 0x06
    case GetProperty => 0x07
    case ReceiveSBFile => 0x08
    case Execute => 0x09
    case Call => 0x0A
    case Reset => 0x0B
    case SetProperty => 0x0C
    case FlashEraseAllUnsecure => 0x0D
    case FlashProgramOnce => 0x0E
    case FlashReadOnce => 0x0F
    case FlashReadResource => 0x10
    case ConfigureMemory => 0x11
    case ReliableUpdate => 0x12
    case GenerateKeyBlob => 0x13
    case FuseProgram => 0x14
    case KeyProvisioning => 0x15
    case TrustProvisioning => 0x16
    case FuseRead => 0x17
    case UpdateLifeCycle => 0x18
    case EleMessage => 0x19
    case EL2GO => 0x20
    case ConfigureI2C => 0xC1
    case ConfigureSPI => 0xC2
    case ConfigureCAN => 0xC3
  }

  /** Every command kind, in declaration order (`CommandTagDiscriminants::iter`). */
  const AllCommandKinds: seq<CommandKind> := [
    NoCommand,
    FlashEraseAll,
    FlashEraseRegion,
    ReadMemory,
    WriteMemory,
    FillMemory,
    FlashSecurityDisable,
    GetProperty,
    ReceiveSBFile,
    Execute,
    Call,
    Reset,
    SetProperty,
    FlashEraseAllUnsecure,
    FlashProgramOnce,
    FlashReadOnce,
    FlashReadResource,
    ConfigureMemory,
    ReliableUpdate,
    GenerateKeyBlob,
    FuseProgram,
    KeyProvisioning,
    TrustProvisioning,
    FuseRead,
    UpdateLifeCycle,
    EleMessage,
    EL2GO,
    ConfigureI2C,
    ConfigureSPI,
    ConfigureCAN
  ]

  /** The command kind with discriminant `n`, if any: the inverse of
      `CommandCode`, which shows the discriminants pairwise distinct. */
  function CommandFromCode(n: int): (r: Option<CommandKind>)
    ensures r.Some? ==> CommandCode(r.value) == n
  {
    if n < 0x0A then CommandFromCode0(n)
    else if n < 0x14 then CommandFromCode1(n)
    else CommandFromCode2(n)
  }

  function CommandFromCode0(n: int): (r: Option<CommandKind>)
    ensures r.Some? ==> CommandCode(r.value) == n
  {
    match n
    case 0x00 => Some(NoCommand)
    case 0x01 => Some(FlashEraseAll)
    case 0x02 => Some(FlashEraseRegion)
    case 0x03 => Some(ReadMemory)
    case 0x04 => Some(WriteMemory)
    case 0x05 => Some(FillMemory)
    case 0x06 => Some(FlashSecurityDisable)
    case 0x07 => Some(GetProperty)
    case 0x08 => Some(ReceiveSBFile)
    case 0x09 => Some(Execute)
    case _ => None
  }

  function CommandFromCode1(n: int): (r: Option<CommandKind>)
    ensures r.Some? ==> CommandCode(r.value) == n
  {
    match n
    case 0x0A => Some(Call)
    case 0x0B => Some(Reset)
    case 0x0C => Some(SetProperty)
    case 0x0D => Some(FlashEraseAllUnsecure)
    case 0x0E => Some(FlashProgramOnce)
    case 0x0F => Some(FlashReadOnce)
    case 0x10 => Some(FlashReadResource)
    case 0x11 => Some(ConfigureMemory)
    case 0x12 => Some(ReliableUpdate)
    case 0x13 => Some(GenerateKeyBlob)
    case _ => None
  }

  function CommandFromCode2(n: int): (r: Option<CommandKind>)
    ensures r.Some? ==> CommandCode(r.value) == n
  {
    match n
    case 0x14 => Some(FuseProgram)
    case 0x15 => Some(KeyProvisioning)
    case 0x16 => Some(TrustProvisioning)
    case 0x17 => Some(FuseRead)
    case 0x18 => Some(UpdateLifeCycle)
    case 0x19 => Some(EleMessage)
    case 0x20 => Some(EL2GO)
    case 0xC1 => Some(ConfigureI2C)
    case 0xC2 => Some(ConfigureSPI)
    case 0xC3 => Some(ConfigureCAN)
    case _ => None
  }

  lemma CommandRoundTrip(k: CommandKind)
    ensures CommandFromCode(CommandCode(k)) == Some(k)
  {
  }

  /** Distinct command kinds have distinct discriminants. */
  lemma CommandCodeInjective(k1: CommandKind, k2: CommandKind)
    requires CommandCode(k1) == CommandCode(k2)
    ensures k1 == k2
  {
    CommandRoundTrip(k1);
    CommandRoundTrip(k2);
  }

  /** Where each kind sits in the declaration order. */
  lemma CommandKindListed(k: CommandKind)
    ensures k in AllCommandKinds
  {
    match k
    case NoCommand => assert AllCommandKinds[0] == NoCommand;
    case FlashEraseAll => assert AllCommandKinds[1] == FlashEraseAll;
    case FlashEraseRegion => assert AllCommandKinds[2] == FlashEraseRegion;
    case ReadMemory => assert AllCommandKinds[3] == ReadMemory;
    case WriteMemory => assert AllCommandKinds[4] == WriteMemory;
    case FillMemory => assert AllCommandKinds[5] == FillMemory;
    case FlashSecurityDisable => assert AllCommandKinds[6] == FlashSecurityDisable;
    case GetProperty => assert AllCommandKinds[7] == GetProperty;
    case ReceiveSBFile => assert AllCommandKinds[8] == ReceiveSBFile;
    case Execute => assert AllCommandKinds[9] == Execute;
    case Call => assert AllCommandKinds[10] == Call;
    case Reset => assert AllCommandKinds[11] == Reset;
    case SetProperty => assert AllCommandKinds[12] == SetProperty;
    case FlashEraseAllUnsecure => assert AllCommandKinds[13] == FlashEraseAllUnsecure;
    case FlashProgramOnce => assert AllCommandKinds[14] == FlashProgramOnce;
    case FlashReadOnce => assert AllCommandKinds[15] == FlashReadOnce;
    case FlashReadResource => assert AllCommandKinds[16] == FlashReadResource;
    case ConfigureMemory => assert AllCommandKinds[17] == ConfigureMemory;
    case ReliableUpdate => assert AllCommandKinds[18] == ReliableUpdate;
    case GenerateKeyBlob => assert AllCommandKinds[19] == GenerateKeyBlob;
    case FuseProgram => assert AllCommandKinds[20] == FuseProgram;
    case KeyProvisioning => assert AllCommandKinds[21] == KeyProvisioning;
    case TrustProvisioning => assert AllCommandKinds[22] == TrustProvisioning;
    case FuseRead => assert AllCommandKinds[23] == FuseRead;
    case UpdateLifeCycle => assert AllCommandKinds[24] == UpdateLifeCycle;
    case EleMessage => assert AllCommandKinds[25] == EleMessage;
    case EL2GO => assert AllCommandKinds[26] == EL2GO;
    case ConfigureI2C => assert AllCommandKinds[27] == ConfigureI2C;
    case ConfigureSPI => assert AllCommandKinds[28] == ConfigureSPI;
    case ConfigureCAN => assert AllCommandKinds[29] == ConfigureCAN;
  }

  /** `PropertyTagDiscriminants`: which property, without its value. */
  datatype PropertyKind =
      CurrentVersion
    | AvailablePeripherals
    | FlashStartAddress
    | FlashSize
    | FlashSectorSize
    | FlashBlockCount
    | AvailableCommands
    | CRCCheckStatus
    | LastError
    | VerifyWrites
    | MaxPacketSize
    | ReservedRegions
    | ValidateRegions
    | RAMStartAddress
    | RAMSize
    | SystemDeviceId
    | FlashSecurityState
    | UniqueDeviceId
    | FlashFacSupport
    | FlashAccessSegmentSize
    | FlashAccessSegmentCount
    | FlashReadMargin
    | QSPIInitStatus
    | TargetVersion
    | ExternalMemoryAttributes
    | ReliableUpdateStatus
    | FlashPageSize
    | IrqNotifierPin
    | PFRKeystoreUpdateOpt
    | ByteWriteTimeoutMs
    | FuseLockedStatus
    | BootStatusRegister
    | FirmwareVersion
    | FuseProgramVoltage
    | VerifyErase
    | SHEFlashPartition
    | SHEBootMode
    | LifeCycleState

  /** The `repr(u8)` discriminant of a property kind (0x01 to 0x26, in
      declaration order). */
  function PropertyCode(k: PropertyKind): (r: u8)
    ensures 1 <= r <= 0x26
  {
    match k
    case CurrentVersion => 0x01
    case AvailablePeripherals => 0x02
    case FlashStartAddress => 0x03
    case FlashSize => 0x04
    case FlashSectorSize => 0x05
    case FlashBlockCount => 0x06
    case AvailableCommands => 0x07
    case CRCCheckStatus => 0x08
    case LastError => 0x09
    case VerifyWrites => 0x0A
    case MaxPacketSize => 0x0B
    case ReservedRegions => 0x0C
    case ValidateRegions => 0x0D
    case RAMStartAddress => 0x0E
    case RAMSize => 0x0F
    case SystemDeviceId => 0x10
    case FlashSecurityState => 0x11
    case UniqueDeviceId => 0x12
    case FlashFacSupport => 0x13
    case FlashAccessSegmentSize => 0x14
    case FlashAccessSegmentCount => 0x15
    case FlashReadMargin => 0x16
    case QSPIInitStatus => 0x17
    case TargetVersion => 0x18
    case ExternalMemoryAttributes => 0x19
    case ReliableUpdateStatus => 0x1A
    case FlashPageSize => 0x1B
    case IrqNotifierPin => 0x1C
    case PFRKeystoreUpdateOpt => 0x1D
    case ByteWriteTimeoutMs => 0x1E
    case FuseLockedStatus => 0x1F
    case BootStatusRegister => 0x20
    case FirmwareVersion => 0x21
    case FuseProgramVoltage => 0x22
    case VerifyErase => 0x23
    case SHEFlashPartition => 0x24
    case SHEBootMode => 0x25
    case LifeCycleState => 0x26
  }

  /** `PropertyTagDiscriminants::try_from(u8)`. */
  function PropertyFromCode(n: int): (r: Option<PropertyKind>)
    ensures r.Some? <==> 1 <= n <= 0x26
    ensures r.Some? ==> PropertyCode(r.value) == n
  {
    if n < 0x0B then PropertyFromCode0(n)
    else if n < 0x15 then PropertyFromCode1(n)
    else if n < 0x1F then PropertyFromCode2(n)
    else PropertyFromCode3(n)
  }

  function PropertyFromCode0(n: int): (r: Option<PropertyKind>)
    ensures r.Some? <==> 0x01 <= n <= 0x0A
    ensures r.Some? ==> PropertyCode(r.value) == n
  {
    match n
    case 0x01 => Some(CurrentVersion)
    case 0x02 => Some(AvailablePeripherals)
    case 0x03 => Some(FlashStartAddress)
    case 0x04 => Some(FlashSize)
    case 0x05 => Some(FlashSectorSize)
    case 0x06 => Some(FlashBlockCount)
    case 0x07 => Some(AvailableCommands)
    case 0x08 => Some(CRCCheckStatus)
    case 0x09 => Some(LastError)
    case 0x0A => Some(VerifyWrites)
    case _ => None
  }

  function PropertyFromCode1(n: int): (r: Option<PropertyKind>)
    ensures r.Some? <==> 0x0B <= n <= 0x14
    ensures r.Some? ==> PropertyCode(r.value) == n
  {
    match n
    case 0x0B => Some(MaxPacketSize)
    case 0x0C => Some(ReservedRegions)
    case 0x0D => Some(ValidateRegions)
    case 0x0E => Some(RAMStartAddress)
    case 0x0F => Some(RAMSize)
    case 0x10 => Some(SystemDeviceId)
    case 0x11 => Some(FlashSecurityState)
    case 0x12 => Some(UniqueDeviceId)
    case 0x13 => Some(FlashFacSupport)
    case 0x14 => Some(FlashAccessSegmentSize)
    case _ => None
  }

  function PropertyFromCode2(n: int): (r: Option<PropertyKind>)
    ensures r.Some? <==> 0x15 <= n <= 0x1E
    ensures r.Some? ==> PropertyCode(r.value) == n
  {
    match n
    case 0x15 => Some(FlashAccessSegmentCount)
    case 0x16 => Some(FlashReadMargin)
    case 0x17 => Some(QSPIInitStatus)
    case 0x18 => Some(TargetVersion)
    case 0x19 => Some(ExternalMemoryAttributes)
    case 0x1A => Some(ReliableUpdateStatus)
    case 0x1B => Some(FlashPageSize)
    case 0x1C => Some(IrqNotifierPin)
    case 0x1D => Some(PFRKeystoreUpdateOpt)
    case 0x1E => Some(ByteWriteTimeoutMs)
    case _ => None
  }

  function PropertyFromCode3(n: int): (r: Option<PropertyKind>)
    ensures r.Some? <==> 0x1F <= n <= 0x26
    ensures r.Some? ==> PropertyCode(r.value) == n
  {
    match n
    case 0x1F => Some(FuseLockedStatus)
    case 0x20 => Some(BootStatusRegister)
    case 0x21 => Some(FirmwareVersion)
    case 0x22 => Some(FuseProgramVoltage)
    case 0x23 => Some(VerifyErase)
    case 0x24 => Some(SHEFlashPartition)
    case 0x25 => Some(SHEBootMode)
    case 0x26 => Some(LifeCycleState)
    case _ => None
  }

  lemma PropertyRoundTrip(k: PropertyKind)
    ensures PropertyFromCode(PropertyCode(k)) == Some(k)
  {
  }

  /** The kebab-case name strum derives for a property kind (`EnumString`
      with `serialize_all = "kebab-case"`), tabulated in four blocks of
      discriminants. */
  function PropertyName(k: PropertyKind): string {
    var c := PropertyCode(k);
    if c <= 0x0A then PropertyName0(k)
    else if c <= 0x14 then PropertyName1(k)
    else if c <= 0x1E then PropertyName2(k)
    else PropertyName3(k)
  }

  function PropertyName0(k: PropertyKind): string
    requires 0x01 <= PropertyCode(k) <= 0x0A
  {
    match k
    case CurrentVersion => "current-version"
    case AvailablePeripherals => "available-peripherals"
    case FlashStartAddress => "flash-start-address"
    case FlashSize => "flash-size"
    case FlashSectorSize => "flash-sector-size"
    case FlashBlockCount => "flash-block-count"
    case AvailableCommands => "available-commands"
    case CRCCheckStatus => "crc-check-status"
    case LastError => "last-error"
    case VerifyWrites => "verify-writes"
    case _ => assert false; ""
  }

  function PropertyName1(k: PropertyKind): string
    requires 0x0B <= PropertyCode(k) <= 0x14
  {
    match k
    case MaxPacketSize => "max-packet-size"
    case ReservedRegions => "reserved-regions"
    case ValidateRegions => "validate-regions"
    case RAMStartAddress => "ram-start-address"
    case RAMSize => "ram-size"
    case SystemDeviceId => "system-device-id"
    case FlashSecurityState => "flash-security-state"
    case UniqueDeviceId => "unique-device-id"
    case FlashFacSupport => "flash-fac-support"
    case FlashAccessSegmentSize => "flash-access-segment-size"
    case _ => assert false; ""
  }

  function PropertyName2(k: PropertyKind): string
    requires 0x15 <= PropertyCode(k) <= 0x1E
  {
    match k
    case FlashAccessSegmentCount => "flash-access-segment-count"
    case FlashReadMargin => "flash-read-margin"
    case QSPIInitStatus => "qspi-init-status"
    case TargetVersion => "target-version"
    case ExternalMemoryAttributes => "external-memory-attributes"
    case ReliableUpdateStatus => "reliable-update-status"
    case FlashPageSize => "flash-page-size"
    case IrqNotifierPin => "irq-notifier-pin"
    case PFRKeystoreUpdateOpt => "pfr-keystore-update-opt"
    case ByteWriteTimeoutMs => "byte-write-timeout-ms"
    case _ => assert false; ""
  }

  function PropertyName3(k: PropertyKind): string
    requires 0x1F <= PropertyCode(k) <= 0x26
  {
    match k
    case FuseLockedStatus => "fuse-locked-status"
    case BootStatusRegister => "boot-status-register"
    case FirmwareVersion => "firmware-version"
    case FuseProgramVoltage => "fuse-program-voltage"
    case VerifyErase => "verify-erase"
    case SHEFlashPartition => "she-flash-partition"
    case SHEBootMode => "she-boot-mode"
    case LifeCycleState => "life-cycle-state"
    case _ => assert false; ""
  }

  /** `PropertyTagDiscriminants::from_str`: the kind whose name is exactly
      `s` (case-sensitive). */
  function PropertyFromName(s: string): (r: Option<PropertyKind>)
    ensures r.Some? ==> PropertyName(r.value) == s
  {
    var r0 := PropertyFromName0(s);
    if r0.Some? then r0
    else
      var r1 := PropertyFromName1(s);
      if r1.Some? then r1
      else
        var r2 := PropertyFromName2(s);
        if r2.Some? then r2 else PropertyFromName3(s)
  }

  function PropertyFromName0(s: string): (r: Option<PropertyKind>)
    ensures r.Some? ==> PropertyName(r.value) == s
  {
    if s == PropertyName(CurrentVersion) then Some(CurrentVersion)
    else if s == PropertyName(AvailablePeripherals) then Some(AvailablePeripherals)
    else if s == PropertyName(FlashStartAddress) then Some(FlashStartAddress)
    else if s == PropertyName(FlashSize) then Some(FlashSize)
    else if s == PropertyName(FlashSectorSize) then Some(FlashSectorSize)
    else if s == PropertyName(FlashBlockCount) then Some(FlashBlockCount)
    else if s == PropertyName(AvailableCommands) then Some(AvailableCommands)
    else if s == PropertyName(CRCCheckStatus) then Some(CRCCheckStatus)
    else if s == PropertyName(LastError) then Some(LastError)
    else if s == PropertyName(VerifyWrites) then Some(VerifyWrites)
    else None
  }

  function PropertyFromName1(s: string): (r: Option<PropertyKind>)
    ensures r.Some? ==> PropertyName(r.value) == s
  {
    if s == PropertyName(MaxPacketSize) then Some(MaxPacketSize)
    else if s == PropertyName(ReservedRegions) then Some(ReservedRegions)
    else if s == PropertyName(ValidateRegions) then Some(ValidateRegions)
    else if s == PropertyName(RAMStartAddress) then Some(RAMStartAddress)
    else if s == PropertyName(RAMSize) then Some(RAMSize)
    else if s == PropertyName(SystemDeviceId) then Some(SystemDeviceId)
    else if s == PropertyName(FlashSecurityState) then Some(FlashSecurityState)
    else if s == PropertyName(UniqueDeviceId) then Some(UniqueDeviceId)
    else if s == PropertyName(FlashFacSupport) then Some(FlashFacSupport)
    else if s == PropertyName(FlashAccessSegmentSize) then Some(FlashAccessSegmentSize)
    else None
  }

  function PropertyFromName2(s: string): (r: Option<PropertyKind>)
    ensures r.Some? ==> PropertyName(r.value) == s
  {
    if s == PropertyName(FlashAccessSegmentCount) then Some(FlashAccessSegmentCount)
    else if s == PropertyName(FlashReadMargin) then Some(FlashReadMargin)
    else if s == PropertyName(QSPIInitStatus) then Some(QSPIInitStatus)
    else if s == PropertyName(TargetVersion) then Some(TargetVersion)
    else if s == PropertyName(ExternalMemoryAttributes) then Some(ExternalMemoryAttributes)
    else if s == PropertyName(ReliableUpdateStatus) then Some(ReliableUpdateStatus)
    else if s == PropertyName(FlashPageSize) then Some(FlashPageSize)
    else if s == PropertyName(IrqNotifierPin) then Some(IrqNotifierPin)
    else if s == PropertyName(PFRKeystoreUpdateOpt) then Some(PFRKeystoreUpdateOpt)
    else if s == PropertyName(ByteWriteTimeoutMs) then Some(ByteWriteTimeoutMs)
    else None
  }

  function PropertyFromName3(s: string): (r: Option<PropertyKind>)
    ensures r.Some? ==> PropertyName(r.value) == s
  {
    if s == PropertyName(FuseLockedStatus) then Some(FuseLockedStatus)
    else if s == PropertyName(BootStatusRegister) then Some(BootStatusRegister)
    else if s == PropertyName(FirmwareVersion) then Some(FirmwareVersion)
    else if s == PropertyName(FuseProgramVoltage) then Some(FuseProgramVoltage)
    else if s == PropertyName(VerifyErase) then Some(VerifyErase)
    else if s == PropertyName(SHEFlashPartition) then Some(SHEFlashPartition)
    else if s == PropertyName(SHEBootMode) then Some(SHEBootMode)
    else if s == PropertyName(LifeCycleState) then Some(LifeCycleState)
    else None
  }

  /** The length of a name with its first and seventh characters: already
      enough to tell the names of the kinds apart. */
  function NameKey(s: string): (key: (int, char, char))
    requires |s| >= 7
    ensures key.0 == |s| && key.1 == s[0] && key.2 == s[6]
  {
    (|s|, s[0], s[6])
  }

  /** The key of each kind's name, written out. */
  function PropertyNameKey(k: PropertyKind): (int, char, char) {
    match k
    case CurrentVersion => (15, 'c', 't')
    case AvailablePeripherals => (21, 'a', 'b')
    case FlashStartAddress => (19, 'f', 's')
    case FlashSize => (10, 'f', 's')
    case FlashSectorSize => (17, 'f', 's')
    case FlashBlockCount => (17, 'f', 'b')
    case AvailableCommands => (18, 'a', 'b')
    case CRCCheckStatus => (16, 'c', 'e')
    case LastError => (10, 'l', 'r')
    case VerifyWrites => (13, 'v', '-')
    case MaxPacketSize => (15, 'm', 'c')
    case ReservedRegions => (16, 'r', 'e')
    case ValidateRegions => (16, 'v', 't')
    case RAMStartAddress => (17, 'r', 'a')
    case RAMSize => (8, 'r', 'z')
    case SystemDeviceId => (16, 's', '-')
    case FlashSecurityState => (20, 'f', 's')
    case UniqueDeviceId => (16, 'u', '-')
    case FlashFacSupport => (17, 'f', 'f')
    case FlashAccessSegmentSize => (25, 'f', 'a')
    case FlashAccessSegmentCount => (26, 'f', 'a')
    case FlashReadMargin => (17, 'f', 'r')
    case QSPIInitStatus => (16, 'q', 'n')
    case TargetVersion => (14, 't', '-')
    case ExternalMemoryAttributes => (26, 'e', 'a')
    case ReliableUpdateStatus => (22, 'r', 'l')
    case FlashPageSize => (15, 'f', 'p')
    case IrqNotifierPin => (16, 'i', 't')
    case PFRKeystoreUpdateOpt => (23, 'p', 'y')
    case ByteWriteTimeoutMs => (21, 'b', 'r')
    case FuseLockedStatus => (18, 'f', 'o')
    case BootStatusRegister => (20, 'b', 't')
    case FirmwareVersion => (16, 'f', 'r')
    case FuseProgramVoltage => (20, 'f', 'r')
    case VerifyErase => (12, 'v', '-')
    case SHEFlashPartition => (19, 's', 'a')
    case SHEBootMode => (13, 's', 'o')
    case LifeCycleState => (16, 'l', 'y')
  }
  /** The kind a name key belongs to, if any: the inverse of `PropertyNameKey`. */
  function PropertyOfNameKey(key: (int, char, char)): Option<PropertyKind> {
    var (len, first, seventh) := key;
    if len == 8 then
      if first == 'r' && seventh == 'z' then Some(RAMSize)
      else None
    else if len == 10 then
      if first == 'f' && seventh == 's' then Some(FlashSize)
      else if first == 'l' && seventh == 'r' then Some(LastError)
      else None
    else if len == 12 then
      if first == 'v' && seventh == '-' then Some(VerifyErase)
      else None
    else if len == 13 then
      if first == 'v' && seventh == '-' then Some(VerifyWrites)
      else if first == 's' && seventh == 'o' then Some(SHEBootMode)
      else None
    else if len == 14 then
      if first == 't' && seventh == '-' then Some(TargetVersion)
      else None
    else if len == 15 then
      if first == 'c' && seventh == 't' then Some(CurrentVersion)
      else if first == 'm' && seventh == 'c' then Some(MaxPacketSize)
      else if first == 'f' && seventh == 'p' then Some(FlashPageSize)
      else None
    else if len == 16 then
      if first == 'c' && seventh == 'e' then Some(CRCCheckStatus)
      else if first == 'r' && seventh == 'e' then Some(ReservedRegions)
      else if first == 'v' && seventh == 't' then Some(ValidateRegions)
      else if first == 's' && seventh == '-' then Some(SystemDeviceId)
      else if first == 'u' && seventh == '-' then Some(UniqueDeviceId)
      else if first == 'q' && seventh == 'n' then Some(QSPIInitStatus)
      else if first == 'i' && seventh == 't' then Some(IrqNotifierPin)
      else if first == 'f' && seventh == 'r' then Some(FirmwareVersion)
      else if first == 'l' && seventh == 'y' then Some(LifeCycleState)
      else None
    else if len == 17 then
      if first == 'f' && seventh == 's' then Some(FlashSectorSize)
      else if first == 'f' && seventh == 'b' then Some(FlashBlockCount)
      else if first == 'r' && seventh == 'a' then Some(RAMStartAddress)
      else if first == 'f' && seventh == 'f' then Some(FlashFacSupport)
      else if first == 'f' && seventh == 'r' then Some(FlashReadMargin)
      else None
    else if len == 18 then
      if first == 'a' && seventh == 'b' then Some(AvailableCommands)
      else if first == 'f' && seventh == 'o' then Some(FuseLockedStatus)
      else None
    else if len == 19 then
      if first == 'f' && seventh == 's' then Some(FlashStartAddress)
      else if first == 's' && seventh == 'a' then Some(SHEFlashPartition)
      else None
    else if len == 20 then
      if first == 'f' && seventh == 's' then Some(FlashSecurityState)
      else if first == 'b' && seventh == 't' then Some(BootStatusRegister)
      else if first == 'f' && seventh == 'r' then Some(FuseProgramVoltage)
      else None
    else if len == 21 then
      if first == 'a' && seventh == 'b' then Some(AvailablePeripherals)
      else if first == 'b' && seventh == 'r' then Some(ByteWriteTimeoutMs)
      else None
    else if len == 22 then
      if first == 'r' && seventh == 'l' then Some(ReliableUpdateStatus)
      else None
    else if len == 23 then
      if first == 'p' && seventh == 'y' then Some(PFRKeystoreUpdateOpt)
      else None
    else if len == 25 then
      if first == 'f' && seventh == 'a' then Some(FlashAccessSegmentSize)
      else None
    else if len == 26 then
      if first == 'f' && seventh == 'a' then Some(FlashAccessSegmentCount)
      else if first == 'e' && seventh == 'a' then Some(ExternalMemoryAttributes)
      else None
    else None
  }

  lemma PropertyOfNameKeyInverts(k: PropertyKind)
    ensures PropertyOfNameKey(PropertyNameKey(k)) == Some(k)
  {
  }

  lemma PropertyNameKeyOf(k: PropertyKind)
    ensures |PropertyName(k)| >= 7 && NameKey(PropertyName(k)) == PropertyNameKey(k)
  {
    var c := PropertyCode(k);
    if c <= 0x0A {
      PropertyNameKeyOf0(k);
    } else if c <= 0x14 {
      PropertyNameKeyOf1(k);
    } else if c <= 0x1E {
      PropertyNameKeyOf2(k);
    } else {
      PropertyNameKeyOf3(k);
    }
  }

  lemma PropertyNameKeyOf0(k: PropertyKind)
    requires 0x01 <= PropertyCode(k) <= 0x0A
    ensures |PropertyName0(k)| >= 7 && NameKey(PropertyName0(k)) == PropertyNameKey(k)
  {
  }

  lemma PropertyNameKeyOf1(k: PropertyKind)
    requires 0x0B <= PropertyCode(k) <= 0x14
    ensures |PropertyName1(k)| >= 7 && NameKey(PropertyName1(k)) == PropertyNameKey(k)
  {
  }

  lemma PropertyNameKeyOf2(k: PropertyKind)
    requires 0x15 <= PropertyCode(k) <= 0x1E
    ensures |PropertyName2(k)| >= 7 && NameKey(PropertyName2(k)) == PropertyNameKey(k)
  {
  }

  lemma PropertyNameKeyOf3(k: PropertyKind)
    requires 0x1F <= PropertyCode(k) <= 0x26
    ensures |PropertyName3(k)| >= 7 && NameKey(PropertyName3(k)) == PropertyNameKey(k)
  {
  }

  lemma PropertyNameKeysDistinct(k1: PropertyKind, k2: PropertyKind)
    requires k1 != k2
    ensures PropertyNameKey(k1) != PropertyNameKey(k2)
  {
    PropertyOfNameKeyInverts(k1);
    PropertyOfNameKeyInverts(k2);
  }

  /** Different kinds have different names. */
  lemma PropertyNamesDistinct(k1: PropertyKind, k2: PropertyKind)
    requires k1 != k2
    ensures PropertyName(k1) != PropertyName(k2)
  {
    PropertyNameKeyOf(k1);
    PropertyNameKeyOf(k2);
    PropertyNameKeysDistinct(k1, k2);
  }

  lemma PropertyFromNameFinds(k: PropertyKind)
    ensures PropertyFromName(PropertyName(k)).Some?
  {
    var c := PropertyCode(k);
    if c <= 0x0A {
      PropertyFromNameFinds0(k);
    } else if c <= 0x14 {
      PropertyFromNameFinds1(k);
    } else if c <= 0x1E {
      PropertyFromNameFinds2(k);
    } else {
      PropertyFromNameFinds3(k);
    }
  }

  lemma PropertyNameRoundTrip(k: PropertyKind)
    ensures PropertyFromName(PropertyName(k)) == Some(k)
  {
    PropertyFromNameFinds(k);
    var r := PropertyFromName(PropertyName(k)).value;
    if r != k {
      PropertyNamesDistinct(r, k);
    }
  }


  lemma PropertyFromNameFinds0(k: PropertyKind)
    requires 0x01 <= PropertyCode(k) <= 0x0A
    ensures PropertyName(k) == PropertyName0(k) && PropertyFromName0(PropertyName0(k)).Some?
  {
  }

  lemma PropertyFromNameFinds1(k: PropertyKind)
    requires 0x0B <= PropertyCode(k) <= 0x14
    ensures PropertyName(k) == PropertyName1(k) && PropertyFromName1(PropertyName1(k)).Some?
  {
  }

  lemma PropertyFromNameFinds2(k: PropertyKind)
    requires 0x15 <= PropertyCode(k) <= 0x1E
    ensures PropertyName(k) == PropertyName2(k) && PropertyFromName2(PropertyName2(k)).Some?
  {
  }

  lemma PropertyFromNameFinds3(k: PropertyKind)
    requires 0x1F <= PropertyCode(k) <= 0x26
    ensures PropertyName(k) == PropertyName3(k) && PropertyFromName3(PropertyName3(k)).Some?
  {
  }

  /** Name lookup fails exactly on the strings that are no kind's name. */
  lemma PropertyFromNameComplete(s: string)
    ensures PropertyFromName(s).None? <==> forall k: PropertyKind :: PropertyName(k) != s
  {
    if k: PropertyKind :| PropertyName(k) == s {
      PropertyNameRoundTrip(k);
    }
  }

  /** Every name begins with a lowercase letter, so no name reads as a
      number. */
  lemma PropertyNameStartsWithLetter(k: PropertyKind)
    ensures |PropertyName(k)| > 0 && 'a' <= PropertyName(k)[0] <= 'z'
  {
    PropertyNameKeyOf(k);
  }
}
