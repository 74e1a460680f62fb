/** Commands and how they become the parameter words and the optional
    data-phase bytes of a command packet (`CommandToParams::to_params`),
    including the key- and trust-provisioning operations and the user key
    types. `len() as u32` truncates; it is written out with a modulus. */
module Commands {
  import opened Base
  import Tags
  import Parsers

  /** `TrustProvOperation` */
  datatype TrustProvOperation =
      OemGenMasterShare(
        oemShareInputAddr: u32, oemShareInputSize: u32,
        oemEncShareOutputAddr: u32, oemEncShareOutputSize: u32,
        oemEncMasterShareOutputAddr: u32, oemEncMasterShareOutputSize: u32,
        oemCustCertPukOutputAddr: u32, oemCustCertPukOutputSize: u32)
    | OemSetMasterShare(
        oemShareInputAddr: u32, oemShareInputSize: u32,
        oemEncMasterShareInputAddr: u32, oemEncMasterShareInputSize: u32)

  /** `KeyProvUserKeyType`, a `repr(u32)` enum. */
  datatype KeyProvUserKeyType =
      OtfadKek | SbKek | PrinceRegion0 | PrinceRegion1 | PrinceRegion2 | PrinceRegion3 | UserKek | Uds

  /** `u32::from(KeyProvUserKeyType)` */
  function KeyTypeCode(t: KeyProvUserKeyType): u32 {
    match t
    case OtfadKek => 2
    case SbKek => 3
    case PrinceRegion0 => 7
    case PrinceRegion1 => 8
    case PrinceRegion2 => 9
    case PrinceRegion3 => 10
    case UserKek => 11
    case Uds => 12
  }

  /** `KeyProvUserKeyType::try_from(u32)`: only the declared ids. */
  function KeyTypeFromCode(n: int): (r: Option<KeyProvUserKeyType>)
    ensures r.Some? <==> n in {2, 3, 7, 8, 9, 10, 11, 12}
    ensures r.Some? ==> KeyTypeCode(r.value) == n
  {
    match n
    case 2 => Some(OtfadKek)
    case 3 => Some(SbKek)
    case 7 => Some(PrinceRegion0)
    case 8 => Some(PrinceRegion1)
    case 9 => Some(PrinceRegion2)
    case 10 => Some(PrinceRegion3)
    case 11 => Some(UserKek)
    case 12 => Some(Uds)
    case _ => None
  }

  lemma KeyTypeCodeRoundTrip(t: KeyProvUserKeyType)
    ensures KeyTypeFromCode(KeyTypeCode(t)) == Some(t)
  {
  }

  /** The name strum parses (`EnumString` with an explicit `serialize`). */
  function KeyTypeName(t: KeyProvUserKeyType): string {
    match t
    case OtfadKek => "OTFADKEK"
    case SbKek => "SBKEK"
    case PrinceRegion0 => "PRINCE0"
    case PrinceRegion1 => "PRINCE1"
    case PrinceRegion2 => "PRINCE2"
    case PrinceRegion3 => "PRINCE3"
    case UserKek => "USERKEK"
    case Uds => "UDS"
  }

  /** `KeyProvUserKeyType::from_str`: an exact, case-sensitive name. */
  function KeyTypeFromName(s: string): (r: Option<KeyProvUserKeyType>)
    ensures r.Some? ==> KeyTypeName(r.value) == s
  {
    if s == KeyTypeName(OtfadKek) then Some(OtfadKek)
    else if s == KeyTypeName(SbKek) then Some(SbKek)
    else if s == KeyTypeName(PrinceRegion0) then Some(PrinceRegion0)
    else if s == KeyTypeName(PrinceRegion1) then Some(PrinceRegion1)
    else if s == KeyTypeName(PrinceRegion2) then Some(PrinceRegion2)
    else if s == KeyTypeName(PrinceRegion3) then Some(PrinceRegion3)
    else if s == KeyTypeName(UserKek) then Some(UserKek)
    else if s == KeyTypeName(Uds) then Some(Uds)
    else None
  }

  lemma KeyTypeNameRoundTrip(t: KeyProvUserKeyType)
    ensures KeyTypeFromName(KeyTypeName(t)) == Some(t)
  {
  }

  /** Why `KeyProvUserKeyType::parse` rejected its input. */
  datatype KeyTypeError = BadNumber(e: Parsers.NumberError) | InvalidId | InvalidName

  /** `char::is_numeric`, restricted to ASCII digits. */
  predicate AllNumeric(s: string) {
    forall i :: 0 <= i < |s| ==> '0' <= s[i] <= '9'
  }

  /** `KeyProvUserKeyType::parse`: text made only of digits (including the
      empty text) is read as a `u32` id, anything else as a name. */
  function ParseKeyType(s: string): (r: Result<KeyProvUserKeyType, KeyTypeError>)
    ensures AllNumeric(s) ==> (r.Ok? <==> Parsers.ParseNumber(s, Parsers.U32Max).Ok? && KeyTypeFromCode(Parsers.ParseNumber(s, Parsers.U32Max).value).Some?)
    ensures r.Ok? && AllNumeric(s) ==> KeyTypeCode(r.value) == Parsers.ParseNumber(s, Parsers.U32Max).value
    ensures r.Ok? && !AllNumeric(s) ==> KeyTypeName(r.value) == s
    ensures r == Err(InvalidName) <==> !AllNumeric(s) && KeyTypeFromName(s).None?
  {
    if AllNumeric(s) then
      match Parsers.ParseNumber(s, Parsers.U32Max)
      case Err(e) => Err(BadNumber(e))
      case Ok(n) =>
        (match KeyTypeFromCode(n) case Some(t) => Ok(t) case None => Err(InvalidId))
    else
      match KeyTypeFromName(s) case Some(t) => Ok(t) case None => Err(InvalidName)
  }

  /** Every key type is accepted by its id written in decimal. */
  lemma ParseKeyTypeById(t: KeyProvUserKeyType)
    ensures ParseKeyType(Parsers.Render(KeyTypeCode(t), 10)) == Ok(t)
  {
    var d := Parsers.Render(KeyTypeCode(t), 10);
    Parsers.DecimalRoundTrip(KeyTypeCode(t), Parsers.U32Max);
    assert AllNumeric(d) by {
      forall i | 0 <= i < |d|
        ensures '0' <= d[i] <= '9'
      {
        assert Parsers.DigitValue(d[i], 10).Some?;
      }
    }
    KeyTypeCodeRoundTrip(t);
  }

  /** Every key type is accepted by its name. */
  lemma ParseKeyTypeByName(t: KeyProvUserKeyType)
    ensures ParseKeyType(KeyTypeName(t)) == Ok(t)
  {
    assert !AllNumeric(KeyTypeName(t)) by {
      assert !('0' <= KeyTypeName(t)[0] <= '9');
    }
    KeyTypeNameRoundTrip(t);
  }

  /** A hexadecimal id is not numeric text, so it goes to name lookup. */
  lemma HexIdIsAName()
    ensures ParseKeyType("0x3") == Err(InvalidName)
  {
    assert !('0' <= "0x3"[1] <= '9');
  }

  /** An id that is no key type is rejected as such. */
  lemma UndeclaredId()
    ensures ParseKeyType("4") == Err(InvalidId)
  {
    assert Parsers.DigitsValue("4", 10) == 4 by {
      assert "4"[..0] == "";
    }
    assert "4"[..1] == "4";
  }

  /** `KeyProvOperation`. `ReadKeyStore` carries only host-side output
      options (a file name and a dump format), which are never sent, so the
      model leaves them out. */
  datatype KeyProvOperation =
      Enroll
    | SetUserKey(keyType: KeyProvUserKeyType, keyData: Bytes)
    | SetKey(keyType: KeyProvUserKeyType, keySize: u32)
    | WriteKeyNonvolatile(memoryId: u32)
    | ReadKeyNonvolatile(memoryId: u32)
    | WriteKeyStore(keystoreData: Bytes)
    | ReadKeyStore

  /** `CommandTag`: a command with its fields. */
  datatype CommandTag =
      NoCommand(bytes: Bytes)
    | FlashEraseAll(memoryId: u32)
    | FlashEraseRegion(startAddress: u32, byteCount: u32, memoryId: u32)
    | ReadMemory(startAddress: u32, byteCount: u32, memoryId: u32)
    | WriteMemory(startAddress: u32, memoryId: u32, bytes: Bytes)
    | FillMemory(startAddress: u32, byteCount: u32, pattern: u32)
    | FlashSecurityDisable
    | GetProperty(tag: Tags.PropertyKind, memoryIndex: u32)
    | ReceiveSBFile(bytes: Bytes)
    | Execute(startAddress: u32, argument: u32, stackpointer: u32)
    | Call(startAddress: u32, argument: u32)
    | Reset
    | SetProperty(tag: Tags.PropertyKind, value: u32)
    | FlashEraseAllUnsecure
    | FlashProgramOnce(index: u32, count: u32, data: u32)
    | FlashReadOnce(index: u32, count: u32)
    | FlashReadResource
    | ConfigureMemory(memoryId: u32, address: u32)
    | ReliableUpdate
    | GenerateKeyBlob
    | FuseProgram(startAddress: u32, bytes: Bytes, memoryId: u32)
    | KeyProvisioning(keyOp: KeyProvOperation)
    | TrustProvisioning(trustOp: TrustProvOperation)
    | FuseRead(startAddress: u32, byteCount: u32, memoryId: u32)
    | UpdateLifeCycle
    | EleMessage
    | EL2GO
    | ConfigureI2C
    | ConfigureSPI
    | ConfigureCAN

  /** `CommandTagDiscriminants::from`: which command, without its fields. */
  function Kind(c: CommandTag): Tags.CommandKind {
    match c
    case NoCommand(_) => Tags.NoCommand
    case FlashEraseAll(_) => Tags.FlashEraseAll
    case FlashEraseRegion(_, _, _) => Tags.FlashEraseRegion
    case ReadMemory(_, _, _) => Tags.ReadMemory
    case WriteMemory(_, _, _) => Tags.WriteMemory
    case FillMemory(_, _, _) => Tags.FillMemory
    case FlashSecurityDisable => Tags.FlashSecurityDisable
    case GetProperty(_, _) => Tags.GetProperty
    case ReceiveSBFile(_) => Tags.ReceiveSBFile
    case Execute(_, _, _) => Tags.Execute
    case Call(_, _) => Tags.Call
    case Reset => Tags.Reset
    case SetProperty(_, _) => Tags.SetProperty
    case FlashEraseAllUnsecure => Tags.FlashEraseAllUnsecure
    case FlashProgramOnce(_, _, _) => Tags.FlashProgramOnce
    case FlashReadOnce(_, _) => Tags.FlashReadOnce
    case FlashReadResource => Tags.FlashReadResource
    case ConfigureMemory(_, _) => Tags.ConfigureMemory
    case ReliableUpdate => Tags.ReliableUpdate
    case GenerateKeyBlob => Tags.GenerateKeyBlob
    case FuseProgram(_, _, _) => Tags.FuseProgram
    case KeyProvisioning(_) => Tags.KeyProvisioning
    case TrustProvisioning(_) => Tags.TrustProvisioning
    case FuseRead(_, _, _) => Tags.FuseRead
    case UpdateLifeCycle => Tags.UpdateLifeCycle
    case EleMessage => Tags.EleMessage
    case EL2GO => Tags.EL2GO
    case ConfigureI2C => Tags.ConfigureI2C
    case ConfigureSPI => Tags.ConfigureSPI
    case ConfigureCAN => Tags.ConfigureCAN
  }

  /** `ToAddress::code` of a command: the discriminant of its kind. */
  function Code(c: CommandTag): u8 {
    Tags.CommandCode(Kind(c))
  }

  /** The commands `to_params` encodes; the others reach `unimplemented!`. */
  predicate Implemented(c: CommandTag) {
    !(c.FlashSecurityDisable? || c.FlashReadResource? || c.ReliableUpdate? || c.GenerateKeyBlob? ||
      c.UpdateLifeCycle? || c.EleMessage? || c.EL2GO? || c.ConfigureI2C? || c.ConfigureSPI? || c.ConfigureCAN?)
  }

  /** `len() as u32` */
  function LenU32(b: Bytes): (n: u32)
    ensures |b| < 0x1_0000_0000 ==> n == |b|
  {
    |b| % 0x1_0000_0000
  }

  /** The parameters and data phase of one command. */
  datatype Params = Params(words: seq<u32>, data: Option<Bytes>)

  /** `TrustProvOperation::to_params`: an operation selector (0 or 1)
      followed by the fields in declaration order; no data phase. */
  function TrustParams(op: TrustProvOperation): (r: Params)
    ensures r.data.None? && |r.words| > 0
    ensures r.words[0] == (if op.OemGenMasterShare? then 0 else 1)
    ensures |r.words| == (if op.OemGenMasterShare? then 9 else 5)
  {
    match op
    case OemGenMasterShare(a0, a1, a2, a3, a4, a5, a6, a7) => Params([0, a0, a1, a2, a3, a4, a5, a6, a7], None)
    case OemSetMasterShare(a0, a1, a2, a3) => Params([1, a0, a1, a2, a3], None)
  }

  /** The selector `KeyProvOperation::to_params` sends first: the
      operation's position in declaration order. */
  function KeyOpSelector(op: KeyProvOperation): u32 {
    match op
    case Enroll => 0
    case SetUserKey(_, _) => 1
    case SetKey(_, _) => 2
    case WriteKeyNonvolatile(_) => 3
    case ReadKeyNonvolatile(_) => 4
    case WriteKeyStore(_) => 5
    case ReadKeyStore => 6
  }

  /** `KeyProvOperation::to_params`: only SetUserKey and WriteKeyStore have
      a data phase, and it is their bytes. */
  function KeyParams(op: KeyProvOperation): (r: Params)
    ensures |r.words| > 0 && r.words[0] == KeyOpSelector(op)
    ensures r.data.Some? <==> op.SetUserKey? || op.WriteKeyStore?
    ensures op.SetUserKey? ==> r.data == Some(op.keyData)
    ensures op.WriteKeyStore? ==> r.data == Some(op.keystoreData)
  {
    match op
    case Enroll => Params([0], None)
    case SetUserKey(t, key) => Params([1, KeyTypeCode(t), LenU32(key)], Some(key))
    case SetKey(t, size) => Params([2, KeyTypeCode(t), size], None)
    case WriteKeyNonvolatile(m) => Params([3, m], None)
    case ReadKeyNonvolatile(m) => Params([4, m], None)
    case WriteKeyStore(d) => Params([5, 0, LenU32(d)], Some(d))
    case ReadKeyStore => Params([6], None)
  }

  /** The bytes a command carries in its data phase, if it has one. */
  predicate HasPayload(c: CommandTag) {
    c.NoCommand? || c.WriteMemory? || c.ReceiveSBFile? || c.FuseProgram? ||
    (c.KeyProvisioning? && (c.keyOp.SetUserKey? || c.keyOp.WriteKeyStore?))
  }

  function Payload(c: CommandTag): Bytes
    requires HasPayload(c)
  {
    if c.KeyProvisioning? then (if c.keyOp.SetUserKey? then c.keyOp.keyData else c.keyOp.keystoreData)
    else c.bytes
  }

  /** `CommandTag::to_params`. A command has a data phase exactly when it
      carries bytes, and the data phase is those bytes unchanged; at most
      nine parameters, so the count always fits the header's byte. */
  function ToParams(c: CommandTag): (r: Params)
    requires Implemented(c)
    ensures r.data.Some? <==> HasPayload(c)
    ensures r.data.Some? ==> r.data.value == Payload(c)
    ensures |r.words| <= 9
  {
    match c
    case FlashEraseAll(m) => Params([m], None)
    case ReadMemory(a, n, m) => Params([a, n, m], None)
    case FlashEraseRegion(a, n, m) => Params([a, n, m], None)
    case FuseRead(a, n, m) => Params([a, n, m], None)
    case WriteMemory(a, m, b) => Params([a, LenU32(b), m], Some(b))
    case FuseProgram(a, b, m) => Params([a, LenU32(b), m], Some(b))
    case FillMemory(a, n, p) => Params([a, n, p], None)
    case GetProperty(t, i) => Params([Tags.PropertyCode(t), i], None)
    case Reset => Params([], None)
    case FlashEraseAllUnsecure => Params([], None)
    case SetProperty(t, v) => Params([Tags.PropertyCode(t), v], None)
    case ConfigureMemory(m, a) => Params([m, a], None)
    case ReceiveSBFile(b) => Params([LenU32(b)], Some(b))
    case NoCommand(b) => Params([LenU32(b)], Some(b))
    case TrustProvisioning(op) => TrustParams(op)
    case KeyProvisioning(op) => KeyParams(op)
    case FlashReadOnce(i, n) => Params([i, n], None)
    case FlashProgramOnce(i, n, d) => Params([i, n, d], None)
    case Execute(a, g, sp) => Params([a, g, sp], None)
    case Call(a, g) => Params([a, g], None)
  }

  /** A command's byte length parameter: where `to_params` puts `len()`. */
  function LengthParamIndex(c: CommandTag): (i: nat)
    requires HasPayload(c)
  {
    if c.WriteMemory? || c.FuseProgram? then 1
    else if c.KeyProvisioning? then 2
    else 0
  }

  /** The length parameter always equals the data-phase length (for a
      payload below 4 GiB, which `as u32` would otherwise wrap). */
  lemma LengthParamMatchesPayload(c: CommandTag)
    requires Implemented(c) && HasPayload(c) && |Payload(c)| < 0x1_0000_0000
    ensures LengthParamIndex(c) < |ToParams(c).words|
    ensures ToParams(c).words[LengthParamIndex(c)] == |ToParams(c).data.value|
  {
  }

  /** Reads a trust-provisioning operation back from its parameters. */
  function TrustFromParams(w: seq<u32>): Option<TrustProvOperation> {
    if |w| == 9 && w[0] == 0 then Some(OemGenMasterShare(w[1], w[2], w[3], w[4], w[5], w[6], w[7], w[8]))
    else if |w| == 5 && w[0] == 1 then Some(OemSetMasterShare(w[1], w[2], w[3], w[4]))
    else None
  }

  /** Reads a key-provisioning operation back from its parameters and data
      phase. */
  function KeyFromParams(p: Params): Option<KeyProvOperation> {
    var w := p.words;
    if |w| == 1 && w[0] == 0 && p.data.None? then Some(Enroll)
    else if |w| == 3 && w[0] == 1 && p.data.Some? && KeyTypeFromCode(w[1]).Some? && w[2] == |p.data.value| then
      Some(SetUserKey(KeyTypeFromCode(w[1]).value, p.data.value))
    else if |w| == 3 && w[0] == 2 && p.data.None? && KeyTypeFromCode(w[1]).Some? then
      Some(SetKey(KeyTypeFromCode(w[1]).value, w[2]))
    else if |w| == 2 && w[0] == 3 && p.data.None? then Some(WriteKeyNonvolatile(w[1]))
    else if |w| == 2 && w[0] == 4 && p.data.None? then Some(ReadKeyNonvolatile(w[1]))
    else if |w| == 3 && w[0] == 5 && w[1] == 0 && p.data.Some? && w[2] == |p.data.value| then
      Some(WriteKeyStore(p.data.value))
    else if |w| == 1 && w[0] == 6 && p.data.None? then Some(ReadKeyStore)
    else None
  }

  /** Reads a command of kind `k` back from its parameters and data phase:
      the device's view of a command packet. */
  function FromParams(k: Tags.CommandKind, p: Params): Option<CommandTag> {
    var w := p.words;
    match k
    case FlashEraseAll => if |w| == 1 && p.data.None? then Some(FlashEraseAll(w[0])) else None
    case ReadMemory => if |w| == 3 && p.data.None? then Some(ReadMemory(w[0], w[1], w[2])) else None
    case FlashEraseRegion => if |w| == 3 && p.data.None? then Some(FlashEraseRegion(w[0], w[1], w[2])) else None
    case FuseRead => if |w| == 3 && p.data.None? then Some(FuseRead(w[0], w[1], w[2])) else None
    case WriteMemory =>
      if |w| == 3 && p.data.Some? && w[1] == |p.data.value| then Some(WriteMemory(w[0], w[2], p.data.value)) else None
    case FuseProgram =>
      if |w| == 3 && p.data.Some? && w[1] == |p.data.value| then Some(FuseProgram(w[0], p.data.value, w[2])) else None
    case FillMemory => if |w| == 3 && p.data.None? then Some(FillMemory(w[0], w[1], w[2])) else None
    case GetProperty =>
      if |w| == 2 && p.data.None? && Tags.PropertyFromCode(w[0]).Some? then
        Some(GetProperty(Tags.PropertyFromCode(w[0]).value, w[1]))
      else None
    case Reset => if |w| == 0 && p.data.None? then Some(Reset) else None
    case FlashEraseAllUnsecure => if |w| == 0 && p.data.None? then Some(FlashEraseAllUnsecure) else None
    case SetProperty =>
      if |w| == 2 && p.data.None? && Tags.PropertyFromCode(w[0]).Some? then
        Some(SetProperty(Tags.PropertyFromCode(w[0]).value, w[1]))
      else None
    case ConfigureMemory => if |w| == 2 && p.data.None? then Some(ConfigureMemory(w[0], w[1])) else None
    case ReceiveSBFile =>
      if |w| == 1 && p.data.Some? && w[0] == |p.data.value| then Some(ReceiveSBFile(p.data.value)) else None
    case NoCommand =>
      if |w| == 1 && p.data.Some? && w[0] == |p.data.value| then Some(NoCommand(p.data.value)) else None
    case TrustProvisioning =>
      if p.data.None? then (match TrustFromParams(w) case Some(op) => Some(TrustProvisioning(op)) case None => None)
      else None
    case KeyProvisioning => (match KeyFromParams(p) case Some(op) => Some(KeyProvisioning(op)) case None => None)
    case FlashReadOnce => if |w| == 2 && p.data.None? then Some(FlashReadOnce(w[0], w[1])) else None
    case FlashProgramOnce => if |w| == 3 && p.data.None? then Some(FlashProgramOnce(w[0], w[1], w[2])) else None
    case Execute => if |w| == 3 && p.data.None? then Some(Execute(w[0], w[1], w[2])) else None
    case Call => if |w| == 2 && p.data.None? then Some(Call(w[0], w[1])) else None
    case _ => None
  }

  /** The encoding loses nothing: the kind, the parameters and the data
      phase determine the command (for payloads below 4 GiB). */
  lemma ParamsRoundTrip(c: CommandTag)
    requires Implemented(c)
    requires HasPayload(c) ==> |Payload(c)| < 0x1_0000_0000
    ensures FromParams(Kind(c), ToParams(c)) == Some(c)
  {
    match c
    case GetProperty(t, _) => Tags.PropertyRoundTrip(t);
    case SetProperty(t, _) => Tags.PropertyRoundTrip(t);
    case KeyProvisioning(op) => KeyParamsRoundTrip(op);
    case TrustProvisioning(op) => TrustParamsRoundTrip(op);
    case NoCommand(_) => BytesParamsRoundTrip(c);
    case WriteMemory(_, _, _) => BytesParamsRoundTrip(c);
    case ReceiveSBFile(_) => BytesParamsRoundTrip(c);
    case FuseProgram(_, _, _) => BytesParamsRoundTrip(c);
    case _ => WordParamsRoundTrip(c);
  }

  /** The commands that carry bytes besides their words. */
  lemma BytesParamsRoundTrip(c: CommandTag)
    requires c.NoCommand? || c.WriteMemory? || c.ReceiveSBFile? || c.FuseProgram?
    requires |c.bytes| < 0x1_0000_0000
    ensures FromParams(Kind(c), ToParams(c)) == Some(c)
  {
  }

  /** The commands made of words alone. */
  lemma WordParamsRoundTrip(c: CommandTag)
    requires Implemented(c) && !HasPayload(c)
    requires !(c.GetProperty? || c.SetProperty? || c.KeyProvisioning? || c.TrustProvisioning?)
    ensures FromParams(Kind(c), ToParams(c)) == Some(c)
  {
  }

  lemma KeyParamsRoundTrip(op: KeyProvOperation)
    requires op.SetUserKey? ==> |op.keyData| < 0x1_0000_0000
    requires op.WriteKeyStore? ==> |op.keystoreData| < 0x1_0000_0000
    ensures KeyFromParams(KeyParams(op)) == Some(op)
  {
    match op
    case SetUserKey(t, _) => KeyTypeCodeRoundTrip(t);
    case SetKey(t, _) => KeyTypeCodeRoundTrip(t);
    case _ =>
  }

  lemma TrustParamsRoundTrip(op: TrustProvOperation)
    ensures TrustFromParams(TrustParams(op).words) == Some(op)
  {
  }

  /** Two commands of the same kind with the same encoding are the same
      command. */
  lemma ParamsInjective(c1: CommandTag, c2: CommandTag)
    requires Implemented(c1) && Implemented(c2) && Kind(c1) == Kind(c2)
    requires HasPayload(c1) ==> |Payload(c1)| < 0x1_0000_0000
    requires HasPayload(c2) ==> |Payload(c2)| < 0x1_0000_0000
    requires ToParams(c1) == ToParams(c2)
    ensures c1 == c2
  {
    ParamsRoundTrip(c1);
    ParamsRoundTrip(c2);
  }
}
