/** Status codes a McuBoot device reports in command responses.

    `StatusCode` is a field-less `#[repr(u32)]` enum with 266 variants
    spread over the generic, flash-driver, I2C/SPI/QSPI, memory, ROM-loader,
    security and provisioning ranges. A field-less enum is exactly its set of
    discriminants, so the model represents a status by its discriminant,
    restricted to the declared ones; the `Display` texts survive as `Text`. */
module Status {
  import opened Base

  /** True of the discriminants `StatusCode` declares. */
  predicate Declared(n: int) {
    if n <= 118 then DeclaredIn0(n)
    else if n <= 402 then DeclaredIn1(n)
    else if n <= 10006 then DeclaredIn2(n)
    else if n <= 10203 then DeclaredIn3(n)
    else if n <= 10600 then DeclaredIn4(n)
    else if n <= 20006 then DeclaredIn5(n)
    else if n <= 21103 then DeclaredIn6(n)
    else if n <= 21220 then DeclaredIn7(n)
    else if n <= 52805 then DeclaredIn8(n)
    else if n <= 80020 then DeclaredIn9(n)
    else if n <= 0x5a5a5a5a then DeclaredIn10(n)
    else if n <= 0xdeadbeef then DeclaredIn11(n)
    else false
  }

  predicate DeclaredIn0(n: int) {
    match n
    case 0 => true
    case 1 => true
    case 2 => true
    case 3 => true
    case 4 => true
    case 5 => true
    case 6 => true
    case 100 => true
    case 101 => true
    case 102 => true
    case 103 => true
    case 104 => true
    case 105 => true
    case 106 => true
    case 107 => true
    case 108 => true
    case 109 => true
    case 111 => true
    case 112 => true
    case 113 => true
    case 114 => true
    case 116 => true
    case 117 => true
    case 118 => true
    case _ => false
  }

  predicate DeclaredIn1(n: int) {
    match n
    case 119 => true
    case 132 => true
    case 133 => true
    case 134 => true
    case 135 => true
    case 136 => true
    case 137 => true
    case 138 => true
    case 139 => true
    case 140 => true
    case 141 => true
    case 148 => true
    case 149 => true
    case 150 => true
    case 151 => true
    case 152 => true
    case 200 => true
    case 201 => true
    case 202 => true
    case 300 => true
    case 301 => true
    case 400 => true
    case 401 => true
    case 402 => true
    case _ => false
  }

  predicate DeclaredIn2(n: int) {
    match n
    case 403 => true
    case 404 => true
    case 405 => true
    case 406 => true
    case 407 => true
    case 408 => true
    case 500 => true
    case 501 => true
    case 502 => true
    case 503 => true
    case 1812 => true
    case 6000 => true
    case 6001 => true
    case 6002 => true
    case 7000 => true
    case 7001 => true
    case 7002 => true
    case 10000 => true
    case 10001 => true
    case 10002 => true
    case 10003 => true
    case 10004 => true
    case 10005 => true
    case 10006 => true
    case _ => false
  }

  predicate DeclaredIn3(n: int) {
    match n
    case 10100 => true
    case 10101 => true
    case 10102 => true
    case 10103 => true
    case 10104 => true
    case 10105 => true
    case 10106 => true
    case 10107 => true
    case 10108 => true
    case 10109 => true
    case 10110 => true
    case 10111 => true
    case 10112 => true
    case 10113 => true
    case 10114 => true
    case 10115 => true
    case 10116 => true
    case 10117 => true
    case 10118 => true
    case 10119 => true
    case 10200 => true
    case 10201 => true
    case 10202 => true
    case 10203 => true
    case _ => false
  }

  predicate DeclaredIn4(n: int) {
    match n
    case 10204 => true
    case 10205 => true
    case 10206 => true
    case 10207 => true
    case 10208 => true
    case 10209 => true
    case 10210 => true
    case 10211 => true
    case 10212 => true
    case 10213 => true
    case 10214 => true
    case 10300 => true
    case 10301 => true
    case 10302 => true
    case 10400 => true
    case 10401 => true
    case 10402 => true
    case 10403 => true
    case 10404 => true
    case 10500 => true
    case 10501 => true
    case 10502 => true
    case 10503 => true
    case 10600 => true
    case _ => false
  }

  predicate DeclaredIn5(n: int) {
    match n
    case 10601 => true
    case 10602 => true
    case 10603 => true
    case 10604 => true
    case 10605 => true
    case 10606 => true
    case 10607 => true
    case 10608 => true
    case 10609 => true
    case 10700 => true
    case 10701 => true
    case 10702 => true
    case 10703 => true
    case 10704 => true
    case 10800 => true
    case 10801 => true
    case 10802 => true
    case 20000 => true
    case 20001 => true
    case 20002 => true
    case 20003 => true
    case 20004 => true
    case 20005 => true
    case 20006 => true
    case _ => false
  }

  predicate DeclaredIn6(n: int) {
    match n
    case 20007 => true
    case 20008 => true
    case 20009 => true
    case 20010 => true
    case 20011 => true
    case 20100 => true
    case 20101 => true
    case 20102 => true
    case 20103 => true
    case 20104 => true
    case 20105 => true
    case 20106 => true
    case 20107 => true
    case 20108 => true
    case 20109 => true
    case 20110 => true
    case 20200 => true
    case 20201 => true
    case 20202 => true
    case 20203 => true
    case 21100 => true
    case 21101 => true
    case 21102 => true
    case 21103 => true
    case _ => false
  }

  predicate DeclaredIn7(n: int) {
    match n
    case 21104 => true
    case 21105 => true
    case 21106 => true
    case 21107 => true
    case 21108 => true
    case 21109 => true
    case 21110 => true
    case 21116 => true
    case 21200 => true
    case 21201 => true
    case 21202 => true
    case 21203 => true
    case 21204 => true
    case 21205 => true
    case 21206 => true
    case 21207 => true
    case 21208 => true
    case 21209 => true
    case 21210 => true
    case 21216 => true
    case 21217 => true
    case 21218 => true
    case 21219 => true
    case 21220 => true
    case _ => false
  }

  predicate DeclaredIn8(n: int) {
    match n
    case 21221 => true
    case 21222 => true
    case 22000 => true
    case 22001 => true
    case 22002 => true
    case 22003 => true
    case 22004 => true
    case 22005 => true
    case 22006 => true
    case 22007 => true
    case 30000 => true
    case 30001 => true
    case 30002 => true
    case 30003 => true
    case 30004 => true
    case 30005 => true
    case 30006 => true
    case 30007 => true
    case 52009 => true
    case 52801 => true
    case 52802 => true
    case 52803 => true
    case 52804 => true
    case 52805 => true
    case _ => false
  }

  predicate DeclaredIn9(n: int) {
    match n
    case 52806 => true
    case 52807 => true
    case 52808 => true
    case 80000 => true
    case 80001 => true
    case 80002 => true
    case 80003 => true
    case 80004 => true
    case 80005 => true
    case 80006 => true
    case 80007 => true
    case 80008 => true
    case 80009 => true
    case 80010 => true
    case 80011 => true
    case 80012 => true
    case 80013 => true
    case 80014 => true
    case 80015 => true
    case 80016 => true
    case 80017 => true
    case 80018 => true
    case 80019 => true
    case 80020 => true
    case _ => false
  }

  predicate DeclaredIn10(n: int) {
    match n
    case 80021 => true
    case 80022 => true
    case 80023 => true
    case 80024 => true
    case 80025 => true
    case 80026 => true
    case 80027 => true
    case 80028 => true
    case 80029 => true
    case 80101 => true
    case 80102 => true
    case 80103 => true
    case 80104 => true
    case 80105 => true
    case 80106 => true
    case 80107 => true
    case 100001 => true
    case 100002 => true
    case 100003 => true
    case 100004 => true
    case 100005 => true
    case 100006 => true
    case 100007 => true
    case 0x5a5a5a5a => true
    case _ => false
  }

  predicate DeclaredIn11(n: int) {
    match n
    case 1515890085 => true
    case 0xdeadbeef => true
    case _ => false
  }

  type StatusCode = n: u32 | Declared(n) witness 0

  const Success: StatusCode := 0
  const Fail: StatusCode := 1
  const InvalidArgument: StatusCode := 4
  const Timeout: StatusCode := 5
  const MemoryBlankPageReadDisallowed: StatusCode := 10211
  const OtpVerifyFail: StatusCode := 52009
  const UnknownStatusCode: StatusCode := 0xdeadbeef
  const AppCrcCheckPassed: StatusCode := 10400
  const ReliableUpdateSuccess: StatusCode := 10600
  const El2goProvSuccess: StatusCode := 0x5a5a5a5a
  const SecuritySubsystemError: StatusCode := 1515890085

  /** `u32::from(status)`: the discriminant. */
  function Code(s: StatusCode): u32 {
    s
  }

  /** `StatusCode::try_from(n)` (derived from the `u32` repr): the variant
      whose discriminant is `n`, or none. */
  function FromCode(n: int): (r: Option<StatusCode>)
    ensures r.Some? <==> Declared(n)
    ensures r.Some? ==> Code(r.value) == n
  {
    if Declared(n) then Some(n) else None
  }

  /** Every status survives the trip through its discriminant. */
  lemma FromCodeOfCode(s: StatusCode)
    ensures FromCode(Code(s)) == Some(s)
  {
  }

  /** `is_success`: the `Success` variant, discriminant 0. */
  predicate IsSuccess(s: StatusCode) {
    s == Success
  }

  /** Only discriminant 0 is success; statuses that report a success of
      their own (an application CRC check, a reliable update, EdgeLock 2GO
      provisioning) are not. */
  lemma SuccessIsZero(s: StatusCode)
    ensures IsSuccess(s) <==> Code(s) == 0
    ensures !IsSuccess(AppCrcCheckPassed) && !IsSuccess(ReliableUpdateSuccess) && !IsSuccess(El2goProvSuccess)
  {
  }

  /** No discriminant lies above `UnknownStatusCode`'s 0xDEADBEEF. */
  lemma CodeAtMost(s: StatusCode)
    ensures Code(s) <= Code(UnknownStatusCode) == 0xDEAD_BEEF
  {
    assert Declared(s);
  }

  /** `Success` and `Fail` display as their variant names; the others
      named here display their attribute's text. */
  lemma TextsOfNamedStatuses()
    ensures Text(Success) == "Success" && Text(Fail) == "Fail"
    ensures Text(MemoryBlankPageReadDisallowed) == "Memory Blank Page Read Disallowed"
    ensures Text(OtpVerifyFail) == "OTP: Failed to verify OTP write"
    ensures Text(UnknownStatusCode) == "Unknown status code"
  {
  }

  /** The `Display` text of a status: the text its `#[display]` attribute
      gives, or the variant name for the seven variants without one. */
  function Text(s: StatusCode): string {
    if s <= 118 then TextIn0(s)
    else if s <= 402 then TextIn1(s)
    else if s <= 10006 then TextIn2(s)
    else if s <= 10203 then TextIn3(s)
    else if s <= 10600 then TextIn4(s)
    else if s <= 20006 then TextIn5(s)
    else if s <= 21103 then TextIn6(s)
    else if s <= 21220 then TextIn7(s)
    else if s <= 52805 then TextIn8(s)
    else if s <= 80020 then TextIn9(s)
    else if s <= 0x5a5a5a5a then TextIn10(s)
    else if s <= 0xdeadbeef then TextIn11(s)
    else ""
  }

  function TextIn0(n: int): string {
    match n
    case 0 => "Success"
    case 1 => "Fail"
    case 2 => "ReadOnly"
    case 3 => "OutOfRange"
    case 4 => "InvalidArgument"
    case 5 => "Timeout"
    case 6 => "NoTransferInProgress"
    case 100 => "FLASH Driver: Size Error"
    case 101 => "FLASH Driver: Alignment Error"
    case 102 => "FLASH Driver: Address Error"
    case 103 => "FLASH Driver: Access Error"
    case 104 => "FLASH Driver: Protection Violation"
    case 105 => "FLASH Driver: Command Failure"
    case 106 => "FLASH Driver: Unknown Property"
    case 107 => "FLASH Driver: Provided Key Does Not Match Programmed Flash Memory Key"
    case 108 => "FLASH Driver: Region Execute Only"
    case 109 => "FLASH Driver: Execute In RAM Function Not Ready"
    case 111 => "FLASH Driver: Command Not Supported"
    case 112 => "FLASH Driver: Flash Memory Property Is Read-Only"
    case 113 => "FLASH Driver: Flash Memory Property Value Out Of Range"
    case 114 => "FLASH Driver: Flash Memory Prefetch Speculation Option Is Invalid"
    case 116 => "FLASH Driver: ECC Error"
    case 117 => "FLASH Driver: Destination And Source Memory Contents Do Not Match"
    case 118 => "FLASH Driver: Loss Of Regulation During Read"
    case _ => ""
  }

  function TextIn1(n: int): string {
    match n
    case 119 => "FLASH Driver: Wait State Cycle Set To Read/Write Mode Is Invalid"
    case 132 => "FLASH Driver: Out Of Date CFPA Page"
    case 133 => "FLASH Driver: Blank IFR Page Data"
    case 134 => "FLASH Driver: Encrypted Regions Erase Not Done At Once"
    case 135 => "FLASH Driver: Program Verification Not Allowed"
    case 136 => "FLASH Driver: Hash Check Error"
    case 137 => "FLASH Driver: Sealed PFR Region"
    case 138 => "FLASH Driver: PFR Region Write Broken"
    case 139 => "FLASH Driver: NMPA Update Not Allowed"
    case 140 => "FLASH Driver: CMPA Cfg Direct Erase Not Allowed"
    case 141 => "FLASH Driver: PFR Bank Is Locked"
    case 148 => "FLASH Driver: CFPA Scratch Page Invalid"
    case 149 => "FLASH Driver: CFPA Version Rollback Disallowed"
    case 150 => "FLASH Driver: Flash Memory Hiding Read Not Allowed"
    case 151 => "FLASH Driver: Flash Firewall Page Locked Erase And Program Are Not Allowed"
    case 152 => "FLASH Driver: Flash Memory State Busy Flash Memory Command Is In Progress"
    case 200 => "I2C Driver: Slave Tx Underrun"
    case 201 => "I2C Driver: Slave Rx Overrun"
    case 202 => "I2C Driver: Arbitration Lost"
    case 300 => "SPI Driver: Slave Tx Underrun"
    case 301 => "SPI Driver: Slave Rx Overrun"
    case 400 => "QSPI Driver: Flash Size Error"
    case 401 => "QSPI Driver: Flash Alignment Error"
    case 402 => "QSPI Driver: Flash Address Error"
    case _ => ""
  }

  function TextIn2(n: int): string {
    match n
    case 403 => "QSPI Driver: Flash Command Failure"
    case 404 => "QSPI Driver: Flash Unknown Property"
    case 405 => "QSPI Driver: Not Configured"
    case 406 => "QSPI Driver: Command Not Supported"
    case 407 => "QSPI Driver: Command Timeout"
    case 408 => "QSPI Driver: Write Failure"
    case 500 => "OTFAD Driver: Security Violation"
    case 501 => "OTFAD Driver: Logically Disabled"
    case 502 => "OTFAD Driver: Invalid Key"
    case 503 => "OTFAD Driver: Invalid Key Blob"
    case 1812 => "Send Operation Condition failed"
    case 6000 => "FLEXSPI: Sequence Execution Timeout"
    case 6001 => "FLEXSPI: Invalid Sequence"
    case 6002 => "FLEXSPI: Device Timeout"
    case 7000 => "FLEXSPI: Sequence Execution Timeout"
    case 7001 => "FLEXSPI: Invalid Sequence"
    case 7002 => "FLEXSPI: Device Timeout"
    case 10000 => "Unknown Command"
    case 10001 => "Security Violation"
    case 10002 => "Abort Data Phase"
    case 10003 => "Ping Error"
    case 10004 => "No response packet from target device"
    case 10005 => "No Response Expected"
    case 10006 => "Unsupported Command"
    case _ => ""
  }

  function TextIn3(n: int): string {
    match n
    case 10100 => "ROM Loader: Section Overrun"
    case 10101 => "ROM Loader: Signature Error"
    case 10102 => "ROM Loader: Section Length Error"
    case 10103 => "ROM Loader: Unencrypted Only"
    case 10104 => "ROM Loader: EOF Reached"
    case 10105 => "ROM Loader: Checksum Error"
    case 10106 => "ROM Loader: CRC32 Error"
    case 10107 => "ROM Loader: Unknown Command"
    case 10108 => "ROM Loader: ID Not Found"
    case 10109 => "ROM Loader: Data Underrun"
    case 10110 => "ROM Loader: Jump Returned"
    case 10111 => "ROM Loader: Call Failed"
    case 10112 => "ROM Loader: Key Not Found"
    case 10113 => "ROM Loader: Secure Only"
    case 10114 => "ROM Loader: Reset Returned"
    case 10115 => "ROM Loader: Rollback Blocked"
    case 10116 => "ROM Loader: Invalid Section Mac Count"
    case 10117 => "ROM Loader: Unexpected Command"
    case 10118 => "ROM Loader: Bad SBKEK Detected"
    case 10119 => "ROM Loader: Pending Jump Command"
    case 10200 => "Memory Range Invalid"
    case 10201 => "Memory Read Failed"
    case 10202 => "Memory Write Failed"
    case 10203 => "Memory Cumulative Write"
    case _ => ""
  }

  function TextIn4(n: int): string {
    match n
    case 10204 => "Memory App Overlap with exec region"
    case 10205 => "Memory Not Configured"
    case 10206 => "Memory Alignment Error"
    case 10207 => "Memory Verify Failed"
    case 10208 => "Memory Write Protected"
    case 10209 => "Memory Address Error"
    case 10210 => "Memory Black Check Failed"
    case 10211 => "Memory Blank Page Read Disallowed"
    case 10212 => "Memory Protected Page Read Disallowed"
    case 10213 => "Memory PFR Spec Region Write Broken"
    case 10214 => "Memory Unsupported Command"
    case 10300 => "Unknown Property"
    case 10301 => "Read Only Property"
    case 10302 => "Invalid Property Value"
    case 10400 => "Application CRC Check: Passed"
    case 10401 => "Application: CRC Check: Failed"
    case 10402 => "Application CRC Check: Inactive"
    case 10403 => "Application CRC Check: Invalid"
    case 10404 => "Application CRC Check: Out Of Range"
    case 10500 => "Packetizer Error: No Ping Response"
    case 10501 => "Packetizer Error: No response received for ping command"
    case 10502 => "Packetizer Error: Invalid packet type"
    case 10503 => "Packetizer Error: No response received for command"
    case 10600 => "Reliable Update: Success"
    case _ => ""
  }

  function TextIn5(n: int): string {
    match n
    case 10601 => "Reliable Update: Fail"
    case 10602 => "Reliable Update: Inactive"
    case 10603 => "Reliable Update: Backup Application Invalid"
    case 10604 => "Reliable Update: Still In Main Application"
    case 10605 => "Reliable Update: Swap System Not Ready"
    case 10606 => "Reliable Update: Backup Bootloader Not Ready"
    case 10607 => "Reliable Update: Swap Indicator Address Invalid"
    case 10608 => "Reliable Update: Swap System Not Available"
    case 10609 => "Reliable Update: Swap Test"
    case 10700 => "SerialNorEeprom: Address Invalid"
    case 10701 => "SerialNorEeprom: Transfer Error"
    case 10702 => "SerialNorEeprom: Type Invalid"
    case 10703 => "SerialNorEeprom: Size Invalid"
    case 10704 => "SerialNorEeprom: Command Invalid"
    case 10800 => "RomApi: Need More Data"
    case 10801 => "RomApi: Buffer Size Not Enough"
    case 10802 => "RomApi: Invalid Buffer"
    case 20000 => "FlexSPINAND: Read Page Fail"
    case 20001 => "FlexSPINAND: Read Cache Fail"
    case 20002 => "FlexSPINAND: Ecc Check Fail"
    case 20003 => "FlexSPINAND: Page Load Fail"
    case 20004 => "FlexSPINAND: Page Execute Fail"
    case 20005 => "FlexSPINAND: Erase Block Fail"
    case 20006 => "FlexSPINAND: Wait Timeout"
    case _ => ""
  }

  function TextIn6(n: int): string {
    match n
    case 20007 => "SPI NAND: PageSize over the max supported size"
    case 20008 => "SPI NAND: Failed to update Flash config block to SPI NAND"
    case 20009 => "SPI NAND: Failed to update discovered bad block table to SPI NAND"
    case 20010 => "FlexSPINAND: Write Alignment Error"
    case 20011 => "FlexSPINAND: Not Found"
    case 20100 => "FLEXSPINOR: Program Fail"
    case 20101 => "FLEXSPINOR: Erase Sector Fail"
    case 20102 => "FLEXSPINOR: Erase All Fail"
    case 20103 => "FLEXSPINOR:Wait Timeout"
    case 20104 => "FlexSPINOR: PageSize over the max supported size"
    case 20105 => "FlexSPINOR:Write Alignment Error"
    case 20106 => "FlexSPINOR: Command Failure"
    case 20107 => "FlexSPINOR: SFDP Not Found"
    case 20108 => "FLEXSPINOR: Unsupported SFDP Version"
    case 20109 => "FLEXSPINOR Flash Not Found"
    case 20110 => "FLEXSPINOR: DTR Read Dummy Probe Failed"
    case 20200 => "OCOTP: Read Failure"
    case 20201 => "OCOTP: Program Failure"
    case 20202 => "OCOTP: Reload Failure"
    case 20203 => "OCOTP: Wait Timeout"
    case 21100 => "SemcNOR: Device Timeout"
    case 21101 => "SemcNOR: Invalid Memory Address"
    case 21102 => "SemcNOR: unmatched Command Set"
    case 21103 => "SemcNOR: Address Alignment Error"
    case _ => ""
  }

  function TextIn7(n: int): string {
    match n
    case 21104 => "SemcNOR: Invalid Cfi Signature"
    case 21105 => "SemcNOR: Command Error No Op To Suspend"
    case 21106 => "SemcNOR: Command Error No Info Available"
    case 21107 => "SemcNOR: Block Erase Command Failure"
    case 21108 => "SemcNOR: Buffer Program Command Failure"
    case 21109 => "SemcNOR: Program Verify Failure"
    case 21110 => "SemcNOR: Erase Verify Failure"
    case 21116 => "SemcNOR: Invalid Cfg Tag"
    case 21200 => "SemcNAND: Device Timeout"
    case 21201 => "SemcNAND: Invalid Memory Address"
    case 21202 => "SemcNAND: Not Equal To One Page Size"
    case 21203 => "SemcNAND: More Than One Page Size"
    case 21204 => "SemcNAND: Ecc Check Fail"
    case 21205 => "SemcNAND: Invalid Onfi Parameter"
    case 21206 => "SemcNAND: Cannot Enable Device Ecc"
    case 21207 => "SemcNAND: Switch Timing Mode Failure"
    case 21208 => "SemcNAND: Program Verify Failure"
    case 21209 => "SemcNAND: Erase Verify Failure"
    case 21210 => "SemcNAND: Invalid Readback Buffer"
    case 21216 => "SemcNAND: Invalid Cfg Tag"
    case 21217 => "SemcNAND: Fail To Update Fcb"
    case 21218 => "SemcNAND: Fail To Update Dbbt"
    case 21219 => "SemcNAND: Disallow Overwrite Bcb"
    case 21220 => "SemcNAND: Only Support Onfi Device"
    case _ => ""
  }

  function TextIn8(n: int): string {
    match n
    case 21221 => "SemcNAND: More Than Max Image Copy"
    case 21222 => "SemcNAND: Disordered Image Copies"
    case 22000 => "SPIFINOR: Program Fail"
    case 22001 => "SPIFINOR: Erase Sector Fail"
    case 22002 => "SPIFINOR: Erase All Fail"
    case 22003 => "SPIFINOR: Wait Timeout"
    case 22004 => "SPIFINOR: Not Supported"
    case 22005 => "SPIFINOR: Write Alignment Error"
    case 22006 => "SPIFINOR: Command Failure"
    case 22007 => "SPIFINOR: SFDP Not Found"
    case 30000 => "EDGELOCK: Invalid Response"
    case 30001 => "EDGELOCK: Response Error"
    case 30002 => "EDGELOCK: Abort"
    case 30003 => "EDGELOCK: Operation Failed"
    case 30004 => "EDGELOCK: OTP Program Failure"
    case 30005 => "EDGELOCK: OTP Locked"
    case 30006 => "EDGELOCK: OTP Invalid IDX"
    case 30007 => "EDGELOCK: Invalid Lifecycle"
    case 52009 => "OTP: Failed to verify OTP write"
    case 52801 => "OTD: Invalid OTP address"
    case 52802 => "OTD: Programming failed"
    case 52803 => "OTP: CRC check failed"
    case 52804 => "OTP: Error happened during OTP operation"
    case 52805 => "OTP: ECC check failed during OTP operation"
    case _ => ""
  }

  function TextIn9(n: int): string {
    match n
    case 52806 => "OTP: Field is locked when programming"
    case 52807 => "OTP: Operation timed out"
    case 52808 => "OTP: CRC check passed"
    case 80000 => "TP: General error"
    case 80001 => "TP: Error during cryptographic operation"
    case 80002 => "TP: NULL pointer dereference or when buffer could not be allocated"
    case 80003 => "TP: Already initialized"
    case 80004 => "TP: Buffer is too small"
    case 80005 => "TP: Address out of allowed range or buffer could not be allocated"
    case 80006 => "TP: Container header or size is invalid"
    case 80007 => "TP: Container entry invalid"
    case 80008 => "TP: Container entry not found in container"
    case 80009 => "TP: Attempt to process command in disallowed state"
    case 80010 => "TP: ISP command arguments are invalid"
    case 80011 => "TP: PUF operation error"
    case 80012 => "TP: Flash erase/program/verify_erase failed"
    case 80013 => "TP: SBKEK or USER KEK cannot be stored in secret box"
    case 80014 => "TP: Protected Flash Region operation failed"
    case 80015 => "TP: Container signature verification failed"
    case 80016 => "TP: CFPA page cannot be stored"
    case 80017 => "TP: CMPA page cannot be stored or ROTKH or SECU registers are invalid"
    case 80018 => "TP: Address is out of range"
    case 80019 => "TP: Container address in write context is invalid or there is no memory for entry storage"
    case 80020 => "TP: Container address in read context is unaligned"
    case _ => ""
  }

  function TextIn10(n: int): string {
    match n
    case 80021 => "TP: There is not enough memory to store the container"
    case 80022 => "TP: Attempt to sign an empty container"
    case 80023 => "TP: Destination address of OEM certificate is invalid"
    case 80024 => "TP: Destination address of certificate is unaligned"
    case 80025 => "TP: OEM certificates are overlapping due to wrong destination addresses"
    case 80026 => "TP: Error during packet sending/receiving"
    case 80027 => "TP: Data in packet handle are invalid"
    case 80028 => "TP: Unknown command was received"
    case 80029 => "TP: Error during processing SB3 file"
    case 80101 => "TP: Critical error"
    case 80102 => "TP: Error of crypto module which prevents proper functionality"
    case 80103 => "TP: Initialization or start of the PUF periphery failed"
    case 80104 => "TP: Initialization of PFR or reading of activation code failed"
    case 80105 => "TP: Peripheral failure"
    case 80106 => "TP: Error during PRINCE encryption/decryption"
    case 80107 => "TP: SHA check verification failed"
    case 100001 => "IAP: Invalid Argument Detected During API Execution"
    case 100002 => "IAP: Heap Size Not Large Enough During API Execution"
    case 100003 => "IAP: Read Memory Operation Disallowed During API Execution"
    case 100004 => "IAP: Flash Memory Region To Be Programmed Is Not Empty"
    case 100005 => "IAP: Erase Operation Failed"
    case 100006 => "IAP: Specific Command Not Supported"
    case 100007 => "IAP: Memory Access Disabled"
    case 0x5a5a5a5a => "Device has been successfully provisioned."
    case _ => ""
  }

  function TextIn11(n: int): string {
    match n
    case 1515890085 => "Security SubSystem Error"
    case 0xdeadbeef => "Unknown status code"
    case _ => ""
  }

}
