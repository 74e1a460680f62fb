/** The USB-HID transport (`protocols/usb.rs`). The protocol layer hands
    it serial frames; it strips their framing and CRC and writes HID reports
    `[report id, 0, length low, length high]` followed by the payload, and it
    turns an incoming report back into a payload. There is no ACK and no
    CRC on this transport.

    The device is a script: `reports` holds the outcome of each read, in
    order, a report or `None` for a read that fails; once the script runs
    out, a read times out and returns no bytes. `written` logs the reports
    the host wrote; writes always succeed. */
module Usb {
  import opened Base
  import opened Errors
  import Packets
  import Parsers

  /** Report ids. */
  const CmdOut: u8 := 0x01
  const DataOut: u8 := 0x02
  const CmdIn: u8 := 0x03
  const DataIn: u8 := 0x04

  /** `MAX_PACKET_SIZE`: the buffer every report is read into. */
  const MaxPacketSize: nat := 1024

  /** The largest payload a report of `MaxPacketSize` bytes holds. */
  const MaxPayload: nat := MaxPacketSize - 4

  datatype Hid = Hid(reports: seq<Option<Bytes>>, written: seq<Bytes>)

  /** How a call ends: with a result, or with a panic on a slice that runs
      past the end of the report buffer. */
  datatype Outcome<+T> = Returned(result: Result<T, CommError>) | Panicked

  /** The outcome of an exchange and the device after it. */
  datatype Transfer<+T> = Transfer(outcome: Outcome<T>, hid: Hid)

  /** A report: id, a zero byte, the payload length (`len & 0xFF`,
      `(len >> 8) & 0xFF`), then the payload. */
  function HidReport(id: u8, data: Bytes): (r: Bytes)
    ensures |r| == 4 + |data| && r[0] == id && r[1] == 0 && r[4..] == data
  {
    [id, 0, |data| % 0x100, (|data| / 0x100) % 0x100] + data
  }

  /** The length bytes of a report of fewer than 64 KiB payload bytes are
      the little-endian length, as in a serial frame. */
  lemma HidReportLength(id: u8, data: Bytes)
    requires |data| < 0x1_0000
    ensures HidReport(id, data)[2..4] == U16ToLe(|data|)
    ensures U16FromLe(HidReport(id, data)[2], HidReport(id, data)[3]) == |data|
  {
    var r := HidReport(id, data);
    DivUnique(|data| / 0x100, 0x100, 0, |data| / 0x100);
    assert r[2..4] == [r[2], r[3]];
  }

  /** The report `write_packet_raw` makes of a serial frame: the frame must
      start with the start byte and hold its declared payload (checked in
      that order, both before the packet type), and only command and data
      frames have a report id. The CRC field is dropped unchecked. */
  function Reframe(frame: Bytes): (r: Result<Bytes, CommError>)
    ensures r.Err? ==> r.error == InvalidHeader || r.error == InvalidData
  {
    if |frame| < 6 || frame[0] != Packets.StartByte then Err(InvalidHeader)
    else
      var len := U16FromLe(frame[2], frame[3]);
      if |frame| < 6 + len then Err(InvalidData)
      else
        var data := frame[6..6 + len];
        if frame[1] == Packets.CmdCode then Ok(HidReport(CmdOut, data))
        else if frame[1] == Packets.DataCode then Ok(HidReport(DataOut, data))
        else Err(InvalidHeader)
  }

  /** The report id a serial packet type travels under. */
  function OutId(code: u8): (id: Option<u8>)
    ensures id.Some? <==> code == Packets.CmdCode || code == Packets.DataCode
  {
    if code == Packets.CmdCode then Some(CmdOut)
    else if code == Packets.DataCode then Some(DataOut)
    else None
  }

  /** Every outcome of `Reframe`, by the frame's shape: a frame without
      its start byte or shorter than a header is an invalid header, a
      frame shorter than its declared payload is invalid data whatever its
      type, and a whole frame becomes the report of its type or, for any
      other type, an invalid header. */
  lemma ReframeCases(frame: Bytes)
    ensures |frame| < 6 || frame[0] != Packets.StartByte ==> Reframe(frame) == Err(InvalidHeader)
    ensures |frame| >= 6 && frame[0] == Packets.StartByte ==>
      var len := U16FromLe(frame[2], frame[3]);
      && (|frame| < 6 + len ==> Reframe(frame) == Err(InvalidData))
      && (|frame| >= 6 + len && OutId(frame[1]).None? ==> Reframe(frame) == Err(InvalidHeader))
      && (|frame| >= 6 + len && OutId(frame[1]).Some? ==>
            Reframe(frame) == Ok(HidReport(OutId(frame[1]).value, frame[6..6 + len])))
  {
  }

  /** The converse: an accepted frame is a command or data frame whose
      report carries the frame's length bytes and payload. */
  lemma ReframeAccepts(frame: Bytes)
    requires Reframe(frame).Ok?
    ensures |frame| >= 6 && frame[0] == Packets.StartByte && OutId(frame[1]).Some?
    ensures var len := U16FromLe(frame[2], frame[3]);
      && 6 + len <= |frame|
      && Reframe(frame).value == [OutId(frame[1]).value, 0, frame[2], frame[3]] + frame[6..6 + len]
  {
    var len := U16FromLe(frame[2], frame[3]);
    var data := frame[6..6 + len];
    HidReportLength(OutId(frame[1]).value, data);
    U16LeBytesRoundTrip(frame[2], frame[3]);
    var r := Reframe(frame).value;
    assert r == HidReport(OutId(frame[1]).value, data);
    assert r[2..4] == [frame[2], frame[3]];
    assert r == r[..2] + r[2..4] + r[4..];
  }

  /** The frame of a command or data packet becomes the report of its
      payload: the re-framing undoes `construct_header`. */
  lemma ReframeConstructHeader(code: u8, data: Bytes)
    requires OutId(code).Some? && |data| <= 0xFFFF
    ensures Reframe(Packets.ConstructHeader(code, data)) == Ok(HidReport(OutId(code).value, data))
  {
    var frame := Packets.ConstructHeader(code, data);
    DivUnique(|data|, 0x1_0000, 0, |data|);
    assert frame[6..6 + |data|] == frame[6..];
  }

  /** The CRC field does not matter: frames that differ only there give
      the same report. */
  lemma ReframeIgnoresCrc(frame: Bytes, lo: u8, hi: u8)
    requires |frame| >= 6
    ensures Reframe(frame[..4] + [lo, hi] + frame[6..]) == Reframe(frame)
  {
    var other := frame[..4] + [lo, hi] + frame[6..];
    assert other[..4] == frame[..4] && other[6..] == frame[6..];
    assert |other| == |frame|;
    assert other[0] == frame[0] && other[1] == frame[1] && other[2] == frame[2] && other[3] == frame[3];
    var len := U16FromLe(frame[2], frame[3]);
    if 6 + len <= |frame| {
      assert other[6..6 + len] == other[6..][..len] == frame[6..][..len] == frame[6..6 + len];
    }
  }

  /** `write_packet_raw`: writes the report of the frame, or fails before
      writing anything. */
  function WritePacketRaw(h: Hid, frame: Bytes): (s: Transfer<()>)
    ensures s.outcome.Returned? && s.hid.reports == h.reports
    ensures s.outcome.result.Ok? <==> Reframe(frame).Ok?
    ensures s.outcome.result.Ok? ==> s.hid.written == h.written + [Reframe(frame).value]
    ensures s.outcome.result.Err? ==> s.hid.written == h.written
  {
    match Reframe(frame)
    case Ok(report) => Transfer(Returned(Ok(())), Hid(h.reports, h.written + [report]))
    case Err(e) => Transfer(Returned(Err(e)), h)
  }

  function Zeros(n: nat): (z: Bytes)
    ensures |z| == n && forall i :: 0 <= i < n ==> z[i] == 0
  {
    seq(n, _ => 0)
  }

  /** What a read leaves in the buffer: a longer report is cut to the
      buffer's size. */
  function Received(got: Bytes): (r: Bytes)
    ensures |r| <= MaxPacketSize && |r| <= |got| && r == got[..|r|]
    ensures |got| <= MaxPacketSize ==> r == got
  {
    if |got| > MaxPacketSize then got[..MaxPacketSize] else got
  }

  /** The payload of a received report of `size` bytes, read from the
      zero-initialised buffer. */
  function ParseReport(got: Bytes): (o: Outcome<Bytes>)
    requires |got| <= MaxPacketSize
  {
    var size := |got|;
    if size < 4 then Returned(Err(InvalidHeader))
    else
      var report := got + Zeros(MaxPacketSize - size);
      var len := U16FromLe(report[2], report[3]);
      if len == 0 then Returned(Err(Aborted))
      else if report[0] == CmdIn then
        if 4 + len > MaxPacketSize then Panicked else Returned(Ok(report[4..4 + len]))
      else if report[0] == DataIn && size >= 4 + len then Returned(Ok(report[4..4 + len]))
      else if size > 4 then Returned(Ok(report[4..size]))
      else Returned(Ok([]))
  }

  /** `read_packet_raw`: one read of a report. A timed-out read returns no
      bytes, which is too short for a header. */
  function ReadPacketRaw(h: Hid): (s: Transfer<Bytes>)
    ensures |h.reports| == 0 ==> s == Transfer(Returned(Err(InvalidHeader)), h)
    ensures |h.reports| > 0 ==> s.hid == Hid(h.reports[1..], h.written)
  {
    if |h.reports| == 0 then Transfer(Returned(Err(InvalidHeader)), h)
    else
      var rest := Hid(h.reports[1..], h.written);
      match h.reports[0]
      case None => Transfer(Returned(Err(IOError)), rest)
      case Some(got) => Transfer(ParseReport(Received(got)), rest)
  }

  /** A device answering with the report of a payload of 1 to 1020 bytes,
      as a command response or as data, delivers exactly that payload. */
  lemma ReadPacketRawRoundTrip(id: u8, data: Bytes, more: seq<Option<Bytes>>, written: seq<Bytes>)
    requires id == CmdIn || id == DataIn
    requires 1 <= |data| <= MaxPayload
    ensures ReadPacketRaw(Hid([Some(HidReport(id, data))] + more, written))
      == Transfer(Returned(Ok(data)), Hid(more, written))
  {
    var h := Hid([Some(HidReport(id, data))] + more, written);
    var got := HidReport(id, data);
    HidReportLength(id, data);
    assert h.reports[1..] == more;
    var report := got + Zeros(MaxPacketSize - |got|);
    assert report[..|got|] == got;
    assert report[2] == got[2] && report[3] == got[3] && report[0] == id;
    assert report[4..4 + |data|] == got[4..];
  }

  /** The report the host writes, read back under the matching incoming
      id, gives the frame's payload: USB carries what the serial framing
      carries, for payloads that fit one report. */
  lemma WriteReadRoundTrip(code: u8, data: Bytes, h: Hid)
    requires OutId(code).Some? && 1 <= |data| <= MaxPayload
    ensures var w := WritePacketRaw(h, Packets.ConstructHeader(code, data));
      && w.outcome == Returned(Ok(()))
      && w.hid.written == h.written + [HidReport(OutId(code).value, data)]
      && ReadPacketRaw(Hid([Some(HidReport(if code == Packets.CmdCode then CmdIn else DataIn, data))], [])).outcome == Returned(Ok(data))
  {
    ReframeConstructHeader(code, data);
    ReadPacketRawRoundTrip(if code == Packets.CmdCode then CmdIn else DataIn, data, [], []);
  }

  /** A command response shorter than its declared length is completed
      with the zeros of the buffer. */
  lemma CmdInPadded(got: Bytes)
    requires 4 <= |got| <= MaxPacketSize && got[0] == CmdIn
    requires 0 < U16FromLe(got[2], got[3]) <= MaxPayload
    ensures var len := U16FromLe(got[2], got[3]);
      && ParseReport(got).Returned? && ParseReport(got).result.Ok?
      && var r := ParseReport(got).result.value;
      && |r| == len
      && forall i :: 0 <= i < len ==> r[i] == if 4 + i < |got| then got[4 + i] else 0
  {
    var report := got + Zeros(MaxPacketSize - |got|);
    assert report[0] == got[0] && report[2] == got[2] && report[3] == got[3];
  }

  /** A command response that declares more than 1020 bytes slices past
      the buffer and panics. */
  lemma CmdInOverlong(got: Bytes)
    requires 4 <= |got| <= MaxPacketSize && got[0] == CmdIn
    requires U16FromLe(got[2], got[3]) > MaxPayload
    ensures ParseReport(got) == Panicked
  {
    var report := got + Zeros(MaxPacketSize - |got|);
    assert report[0] == got[0] && report[2] == got[2] && report[3] == got[3];
  }

  /** Any other report with a non-zero length, and a data report shorter
      than its declared length, delivers everything after its header. */
  lemma OtherReport(got: Bytes)
    requires 4 <= |got| <= MaxPacketSize && got[0] != CmdIn
    requires U16FromLe(got[2], got[3]) != 0
    requires got[0] == DataIn ==> |got| < 4 + U16FromLe(got[2], got[3])
    ensures ParseReport(got) == Returned(Ok(got[4..]))
  {
    var report := got + Zeros(MaxPacketSize - |got|);
    assert report[0] == got[0] && report[2] == got[2] && report[3] == got[3];
    assert report[4..|got|] == got[4..];
  }

  /** Reports of fewer than four bytes are invalid headers, and a zero
      length is an abort, whatever the report id. */
  lemma ShortOrAborted(got: Bytes)
    requires |got| <= MaxPacketSize
    ensures |got| < 4 ==> ParseReport(got) == Returned(Err(InvalidHeader))
    ensures |got| >= 4 && got[2] == 0 && got[3] == 0 ==> ParseReport(got) == Returned(Err(Aborted))
  {
    if |got| >= 4 {
      var report := got + Zeros(MaxPacketSize - |got|);
      assert report[2] == got[2] && report[3] == got[3];
    }
  }

  /** Unicode `White_Space`, what `str::trim` removes. */
  predicate IsWhitespace(c: char) {
    ('\t' <= c <= '\r') || c == ' ' || c == '\U{85}' || c == '\U{A0}' || c == '\U{1680}' ||
    ('\U{2000}' <= c <= '\U{200A}') || c == '\U{2028}' || c == '\U{2029}' || c == '\U{202F}' ||
    c == '\U{205F}' || c == '\U{3000}'
  }

  function TrimStart(s: string): (r: string)
    ensures |r| <= |s| && r == s[|s| - |r|..]
    ensures |r| == 0 || !IsWhitespace(r[0])
    ensures forall i :: 0 <= i < |s| - |r| ==> IsWhitespace(s[i])
  {
    if |s| > 0 && IsWhitespace(s[0]) then TrimStart(s[1..]) else s
  }

  function TrimEnd(s: string): (r: string)
    ensures |r| <= |s| && r == s[..|r|]
    ensures |r| == 0 || !IsWhitespace(r[|r| - 1])
    ensures forall i :: |r| <= i < |s| ==> IsWhitespace(s[i])
  {
    if |s| > 0 && IsWhitespace(s[|s| - 1]) then TrimEnd(s[..|s| - 1]) else s
  }

  /** `str::trim` */
  function Trim(s: string): string {
    TrimEnd(TrimStart(s))
  }

  predicate AllWhitespace(s: string) {
    forall i :: 0 <= i < |s| ==> IsWhitespace(s[i])
  }

  /** Leading whitespace is skipped up to the first other character. */
  lemma {:induction false} TrimStartSkips(a: string, t: string)
    requires AllWhitespace(a) && (|t| == 0 || !IsWhitespace(t[0]))
    ensures TrimStart(a + t) == t
    decreases |a|
  {
    if |a| > 0 {
      assert (a + t)[1..] == a[1..] + t;
      TrimStartSkips(a[1..], t);
    } else {
      assert a + t == t;
    }
  }

  /** Trailing whitespace is dropped back to the last other character. */
  lemma {:induction false} TrimEndSkips(t: string, b: string)
    requires AllWhitespace(b) && (|t| == 0 || !IsWhitespace(t[|t| - 1]))
    ensures TrimEnd(t + b) == t
    decreases |b|
  {
    if |b| > 0 {
      var b' := b[..|b| - 1];
      assert (t + b)[..|t + b| - 1] == t + b';
      TrimEndSkips(t, b');
    } else {
      assert t + b == t;
    }
  }

  /** `trim` removes exactly the whitespace around a text that neither
      starts nor ends with whitespace. */
  lemma TrimPadded(a: string, t: string, b: string)
    requires AllWhitespace(a) && AllWhitespace(b)
    requires |t| == 0 || (!IsWhitespace(t[0]) && !IsWhitespace(t[|t| - 1]))
    ensures Trim(a + t + b) == t
  {
    if |t| == 0 {
      assert a + t + b == a + b;
      assert AllWhitespace(a + b);
      TrimStartSkips(a + b, []);
      assert a + b + [] == a + b;
    } else {
      assert a + t + b == a + (t + b);
      assert (t + b)[0] == t[0];
      TrimStartSkips(a, t + b);
      TrimEndSkips(t, b);
    }
  }

  predicate HasHexLetter(s: string) {
    exists i :: 0 <= i < |s| && ('a' <= s[i] <= 'f' || 'A' <= s[i] <= 'F')
  }

  /** `parse_number_string`: after trimming, a `0x` or `0X` prefix selects
      hexadecimal; so does a text of more than two hex digits with a
      letter among them; anything else is read as decimal and, failing
      that, as hexadecimal. */
  function ParseNumberString(s: string): Option<u16> {
    ParseTrimmed(Trim(s))
  }

  /** `starts_with("0x") || starts_with("0X")` */
  predicate HexPrefixed(t: string) {
    |t| >= 2 && t[0] == '0' && (t[1] == 'x' || t[1] == 'X')
  }

  /** `parse_number_string` after the trim. Without a prefix, the text
      is read as decimal exactly when it is a decimal numeral that fits a
      `u16`, and as hexadecimal otherwise: the test for unprefixed hex
      letters only takes a short cut, since a text with a letter is never
      a decimal numeral. */
  function ParseTrimmed(t: string): (r: Option<u16>)
    ensures HexPrefixed(t) ==> r == Parsers.FromStrRadix(t[2..], 16, 0xFFFF)
    ensures !HexPrefixed(t) && Parsers.Numeral(t, 10, 0xFFFF) ==>
      r == Some(Parsers.DigitsValue(Parsers.Unsigned(t), 10))
    ensures !HexPrefixed(t) && !Parsers.Numeral(t, 10, 0xFFFF) ==>
      r == Parsers.FromStrRadix(t, 16, 0xFFFF)
  {
    var p :=
      if HexPrefixed(t) then Parsers.FromStrRadix(t[2..], 16, 0xFFFF)
      else if Parsers.AllDigits(t, 16) && |t| > 2 && HasHexLetter(t) then Parsers.FromStrRadix(t, 16, 0xFFFF)
      else
        match Parsers.FromStrRadix(t, 10, 0xFFFF)
        case Some(v) => Some(v)
        case None => Parsers.FromStrRadix(t, 16, 0xFFFF);
    match p
    case Some(v) => Some(v)
    case None => None
  }

  /** Characters of a rendered number are digits, never whitespace. */
  lemma RenderHasNoWhitespace(n: nat, radix: nat)
    requires radix == 10 || radix == 16
    ensures var s := Parsers.Render(n, radix);
      !IsWhitespace(s[0]) && !IsWhitespace(s[|s| - 1])
  {
    var s := Parsers.Render(n, radix);
    assert Parsers.DigitValue(s[0], radix).Some?;
    assert Parsers.DigitValue(s[|s| - 1], radix).Some?;
  }

  /** A decimal number in range, with any whitespace around it, is read
      as itself: decimal digits carry no letter, so the decimal reading is
      tried first and succeeds. */
  lemma DecimalRoundTrip(n: nat, a: string, b: string)
    requires n <= 0xFFFF && AllWhitespace(a) && AllWhitespace(b)
    ensures ParseNumberString(a + Parsers.Render(n, 10) + b) == Some(n)
  {
    RenderHasNoWhitespace(n, 10);
    TrimPadded(a, Parsers.Render(n, 10), b);
    DecimalTrimmed(n);
  }

  lemma DecimalTrimmed(n: nat)
    requires n <= 0xFFFF
    ensures ParseTrimmed(Parsers.Render(n, 10)) == Some(n)
  {
    var t := Parsers.Render(n, 10);
    DecimalDigitsOnly(t);
    RenderReads(n, 10);
    DecimalReading(t, n);
  }

  /** Decimal digits carry neither a hex prefix nor a hex letter. */
  lemma DecimalDigitsOnly(t: string)
    requires Parsers.AllDigits(t, 10)
    ensures !HexPrefixed(t) && !HasHexLetter(t)
  {
    if |t| >= 2 {
      assert Parsers.DigitValue(t[1], 10).Some?;
    }
    forall i | 0 <= i < |t|
      ensures !('a' <= t[i] <= 'f' || 'A' <= t[i] <= 'F')
    {
      assert Parsers.DigitValue(t[i], 10).Some?;
    }
  }

  /** `from_str_radix` reads a rendered number in range back. */
  lemma RenderReads(n: nat, radix: nat)
    requires n <= 0xFFFF && (radix == 10 || radix == 16)
    ensures Parsers.FromStrRadix(Parsers.Render(n, radix), radix, 0xFFFF) == Some(n)
  {
    var t := Parsers.Render(n, radix);
    assert t != "+" && t != "-" by { assert t[0] != '+' && t[0] != '-'; }
  }

  /** Text without prefix or letter that reads as a decimal is decimal. */
  lemma DecimalReading(t: string, n: nat)
    requires !HexPrefixed(t) && !HasHexLetter(t)
    requires Parsers.FromStrRadix(t, 10, 0xFFFF) == Some(n)
    ensures ParseTrimmed(t) == Some(n)
  {
  }

  /** A number in range written as `0x` and hex digits, with any
      whitespace around it, is read as itself. */
  lemma HexRoundTrip(n: nat, a: string, b: string)
    requires n <= 0xFFFF && AllWhitespace(a) && AllWhitespace(b)
    ensures ParseNumberString(a + "0x" + Parsers.Render(n, 16) + b) == Some(n)
  {
    var h := Parsers.Render(n, 16);
    var t := "0x" + h;
    Regroup(a, "0x", h, b);
    HexTextEnds(h);
    TrimPadded(a, t, b);
    HexTrimmed(n);
  }

  lemma Regroup(a: string, p: string, h: string, b: string)
    ensures a + p + h + b == a + (p + h) + b
  {
    assert a + p + h == a + (p + h);
  }

  /** `0x` and a rendered number neither start nor end with whitespace. */
  lemma HexTextEnds(h: string)
    requires |h| > 0 && Parsers.AllDigits(h, 16)
    ensures var t := "0x" + h; !IsWhitespace(t[0]) && !IsWhitespace(t[|t| - 1])
  {
    assert Parsers.DigitValue(h[|h| - 1], 16).Some?;
    assert ("0x" + h)[|"0x" + h| - 1] == h[|h| - 1];
  }

  lemma HexTrimmed(n: nat)
    requires n <= 0xFFFF
    ensures ParseTrimmed("0x" + Parsers.Render(n, 16)) == Some(n)
  {
    var h := Parsers.Render(n, 16);
    var t := "0x" + h;
    assert HexPrefixed(t);
    assert t[2..] == h;
    RenderReads(n, 16);
  }

  /** `0135` has no letter, so it is decimal 135, not 0x135. */
  lemma LeadingZeroIsDecimal()
    ensures ParseNumberString("0135") == Some(135)
  {
    var t := "0135";
    TrimPadded([], t, []);
    assert [] + t + [] == t;
    assert Parsers.AllDigits(t, 10);
    DecimalDigitsOnly(t);
    Digits0135();
    assert t != "+" && t != "-" by { assert t[0] == '0'; }
    DecimalReading(t, 135);
  }

  lemma Digits0135()
    ensures Parsers.AllDigits("0135", 10) && Parsers.DigitsValue("0135", 10) == 135
  {
    assert Parsers.DigitsValue("0", 10) == 0 by { assert "0"[..0] == []; }
    assert Parsers.DigitsValue("01", 10) == 1 by { assert "01"[..1] == "0"; }
    assert Parsers.DigitsValue("013", 10) == 13 by { assert "013"[..2] == "01"; }
    assert "0135"[..3] == "013";
  }

  /** `ab` is too short for the letter rule and not decimal, so the
      hexadecimal fallback reads it as 0xAB. */
  lemma ShortHexFallback()
    ensures ParseNumberString("ab") == Some(0xAB)
  {
    var t := "ab";
    TrimPadded([], t, []);
    assert [] + t + [] == t;
    assert !HexPrefixed(t);
    assert Parsers.DigitValue(t[0], 10).None?;
    assert Parsers.FromStrRadix(t, 10, 0xFFFF).None? by { assert t[0] != '+'; }
    assert Parsers.AllDigits(t, 16);
    assert Parsers.DigitsValue("a", 16) == 0xA by { assert "a"[..0] == []; }
    assert Parsers.DigitsValue(t, 16) == 0xAB by { assert t[..1] == "a"; }
    assert t != "+" && t != "-" by { assert t[0] == 'a'; }
  }

  /** The position of the first `:` or `,`. */
  function FindSeparator(s: string, i: nat): (r: Option<nat>)
    requires i <= |s|
    ensures r.Some? ==> i <= r.value < |s| && (s[r.value] == ':' || s[r.value] == ',')
    ensures r.Some? ==> forall j :: i <= j < r.value ==> s[j] != ':' && s[j] != ','
    ensures r.None? ==> forall j :: i <= j < |s| ==> s[j] != ':' && s[j] != ','
    decreases |s| - i
  {
    if i == |s| then None
    else if s[i] == ':' || s[i] == ',' then Some(i)
    else FindSeparator(s, i + 1)
  }

  /** `parse_usb_identifier`: `vid:pid` or `vid,pid`, split at the first
      separator, or a VID alone with product id 0, which matches any
      product. */
  function ParseUsbIdentifier(id: string): (r: Result<(u16, u16), CommError>)
    ensures r.Err? ==> r.error.ParseError?
  {
    match FindSeparator(id, 0)
    case Some(pos) =>
      var vid := id[..pos];
      var pid := id[pos + 1..];
      (match ParseNumberString(vid)
       case None => Err(ParseError("Invalid VID: " + vid))
       case Some(v) =>
         (match ParseNumberString(pid)
          case None => Err(ParseError("Invalid PID: " + pid))
          case Some(p) => Ok((v, p))))
    case None =>
      match ParseNumberString(id)
      case None => Err(ParseError("Invalid USB identifier: " + id))
      case Some(v) => Ok((v, 0))
  }

  /** Text without a separator. */
  predicate NoSeparator(s: string) {
    forall j :: 0 <= j < |s| ==> s[j] != ':' && s[j] != ','
  }

  /** `vid:pid` and `vid,pid` name the two ids; anything after the first
      separator is the product id's text. */
  lemma IdentifierWithSeparator(vid: string, sep: char, pid: string)
    requires sep == ':' || sep == ','
    requires NoSeparator(vid)
    ensures var r := ParseUsbIdentifier(vid + [sep] + pid);
      && (ParseNumberString(vid).None? ==> r == Err(ParseError("Invalid VID: " + vid)))
      && (ParseNumberString(vid).Some? && ParseNumberString(pid).None? ==> r == Err(ParseError("Invalid PID: " + pid)))
      && (ParseNumberString(vid).Some? && ParseNumberString(pid).Some? ==>
            r == Ok((ParseNumberString(vid).value, ParseNumberString(pid).value)))
  {
    var id := vid + [sep] + pid;
    assert id[|vid|] == sep;
    assert forall j :: 0 <= j < |vid| ==> id[j] == vid[j];
    assert FindSeparator(id, 0) == Some(|vid|);
    assert id[..|vid|] == vid && id[|vid| + 1..] == pid;
  }

  /** Without a separator the text is the vendor id and the product id is
      0. */
  lemma IdentifierVidOnly(id: string)
    requires NoSeparator(id)
    ensures ParseNumberString(id).None? ==> ParseUsbIdentifier(id) == Err(ParseError("Invalid USB identifier: " + id))
    ensures ParseNumberString(id).Some? ==> ParseUsbIdentifier(id) == Ok((ParseNumberString(id).value, 0))
  {
    assert FindSeparator(id, 0).None?;
  }

  const I32Max: nat := 0x7FFF_FFFF

  /** `try_into().unwrap_or(i32::MAX)` on a millisecond count. */
  function ClampTimeout(ms: nat): (t: nat)
    ensures t <= I32Max
  {
    if ms <= I32Max then ms else I32Max
  }

  /** An open connection: the identifier it was opened with, the ids it
      was opened by and its timeout in milliseconds. */
  datatype Connection = Connection(interface: string, vid: u16, pid: u16, timeoutMs: nat)

  /** `open_with_options`: the identifier is parsed before the HID
      library is touched; the library's initialisation and its opening of
      the device are given as their outcomes. */
  function OpenWithOptions(id: string, timeoutMs: nat, init: Result<(), string>, device: Result<(), string>)
    : (r: Result<Connection, CommError>)
    ensures ParseUsbIdentifier(id).Err? ==> r == Err(ParseUsbIdentifier(id).error)
  {
    match ParseUsbIdentifier(id)
    case Err(e) => Err(e)
    case Ok(ids) =>
      if init.Err? then Err(ParseError("Failed to initialize HID API: " + init.error))
      else if device.Err? then Err(ParseError("Failed to open USB device: " + device.error))
      else Ok(Connection(id, ids.0, ids.1, ClampTimeout(timeoutMs)))
  }

  /** `open`: a five-second timeout. */
  function Open(id: string, init: Result<(), string>, device: Result<(), string>): Result<Connection, CommError> {
    OpenWithOptions(id, 5000, init, device)
  }

  /** `get_timeout`: the stored milliseconds; the `expect` on a negative
      value never fires, since the stored value is a clamped count. */
  function GetTimeout(c: Connection): nat {
    c.timeoutMs
  }

  /** A connection that opened keeps its identifier and ids, and reports
      the requested timeout, or `i32::MAX` milliseconds when the request
      does not fit an `i32`. */
  lemma OpenedConnection(id: string, timeoutMs: nat, init: Result<(), string>, device: Result<(), string>)
    requires OpenWithOptions(id, timeoutMs, init, device).Ok?
    ensures var c := OpenWithOptions(id, timeoutMs, init, device).value;
      && init.Ok? && device.Ok? && ParseUsbIdentifier(id) == Ok((c.vid, c.pid)) && c.interface == id
      && GetTimeout(c) <= I32Max
      && (timeoutMs <= I32Max ==> GetTimeout(c) == timeoutMs)
      && (timeoutMs > I32Max ==> GetTimeout(c) == I32Max)
  {
  }
}
