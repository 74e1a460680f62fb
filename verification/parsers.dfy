/** Command-line value parsers: integers in decimal or `0x`-prefixed
    hexadecimal, and byte strings written as brace-enclosed hex digits.

    Integer parsing follows Rust's `from_str_radix` for unsigned types: one
    optional leading `+`, at least one digit of the radix (both letter cases
    in base 16), no sign on its own, and failure on a value above the
    target type's maximum. The model takes that maximum as a parameter
    (`0xFF` for `u8`, `0xFFFF_FFFF` for `u32`). Rust stops at the first
    digit that overflows; since the running value never decreases, that
    happens exactly when the complete value exceeds the maximum. */
module Parsers {
  import opened Base

  const U8Max := 0xFF
  const U32Max := 0xFFFF_FFFF

  predicate StartsWith(s: string, prefix: string) {
    |prefix| <= |s| && s[..|prefix|] == prefix
  }

  /** The value of digit `c` in base `radix` (10 or 16), if it is one. */
  function DigitValue(c: char, radix: nat): (r: Option<nat>)
    ensures r.Some? ==> r.value < radix || radix < 10
  {
    if '0' <= c <= '9' && (c as int) - ('0' as int) < radix then Some((c as int) - ('0' as int))
    else if radix == 16 && 'a' <= c <= 'f' then Some((c as int) - ('a' as int) + 10)
    else if radix == 16 && 'A' <= c <= 'F' then Some((c as int) - ('A' as int) + 10)
    else None
  }

  predicate AllDigits(s: string, radix: nat) {
    forall i :: 0 <= i < |s| ==> DigitValue(s[i], radix).Some?
  }

  /** The number the digits of `s` spell out, most significant first. */
  function DigitsValue(s: string, radix: nat): nat
    requires AllDigits(s, radix)
  {
    if |s| == 0 then 0
    else DigitsValue(s[..|s| - 1], radix) * radix + DigitValue(s[|s| - 1], radix).value
  }

  /** The digits after the one `+` that `from_str_radix` allows. */
  function Unsigned(t: string): string {
    if |t| > 0 && t[0] == '+' then t[1..] else t
  }

  /** What `from_str_radix` accepts for an unsigned type whose largest
      value is `max`: an optional `+`, then at least one digit of the
      radix, spelling a value no larger than `max`. */
  predicate Numeral(t: string, radix: nat, max: nat) {
    var d := Unsigned(t);
    |d| > 0 && AllDigits(d, radix) && DigitsValue(d, radix) <= max
  }

  /** Rust's `from_str_radix` for an unsigned type whose largest value is
      `max`; `None` stands for every `ParseIntError`. */
  function FromStrRadix(s: string, radix: nat, max: nat): (r: Option<nat>)
    requires radix == 10 || radix == 16
    ensures r.Some? ==> r.value <= max
    ensures r.Some? <==> Numeral(s, radix, max)
    ensures r.Some? ==> r.value == DigitsValue(Unsigned(s), radix)
  {
    if |s| == 0 || s == "+" || s == "-" then None
    else
      var d := if s[0] == '+' then s[1..] else s;
      if AllDigits(d, radix) && DigitsValue(d, radix) <= max then Some(DigitsValue(d, radix)) else None
  }

  datatype NumberError = InvalidHex(input: string) | InvalidDecimal(input: string)

  /** The text of a `parse_number` error, without its colour markup. */
  function NumberErrorMessage(e: NumberError): string {
    match e
    case InvalidHex(s) => "hex number '" + s + "' is invalid or too large"
    case InvalidDecimal(s) => "number '" + s + "' is invalid or too large!"
  }

  /** `parse_number::<T>`: hexadecimal after a lowercase `0x` prefix,
      decimal otherwise. The text is accepted exactly when the part after
      the prefix is a numeral of the chosen base that fits the target
      type, and then the result is the value it spells; a rejection names
      the whole text and the base that was tried. */
  function ParseNumber(s: string, max: nat): (r: Result<nat, NumberError>)
    ensures r.Ok? ==> r.value <= max
    ensures StartsWith(s, "0x") ==>
      && (r.Ok? <==> Numeral(s[2..], 16, max))
      && (r.Ok? ==> r.value == DigitsValue(Unsigned(s[2..]), 16))
      && (r.Err? ==> r.error == InvalidHex(s))
    ensures !StartsWith(s, "0x") ==>
      && (r.Ok? <==> Numeral(s, 10, max))
      && (r.Ok? ==> r.value == DigitsValue(Unsigned(s), 10))
      && (r.Err? ==> r.error == InvalidDecimal(s))
  {
    if StartsWith(s, "0x") then
      match FromStrRadix(s[2..], 16, max)
      case Some(v) => Ok(v)
      case None => Err(InvalidHex(s))
    else
      match FromStrRadix(s, 10, max)
      case Some(v) => Ok(v)
      case None => Err(InvalidDecimal(s))
  }

  /** The hexadecimal digit of value `d`, lowercase for 10..15. */
  function DigitChar(d: nat): (c: char)
    requires d < 16
    ensures DigitValue(c, 16) == Some(d)
    ensures d < 10 ==> DigitValue(c, 10) == Some(d)
    ensures '0' <= c <= '9' || 'a' <= c <= 'f'
  {
    if d < 10 then ('0' as int + d) as char else ('a' as int + d - 10) as char
  }

  /** The shortest rendering of `n` in base `radix`. */
  function Render(n: nat, radix: nat): (s: string)
    requires radix == 10 || radix == 16
    ensures |s| > 0 && AllDigits(s, radix) && s[0] != '+' && s[0] != '-'
    ensures DigitsValue(s, radix) == n
  {
    if n < radix then [DigitChar(n)]
    else
      var s := Render(n / radix, radix) + [DigitChar(n % radix)];
      assert s[..|s| - 1] == Render(n / radix, radix);
      s
  }

  /** Rendering a number in decimal and parsing it back gives the number
      whenever it fits the target type. */
  lemma DecimalRoundTrip(n: nat, max: nat)
    requires n <= max
    ensures ParseNumber(Render(n, 10), max) == Ok(n)
  {
    var s := Render(n, 10);
    assert !StartsWith(s, "0x") by {
      if |s| >= 2 {
        assert DigitValue(s[1], 10).Some?;
        assert s[..2][1] == s[1];
      }
    }
    assert s != "+" && s != "-" by { assert s[0] != '+' && s[0] != '-'; }
    assert FromStrRadix(s, 10, max) == Some(n);
  }

  /** Rendering a number as `0x` followed by hex digits and parsing it back
      gives the number whenever it fits the target type. */
  lemma HexRoundTrip(n: nat, max: nat)
    requires n <= max
    ensures ParseNumber("0x" + Render(n, 16), max) == Ok(n)
  {
    var s := "0x" + Render(n, 16);
    assert StartsWith(s, "0x");
    assert s[2..] == Render(n, 16);
  }

  /** Only the lowercase prefix selects hexadecimal: `0X1F` is read as a
      decimal and rejected. */
  lemma UppercasePrefixRejected()
    ensures ParseNumber("0X1F", U32Max) == Err(InvalidDecimal("0X1F"))
  {
    assert !StartsWith("0X1F", "0x");
    assert DigitValue("0X1F"[1], 10).None?;
  }

  /** A lone `+` is rejected, and a leading `+` is otherwise accepted. */
  lemma PlusSign()
    ensures ParseNumber("+", U32Max).Err?
    ensures ParseNumber("+7", U32Max) == Ok(7)
  {
    assert !StartsWith("+", "0x");
    assert "+7"[..2] != "0x" by { assert "+7"[..2][0] == '+'; }
    assert "+7"[1..] == "7";
    assert DigitsValue("7", 10) == DigitsValue("", 10) * 10 + 7 by { assert "7"[..0] == ""; }
  }

  /** `trim_matches(|c| c == '{' || c == '}')`: removes braces from both
      ends. */
  predicate IsBrace(c: char) { c == '{' || c == '}' }

  function TrimStartBraces(s: string): (r: string)
    ensures |r| <= |s| && r == s[|s| - |r|..]
    ensures |r| == 0 || !IsBrace(r[0])
    ensures forall i :: 0 <= i < |s| - |r| ==> IsBrace(s[i])
  {
    if |s| > 0 && IsBrace(s[0]) then TrimStartBraces(s[1..]) else s
  }

  function TrimEndBraces(s: string): (r: string)
    ensures |r| <= |s| && r == s[..|r|]
    ensures |r| == 0 || !IsBrace(r[|r| - 1])
    ensures forall i :: |r| <= i < |s| ==> IsBrace(s[i])
  {
    if |s| > 0 && IsBrace(s[|s| - 1]) then TrimEndBraces(s[..|s| - 1]) else s
  }

  function TrimBraces(s: string): string {
    TrimEndBraces(TrimStartBraces(s))
  }

  /** `replace(' ', "")` */
  function RemoveSpaces(s: string): (r: string)
    ensures forall i :: 0 <= i < |r| ==> r[i] != ' '
    ensures (forall i :: 0 <= i < |s| ==> s[i] != ' ') ==> r == s
  {
    if |s| == 0 then []
    else if s[|s| - 1] == ' ' then RemoveSpaces(s[..|s| - 1])
    else RemoveSpaces(s[..|s| - 1]) + [s[|s| - 1]]
  }

  datatype HexError = OddLength | InvalidByte(chunk: string)

  /** Two characters at a time, each pair read with
      `u8::from_str_radix(pair, 16)`; the first bad pair ends the parse. */
  function ParsePairs(t: string): (r: Result<Bytes, HexError>)
    requires |t| % 2 == 0
    ensures r.Ok? ==> |r.value| == |t| / 2
    ensures r.Ok? ==> forall i :: 0 <= i < |r.value| ==>
      FromStrRadix(t[2 * i .. 2 * i + 2], 16, U8Max) == Some(r.value[i] as nat)
    ensures r.Err? ==> r.error.InvalidByte? && |r.error.chunk| == 2 && FromStrRadix(r.error.chunk, 16, U8Max).None?
  {
    if |t| == 0 then Ok([])
    else
      match FromStrRadix(t[..2], 16, U8Max)
      case None => Err(InvalidByte(t[..2]))
      case Some(v) =>
        var rest := ParsePairs(t[2..]);
        assert forall i :: 1 <= i < |t| / 2 ==> t[2 * i .. 2 * i + 2] == t[2..][2 * (i - 1) .. 2 * (i - 1) + 2];
        assert t[2 * 0 .. 2 * 0 + 2] == t[..2];
        match rest
        case Err(e) => Err(e)
        case Ok(bs) => Ok([v as u8] + bs)
  }

  /** The `i`-th pair of digits of `t`. */
  function Pair(t: string, i: nat): (p: string)
    requires 2 * i + 2 <= |t|
    ensures |p| == 2
  {
    t[2 * i .. 2 * i + 2]
  }

  predicate PairParses(t: string, i: nat)
    requires 2 * i + 2 <= |t|
  {
    FromStrRadix(Pair(t, i), 16, U8Max).Some?
  }

  /** The pairs are read until the first one that is not a hex byte: the
      parse succeeds exactly when every pair is one, and otherwise names
      the first pair that is not. */
  lemma {:induction false} ParsePairsExact(t: string)
    requires |t| % 2 == 0
    ensures ParsePairs(t).Ok? <==> forall i :: 0 <= i < |t| / 2 ==> PairParses(t, i)
    ensures ParsePairs(t).Err? ==>
      exists k :: 0 <= k < |t| / 2 && ParsePairs(t).error == InvalidByte(Pair(t, k)) &&
        !PairParses(t, k) && forall j :: 0 <= j < k ==> PairParses(t, j)
    decreases |t|
  {
    if |t| > 0 {
      var u := t[2..];
      assert Pair(t, 0) == t[..2];
      forall i | 0 <= i < |u| / 2
        ensures Pair(t, i + 1) == Pair(u, i)
      {
      }
      ParsePairsExact(u);
      if PairParses(t, 0) {
        if ParsePairs(u).Ok? {
          forall i | 0 <= i < |t| / 2
            ensures PairParses(t, i)
          {
            if i > 0 { assert PairParses(u, i - 1); }
          }
        } else {
          var k :| 0 <= k < |u| / 2 && ParsePairs(u).error == InvalidByte(Pair(u, k)) &&
            !PairParses(u, k) && forall j :: 0 <= j < k ==> PairParses(u, j);
          forall j | 0 <= j < k + 1
            ensures PairParses(t, j)
          {
            if j > 0 { assert PairParses(u, j - 1); }
          }
          assert ParsePairs(t).error == InvalidByte(Pair(t, k + 1));
          assert !PairParses(t, k + 1);
        }
      } else {
        assert ParsePairs(t).error == InvalidByte(Pair(t, 0));
      }
    }
  }

  predicate IsAscii(s: string) {
    forall i :: 0 <= i < |s| ==> s[i] as int < 0x80
  }

  /** The brace form of `parse_hex_values`: `{{` opens it, braces at both
      ends are dropped, spaces are removed, and the remaining digits are
      read two at a time. */
  function ParseHexBraces(s: string): (r: Result<Bytes, HexError>)
    requires StartsWith(s, "{{") && IsAscii(s)
    ensures |RemoveSpaces(TrimBraces(s))| % 2 != 0 <==> r == Err(OddLength)
    ensures |RemoveSpaces(TrimBraces(s))| % 2 == 0 ==> r == ParsePairs(RemoveSpaces(TrimBraces(s)))
  {
    var t := RemoveSpaces(TrimBraces(s));
    if |t| % 2 != 0 then Err(OddLength) else ParsePairs(t)
  }

  /** Two lowercase hex digits per byte. */
  function HexEncode(b: Bytes): (s: string)
    ensures |s| == 2 * |b|
    ensures forall i :: 0 <= i < |b| ==> s[2 * i .. 2 * i + 2] == [DigitChar(b[i] / 16), DigitChar(b[i] % 16)]
  {
    if |b| == 0 then ""
    else
      var s := [DigitChar(b[0] / 16), DigitChar(b[0] % 16)] + HexEncode(b[1..]);
      assert s[2 * 0 .. 2 * 0 + 2] == [DigitChar(b[0] / 16), DigitChar(b[0] % 16)];
      assert forall i :: 1 <= i < |b| ==> s[2 * i .. 2 * i + 2] == HexEncode(b[1..])[2 * (i - 1) .. 2 * (i - 1) + 2];
      s
  }

  lemma PairValue(c1: char, c2: char, v: u8)
    requires DigitValue(c1, 16) == Some(v / 16) && DigitValue(c2, 16) == Some(v % 16)
    ensures FromStrRadix([c1, c2], 16, U8Max) == Some(v as nat)
  {
    var p := [c1, c2];
    assert AllDigits(p, 16);
    assert p[..1] == [c1] && [c1][..0] == [];
    assert DigitsValue([c1], 16) == v / 16;
    assert DigitsValue(p, 16) == (v / 16) * 16 + v % 16 == v;
    assert p != "+" && p != "-";
    assert p[0] != '+';
  }

  lemma {:induction false} ParsePairsOfHexEncode(b: Bytes)
    ensures ParsePairs(HexEncode(b)) == Ok(b)
    decreases |b|
  {
    if |b| > 0 {
      var s := HexEncode(b);
      assert s[..2] == s[2 * 0 .. 2 * 0 + 2] == [DigitChar(b[0] / 16), DigitChar(b[0] % 16)];
      PairValue(DigitChar(b[0] / 16), DigitChar(b[0] % 16), b[0]);
      assert FromStrRadix(s[..2], 16, U8Max) == Some(b[0] as nat);
      assert s[2..] == HexEncode(b[1..]);
      ParsePairsOfHexEncode(b[1..]);
      assert ParsePairs(s[2..]) == Ok(b[1..]);
      assert [b[0]] + b[1..] == b;
    }
  }

  lemma HexEncodeHasNoBracesOrSpaces(b: Bytes)
    ensures forall i :: 0 <= i < |HexEncode(b)| ==> !IsBrace(HexEncode(b)[i]) && HexEncode(b)[i] != ' '
  {
    var s := HexEncode(b);
    forall i | 0 <= i < |s|
      ensures !IsBrace(s[i]) && s[i] != ' '
    {
      var k := i / 2;
      assert s[2 * k .. 2 * k + 2] == [DigitChar(b[k] / 16), DigitChar(b[k] % 16)];
      assert s[i] == s[2 * k .. 2 * k + 2][i - 2 * k];
    }
  }

  lemma TrimBracesAround(h: string)
    requires forall i :: 0 <= i < |h| ==> !IsBrace(h[i])
    ensures TrimBraces("{{" + h + "}}") == h
  {
    var s := "{{" + h + "}}";
    assert s[1..][1..] == h + "}}";
    assert TrimStartBraces(s) == TrimStartBraces(s[1..]) == TrimStartBraces(h + "}}");
    if |h| == 0 {
      assert h + "}}" == "}}" && "}}"[1..] == "}";
      assert TrimStartBraces("}}") == TrimStartBraces("}") == TrimStartBraces("}"[1..]) == "";
    } else {
      assert (h + "}}")[0] == h[0];
      assert TrimStartBraces(h + "}}") == h + "}}";
      assert (h + "}}")[..|h| + 1] == h + "}";
      assert (h + "}")[..|h|] == h;
      assert TrimEndBraces(h + "}}") == TrimEndBraces(h + "}") == TrimEndBraces(h) == h;
    }
  }

  /** Writing bytes as `{{` hex digits `}}` and parsing the text gives the
      bytes back. */
  lemma {:induction false} HexBracesRoundTrip(b: Bytes)
    ensures IsAscii("{{" + HexEncode(b) + "}}") && ParseHexBraces("{{" + HexEncode(b) + "}}") == Ok(b)
  {
    var h := HexEncode(b);
    var s := "{{" + h + "}}";
    HexEncodeHasNoBracesOrSpaces(b);
    assert IsAscii(s) by {
      forall i | 0 <= i < |s|
        ensures s[i] as int < 0x80
      {
        if 2 <= i < 2 + |h| {
          var k := (i - 2) / 2;
          assert h[2 * k .. 2 * k + 2] == [DigitChar(b[k] / 16), DigitChar(b[k] % 16)];
          assert s[i] == h[i - 2] == h[2 * k .. 2 * k + 2][i - 2 - 2 * k];
        }
      }
    }
    assert StartsWith(s, "{{");
    TrimBracesAround(h);
    assert TrimBraces(s) == h;
    assert RemoveSpaces(h) == h;
    ParsePairsOfHexEncode(b);
  }
}
