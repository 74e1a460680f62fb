/** Byte strings, the Option and Result wrappers used across the model, and
    the fixed-width little- and big-endian encodings of the McuBoot wire
    format. Rust's `u8`, `u16` and `u32` are integer subset types here; an
    `as` cast that truncates in Rust is written out with a modulus, and a
    mask or shift is written as the division and remainder it stands for. */
module Base {

  type u8 = x: int | 0 <= x < 0x100
  type u16 = x: int | 0 <= x < 0x1_0000
  type u32 = x: int | 0 <= x < 0x1_0000_0000
  type Bytes = seq<u8>

  datatype Option<+T> = None | Some(value: T)

  datatype Result<+T, +E> = Ok(value: T) | Err(error: E)

  /** `2^k`, for the bit positions the protocol names. */
  function Pow2(k: nat): (r: nat)
    ensures r >= 1
  {
    if k == 0 then 1 else 2 * Pow2(k - 1)
  }

  /** Bit `k` of `v` (`v & (1 << k) != 0`). */
  predicate Bit(v: nat, k: nat) {
    (v / Pow2(k)) % 2 == 1
  }

  lemma Pow2Add(a: nat, b: nat)
    ensures Pow2(a + b) == Pow2(a) * Pow2(b)
  {
    if a > 0 {
      Pow2Add(a - 1, b);
    }
  }

  /** Bit `k` survives truncation to the low `n > k` bits (`v as u8` for
      `n = 8`). */
  lemma BitOfLowBits(v: nat, k: nat, n: nat)
    requires k < n
    ensures Bit(v % Pow2(n), k) <==> Bit(v, k)
  {
    Pow2Add(k, n - k);
    assert Pow2(n - k) == 2 * Pow2(n - k - 1);
    MulAssoc(Pow2(k), 2, Pow2(n - k - 1));
    TruncatedQuotientParity(v, Pow2(k), Pow2(n - k - 1), Pow2(n));
  }

  /** Reducing modulo `pk * 2h` keeps the parity of the quotient by `pk`. */
  lemma TruncatedQuotientParity(v: nat, pk: nat, h: nat, m: nat)
    requires pk > 0 && h > 0 && m == pk * 2 * h
    ensures ((v % m) / pk) % 2 == (v / pk) % 2
  {
    var q := v / m;
    var r := v % m;
    var t := r / pk;
    var hq := h * q;
    MulAssoc(pk * 2, h, q);
    MulAssoc(pk, 2, h * q);
    assert m * q == pk * (2 * hq);
    assert v == pk * (2 * hq) + pk * t + r % pk;
    assert v == pk * (2 * hq + t) + r % pk;
    DivUnique(v, pk, 2 * hq + t, r % pk);
    DivUnique(2 * hq + t, 2, hq + t / 2, t % 2);
  }

  lemma MulAssoc(a: int, b: int, c: int)
    ensures a * b * c == a * (b * c)
  {
  }

  /** Quotient and remainder are determined by `x == d * t + s`, `0 <= s < d`. */
  lemma DivUnique(x: int, d: int, t: int, s: int)
    requires d > 0 && 0 <= s < d && x == d * t + s
    ensures x / d == t && x % d == s
  {
    var q := x / d;
    var e := x % d;
    assert d * (q - t) == s - e;
    if q > t {
      MulAtLeast(d, q - t);
    } else if q < t {
      MulAtLeast(d, t - q);
    }
  }

  lemma MulAtLeast(d: int, k: int)
    requires d > 0 && k >= 1
    ensures d * k >= d
  {
  }

  /** `u16::to_le_bytes` */
  function U16ToLe(x: u16): (r: Bytes)
    ensures |r| == 2 && r[0] as int + 0x100 * r[1] as int == x
  {
    [x % 0x100, x / 0x100]
  }

  /** `u16::from_le_bytes([lo, hi])` */
  function U16FromLe(lo: u8, hi: u8): u16 {
    lo as int + 0x100 * hi as int
  }

  /** `u16::to_le_bytes` undoes `u16::from_le_bytes`. */
  lemma U16LeBytesRoundTrip(lo: u8, hi: u8)
    ensures U16ToLe(U16FromLe(lo, hi)) == [lo, hi]
  {
    ByteSplit(lo, hi);
  }

  /** `u16::from_le_bytes` undoes `u16::to_le_bytes`. */
  lemma U16LeRoundTrip(x: u16)
    ensures U16FromLe(U16ToLe(x)[0], U16ToLe(x)[1]) == x
  {
  }

  /** `a + 0x100 * q` split back into its low byte and the rest. */
  lemma ByteSplit(a: u8, q: nat)
    ensures (a + 0x100 * q) % 0x100 == a && (a + 0x100 * q) / 0x100 == q
  {
  }

  /** `u32::to_le_bytes` */
  function U32ToLe(x: u32): (r: Bytes)
    ensures |r| == 4
    ensures r[0] as int + 0x100 * (r[1] as int + 0x100 * (r[2] as int + 0x100 * r[3] as int)) == x
  {
    var q1 := x / 0x100;
    var q2 := q1 / 0x100;
    [x % 0x100, q1 % 0x100, q2 % 0x100, q2 / 0x100]
  }

  /** `u32::from_le_bytes` */
  function U32FromLe(b: Bytes): (r: u32)
    requires |b| == 4
    ensures U32ToLe(r) == b
  {
    var q2 := b[2] as int + 0x100 * b[3] as int;
    var q1 := b[1] as int + 0x100 * q2;
    var r := b[0] as int + 0x100 * q1;
    ByteSplit(b[0], q1);
    ByteSplit(b[1], q2);
    ByteSplit(b[2], b[3]);
    r
  }

  /** `u32::from_be_bytes` */
  function U32FromBe(b: Bytes): (r: u32)
    requires |b| == 4
    ensures U32ToLe(r) == [b[3], b[2], b[1], b[0]]
  {
    U32FromLe([b[3], b[2], b[1], b[0]])
  }

  lemma U32LeRoundTrip(x: u32)
    ensures U32FromLe(U32ToLe(x)) == x
  {
  }

  /** The concatenation of the little-endian encodings of `ws`, as
      `flat_map(|w| w.to_le_bytes())` produces it. */
  function WordsToLe(ws: seq<u32>): (r: Bytes)
    ensures |r| == 4 * |ws|
    ensures forall i :: 0 <= i < |ws| ==> r[4 * i .. 4 * i + 4] == U32ToLe(ws[i])
  {
    if |ws| == 0 then []
    else
      var rest := WordsToLe(ws[1..]);
      var r := U32ToLe(ws[0]) + rest;
      assert forall i :: 1 <= i < |ws| ==> r[4 * i .. 4 * i + 4] == rest[4 * (i - 1) .. 4 * (i - 1) + 4];
      r
  }

  /** Splits a byte string whose length is a multiple of four into its
      little-endian words; `WordsToLe` undoes it. */
  function LeToWords(b: Bytes): (ws: seq<u32>)
    requires |b| % 4 == 0
    ensures |ws| == |b| / 4
    ensures forall i :: 0 <= i < |ws| ==> ws[i] == U32FromLe(b[4 * i .. 4 * i + 4])
  {
    if |b| == 0 then []
    else
      var rest := LeToWords(b[4..]);
      var ws := [U32FromLe(b[..4])] + rest;
      assert forall i :: 1 <= i < |ws| ==> b[4 * i .. 4 * i + 4] == b[4..][4 * (i - 1) .. 4 * (i - 1) + 4];
      ws
  }

  lemma {:induction false} WordsRoundTrip(ws: seq<u32>)
    ensures LeToWords(WordsToLe(ws)) == ws
  {
    var ws' := LeToWords(WordsToLe(ws));
    forall i | 0 <= i < |ws|
      ensures ws'[i] == ws[i]
    {
      U32LeRoundTrip(ws[i]);
    }
  }

  lemma {:induction false} BytesRoundTrip(b: Bytes)
    requires |b| % 4 == 0
    ensures WordsToLe(LeToWords(b)) == b
    decreases |b|
  {
    if |b| > 0 {
      var ws := LeToWords(b);
      var rest := LeToWords(b[4..]);
      assert ws == [U32FromLe(b[..4])] + rest;
      assert ws[1..] == rest;
      BytesRoundTrip(b[4..]);
      assert WordsToLe(ws) == U32ToLe(ws[0]) + WordsToLe(ws[1..]);
      assert b == b[..4] + b[4..];
    }
  }
}
