/** UTF-8 (RFC 3629): every string has one encoding, and only encodings decode. */
module Utf8 {
  import opened Basics

  function EncodeChar(c: char): Bytes {
    var n := c as int;
    if n < 0x80 then [n]
    else if n < 0x800 then [0xC0 + n / 64, 0x80 + n % 64]
    else if n < 0x10000 then [0xE0 + n / 4096, 0x80 + n / 64 % 64, 0x80 + n % 64]
    else [0xF0 + n / 262144, 0x80 + n / 4096 % 64, 0x80 + n / 64 % 64, 0x80 + n % 64]
  }

  function Encode(s: string): Bytes {
    if s == "" then [] else EncodeChar(s[0]) + Encode(s[1..])
  }

  predicate IsCont(b: Byte) { 0x80 <= b < 0xC0 }

  predicate IsScalar(n: int) {
    0 <= n < 0xD800 || 0xE000 <= n < 0x110000
  }

  function Two(a: int, b: int): int { (a - 0xC0) * 64 + (b - 0x80) }

  function Three(a: int, b: int, c: int): int { (a - 0xE0) * 4096 + (b - 0x80) * 64 + (c - 0x80) }

  function Four(a: int, b: int, c: int, d: int): int {
    (a - 0xF0) * 262144 + (b - 0x80) * 4096 + (c - 0x80) * 64 + (d - 0x80)
  }

  /** The code point that begins `b`, and how many bytes it takes. Overlong forms and surrogates are refused. */
  function DecodeChar(b: Bytes): Option<(char, nat)>
    requires b != []
  {
    var a: int := b[0];
    if a < 0x80 then Some((a as char, 1))
    else if 0xC0 <= a < 0xE0 && |b| >= 2 && IsCont(b[1]) then
      var n := Two(a, b[1]);
      if n >= 0x80 then Some((n as char, 2)) else None
    else if 0xE0 <= a < 0xF0 && |b| >= 3 && IsCont(b[1]) && IsCont(b[2]) then
      var n := Three(a, b[1], b[2]);
      if n >= 0x800 && IsScalar(n) then Some((n as char, 3)) else None
    else if 0xF0 <= a < 0xF8 && |b| >= 4 && IsCont(b[1]) && IsCont(b[2]) && IsCont(b[3]) then
      var n := Four(a, b[1], b[2], b[3]);
      if n >= 0x10000 && IsScalar(n) then Some((n as char, 4)) else None
    else None
  }

  /** `String::from_utf8`. */
  function Decode(b: Bytes): Option<string>
    decreases |b|
  {
    if b == [] then Some("")
    else
      var first := DecodeChar(b);
      if first.None? then None
      else
        var rest := Decode(b[first.value.1..]);
        if rest.None? then None else Some([first.value.0] + rest.value)
  }

  lemma Divide4096(n: nat)
    ensures n / 4096 == n / 64 / 64
  {
    var q := n / 64;
    assert n == q * 64 + n % 64 && q == q / 64 * 64 + q % 64;
  }

  lemma Divide262144(n: nat)
    ensures n / 262144 == n / 4096 / 64
  {
    var q := n / 4096;
    assert n == q * 4096 + n % 4096 && q == q / 64 * 64 + q % 64;
  }

  lemma SplitParts(n: nat)
    ensures n == n / 64 * 64 + n % 64
    ensures n == n / 4096 * 4096 + n / 64 % 64 * 64 + n % 64
    ensures n == n / 262144 * 262144 + n / 4096 % 64 * 4096 + n / 64 % 64 * 64 + n % 64
  {
    Divide4096(n);
    Divide262144(n);
    var q, s := n / 64, n / 4096;
    assert q == s * 64 + q % 64;
    assert s == n / 262144 * 64 + s % 64;
  }

  lemma DecodeShort(c: char, more: Bytes)
    requires c as int < 0x10000
    ensures DecodeChar(EncodeChar(c) + more) == Some((c, |EncodeChar(c)|))
  {
    SplitParts(c as int);
  }

  lemma DecodeLong(c: char, more: Bytes)
    requires c as int >= 0x10000
    ensures DecodeChar(EncodeChar(c) + more) == Some((c, |EncodeChar(c)|))
  {
    SplitParts(c as int);
  }

  lemma DecodeEncodeChar(c: char, more: Bytes)
    ensures DecodeChar(EncodeChar(c) + more) == Some((c, |EncodeChar(c)|))
  {
    if c as int < 0x10000 { DecodeShort(c, more); } else { DecodeLong(c, more); }
  }

  /** Section 3 of RFC 3629: as many bytes as the code point needs, the first telling how many, six bits in each other. */
  lemma EncodeCharExactly(c: char)
    ensures var n, e := c as int, EncodeChar(c);
      && |e| == (if n < 0x80 then 1 else if n < 0x800 then 2 else if n < 0x10000 then 3 else 4)
      && (forall k :: 1 <= k < |e| ==> 0x80 <= e[k] <= 0xBF)
      && (|e| == 1 ==> e[0] == n)
      && (|e| == 2 ==> 0xC2 <= e[0] <= 0xDF && n == Bits(e[0], 0xC0) * 64 + Bits(e[1], 0x80))
      && (|e| == 3 ==> 0xE0 <= e[0] <= 0xEF && n == Bits(e[0], 0xE0) * 4096 + Bits(e[1], 0x80) * 64 + Bits(e[2], 0x80))
      && (|e| == 4 ==> 0xF0 <= e[0] <= 0xF4 &&
                       n == Bits(e[0], 0xF0) * 262144 + Bits(e[1], 0x80) * 4096 + Bits(e[2], 0x80) * 64 + Bits(e[3], 0x80))
  {
    SplitParts(c as int);
  }

  /** The bits of a byte after its mark. */
  function Bits(b: Byte, mark: int): int { b - mark }

  /** Decoding an encoded string gives it back. */
  lemma {:induction false} DecodeEncode(s: string)
    ensures Decode(Encode(s)) == Some(s)
  {
    if s != "" {
      var head, tail := EncodeChar(s[0]), Encode(s[1..]);
      DecodeEncodeChar(s[0], tail);
      DecodeEncode(s[1..]);
      assert (head + tail)[|head|..] == tail;
      assert [s[0]] + s[1..] == s;
    }
  }

  lemma TwoParts(a: int, b: int)
    requires 0xC0 <= a < 0xE0 && 0x80 <= b < 0xC0
    ensures var n := Two(a, b); 0xC0 + n / 64 == a && 0x80 + n % 64 == b
  {
  }

  lemma ThreeParts(a: int, b: int, c: int)
    requires 0xE0 <= a < 0xF0 && 0x80 <= b < 0xC0 && 0x80 <= c < 0xC0
    ensures var n := Three(a, b, c); 0xE0 + n / 4096 == a && 0x80 + n / 64 % 64 == b && 0x80 + n % 64 == c
  {
    assert Three(a, b, c) / 64 == (a - 0xE0) * 64 + (b - 0x80);
  }

  lemma FourParts(a: int, b: int, c: int, d: int)
    requires 0xF0 <= a < 0xF8 && 0x80 <= b < 0xC0 && 0x80 <= c < 0xC0 && 0x80 <= d < 0xC0
    ensures var n := Four(a, b, c, d); 0xF0 + n / 262144 == a && 0x80 + n / 4096 % 64 == b && 0x80 + n / 64 % 64 == c && 0x80 + n % 64 == d
  {
    assert Four(a, b, c, d) / 64 == (a - 0xF0) * 4096 + (b - 0x80) * 64 + (c - 0x80);
    assert Four(a, b, c, d) / 4096 == (a - 0xF0) * 64 + (b - 0x80);
  }

  lemma EncodeDecodeChar(b: Bytes)
    requires b != [] && DecodeChar(b).Some?
    ensures var (c, k) := DecodeChar(b).value; k <= |b| && EncodeChar(c) == b[..k]
  {
    var (c, k) := DecodeChar(b).value;
    if k == 2 {
      TwoParts(b[0], b[1]);
    } else if k == 3 {
      ThreeParts(b[0], b[1], b[2]);
    } else if k == 4 {
      FourParts(b[0], b[1], b[2], b[3]);
    }
  }

  lemma EncodeCons(c: char, rest: string)
    ensures Encode([c] + rest) == EncodeChar(c) + Encode(rest)
  {
    assert ([c] + rest)[1..] == rest;
  }

  /** Only the encoding of a string decodes to it. */
  lemma {:induction false} EncodeDecode(b: Bytes)
    requires Decode(b).Some?
    ensures Encode(Decode(b).value) == b
    decreases |b|
  {
    if b != [] {
      var (c, k) := DecodeChar(b).value;
      EncodeDecodeChar(b);
      EncodeDecode(b[k..]);
      EncodeCons(c, Decode(b[k..]).value);
      assert b == b[..k] + b[k..];
    }
  }

  lemma EncodeInjective(s: string, t: string)
    requires Encode(s) == Encode(t)
    ensures s == t
  {
    DecodeEncode(s);
    DecodeEncode(t);
  }

  lemma {:induction false} EncodeAdd(s: string, t: string)
    ensures Encode(s + t) == Encode(s) + Encode(t)
  {
    if s == "" {
      assert s + t == t;
    } else {
      assert (s + t)[1..] == s[1..] + t;
      EncodeAdd(s[1..], t);
    }
  }

  // ----- Slicing by bytes -----

  /** `&s[..n]`: the text of the first `n` bytes, or none (a panic) when they end inside a character or past the end. */
  function Slice(s: string, n: nat): Option<string> {
    if n == 0 then Some("")
    else if s == "" || n < |EncodeChar(s[0])| then None
    else
      var rest := Slice(s[1..], n - |EncodeChar(s[0])|);
      if rest.Some? then Some([s[0]] + rest.value) else None
  }

  /** One byte more than the text before a character: the character with it if it is one byte long, a panic if not. */
  lemma {:induction false} SliceOneMore(s: string, i: nat)
    requires i < |s|
    ensures Slice(s, |Encode(s[..i])| + 1) == if |EncodeChar(s[i])| == 1 then Some(s[..i + 1]) else None
  {
    if i == 0 {
      assert s[..0] == "" && s[..1] == [s[0]] + "";
    } else {
      SliceOneMore(s[1..], i - 1);
      assert s[..i] == [s[0]] + s[1..][..i - 1];
      EncodeCons(s[0], s[1..][..i - 1]);
      assert s[..i + 1] == [s[0]] + s[1..][..i];
    }
  }

  /** One byte is one character of one byte. */
  lemma OneByte(s: string)
    ensures |Encode(s)| == 1 <==> |s| == 1 && |EncodeChar(s[0])| == 1
  {
    if s != "" && s[1..] != "" { assert |Encode(s[1..])| >= |EncodeChar(s[1..][0])| >= 1; }
  }
}
