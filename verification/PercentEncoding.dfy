/** Percent-encoding of query values and key paths: section 2 of RFC 3986. */
module PercentEncoding {
  import opened Basics
  import opened Text
  import Utf8

  /** Unreserved characters, section 2.3. */
  predicate Unreserved(b: Byte) {
    'A' as int <= b <= 'Z' as int || 'a' as int <= b <= 'z' as int || '0' as int <= b <= '9' as int ||
    b == '-' as int || b == '_' as int || b == '.' as int || b == '~' as int
  }

  function HexDigit(n: nat): char
    requires n < 16
  {
    if n < 10 then '0' + n as char else 'A' + (n - 10) as char
  }

  function EncodeByte(b: Byte): string {
    if Unreserved(b) then [b as char] else ['%', HexDigit(b / 16), HexDigit(b % 16)]
  }

  /** Letters, digits and four marks stand for themselves; every other byte is "%" and two upper-case digits. */
  lemma EncodeByteExactly(b: Byte)
    ensures EncodeByte(b) ==
              if 48 <= b <= 57 || 65 <= b <= 90 || 97 <= b <= 122 || b in {45, 46, 95, 126} then [b as char]
              else ['%', "0123456789ABCDEF"[b / 16], "0123456789ABCDEF"[b % 16]]
  {
  }

  function EncodeBytes(b: Bytes): string {
    if b == [] then "" else EncodeByte(b[0]) + EncodeBytes(b[1..])
  }

  lemma {:induction false} EncodeBytesAdd(a: Bytes, b: Bytes)
    ensures EncodeBytes(a + b) == EncodeBytes(a) + EncodeBytes(b)
  {
    if a == [] {
      assert a + b == b;
    } else {
      assert (a + b)[1..] == a[1..] + b;
      EncodeBytesAdd(a[1..], b);
    }
  }

  /** `urlencoding_encode`: one byte of the UTF-8 form at a time. */
  method UrlEncode(s: string) returns (out: string)
    ensures out == EncodeBytes(Utf8.Encode(s))
  {
    var bytes := Utf8.Encode(s);
    out := "";
    for i := 0 to |bytes|
      invariant out == EncodeBytes(bytes[..i])
    {
      EncodeBytesAdd(bytes[..i], [bytes[i]]);
      assert bytes[..i + 1] == bytes[..i] + [bytes[i]];
      assert [bytes[i]][1..] == [];
      if Unreserved(bytes[i]) {
        out := out + [bytes[i] as char];
      } else {
        out := out + ['%', HexDigit(bytes[i] / 16), HexDigit(bytes[i] % 16)];
      }
    }
    assert bytes[..|bytes|] == bytes;
  }

  // ----- Decoding, as a reader of the URL does -----

  function HexValue(c: char): Option<nat> {
    if '0' <= c <= '9' then Some((c as int) - ('0' as int))
    else if 'A' <= c <= 'F' then Some((c as int) - ('A' as int) + 10)
    else if 'a' <= c <= 'f' then Some((c as int) - ('a' as int) + 10)
    else None
  }

  /** Section 2.1: "%" and two hexadecimal digits stand for a byte; other ASCII characters for themselves. */
  function DecodeBytes(s: string): Option<Bytes>
    decreases |s|
  {
    if s == "" then Some([])
    else if s[0] == '%' then
      if |s| >= 3 && HexValue(s[1]).Some? && HexValue(s[2]).Some? then
        assert HexValue(s[1]).value < 16 && HexValue(s[2]).value < 16;
        var rest := DecodeBytes(s[3..]);
        if rest.Some? then Some([HexValue(s[1]).value * 16 + HexValue(s[2]).value] + rest.value) else None
      else None
    else if s[0] as int < 128 then
      var rest := DecodeBytes(s[1..]);
      if rest.Some? then Some([s[0] as int] + rest.value) else None
    else None
  }

  lemma HexRoundTrip(n: nat)
    requires n < 16
    ensures HexValue(HexDigit(n)) == Some(n)
  {
  }

  function Prepend(b: Byte, rest: Option<Bytes>): Option<Bytes> {
    if rest.Some? then Some([b] + rest.value) else None
  }

  lemma DecodeOne(b: Byte, more: string)
    ensures DecodeBytes(EncodeByte(b) + more) == Prepend(b, DecodeBytes(more))
  {
    var s := EncodeByte(b) + more;
    if Unreserved(b) {
      assert s[0] == b as char && s[1..] == more;
    } else {
      HexRoundTrip(b / 16);
      HexRoundTrip(b % 16);
      assert s[0] == '%' && s[1] == HexDigit(b / 16) && s[2] == HexDigit(b % 16) && s[3..] == more;
      assert b / 16 * 16 + b % 16 == b;
    }
  }

  /** What comes after an encoded text is decoded after it. */
  lemma {:induction false} DecodeEncodedThen(b: Bytes, more: string)
    requires DecodeBytes(more).Some?
    ensures DecodeBytes(EncodeBytes(b) + more) == Some(b + DecodeBytes(more).value)
  {
    if b == [] {
      assert EncodeBytes(b) + more == more;
      assert b + DecodeBytes(more).value == DecodeBytes(more).value;
    } else {
      DecodeEncodedThen(b[1..], more);
      assert EncodeBytes(b) + more == EncodeByte(b[0]) + (EncodeBytes(b[1..]) + more);
      DecodeOne(b[0], EncodeBytes(b[1..]) + more);
      assert [b[0]] + (b[1..] + DecodeBytes(more).value) == b + DecodeBytes(more).value;
    }
  }

  // ----- Key paths -----

  function JoinSlash(parts: seq<string>): string
    requires parts != []
  {
    if |parts| == 1 then parts[0] else parts[0] + "/" + JoinSlash(parts[1..])
  }

  function EncodeEach(parts: seq<string>): (r: seq<string>)
    ensures |r| == |parts|
  {
    if parts == [] then [] else [EncodeBytes(Utf8.Encode(parts[0]))] + EncodeEach(parts[1..])
  }

  /** `encode_key_path`: segments are encoded, slashes stay. */
  function EncodeKeyPath(key: string): string {
    JoinSlash(EncodeEach(Split(key, '/')))
  }

  lemma {:induction false} EncodeEachAdd(a: seq<string>, b: seq<string>)
    ensures EncodeEach(a + b) == EncodeEach(a) + EncodeEach(b)
  {
    if a == [] {
      assert a + b == b;
    } else {
      assert (a + b)[1..] == a[1..] + b;
      EncodeEachAdd(a[1..], b);
    }
  }

  lemma {:induction false} JoinSlashAdd(a: seq<string>, b: seq<string>)
    requires a != [] && b != []
    ensures JoinSlash(a + b) == JoinSlash(a) + "/" + JoinSlash(b)
  {
    if |a| == 1 {
      assert (a + b)[1..] == b;
    } else {
      assert (a + b)[1..] == a[1..] + b;
      JoinSlashAdd(a[1..], b);
      assert a[0] + "/" + (JoinSlash(a[1..]) + "/" + JoinSlash(b)) == a[0] + "/" + JoinSlash(a[1..]) + "/" + JoinSlash(b);
    }
  }

  /** In a link path slashes stay as they are, and each segment between them is encoded by itself. */
  lemma KeyPathKeepsSlashes(a: string, b: string)
    ensures EncodeKeyPath(a + ['/'] + b) == EncodeKeyPath(a) + "/" + EncodeKeyPath(b)
    ensures '/' !in a ==> EncodeKeyPath(a) == EncodeBytes(Utf8.Encode(a))
  {
    SplitJoin(a, '/', b);
    EncodeEachAdd(Split(a, '/'), Split(b, '/'));
    JoinSlashAdd(EncodeEach(Split(a, '/')), EncodeEach(Split(b, '/')));
    if '/' !in a {
      SplitPlain(a, '/');
      assert [a][1..] == [];
    }
  }

  lemma {:induction false} SplitThenJoin(s: string)
    ensures JoinSlash(Split(s, '/')) == s
  {
    if s != "" {
      SplitThenJoin(s[1..]);
      var rest := Split(s[1..], '/');
      if s[0] == '/' {
        assert ([""] + rest)[1..] == rest;
        assert "" + "/" + s[1..] == s;
      } else {
        assert Split(s, '/')[1..] == rest[1..];
        if |rest| == 1 {
          assert [s[0]] + s[1..] == s;
        } else {
          assert [s[0]] + rest[0] + "/" + JoinSlash(rest[1..]) == [s[0]] + s[1..] == s;
        }
      }
    }
  }

  lemma SlashThen(tail: string, encoded: string)
    requires DecodeBytes(encoded) == Some(Utf8.Encode(tail))
    ensures DecodeBytes("/" + encoded) == Some(Utf8.Encode("/" + tail))
  {
    assert ("/" + encoded)[1..] == encoded;
    Utf8.EncodeAdd("/", tail);
    assert "/"[1..] == "" && Utf8.Encode("/") == [47];
  }

  lemma Associates(a: string, b: string, c: string)
    ensures (a + b) + c == a + (b + c)
  {
  }

  lemma SegmentThen(part: string, tail: string, encoded: string)
    requires DecodeBytes(encoded) == Some(Utf8.Encode(tail))
    ensures DecodeBytes(EncodeBytes(Utf8.Encode(part)) + "/" + encoded) == Some(Utf8.Encode(part + "/" + tail))
  {
    var bytes := Utf8.Encode(part);
    SlashThen(tail, encoded);
    DecodeEncodedThen(bytes, "/" + encoded);
    Utf8.EncodeAdd(part, "/" + tail);
    Associates(EncodeBytes(bytes), "/", encoded);
    Associates(part, "/", tail);
  }

  lemma {:induction false} EncodedPathDecodes(parts: seq<string>)
    requires parts != []
    ensures DecodeBytes(JoinSlash(EncodeEach(parts))) == Some(Utf8.Encode(JoinSlash(parts)))
  {
    if |parts| == 1 {
      var head := Utf8.Encode(parts[0]);
      assert DecodeBytes("") == Some([]);
      DecodeEncodedThen(head, "");
      assert EncodeBytes(head) + "" == EncodeBytes(head) && head + [] == head;
    } else {
      EncodedPathDecodes(parts[1..]);
      assert EncodeEach(parts)[1..] == EncodeEach(parts[1..]);
      SegmentThen(parts[0], JoinSlash(parts[1..]), JoinSlash(EncodeEach(parts[1..])));
    }
  }

  /** A link built from a key decodes to the bytes of that key, for every key, so distinct keys have distinct links. */
  lemma KeyPathDecodes(key: string)
    ensures DecodeBytes(EncodeKeyPath(key)) == Some(Utf8.Encode(key))
  {
    EncodedPathDecodes(Split(key, '/'));
    SplitThenJoin(key);
  }

  lemma KeyPathInjective(a: string, b: string)
    requires EncodeKeyPath(a) == EncodeKeyPath(b)
    ensures a == b
  {
    KeyPathDecodes(a);
    KeyPathDecodes(b);
    Utf8.EncodeInjective(a, b);
  }

  // ----- Text that needs no encoding -----

  predicate Plain(c: char) {
    c as int < 256 && Unreserved(c as int)
  }

  /** Text made of unreserved characters is its own encoding. */
  lemma {:induction false} PlainIsItself(s: string)
    requires forall i :: 0 <= i < |s| ==> Plain(s[i])
    ensures EncodeBytes(Utf8.Encode(s)) == s
  {
    if s != "" {
      PlainIsItself(s[1..]);
      var b := s[0] as int;
      assert Utf8.EncodeChar(s[0]) == [b];
      assert Utf8.Encode(s)[1..] == Utf8.Encode(s[1..]);
      assert EncodeByte(b) == [s[0]] && s == [s[0]] + s[1..];
    }
  }
}
