/** Base64url without padding: sections 5 and 3.2 of RFC 4648, decoded strictly (no padding, no stray bits). */
module Base64Url {
  import opened Basics

  type Sextet = n: int | 0 <= n < 64

  function Symbol(n: Sextet): char {
    if n < 26 then 'A' + n as char
    else if n < 52 then 'a' + (n - 26) as char
    else if n < 62 then '0' + (n - 52) as char
    else if n == 62 then '-' else '_'
  }

  /** The alphabet of section 5. */
  lemma AlphabetExactly(n: Sextet)
    ensures n < 26 ==> Symbol(n) == "ABCDEFGHIJKLMNOPQRSTUVWXYZ"[n]
    ensures 26 <= n < 52 ==> Symbol(n) == "abcdefghijklmnopqrstuvwxyz"[n - 26]
    ensures 52 <= n ==> Symbol(n) == "0123456789-_"[n - 52]
  {
  }

  predicate IsSymbol(c: char) {
    'A' <= c <= 'Z' || 'a' <= c <= 'z' || '0' <= c <= '9' || c == '-' || c == '_'
  }

  function SextetOf(c: char): Sextet
    requires IsSymbol(c)
  {
    if 'A' <= c <= 'Z' then (c as int) - ('A' as int)
    else if 'a' <= c <= 'z' then (c as int) - ('a' as int) + 26
    else if '0' <= c <= '9' then (c as int) - ('0' as int) + 52
    else if c == '-' then 62 else 63
  }

  // ----- Groups: one, two or three bytes as two, three or four sextets -----

  function Split1(a: Byte): (r: seq<Sextet>)
    ensures |r| == 2
  {
    [a / 4, a % 4 * 16]
  }

  function Split2(a: Byte, b: Byte): (r: seq<Sextet>)
    ensures |r| == 3
  {
    [a / 4, a % 4 * 16 + b / 16, b % 16 * 4]
  }

  function Split3(a: Byte, b: Byte, c: Byte): (r: seq<Sextet>)
    ensures |r| == 4
  {
    [a / 4, a % 4 * 16 + b / 16, b % 16 * 4 + c / 64, c % 64]
  }

  function First(p: Sextet, q: Sextet): (b: Byte)
    ensures b / 4 == p && b % 4 == q / 16
  {
    p * 4 + q / 16
  }

  function Second(q: Sextet, r: Sextet): (b: Byte)
    ensures b / 16 == q % 16 && b % 16 == r / 4
  {
    q % 16 * 16 + r / 4
  }

  function Third(r: Sextet, t: Sextet): (b: Byte)
    ensures b / 64 == r % 4 && b % 64 == t
  {
    r % 4 * 64 + t
  }

  lemma JoinSplit1(a: Byte)
    ensures var s := Split1(a); First(s[0], s[1]) == a && s[1] % 16 == 0
  {
  }

  lemma JoinSplit2(a: Byte, b: Byte)
    ensures var s := Split2(a, b); First(s[0], s[1]) == a && Second(s[1], s[2]) == b && s[2] % 4 == 0
  {
  }

  lemma JoinSplit3(a: Byte, b: Byte, c: Byte)
    ensures var s := Split3(a, b, c); First(s[0], s[1]) == a && Second(s[1], s[2]) == b && Third(s[2], s[3]) == c
  {
  }

  lemma SplitJoin1(p: Sextet, q: Sextet)
    requires q % 16 == 0
    ensures Split1(First(p, q)) == [p, q]
  {
  }

  lemma SplitJoin3(p: Sextet, q: Sextet, r: Sextet, t: Sextet)
    ensures Split3(First(p, q), Second(q, r), Third(r, t)) == [p, q, r, t]
  {
  }

  lemma SplitJoin2(p: Sextet, q: Sextet, r: Sextet)
    requires r % 4 == 0
    ensures Split2(First(p, q), Second(q, r)) == [p, q, r]
  {
  }

  /** Section 4 of RFC 4648: the bits of the bytes in order, filled up with zeros to whole sextets. */
  lemma GroupsExactly(a: int, b: int, c: int)
    requires 0 <= a < 256 && 0 <= b < 256 && 0 <= c < 256
    ensures var p: int, q: int := Split1(a)[0], Split1(a)[1]; p * 64 + q == a * 16
    ensures var p: int, q: int, r: int := Split2(a, b)[0], Split2(a, b)[1], Split2(a, b)[2];
      p * 4096 + q * 64 + r == (a * 256 + b) * 4
    ensures var p: int, q: int, r: int, t: int := Split3(a, b, c)[0], Split3(a, b, c)[1], Split3(a, b, c)[2], Split3(a, b, c)[3];
      p * 262144 + q * 4096 + r * 64 + t == a * 65536 + b * 256 + c
  {
  }

  // ----- The codec -----

  /** Bytes cut into sextets, three at a time. */
  function Cut(b: Bytes): seq<Sextet> {
    if b == [] then []
    else if |b| == 1 then Split1(b[0])
    else if |b| == 2 then Split2(b[0], b[1])
    else Split3(b[0], b[1], b[2]) + Cut(b[3..])
  }

  /** Only whole groups, and last groups of two or three sextets whose unused bits are zero, join. */
  function Join(s: seq<Sextet>): Option<Bytes> {
    if |s| == 1 then None
    else if s == [] then Some([])
    else if |s| == 2 then (if s[1] % 16 == 0 then Some([First(s[0], s[1])]) else None)
    else if |s| == 3 then (if s[2] % 4 == 0 then Some([First(s[0], s[1]), Second(s[1], s[2])]) else None)
    else
      var rest := Join(s[4..]);
      if rest.Some? then Some([First(s[0], s[1]), Second(s[1], s[2]), Third(s[2], s[3])] + rest.value) else None
  }

  lemma {:induction false} JoinCut(b: Bytes)
    ensures Join(Cut(b)) == Some(b)
  {
    if |b| == 1 {
      JoinSplit1(b[0]);
      assert b == [b[0]];
    } else if |b| == 2 {
      JoinSplit2(b[0], b[1]);
      assert b == [b[0], b[1]];
    } else if |b| >= 3 {
      JoinSplit3(b[0], b[1], b[2]);
      JoinCut(b[3..]);
      assert Cut(b)[4..] == Cut(b[3..]);
      assert b == [b[0], b[1], b[2]] + b[3..];
    }
  }

  lemma {:induction false} CutJoin(s: seq<Sextet>)
    requires Join(s).Some?
    ensures Cut(Join(s).value) == s
  {
    if |s| == 2 {
      SplitJoin1(s[0], s[1]);
    } else if |s| == 3 {
      SplitJoin2(s[0], s[1], s[2]);
    } else if |s| >= 4 {
      SplitJoin3(s[0], s[1], s[2], s[3]);
      CutJoin(s[4..]);
      assert Join(s).value[3..] == Join(s[4..]).value;
      assert s == [s[0], s[1], s[2], s[3]] + s[4..];
    }
  }

  function Encode(b: Bytes): (r: string)
    ensures |r| == |Cut(b)|
  {
    seq(|Cut(b)|, i requires 0 <= i < |Cut(b)| => Symbol(Cut(b)[i]))
  }

  predicate AllSymbols(s: string) {
    forall i :: 0 <= i < |s| ==> IsSymbol(s[i])
  }

  function Sextets(s: string): (r: seq<Sextet>)
    requires AllSymbols(s)
    ensures |r| == |s|
  {
    seq(|s|, i requires 0 <= i < |s| => SextetOf(s[i]))
  }

  function Decode(s: string): Option<Bytes> {
    if AllSymbols(s) then Join(Sextets(s)) else None
  }

  lemma EncodeSymbols(b: Bytes)
    ensures AllSymbols(Encode(b)) && Sextets(Encode(b)) == Cut(b)
  {
  }

  /** Bytes are encoded three by three, and the last one or two by themselves. */
  lemma EncodeExactly(b: Bytes)
    ensures Encode([]) == ""
    ensures |b| == 1 ==> Encode(b) == [Symbol(Split1(b[0])[0]), Symbol(Split1(b[0])[1])]
    ensures |b| == 2 ==> var s := Split2(b[0], b[1]); Encode(b) == [Symbol(s[0]), Symbol(s[1]), Symbol(s[2])]
    ensures |b| >= 3 ==> var s := Split3(b[0], b[1], b[2]); Encode(b) == [Symbol(s[0]), Symbol(s[1]), Symbol(s[2]), Symbol(s[3])] + Encode(b[3..])
  {
  }

  /** Decoding what was encoded gives the bytes back. */
  lemma DecodeEncode(b: Bytes)
    ensures Decode(Encode(b)) == Some(b)
  {
    EncodeSymbols(b);
    JoinCut(b);
  }

  /** Only the canonical encoding decodes. */
  lemma EncodeDecode(s: string)
    requires Decode(s).Some?
    ensures Encode(Decode(s).value) == s
  {
    CutJoin(Sextets(s));
  }
}
