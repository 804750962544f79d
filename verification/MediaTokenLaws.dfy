/** Verifying a minted token gives back the grant it was minted for, for every grant, until it expires. */
module MediaTokenLaws {
  import opened Basics
  import opened Text
  import opened Numerals
  import opened MediaTokens
  import opened PercentEncoding
  import Base64Url
  import Utf8

  // ----- Comparing signatures -----

  lemma {:induction false} XorZero(x: nat, y: nat)
    ensures BitXor(x, y) == 0 <==> x == y
  {
    if x != 0 || y != 0 {
      XorZero(x / 2, y / 2);
      assert x == x / 2 * 2 + x % 2 && y == y / 2 * 2 + y % 2;
    }
  }

  lemma {:induction false} OrZero(x: nat, y: nat)
    ensures BitOr(x, y) == 0 <==> x == 0 && y == 0
  {
    if x != 0 || y != 0 { OrZero(x / 2, y / 2); }
  }

  lemma {:induction false} DifferencesZero(a: Bytes, b: Bytes, acc: nat)
    requires |a| == |b|
    ensures Differences(a, b, acc) == 0 <==> acc == 0 && a == b
  {
    if a != [] {
      DifferencesZero(a[1..], b[1..], BitOr(acc, BitXor(a[0], b[0])));
      OrZero(acc, BitXor(a[0], b[0]));
      XorZero(a[0], b[0]);
      assert a == [a[0]] + a[1..] && b == [b[0]] + b[1..];
    }
  }

  /** The comparison that never stops early accepts exactly equal signatures. */
  lemma SameSignatureIsEquality(expected: string, given: string)
    ensures SameSignature(expected, given) <==> expected == given
  {
    var a, b := Utf8.Encode(expected), Utf8.Encode(given);
    if |a| == |b| {
      DifferencesZero(a, b, 0);
      if a == b { Utf8.EncodeInjective(expected, given); }
    }
  }

  // ----- Payloads -----

  lemma {:induction false} SplitDotted(parts: seq<string>)
    requires parts != [] && forall i :: 0 <= i < |parts| ==> '.' !in parts[i]
    ensures Split(Dotted(parts), '.') == parts
  {
    SplitPlain(parts[0], '.');
    if |parts| > 1 {
      SplitDotted(parts[1..]);
      SplitJoin(parts[0], '.', Dotted(parts[1..]));
      assert parts == [parts[0]] + parts[1..];
    }
  }

  lemma FieldsHaveNoDot(g: Grant)
    ensures forall i :: 0 <= i < |Fields(g)| ==> '.' !in Fields(g)[i]
  {
    PrintChars(g.bucketId);
    PrintChars(g.exp);
    PrintChars(if g.Share? then g.shareId else g.accountId);
    if g.Personal? { Base64Url.EncodeSymbols(Utf8.Encode(g.key)); }
  }

  predicate Representable(g: Grant) {
    IsI64(g.bucketId) && IsI64(g.exp) && IsI64(if g.Share? then g.shareId else g.accountId)
  }

  lemma DottedCons(head: string, rest: seq<string>)
    requires rest != []
    ensures Dotted([head] + rest) == head + "." + Dotted(rest)
  {
    assert ([head] + rest)[1..] == rest;
  }

  lemma DottedFive(a: string, b: string, c: string, d: string, e: string)
    ensures Dotted([a, b, c, d, e]) == a + "." + b + "." + c + "." + d + "." + e
  {
    DottedCons(d, [e]);
    DottedCons(c, [d, e]);
    DottedCons(b, [c, d, e]);
    DottedCons(a, [b, c, d, e]);
    assert [a] + [b, c, d, e] == [a, b, c, d, e] && [b] + [c, d, e] == [b, c, d, e] && [c] + [d, e] == [c, d, e] && [d] + [e] == [d, e];
    assert a + "." + b + "." + c + "." + d + "." + e == a + "." + (b + "." + (c + "." + (d + "." + e)));
  }

  lemma DottedSix(a: string, b: string, c: string, d: string, e: string, f: string)
    ensures Dotted([a, b, c, d, e, f]) == a + "." + b + "." + c + "." + d + "." + e + "." + f
  {
    DottedFive(b, c, d, e, f);
    DottedCons(a, [b, c, d, e, f]);
    assert [a] + [b, c, d, e, f] == [a, b, c, d, e, f];
    assert a + "." + b + "." + c + "." + d + "." + e + "." + f == a + "." + (b + "." + c + "." + d + "." + e + "." + f);
  }

  lemma PayloadSplits(g: Grant)
    ensures Split(Payload(g), '.') == Fields(g)
  {
    FieldsHaveNoDot(g);
    SplitDotted(Fields(g));
  }

  /** The text of a payload. */
  lemma PayloadExactly(g: Grant)
    ensures Payload(g) ==
              match g
              case Share(id, bucket, exp) => "v1.s." + Print(id) + "." + Print(bucket) + "." + Print(exp)
              case Personal(account, bucket, key, exp) =>
                "v1.p." + Print(account) + "." + Print(bucket) + "." + Base64Url.Encode(Utf8.Encode(key)) + "." + Print(exp)
  {
    match g {
      case Share(id, bucket, exp) => DottedFive("v1", "s", Print(id), Print(bucket), Print(exp));
      case Personal(account, bucket, key, exp) =>
        DottedSix("v1", "p", Print(account), Print(bucket), Base64Url.Encode(Utf8.Encode(key)), Print(exp));
    }
    assert "v1" + "." + "s" + "." == "v1.s." && "v1" + "." + "p" + "." == "v1.p.";
  }

  lemma ShareReads(id: int, bucket: int, exp: int, now: int)
    requires IsI64(id) && IsI64(bucket) && IsI64(exp)
    ensures ReadShare(Print(id), Print(bucket), Print(exp), now) ==
              if exp < NowUnix(now) then Refused(Expired) else Granted(Share(id, bucket, exp))
  {
    PrintParses(id);
    PrintParses(bucket);
    PrintParses(exp);
  }

  lemma PersonalReads(account: int, bucket: int, key: string, exp: int, now: int)
    requires IsI64(account) && IsI64(bucket) && IsI64(exp)
    ensures ReadPersonal(Print(account), Print(bucket), Base64Url.Encode(Utf8.Encode(key)), Print(exp), now) ==
              if exp < NowUnix(now) then Refused(Expired) else Granted(Personal(account, bucket, key, exp))
  {
    PrintParses(account);
    PrintParses(bucket);
    PrintParses(exp);
    Base64Url.DecodeEncode(Utf8.Encode(key));
    Utf8.DecodeEncode(key);
  }

  /** A payload is read back as the grant it was written for, until the second after its expiry. */
  lemma PayloadReads(g: Grant, now: int)
    requires Representable(g)
    ensures ReadPayload(Payload(g), now) == if g.exp < NowUnix(now) then Refused(Expired) else Granted(g)
  {
    PayloadSplits(g);
    match g {
      case Share(id, bucket, exp) => ShareReads(id, bucket, exp, now);
      case Personal(account, bucket, key, exp) => PersonalReads(account, bucket, key, exp, now);
    }
  }

  lemma PrintInjective(n: int, m: int)
    requires IsI64(n) && IsI64(m) && Print(n) == Print(m)
    ensures n == m
  {
    PrintParses(n);
    PrintParses(m);
  }

  lemma KeyFieldInjective(a: string, b: string)
    requires Base64Url.Encode(Utf8.Encode(a)) == Base64Url.Encode(Utf8.Encode(b))
    ensures a == b
  {
    Base64Url.DecodeEncode(Utf8.Encode(a));
    Base64Url.DecodeEncode(Utf8.Encode(b));
    Utf8.EncodeInjective(a, b);
  }

  lemma FieldsInjective(g: Grant, h: Grant)
    requires Representable(g) && Representable(h) && Fields(g) == Fields(h)
    ensures g == h
  {
    var f, e := Fields(g), Fields(h);
    assert f[1] == e[1] && g.Share? == h.Share?;
    PrintInjective(g.bucketId, h.bucketId);
    PrintInjective(g.exp, h.exp);
    if g.Share? {
      PrintInjective(g.shareId, h.shareId);
    } else {
      PrintInjective(g.accountId, h.accountId);
      KeyFieldInjective(g.key, h.key);
    }
  }

  /** Distinct grants have distinct payloads. */
  lemma PayloadInjective(g: Grant, h: Grant)
    requires Representable(g) && Representable(h) && Payload(g) == Payload(h)
    ensures g == h
  {
    PayloadSplits(g);
    PayloadSplits(h);
    FieldsInjective(g, h);
  }

  // ----- Tokens -----

  predicate IsHex(s: string) {
    s != "" && forall i :: 0 <= i < |s| ==> '0' <= s[i] <= '9' || 'a' <= s[i] <= 'f'
  }

  /** The keyed hash prints as hexadecimal digits. */
  ghost predicate HexMac(mac: string -> string) {
    forall payload :: IsHex(mac(payload))
  }

  lemma {:induction false} RSplitAppends(a: string, b: string)
    requires '.' !in b
    ensures RSplitOnce(a + "." + b) == Some((a, b))
  {
    var s := a + "." + b;
    if b == "" {
      assert s[..|s| - 1] == a;
    } else {
      assert s[..|s| - 1] == a + "." + b[..|b| - 1];
      RSplitAppends(a, b[..|b| - 1]);
      assert b[..|b| - 1] + [b[|b| - 1]] == b;
    }
  }

  lemma PayloadStarts(g: Grant)
    ensures Payload(g) != "" && Payload(g)[0] == 'v'
  {
  }

  lemma TokenIsTrimmed(payload: string, sig: string)
    requires payload != "" && payload[0] == 'v' && IsHex(sig)
    ensures Trim(payload + "." + sig) == payload + "." + sig
  {
    var token := payload + "." + sig;
    assert token[0] == payload[0] && token[|token| - 1] == sig[|sig| - 1];
    TrimFixed(token);
  }

  lemma VerifySigned(mac: string -> string, g: Grant, now: int)
    requires HexMac(mac)
    ensures Verify(mac, Signed(mac, Payload(g)), now) == ReadPayload(Payload(g), now)
  {
    var payload := Payload(g);
    var sig := mac(payload);
    assert IsHex(sig);
    PayloadStarts(g);
    TokenIsTrimmed(payload, sig);
    RSplitAppends(payload, sig);
    SameSignatureIsEquality(sig, sig);
  }

  /** A share token verifies to its own grant exactly until the second after its expiry. */
  lemma ShareTokenRoundTrip(mac: string -> string, shareId: int, bucketId: int, expires: Option<int>, minted: int, now: int)
    requires HexMac(mac) && IsI64(shareId) && IsI64(bucketId)
    requires MintShare(mac, shareId, bucketId, expires, minted).Some?
    requires IsI64(Seconds(MintShare(mac, shareId, bucketId, expires, minted).value.1))
    ensures var (token, exp) := MintShare(mac, shareId, bucketId, expires, minted).value;
      && minted < exp
      && exp == (if expires.Some? then Min(expires.value, minted + 604_800 * 1_000_000_000) else minted + 604_800 * 1_000_000_000)
      && Verify(mac, token, now) ==
           if exp / 1_000_000_000 < (if now < 0 then 0 else now / 1_000_000_000) then Refused(Expired)
           else Granted(Share(shareId, bucketId, exp / 1_000_000_000))
  {
    var g := Share(shareId, bucketId, Seconds(MintShare(mac, shareId, bucketId, expires, minted).value.1));
    VerifySigned(mac, g, now);
    PayloadReads(g, now);
  }

  /** A share token is minted exactly when the share has not expired. */
  lemma ShareTokenMinted(mac: string -> string, shareId: int, bucketId: int, expires: Option<int>, now: int)
    ensures MintShare(mac, shareId, bucketId, expires, now).Some? <==> (expires.Some? ==> expires.value > now)
  {
  }

  /** A personal token verifies to its own grant, whatever the key, exactly until the second after its expiry. */
  lemma PersonalTokenRoundTrip(mac: string -> string, accountId: int, bucketId: int, key: string, minted: int, now: int)
    requires HexMac(mac) && IsI64(accountId) && IsI64(bucketId)
    requires IsI64(Seconds(MintPersonal(mac, accountId, bucketId, key, minted).1))
    ensures var (token, exp) := MintPersonal(mac, accountId, bucketId, key, minted);
      && exp == minted + 86_400 * 1_000_000_000
      && Verify(mac, token, now) ==
           if exp / 1_000_000_000 < (if now < 0 then 0 else now / 1_000_000_000) then Refused(Expired)
           else Granted(Personal(accountId, bucketId, key, exp / 1_000_000_000))
  {
    var g := Personal(accountId, bucketId, key, Seconds(MintPersonal(mac, accountId, bucketId, key, minted).1));
    VerifySigned(mac, g, now);
    PayloadReads(g, now);
  }

  /** Why a token is refused, before its payload is looked at: nothing there, no signature, or not its own. */
  lemma RefusalsExactly(mac: string -> string, raw: string, now: int)
    ensures Trim(raw) == "" ==> Verify(mac, raw, now) == Refused(EmptyToken)
    ensures Trim(raw) != "" && '.' !in Trim(raw) ==> Verify(mac, raw, now) == Refused(Malformed)
    ensures forall payload, sig :: Trim(raw) == payload + "." + sig && '.' !in sig ==>
              Verify(mac, raw, now) == if sig == mac(payload) then ReadPayload(payload, now) else Refused(BadSignature)
  {
    var cut := RSplitOnce(Trim(raw));
    if cut.Some? { assert Trim(raw)[|cut.value.0|] == '.'; }
    forall payload, sig | Trim(raw) == payload + "." + sig && '.' !in sig
      ensures Verify(mac, raw, now) == if sig == mac(payload) then ReadPayload(payload, now) else Refused(BadSignature)
    {
      RSplitAppends(payload, sig);
      SameSignatureIsEquality(mac(payload), sig);
    }
  }

  /** How the payload of a share is read: three numbers, then the time. */
  lemma ShareFieldsRead(id: string, bucket: string, exp: string, now: int)
    requires '.' !in id && '.' !in bucket && '.' !in exp
    ensures ReadPayload("v1.s." + id + "." + bucket + "." + exp, now) ==
              if ParseI64(id) == None || ParseI64(bucket) == None || ParseI64(exp) == None then Refused(BadNumber)
              else if ParseI64(exp).value < (if now < 0 then 0 else now / 1_000_000_000) then Refused(Expired)
              else Granted(Share(ParseI64(id).value, ParseI64(bucket).value, ParseI64(exp).value))
  {
    var f := ["v1", "s", id, bucket, exp];
    SplitDotted(f);
    DottedFive("v1", "s", id, bucket, exp);
    assert "v1" + "." + "s" + "." == "v1.s.";
    assert Dotted(f) == "v1.s." + id + "." + bucket + "." + exp;
  }

  /** And that of a person's token: three numbers, the time, and only then the key. */
  lemma PersonalFieldsRead(account: string, bucket: string, key: string, exp: string, now: int)
    requires '.' !in account && '.' !in bucket && '.' !in key && '.' !in exp
    ensures ReadPayload("v1.p." + account + "." + bucket + "." + key + "." + exp, now) ==
              if ParseI64(account) == None || ParseI64(bucket) == None || ParseI64(exp) == None then Refused(BadNumber)
              else if ParseI64(exp).value < (if now < 0 then 0 else now / 1_000_000_000) then Refused(Expired)
              else if Base64Url.Decode(key) == None then Refused(BadKeyEncoding)
              else if Utf8.Decode(Base64Url.Decode(key).value) == None then Refused(BadKeyUtf8)
              else Granted(Personal(ParseI64(account).value, ParseI64(bucket).value, Utf8.Decode(Base64Url.Decode(key).value).value, ParseI64(exp).value))
  {
    var f := ["v1", "p", account, bucket, key, exp];
    SplitDotted(f);
    DottedSix("v1", "p", account, bucket, key, exp);
    assert "v1" + "." + "p" + "." == "v1.p.";
    assert Dotted(f) == "v1.p." + account + "." + bucket + "." + key + "." + exp;
  }

  /** No other text is a payload. */
  lemma OtherPayloads(payload: string, now: int)
    requires var f := Split(payload, '.');
      !(|f| == 5 && f[0] == "v1" && f[1] == "s") && !(|f| == 6 && f[0] == "v1" && f[1] == "p")
    ensures ReadPayload(payload, now) == Refused(UnknownFormat)
  {
  }

  lemma GrantedUnexpired(parts: seq<string>, now: int)
    requires ReadFields(parts, now).Granted?
    ensures ReadFields(parts, now).grant.exp >= NowUnix(now)
  {
  }

  lemma VerifiedSignature(mac: string -> string, token: string)
    requires RSplitOnce(token).Some? && SameSignature(mac(RSplitOnce(token).value.0), RSplitOnce(token).value.1)
    ensures token == Signed(mac, RSplitOnce(token).value.0)
  {
    SameSignatureIsEquality(mac(RSplitOnce(token).value.0), RSplitOnce(token).value.1);
  }

  /** A token is granted only if it carries the signature of its own payload, that payload reads as the grant, and the
      grant has not expired. */
  lemma OnlySignedTokensVerify(mac: string -> string, raw: string, now: int)
    requires Verify(mac, raw, now).Granted?
    ensures exists payload :: Trim(raw) == Signed(mac, payload) && ReadPayload(payload, now) == Verify(mac, raw, now)
    ensures Verify(mac, raw, now).grant.exp >= NowUnix(now)
  {
    var payload := RSplitOnce(Trim(raw)).value.0;
    VerifiedSignature(mac, Trim(raw));
    GrantedUnexpired(Split(payload, '.'), now);
    assert ReadPayload(payload, now) == Verify(mac, raw, now);
  }

  // ----- Tokens in links -----

  predicate AllPlain(s: string) {
    forall i :: 0 <= i < |s| ==> Plain(s[i])
  }

  lemma {:induction false} DottedPlain(parts: seq<string>)
    requires parts != [] && forall i :: 0 <= i < |parts| ==> AllPlain(parts[i])
    ensures AllPlain(Dotted(parts))
  {
    if |parts| > 1 { DottedPlain(parts[1..]); }
  }

  lemma TokenIsPlain(mac: string -> string, g: Grant)
    requires HexMac(mac)
    ensures AllPlain(Signed(mac, Payload(g)))
  {
    PrintChars(g.bucketId);
    PrintChars(g.exp);
    PrintChars(if g.Share? then g.shareId else g.accountId);
    if g.Personal? { Base64Url.EncodeSymbols(Utf8.Encode(g.key)); }
    DottedPlain(Fields(g));
    assert IsHex(mac(Payload(g)));
  }

  /** `append_access_query`. */
  function AppendAccess(path: string, access: string): string {
    path + [if '?' in path then '&' else '?'] + "access=" + EncodeBytes(Utf8.Encode(access))
  }

  /** The parameters a reader of the URL sees: what follows the first "?", cut at every "&". */
  function Parameters(url: string): seq<string> {
    if url == "" then []
    else if url[0] == '?' then Split(url[1..], '&')
    else Parameters(url[1..])
  }

  /** The decoded values of the parameters called "access", in order. */
  function AccessValues(params: seq<string>): seq<Option<Bytes>> {
    if params == [] then []
    else (if "access=" <= params[0] then [DecodeBytes(params[0][7..])] else []) + AccessValues(params[1..])
  }

  lemma {:induction false} EncodedHasNoAmpersand(b: Bytes)
    ensures '&' !in EncodeBytes(b)
  {
    if b != [] { EncodedHasNoAmpersand(b[1..]); }
  }

  lemma {:induction false} AppendedParameter(path: string, param: string)
    requires '&' !in param
    ensures Parameters(path + [if '?' in path then '&' else '?'] + param) == Parameters(path) + [param]
  {
    var sep := if '?' in path then '&' else '?';
    var url := path + [sep] + param;
    if path == "" {
      assert url[0] == '?' && url[1..] == param;
      SplitPlain(param, '&');
    } else if path[0] == '?' {
      assert url[0] == '?' && url[1..] == path[1..] + ['&'] + param;
      SplitJoin(path[1..], '&', param);
      SplitPlain(param, '&');
    } else {
      assert path == [path[0]] + path[1..];
      assert url[0] == path[0] && url[1..] == path[1..] + [sep] + param;
      AppendedParameter(path[1..], param);
    }
  }

  lemma {:induction false} AccessValuesSnoc(params: seq<string>, last: string)
    ensures AccessValues(params + [last]) ==
              AccessValues(params) + (if "access=" <= last then [DecodeBytes(last[7..])] else [])
  {
    if params == [] {
      assert [] + [last] == [last] && [last][1..] == [];
    } else {
      assert (params + [last])[1..] == params[1..] + [last];
      AccessValuesSnoc(params[1..], last);
    }
  }

  /** Whatever the access text, a reader of the link finds it, byte for byte, as one more "access" parameter after all
      parameters the path had; those, and the path, are as they were. */
  lemma AccessIsReadBack(path: string, access: string)
    ensures path <= AppendAccess(path, access)
    ensures Parameters(path) <= Parameters(AppendAccess(path, access))
    ensures AccessValues(Parameters(AppendAccess(path, access))) == AccessValues(Parameters(path)) + [Some(Utf8.Encode(access))]
  {
    var encoded := EncodeBytes(Utf8.Encode(access));
    var param := "access=" + encoded;
    EncodedHasNoAmpersand(Utf8.Encode(access));
    AppendedParameter(path, param);
    Associates(path + [if '?' in path then '&' else '?'], "access=", encoded);
    AccessValuesSnoc(Parameters(path), param);
    assert param[7..] == encoded;
    assert DecodeBytes("") == Some([]);
    DecodeEncodedThen(Utf8.Encode(access), "");
    assert encoded + "" == encoded && Utf8.Encode(access) + [] == Utf8.Encode(access);
  }

  /** Percent-encoding leaves every minted token as it is, so a link carries the token verbatim. */
  lemma TokenSurvivesQuery(mac: string -> string, g: Grant, path: string)
    requires HexMac(mac)
    ensures AppendAccess(path, Signed(mac, Payload(g))) ==
              path + [if '?' in path then '&' else '?'] + "access=" + Signed(mac, Payload(g))
  {
    TokenIsPlain(mac, g);
    PlainIsItself(Signed(mac, Payload(g)));
  }
}
