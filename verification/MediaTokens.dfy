/** Signed media access tokens: minting, verifying, and the round trip between them. The keyed hash is a parameter,
    `mac`, that maps a payload to a hexadecimal signature. */
module MediaTokens {
  import opened Basics
  import opened Text
  import opened Numerals
  import Base64Url
  import Utf8

  /** Times are nanoseconds since the epoch. */
  const SECOND: int := 1_000_000_000

  const PERSONAL_TTL: int := 24 * 3600 * SECOND

  const SHARE_TOKEN_MAX: int := 7 * 24 * 3600 * SECOND

  datatype Grant =
    | Share(shareId: int, bucketId: int, exp: int)
    | Personal(accountId: int, bucketId: int, key: string, exp: int)

  datatype TokenError = EmptyToken | Malformed | BadSignature | BadNumber | Expired | BadKeyEncoding | BadKeyUtf8 | UnknownFormat

  datatype Verdict = Granted(grant: Grant) | Refused(error: TokenError)

  /** `DateTime::timestamp`: whole seconds, rounded down. */
  function Seconds(t: int): int { t / SECOND }

  /** `now_unix`: a clock before the epoch reads as zero. */
  function NowUnix(t: int): int {
    if t < 0 then 0 else t / SECOND
  }

  // ----- Minting -----

  /** Fields joined by dots. */
  function Dotted(parts: seq<string>): string
    requires parts != []
  {
    if |parts| == 1 then parts[0] else parts[0] + "." + Dotted(parts[1..])
  }

  function Fields(g: Grant): seq<string> {
    match g
    case Share(id, bucket, exp) => ["v1", "s", Print(id), Print(bucket), Print(exp)]
    case Personal(account, bucket, key, exp) =>
      ["v1", "p", Print(account), Print(bucket), Base64Url.Encode(Utf8.Encode(key)), Print(exp)]
  }

  function Payload(g: Grant): string {
    Dotted(Fields(g))
  }

  function Signed(mac: string -> string, payload: string): string {
    payload + "." + mac(payload)
  }

  /** `mint_share_token`: the share's own expiry, but no later than a week from now; refused once expired. */
  function MintShare(mac: string -> string, shareId: int, bucketId: int, expires: Option<int>, now: int): Option<(string, int)> {
    var latest := now + SHARE_TOKEN_MAX;
    var exp := if expires.Some? && expires.value < latest then expires.value else latest;
    if exp <= now then None
    else Some((Signed(mac, Payload(Share(shareId, bucketId, Seconds(exp)))), exp))
  }

  /** `mint_personal_token`. */
  function MintPersonal(mac: string -> string, accountId: int, bucketId: int, key: string, now: int): (string, int) {
    var exp := now + PERSONAL_TTL;
    (Signed(mac, Payload(Personal(accountId, bucketId, key, Seconds(exp)))), exp)
  }

  // ----- Verifying -----

  /** `rsplit_once('.')`. */
  function RSplitOnce(s: string): (r: Option<(string, string)>)
    ensures r.Some? ==> s == r.value.0 + "." + r.value.1 && '.' !in r.value.1
    ensures r.None? ==> '.' !in s
  {
    if s == "" then None
    else if s[|s| - 1] == '.' then Some((s[..|s| - 1], ""))
    else
      var r := RSplitOnce(s[..|s| - 1]);
      if r.Some? then Some((r.value.0, r.value.1 + [s[|s| - 1]])) else None
  }

  /** `x ^ y`, bit by bit. */
  function BitXor(x: nat, y: nat): nat {
    if x == 0 && y == 0 then 0 else 2 * BitXor(x / 2, y / 2) + (if x % 2 == y % 2 then 0 else 1)
  }

  /** `x | y`, bit by bit. */
  function BitOr(x: nat, y: nat): nat {
    if x == 0 && y == 0 then 0 else 2 * BitOr(x / 2, y / 2) + (if x % 2 == 0 && y % 2 == 0 then 0 else 1)
  }

  /** The fold of `acc | (x ^ y)` over two byte strings of one length. */
  function Differences(a: Bytes, b: Bytes, acc: nat): nat
    requires |a| == |b|
  {
    if a == [] then acc else Differences(a[1..], b[1..], BitOr(acc, BitXor(a[0], b[0])))
  }

  /** The comparison of `verify_sig`, which looks at every byte. */
  predicate SameSignature(expected: string, given: string) {
    var a, b := Utf8.Encode(expected), Utf8.Encode(given);
    |a| == |b| && Differences(a, b, 0) == 0
  }

  function ReadShare(shareId: string, bucketId: string, expiry: string, now: int): Verdict {
    var id, bucket, exp := ParseI64(shareId), ParseI64(bucketId), ParseI64(expiry);
    if id.None? || bucket.None? || exp.None? then Refused(BadNumber)
    else if exp.value < NowUnix(now) then Refused(Expired)
    else Granted(Share(id.value, bucket.value, exp.value))
  }

  function ReadPersonal(accountId: string, bucketId: string, encodedKey: string, expiry: string, now: int): Verdict {
    var account, bucket, exp := ParseI64(accountId), ParseI64(bucketId), ParseI64(expiry);
    if account.None? || bucket.None? || exp.None? then Refused(BadNumber)
    else if exp.value < NowUnix(now) then Refused(Expired)
    else
      var bytes := Base64Url.Decode(encodedKey);
      if bytes.None? then Refused(BadKeyEncoding)
      else
        var key := Utf8.Decode(bytes.value);
        if key.None? then Refused(BadKeyUtf8)
        else Granted(Personal(account.value, bucket.value, key.value, exp.value))
  }

  /** The fields of a payload, read in the order the program reads them. */
  function ReadFields(parts: seq<string>, now: int): Verdict {
    if |parts| == 5 && parts[0] == "v1" && parts[1] == "s" then ReadShare(parts[2], parts[3], parts[4], now)
    else if |parts| == 6 && parts[0] == "v1" && parts[1] == "p" then ReadPersonal(parts[2], parts[3], parts[4], parts[5], now)
    else Refused(UnknownFormat)
  }

  function ReadPayload(payload: string, now: int): Verdict {
    ReadFields(Split(payload, '.'), now)
  }

  /** `verify_access_token`. */
  function Verify(mac: string -> string, raw: string, now: int): Verdict {
    var token := Trim(raw);
    if token == "" then Refused(EmptyToken)
    else
      var cut := RSplitOnce(token);
      if cut.None? then Refused(Malformed)
      else if !SameSignature(mac(cut.value.0), cut.value.1) then Refused(BadSignature)
      else ReadPayload(cut.value.0, now)
  }
}
