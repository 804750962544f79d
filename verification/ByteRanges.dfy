/** The HTTP byte range of a GET: section 14.1.2 of RFC 9110, one range per request. */
module ByteRanges {
  import opened Basics
  import opened Text
  import opened Numerals

  /** `split_once('-')`. */
  function SplitOnce(s: string, c: char): Option<(string, string)> {
    if s == "" then None
    else if s[0] == c then Some(("", s[1..]))
    else
      var r := SplitOnce(s[1..], c);
      if r.Some? then Some(([s[0]] + r.value.0, r.value.1)) else None
  }

  /** The first range of the list. */
  function Unit(header: string): Option<string> {
    var s := Trim(header);
    if "bytes=" <= s then Some(Trim(Split(Trim(s[6..]), ',')[0])) else None
  }

  function ParseUnit(spec: string, length: nat): Option<(nat, nat)> {
    if length == 0 then None
    else if "-" <= spec then
      var n := ParseU64(spec[1..]);
      if n.None? || n.value == 0 then None
      else Some((length - Min(n.value, length), length - 1))
    else
      var cut := SplitOnce(spec, '-');
      if cut.None? then None
      else
        var start := ParseU64(cut.value.0);
        if start.None? || start.value >= length then None
        else if cut.value.1 == "" then Some((start.value, length - 1))
        else
          var end := ParseU64(cut.value.1);
          if end.None? || Min(end.value, length - 1) < start.value then None
          else Some((start.value, Min(end.value, length - 1)))
  }

  /** `parse_bytes_range`: the first and last byte to send. */
  function ParseBytesRange(header: string, length: nat): (r: Option<(nat, nat)>)
    ensures r.Some? ==> r.value.0 <= r.value.1 < length
  {
    var unit := Unit(header);
    if unit.None? then None else ParseUnit(unit.value, length)
  }

  /** What a GET answers: the whole file without a range, the slice of a satisfiable one, and 416 for any other unless
      the file is empty. */
  datatype Reply = Whole(body: Bytes) | Partial(first: nat, last: nat, body: Bytes) | NotSatisfiable

  function Get(file: Bytes, header: Option<string>): Reply {
    if header.None? then Whole(file)
    else
      var r := ParseBytesRange(header.value, |file|);
      if r.Some? then Partial(r.value.0, r.value.1, file[r.value.0..r.value.1 + 1])
      else if |file| > 0 then NotSatisfiable
      else Whole(file)
  }

  // ----- Requests a client writes -----

  function FromTo(first: nat, last: nat): string {
    "bytes=" + (PrintNat(first) + ['-'] + PrintNat(last))
  }

  function From(first: nat): string {
    "bytes=" + (PrintNat(first) + ['-'])
  }

  function Last(n: nat): string {
    "bytes=" + ("-" + PrintNat(n))
  }

  lemma {:induction false} SplitOnceAt(a: string, c: char, b: string)
    requires c !in a
    ensures SplitOnce(a + [c] + b, c) == Some((a, b))
  {
    var s := a + [c] + b;
    if a == "" {
      assert s[0] == c && s[1..] == b;
    } else {
      assert s[1..] == a[1..] + [c] + b;
      SplitOnceAt(a[1..], c, b);
      assert [a[0]] + a[1..] == a;
    }
  }

  predicate Tight(s: string) {
    s != "" && forall i :: 0 <= i < |s| ==> IsDigit(s[i]) || s[i] == '-'
  }

  /** A header made of digits and dashes is read as it stands. */
  lemma TightUnit(spec: string)
    requires Tight(spec)
    ensures Unit("bytes=" + spec) == Some(spec)
  {
    var s := "bytes=" + spec;
    assert s[0] == 'b' && s[|s| - 1] == spec[|spec| - 1];
    TrimFixed(s);
    TrimFixed(spec);
    assert s[6..] == spec;
    SplitPlain(spec, ',');
  }

  lemma FromToUnit(first: nat, last: nat)
    ensures Unit(FromTo(first, last)) == Some(PrintNat(first) + ['-'] + PrintNat(last))
  {
    PrintNatValue(first);
    PrintNatValue(last);
    TightUnit(PrintNat(first) + ['-'] + PrintNat(last));
  }

  lemma FromToSplits(first: nat, last: nat)
    ensures var spec := PrintNat(first) + ['-'] + PrintNat(last);
      !("-" <= spec) && SplitOnce(spec, '-') == Some((PrintNat(first), PrintNat(last)))
  {
    PrintNatValue(first);
    assert IsDigit(PrintNat(first)[0]);
    SplitOnceAt(PrintNat(first), '-', PrintNat(last));
  }

  /** A two-sided range is accepted exactly when it begins inside the file and is not backwards, and is cut at the end. */
  lemma FromToParses(first: nat, last: nat, length: nat)
    requires first <= U64_MAX && last <= U64_MAX
    ensures ParseBytesRange(FromTo(first, last), length) ==
              if first < length && first <= last then Some((first, Min(last, length - 1))) else None
  {
    FromToUnit(first, last);
    FromToSplits(first, last);
    PrintParsesU64(first);
    PrintParsesU64(last);
    PrintNatValue(last);
  }

  /** An open range runs to the end of the file. */
  lemma FromParses(first: nat, length: nat)
    requires first <= U64_MAX
    ensures ParseBytesRange(From(first), length) == if first < length then Some((first, length - 1)) else None
  {
    var a := PrintNat(first);
    PrintNatValue(first);
    PrintParsesU64(first);
    assert IsDigit(a[0]);
    var spec := a + ['-'];
    assert spec + "" == spec;
    TightUnit(spec);
    SplitOnceAt(a, '-', "");
  }

  lemma LastUnit(n: nat)
    ensures Unit(Last(n)) == Some("-" + PrintNat(n))
  {
    PrintNatValue(n);
    TightUnit("-" + PrintNat(n));
  }

  lemma SuffixParses(digits: string, n: nat, length: nat)
    requires ParseU64(digits) == Some(n)
    ensures ParseUnit("-" + digits, length) == if n > 0 && length > 0 then Some((length - Min(n, length), length - 1)) else None
  {
    assert ("-" + digits)[1..] == digits;
  }

  /** A suffix range is the last bytes of the file, all of it when it asks for more. */
  lemma LastParses(n: nat, length: nat)
    requires n <= U64_MAX
    ensures ParseBytesRange(Last(n), length) == if n > 0 && length > 0 then Some((length - Min(n, length), length - 1)) else None
  {
    LastUnit(n);
    PrintParsesU64(n);
    SuffixParses(PrintNat(n), n, length);
  }

  /** A range is a suffix length after a dash, or a first byte, a dash and perhaps a last byte; everything else is none. */
  lemma ParsesExactly(spec: string, length: nat)
    requires length > 0
    ensures '-' !in spec ==> ParseUnit(spec, length) == None
    ensures forall a, b :: spec == a + "-" + b && '-' !in a ==>
              ParseUnit(spec, length) ==
                (if a == "" then
                  if ParseU64(b) == None || ParseU64(b) == Some(0) then None else Some((length - Min(ParseU64(b).value, length), length - 1))
                else if ParseU64(a) == None || ParseU64(a).value >= length then None
                else if b == "" then Some((ParseU64(a).value, length - 1))
                else if ParseU64(b) == None || ParseU64(b).value < ParseU64(a).value then None
                else Some((ParseU64(a).value, Min(ParseU64(b).value, length - 1))))
  {
    if '-' !in spec { NoSplit(spec, '-'); }
    forall a, b | spec == a + "-" + b && '-' !in a
      ensures SplitOnce(spec, '-') == Some((a, b)) && ("-" <= spec <==> a == "") && (a == "" ==> spec[1..] == b)
    {
      SplitOnceAt(a, '-', b);
      assert a != "" ==> spec[0] == a[0];
    }
  }

  lemma {:induction false} NoSplit(s: string, c: char)
    requires c !in s
    ensures SplitOnce(s, c) == None
  {
    if s != "" { NoSplit(s[1..], c); }
  }

  /** A GET without a range header, and any GET of an empty file, is answered with the whole file; with a header that is
      no range of a file that is not empty, with 416; otherwise with the bytes from the first to the last. */
  lemma GetExactly(file: Bytes, header: Option<string>)
    ensures Get(file, header) ==
              if header == None || file == [] then Whole(file)
              else if ParseBytesRange(header.value, |file|) == None then NotSatisfiable
              else
                var (first, last) := ParseBytesRange(header.value, |file|).value;
                Partial(first, last, file[first..last + 1])
  {
  }

  /** A header that does not begin with "bytes=" is no range. */
  lemma OtherUnits(header: string, length: nat)
    requires !("bytes=" <= Trim(header))
    ensures ParseBytesRange(header, length) == None
  {
  }

  lemma FirstPiece(spec: string, after: string, more: string)
    requires Tight(spec) && AllSpaces(after)
    ensures Trim(Split(spec + after + [','] + more, ',')[0]) == spec
  {
    SplitJoin(spec + after, ',', more);
    assert ',' !in spec + after;
    SplitPlain(spec + after, ',');
    assert "" + spec + after == spec + after;
    TrimsTo("", spec, after);
  }

  /** What follows "bytes=", without the white space in front. */
  lemma ListOfRanges(before: string, list: string)
    requires AllSpaces(before) && list != "" && !IsSpace(list[0]) && !IsSpace(list[|list| - 1])
    ensures Unit("bytes=" + (before + list)) == Some(Trim(Split(list, ',')[0]))
  {
    var rest := before + list;
    assert rest[|rest| - 1] == list[|list| - 1];
    UnitOf(rest);
    assert rest == before + list + "";
    TrimsTo(before, list, "");
  }

  lemma UnitOf(rest: string)
    requires rest != "" && !IsSpace(rest[|rest| - 1])
    ensures Unit("bytes=" + rest) == Some(Trim(Split(Trim(rest), ',')[0]))
  {
    var s := "bytes=" + rest;
    assert s[0] == 'b' && s[|s| - 1] == rest[|rest| - 1];
    TrimFixed(s);
    assert s[6..] == rest;
  }

  /** Of several ranges the first is used, without the white space around it. */
  lemma FirstOfMany(before: string, spec: string, after: string, more: string, length: nat)
    requires Tight(spec) && AllSpaces(before) && AllSpaces(after) && (more != "" ==> !IsSpace(more[|more| - 1]))
    ensures ParseBytesRange("bytes=" + (before + (spec + after + "," + more)), length) == ParseBytesRange("bytes=" + spec, length)
  {
    var list := spec + after + [','] + more;
    assert list[0] == spec[0] && list[|list| - 1] == (if more == "" then ',' else more[|more| - 1]);
    TightUnit(spec);
    FirstPiece(spec, after, more);
    ListOfRanges(before, list);
  }

  lemma NextBlock(file: Bytes, at: nat, end: nat)
    requires at <= end <= |file|
    ensures file[..at] + file[at..end] == file[..end]
  {
  }

  lemma BlockReply(file: Bytes, header: string, at: nat, block: nat)
    requires at < |file| && 0 < block
    requires ParseBytesRange(header, |file|) == Some((at, Min(at + block - 1, |file| - 1)))
    ensures var end := Min(at + block, |file|);
      at < end && Get(file, Some(header)) == Partial(at, end - 1, file[at..end])
  {
  }

  /** Asking for one block after another delivers the file once, in order, whatever the block size. */
  method FetchInBlocks(file: Bytes, block: nat) returns (got: Bytes)
    requires 0 < block && |file| + block <= U64_MAX
    ensures got == file
  {
    got := [];
    while |got| < |file|
      invariant |got| <= |file| && got == file[..|got|]
      decreases |file| - |got|
    {
      var header := FromTo(|got|, |got| + block - 1);
      FromToParses(|got|, |got| + block - 1, |file|);
      BlockReply(file, header, |got|, block);
      NextBlock(file, |got|, Min(|got| + block, |file|));
      var reply := Get(file, Some(header));
      got := got + reply.body;
    }
  }
}
