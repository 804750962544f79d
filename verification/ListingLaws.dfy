/** A listing partitions the keys under its prefix, and its totals add up, exactly when the delimiter is one byte. */
module ListingLaws {
  import opened Basics
  import Hashing
  import Utf8
  import opened LikePatterns
  import opened Store
  import opened Rename
  import opened Ordering
  import opened Listing

  // ----- Folders of a one-character delimiter -----

  /** Finding a single character. */
  lemma {:induction false} FindsCharacter(s: string, delimiter: string)
    requires |delimiter| == 1
    ensures var r := Find(s, delimiter);
      && (r.Some? ==> s[r.value] == delimiter[0] && forall i :: 0 <= i < r.value ==> s[i] != delimiter[0])
      && (r.None? ==> forall i :: 0 <= i < |s| ==> s[i] != delimiter[0])
  {
    if s != "" {
      assert delimiter <= s <==> s[0] == delimiter[0];
      FindsCharacter(s[1..], delimiter);
      assert forall i :: 1 <= i < |s| ==> s[i] == s[1..][i - 1];
    }
  }

  /** With a one-character delimiter a key begins with a folder's prefix exactly when it falls into that folder. */
  lemma InFolderExactly(prefix: string, delimiter: string, p: string, other: string, key: string)
    requires |delimiter| == 1 && FolderOf(other, prefix, delimiter) == Some(p)
    ensures p <= key <==> FolderOf(key, prefix, delimiter) == Some(p)
  {
    var rest0 := other[|prefix|..];
    var idx := Find(rest0, delimiter).value;
    FindsCharacter(rest0, delimiter);
    assert p == prefix + rest0[..idx + 1];
    if p <= key {
      assert prefix <= p <= key;
      var rest := key[|prefix|..];
      assert rest[..idx + 1] == key[..|p|][|prefix|..] == rest0[..idx + 1];
      assert forall i :: 0 <= i <= idx ==> rest[i] == rest[..idx + 1][i] == rest0[..idx + 1][i] == rest0[i];
      FindsCharacter(rest, delimiter);
    }
  }

  /** A key falls into the folder that ends with the first character of the first delimiter after the prefix. */
  lemma FolderExactly(prefix: string, name: string, delimiter: string, more: string)
    requires delimiter != "" && forall i :: 0 <= i < |name| ==> !(delimiter <= (name + delimiter + more)[i..])
    ensures FolderOf(prefix + name + delimiter + more, prefix, delimiter) == Some(prefix + name + delimiter[..1])
  {
    var rest := name + delimiter + more;
    var key := prefix + name + delimiter + more;
    assert key[|prefix|..] == rest && rest[|name|..] == delimiter + more;
    assert delimiter <= rest[|name|..];
    assert rest[..|name| + 1] == name + delimiter[..1];
    var found := Find(rest, delimiter).value;
    assert rest[found..][..|delimiter|] == delimiter;
    assert found == |name|;
    assert prefix + rest[..found + 1] == prefix + name + delimiter[..1];
  }

  /** A key outside the prefix, or without a delimiter after it, falls into none. */
  lemma NoFolderExactly(key: string, prefix: string, delimiter: string)
    requires delimiter != ""
    ensures FolderOf(key, prefix, delimiter) == None <==>
              !(prefix <= key) || forall i :: |prefix| <= i <= |key| ==> !(delimiter <= key[i..])
  {
    if prefix <= key {
      var rest := key[|prefix|..];
      assert forall i :: |prefix| <= i <= |key| ==> key[i..] == rest[i - |prefix|..];
      var found := Find(rest, delimiter);
      if found.Some? {
        assert rest[found.value..][..|delimiter|] == delimiter;
        assert key[|prefix| + found.value..] == rest[found.value..];
      }
    }
  }

  // ----- Totals -----

  /** Number of rows, or their bytes. */
  function Size(rows: seq<Row>, bytes: bool): nat {
    if bytes then TotalBytes(rows) else |rows|
  }

  function Weigh(r: Row, bytes: bool): nat {
    if bytes then r.size else 1
  }

  lemma SizeSnoc(rows: seq<Row>, r: Row, bytes: bool)
    ensures Size(rows + [r], bytes) == Size(rows, bytes) + Weigh(r, bytes)
  {
    TotalBytesSnoc(rows, r);
  }

  lemma SizeMaybe(rows: seq<Row>, r: Row, yes: bool, bytes: bool)
    ensures Size(rows + (if yes then [r] else []), bytes) == Size(rows, bytes) + (if yes then Weigh(r, bytes) else 0)
  {
    if yes { SizeSnoc(rows, r, bytes); } else { assert rows + [] == rows; }
  }

  function SumUnder(ps: seq<string>, rows: seq<Row>, bytes: bool): nat {
    if ps == [] then 0 else Size(Under(rows, ps[0]), bytes) + SumUnder(ps[1..], rows, bytes)
  }

  /** A weight counted once for each of the prefixes that begins the key. */
  function Hits(ps: seq<string>, key: string, weight: nat): nat {
    if ps == [] then 0 else (if ps[0] <= key then weight else 0) + Hits(ps[1..], key, weight)
  }

  lemma UnderSnoc(rows: seq<Row>, r: Row, p: string)
    ensures Under(rows + [r], p) == Under(rows, p) + (if p <= r.key then [r] else [])
  {
    assert (rows + [r])[..|rows|] == rows;
  }

  lemma {:induction false} SumUnderSnoc(ps: seq<string>, rows: seq<Row>, r: Row, bytes: bool)
    ensures SumUnder(ps, rows + [r], bytes) == SumUnder(ps, rows, bytes) + Hits(ps, r.key, Weigh(r, bytes))
  {
    if ps != [] {
      SumUnderSnoc(ps[1..], rows, r, bytes);
      UnderSnoc(rows, r, ps[0]);
      SizeMaybe(Under(rows, ps[0]), r, ps[0] <= r.key, bytes);
    }
  }

  lemma {:induction false} SumUnderNothing(ps: seq<string>, bytes: bool)
    ensures SumUnder(ps, [], bytes) == 0
  {
    if ps != [] { SumUnderNothing(ps[1..], bytes); }
  }

  lemma {:induction false} NoHits(ps: seq<string>, key: string, weight: nat)
    requires forall k :: 0 <= k < |ps| ==> !(ps[k] <= key)
    ensures Hits(ps, key, weight) == 0
  {
    if ps != [] { NoHits(ps[1..], key, weight); }
  }

  lemma {:induction false} OneHit(ps: seq<string>, key: string, at: nat, weight: nat)
    requires at < |ps| && forall k :: 0 <= k < |ps| ==> (ps[k] <= key <==> k == at)
    ensures Hits(ps, key, weight) == weight
  {
    if at == 0 {
      NoHits(ps[1..], key, weight);
    } else {
      OneHit(ps[1..], key, at - 1, weight);
    }
  }

  /** `ps` are the folders of the rows. */
  ghost predicate FoldersOf(ps: seq<string>, rows: seq<Row>, prefix: string, delimiter: string)
    requires delimiter != ""
  {
    Sorted(ps) && forall p :: p in ps <==> IsFolder(rows, prefix, delimiter, p)
  }

  lemma HitsOfRow(ps: seq<string>, rows: seq<Row>, prefix: string, delimiter: string, i: nat, weight: nat)
    requires |delimiter| == 1 && FoldersOf(ps, rows, prefix, delimiter) && i < |rows|
    ensures Hits(ps, rows[i].key, weight) == if FolderOf(rows[i].key, prefix, delimiter).Some? then weight else 0
  {
    var key := rows[i].key;
    forall k | 0 <= k < |ps| ensures ps[k] <= key <==> FolderOf(key, prefix, delimiter) == Some(ps[k]) {
      assert ps[k] in ps;
      var j :| 0 <= j < |rows| && FolderOf(rows[j].key, prefix, delimiter) == Some(ps[k]);
      InFolderExactly(prefix, delimiter, ps[k], rows[j].key, key);
    }
    if FolderOf(key, prefix, delimiter).Some? {
      var p := FolderOf(key, prefix, delimiter).value;
      assert IsFolder(rows, prefix, delimiter, p);
      var at :| 0 <= at < |ps| && ps[at] == p;
      forall k | 0 <= k < |ps| && ps[k] == p ensures k == at { SortedDistinct(ps, k, at); }
      OneHit(ps, key, at, weight);
    } else {
      NoHits(ps, key, weight);
    }
  }

  lemma LevelSnoc(rows: seq<Row>, r: Row, prefix: string, delimiter: string)
    requires delimiter != ""
    ensures Direct(rows + [r], prefix, delimiter) ==
              Direct(rows, prefix, delimiter) + (if AtLevel(r.key, prefix, delimiter) && !IsMarker(r.key) then [r] else [])
    ensures Markers(rows + [r], prefix, delimiter) ==
              Markers(rows, prefix, delimiter) + (if AtLevel(r.key, prefix, delimiter) && IsMarker(r.key) then [r] else [])
  {
    assert (rows + [r])[..|rows|] == rows;
  }

  /** Rows seen so far are accounted for: folders, direct objects and dropped markers. */
  ghost predicate Balanced(ps: seq<string>, rows: seq<Row>, prefix: string, delimiter: string, bytes: bool)
    requires delimiter != ""
  {
    SumUnder(ps, rows, bytes) + Size(Direct(rows, prefix, delimiter), bytes) + Size(Markers(rows, prefix, delimiter), bytes) ==
      Size(Under(rows, prefix), bytes)
  }

  lemma BalancedNext(ps: seq<string>, rows: seq<Row>, r: Row, prefix: string, delimiter: string, bytes: bool)
    requires delimiter != "" && Balanced(ps, rows, prefix, delimiter, bytes)
    requires Hits(ps, r.key, Weigh(r, bytes)) == if FolderOf(r.key, prefix, delimiter).Some? then Weigh(r, bytes) else 0
    ensures Balanced(ps, rows + [r], prefix, delimiter, bytes)
  {
    SumUnderSnoc(ps, rows, r, bytes);
    LevelSnoc(rows, r, prefix, delimiter);
    UnderSnoc(rows, r, prefix);
    SizeMaybe(Direct(rows, prefix, delimiter), r, AtLevel(r.key, prefix, delimiter) && !IsMarker(r.key), bytes);
    SizeMaybe(Markers(rows, prefix, delimiter), r, AtLevel(r.key, prefix, delimiter) && IsMarker(r.key), bytes);
    SizeMaybe(Under(rows, prefix), r, prefix <= r.key, bytes);
  }

  lemma {:induction false} BalancedUpTo(ps: seq<string>, rows: seq<Row>, n: nat, prefix: string, delimiter: string, bytes: bool)
    requires |delimiter| == 1 && FoldersOf(ps, rows, prefix, delimiter) && n <= |rows|
    ensures Balanced(ps, rows[..n], prefix, delimiter, bytes)
  {
    if n == 0 {
      SumUnderNothing(ps, bytes);
    } else {
      BalancedUpTo(ps, rows, n - 1, prefix, delimiter, bytes);
      HitsOfRow(ps, rows, prefix, delimiter, n - 1, Weigh(rows[n - 1], bytes));
      BalancedNext(ps, rows[..n - 1], rows[n - 1], prefix, delimiter, bytes);
      assert rows[..n - 1] + [rows[n - 1]] == rows[..n];
    }
  }

  // ----- The law of totals -----

  function FolderTotal(folders: seq<FolderEntry>, bytes: bool): nat {
    if folders == [] then 0
    else (if bytes then folders[0].bytes else folders[0].count) + FolderTotal(folders[1..], bytes)
  }

  lemma {:induction false} FolderTotalIsSum(folders: seq<FolderEntry>, rows: seq<Row>, bytes: bool)
    requires forall k :: 0 <= k < |folders| ==> SumsUp(folders[k], rows)
    ensures FolderTotal(folders, bytes) == SumUnder(Prefixes(folders), rows, bytes)
  {
    if folders != [] {
      assert Prefixes(folders)[1..] == Prefixes(folders[1..]);
      FolderTotalIsSum(folders[1..], rows, bytes);
    }
  }

  /** Folder totals, direct objects and dropped markers add up to the rows under the prefix, in number and in bytes. */
  ghost predicate AddsUp(rows: seq<Row>, prefix: string, delimiter: string, folders: seq<FolderEntry>, objects: seq<Row>)
    requires delimiter != ""
  {
    forall bytes :: FolderTotal(folders, bytes) + Size(objects, bytes) + Size(Markers(rows, prefix, delimiter), bytes) ==
      Size(Under(rows, prefix), bytes)
  }

  lemma ListingAddsUp(rows: seq<Row>, prefix: string, delimiter: string, folders: seq<FolderEntry>, objects: seq<Row>)
    requires |delimiter| == 1 && Lists(rows, prefix, delimiter, folders, objects)
    ensures AddsUp(rows, prefix, delimiter, folders, objects)
  {
    forall bytes
      ensures FolderTotal(folders, bytes) + Size(objects, bytes) + Size(Markers(rows, prefix, delimiter), bytes) == Size(Under(rows, prefix), bytes)
    {
      FolderTotalIsSum(folders, rows, bytes);
      BalancedUpTo(Prefixes(folders), rows, |rows|, prefix, delimiter, bytes);
      assert rows[..|rows|] == rows;
    }
  }

  function PlainRow(key: string): Row {
    Row(0, key, key, "bin", 0, Hashing.Md5, Hashing.Digest(Hashing.Md5, []), 0, 0, None)
  }

  lemma PairUnder(a: Row, b: Row, p: string)
    requires p <= a.key && p <= b.key
    ensures Under([a, b], p) == [a, b]
  {
    assert [a, b] == [a] + [b] && [a] == [] + [a];
    UnderSnoc([a], b, p);
    UnderSnoc([], a, p);
  }

  /** Summing up two rows without bytes or history. */
  lemma PairSumsUp(a: string, b: string, p: string)
    requires p <= a && p <= b
    ensures SumsUp(FolderEntry(p, Some(0), Some(0), 0, 2), [PlainRow(a), PlainRow(b)])
  {
    var rows := [PlainRow(a), PlainRow(b)];
    PairUnder(rows[0], rows[1], p);
    assert rows == [rows[0]] + [rows[1]] && [rows[0]] == [] + [rows[0]];
    TotalBytesSnoc([rows[0]], rows[1]);
    TotalBytesSnoc([], rows[0]);
    assert rows[0].uploaded == 0 && rows[0].modified == 0;
  }

  lemma LongDelimiterFolders(prefix: string, delimiter: string)
    requires |delimiter| >= 2
    ensures FolderOf(prefix + delimiter, prefix, delimiter) == Some(prefix + delimiter[..1])
    ensures FolderOf(prefix + delimiter[..1], prefix, delimiter) == None
  {
    assert (prefix + delimiter)[|prefix|..] == delimiter;
    assert (prefix + delimiter[..1])[|prefix|..] == delimiter[..1];
    assert delimiter[0..] == delimiter;
    assert Find(delimiter, delimiter) == Some(0);
  }

  /** The level counts of two rows of which only the first is at this level. */
  lemma PairLevel(a: Row, b: Row, prefix: string, delimiter: string)
    requires delimiter != "" && AtLevel(a.key, prefix, delimiter) && !AtLevel(b.key, prefix, delimiter)
    ensures |Direct([a, b], prefix, delimiter)| + |Markers([a, b], prefix, delimiter)| == 1
  {
    assert [a, b] == [a] + [b] && [a] == [] + [a];
    LevelSnoc([a], b, prefix, delimiter);
    LevelSnoc([], a, prefix, delimiter);
  }

  lemma OneFolder(a: Row, b: Row, prefix: string, delimiter: string, e: FolderEntry)
    requires delimiter != "" && FolderOf(a.key, prefix, delimiter) == None && FolderOf(b.key, prefix, delimiter) == Some(e.prefix)
    requires SumsUp(e, [a, b])
    ensures Lists([a, b], prefix, delimiter, [e], Direct([a, b], prefix, delimiter))
  {
    assert Prefixes([e]) == [e.prefix];
    assert [a, b][1] == b && [a, b][0] == a;
  }

  /** Two rows counted in a folder, one of them at this level as well. */
  lemma OneFolderTooMany(a: Row, b: Row, prefix: string, delimiter: string, e: FolderEntry)
    requires delimiter != "" && e.count == 2 && prefix <= a.key && prefix <= b.key
    requires AtLevel(a.key, prefix, delimiter) && !AtLevel(b.key, prefix, delimiter)
    ensures !AddsUp([a, b], prefix, delimiter, [e], Direct([a, b], prefix, delimiter))
  {
    var rows := [a, b];
    PairUnder(a, b, prefix);
    PairLevel(a, b, prefix, delimiter);
    assert [e][1..] == [] && FolderTotal([e], false) == 2;
    assert FolderTotal([e], false) + Size(Direct(rows, prefix, delimiter), false) + Size(Markers(rows, prefix, delimiter), false) !=
           Size(Under(rows, prefix), false);
  }

  /** With a longer delimiter whose first character is a single byte, an object named by that character is listed
      directly (or dropped) and counted in the folder of another object as well. */
  lemma LongDelimiterCountsTwice(prefix: string, delimiter: string) returns (rows: seq<Row>, folders: seq<FolderEntry>)
    requires |delimiter| >= 2 && |Utf8.EncodeChar(delimiter[0])| == 1
    ensures Sliceable(rows, prefix, delimiter)
    ensures Lists(rows, prefix, delimiter, folders, Direct(rows, prefix, delimiter))
    ensures !AddsUp(rows, prefix, delimiter, folders, Direct(rows, prefix, delimiter))
  {
    var p, q := prefix + delimiter[..1], prefix + delimiter;
    var e := FolderEntry(p, Some(0), Some(0), 0, 2);
    assert p <= q && prefix <= p;
    LongDelimiterFolders(prefix, delimiter);
    PairSumsUp(p, q, p);
    OneFolder(PlainRow(p), PlainRow(q), prefix, delimiter, e);
    OneFolderTooMany(PlainRow(p), PlainRow(q), prefix, delimiter, e);
    rows, folders := [PlainRow(p), PlainRow(q)], [e];
    SliceIsFolder(q, prefix, delimiter);
    assert !Breaks(p, prefix, delimiter);
  }

  /** A one-byte delimiter breaks no slice. */
  lemma OneByteSlices(rows: seq<Row>, prefix: string, delimiter: string)
    requires |Utf8.Encode(delimiter)| == 1
    ensures Sliceable(rows, prefix, delimiter)
  {
    Utf8.OneByte(delimiter);
    forall k | 0 <= k < |rows| && FolderOf(rows[k].key, prefix, delimiter).Some?
      ensures !Breaks(rows[k].key, prefix, delimiter)
    {
      SliceIsFolder(rows[k].key, prefix, delimiter);
    }
  }

  /** A delimiter that begins with a longer character breaks the slice of any key that contains it. */
  lemma WideDelimiterBreaks(prefix: string, delimiter: string, tail: string)
    requires delimiter != "" && |Utf8.EncodeChar(delimiter[0])| > 1
    ensures Breaks(prefix + delimiter + tail, prefix, delimiter)
  {
    var key := prefix + delimiter + tail;
    assert key[|prefix|..] == delimiter + tail && delimiter <= delimiter + tail;
    assert Find(delimiter + tail, delimiter) == Some(0);
    SliceIsFolder(key, prefix, delimiter);
  }

  /** The listing of these rows succeeds, and its totals add up. */
  ghost predicate ListsWell(rows: seq<Row>, prefix: string, delimiter: string)
    requires delimiter != ""
  {
    && Sliceable(rows, prefix, delimiter)
    && forall folders, objects :: Lists(rows, prefix, delimiter, folders, objects) ==> AddsUp(rows, prefix, delimiter, folders, objects)
  }

  /** Listing succeeds and totals add up, for all rows, exactly when the delimiter is a single byte. */
  lemma TotalsAddUpExactly(prefix: string, delimiter: string)
    requires delimiter != ""
    ensures |Utf8.Encode(delimiter)| == 1 <==> forall rows :: ListsWell(rows, prefix, delimiter)
  {
    Utf8.OneByte(delimiter);
    if |Utf8.Encode(delimiter)| == 1 {
      forall rows ensures ListsWell(rows, prefix, delimiter) {
        OneByteSlices(rows, prefix, delimiter);
        forall folders, objects | Lists(rows, prefix, delimiter, folders, objects)
          ensures AddsUp(rows, prefix, delimiter, folders, objects)
        {
          ListingAddsUp(rows, prefix, delimiter, folders, objects);
        }
      }
    } else if |Utf8.EncodeChar(delimiter[0])| > 1 {
      WideDelimiterBreaks(prefix, delimiter, "");
      var rows := [PlainRow(prefix + delimiter + "")];
      assert Breaks(rows[0].key, prefix, delimiter);
      assert !ListsWell(rows, prefix, delimiter);
    } else {
      assert |delimiter| >= 2;
      var rows, folders := LongDelimiterCountsTwice(prefix, delimiter);
      assert !ListsWell(rows, prefix, delimiter);
    }
  }

  /** The delimiter "\U{00E9}" and the key "a\U{00E9}b": the listing panics. */
  lemma WideDelimiterPanics()
    ensures Breaks("a\U{00E9}b", "", "\U{00E9}") && |"\U{00E9}"| == 1 && |Utf8.Encode("\U{00E9}")| == 2
    ensures !Sliceable([PlainRow("a\U{00E9}b")], "", "\U{00E9}")
  {
    var d := "\U{00E9}";
    var key := "a" + d + "b";
    assert d[0] as int == 0xE9 && d[1..] == "" && |Utf8.EncodeChar(d[0])| == 2;
    assert key == "a\U{00E9}b" && key[0..] == key && key[1..] == d + "b";
    assert Find(d + "b", d) == Some(0) by { assert d <= d + "b"; }
    assert !(d <= key) && Find(key, d) == Some(1);
    assert FolderOf(key, "", d).Some?;
    SliceIsFolder(key, "", d);
    assert [PlainRow(key)][0].key == key;
  }

  // ----- The listing of a bucket -----

  /** In key order, and so without two rows of one key. */
  ghost predicate KeysSorted(rows: seq<Row>) {
    forall i, j :: 0 <= i < j < |rows| ==> Before(rows[i].key, rows[j].key)
  }

  function Keys(rows: seq<Row>): seq<string> {
    seq(|rows|, k requires 0 <= k < |rows| => rows[k].key)
  }

  /** What `SELECT ... LIKE ... ORDER BY original_filename` returns for a bucket. */
  ghost predicate IsQuery(objects: map<nat, Row>, bucket: nat, prefix: string, rows: seq<Row>) {
    && (forall r :: r in rows <==> exists i :: i in LikeRows(objects, bucket, prefix) && objects[i] == r)
    && KeysSorted(rows)
  }

  lemma {:induction false} DirectMembers(rows: seq<Row>, prefix: string, delimiter: string)
    requires delimiter != ""
    ensures forall r :: r in Direct(rows, prefix, delimiter) <==> r in rows && AtLevel(r.key, prefix, delimiter) && !IsMarker(r.key)
  {
    if rows != [] {
      var init, last := rows[..|rows| - 1], rows[|rows| - 1];
      DirectMembers(init, prefix, delimiter);
      assert rows == init + [last];
    }
  }

  lemma {:induction false} DirectSorted(rows: seq<Row>, prefix: string, delimiter: string)
    requires delimiter != "" && KeysSorted(rows)
    ensures KeysSorted(Direct(rows, prefix, delimiter))
  {
    if rows != [] {
      var init, last := rows[..|rows| - 1], rows[|rows| - 1];
      assert forall i :: 0 <= i < |init| ==> init[i] == rows[i];
      DirectSorted(init, prefix, delimiter);
      DirectMembers(init, prefix, delimiter);
      var some := Direct(init, prefix, delimiter);
      forall k | 0 <= k < |some| ensures Before(some[k].key, last.key) {
        assert some[k] in init;
        var j :| 0 <= j < |init| && init[j] == some[k];
        assert Before(rows[j].key, rows[|rows| - 1].key);
      }
    }
  }

  /** The rows a query returns for a key: it is there exactly when it is an active key of the bucket. */
  lemma QueriedKeys(objects: map<nat, Row>, bucket: nat, prefix: string, rows: seq<Row>, key: string)
    requires IsQuery(objects, bucket, prefix, rows) && prefix <= key
    ensures (exists r :: r in rows && r.key == key) <==> key in ActiveKeys(objects, bucket)
  {
    if key in ActiveKeys(objects, bucket) {
      var i :| i in objects && Active(objects[i]) && objects[i].bucket == bucket && objects[i].key == key;
      ExactPrefixAfterFilter(prefix, key);
      assert i in LikeRows(objects, bucket, prefix) && objects[i] in rows;
    }
  }

  /** Every active key of the bucket that begins with the prefix is exactly one of: a listed object, a dropped `.keep`
      marker of this level, or a key under exactly one listed folder. Nothing else is listed, and both lists are in
      order without duplicates. */
  lemma ListingPartitionsKeys(objects: map<nat, Row>, bucket: nat, prefix: string, delimiter: string, rows: seq<Row>,
                              folders: seq<FolderEntry>, listed: seq<Row>)
    requires |Utf8.Encode(delimiter)| == 1 && IsQuery(objects, bucket, prefix, rows) && Lists(rows, prefix, delimiter, folders, listed)
    ensures Sliceable(rows, prefix, delimiter)
    ensures Sorted(Prefixes(folders)) && KeysSorted(listed)
    ensures forall key :: key in ActiveKeys(objects, bucket) && prefix <= key ==> Placed(key, prefix, delimiter, folders, listed)
    ensures forall key :: key in Keys(listed) ==> key in ActiveKeys(objects, bucket) && prefix <= key
    ensures forall p :: p in Prefixes(folders) ==> exists key :: key in ActiveKeys(objects, bucket) && prefix <= p <= key
  {
    Utf8.OneByte(delimiter);
    OneByteSlices(rows, prefix, delimiter);
    DirectSorted(rows, prefix, delimiter);
    DirectMembers(rows, prefix, delimiter);
    forall key | key in ActiveKeys(objects, bucket) && prefix <= key
      ensures Placed(key, prefix, delimiter, folders, listed)
    {
      QueriedKeys(objects, bucket, prefix, rows, key);
      PlacedOnce(rows, prefix, delimiter, folders, listed, key);
    }
    ListedAreActive(objects, bucket, prefix, delimiter, rows, folders, listed);
    FoldersAreUsed(objects, bucket, prefix, delimiter, rows, folders, listed);
  }

  lemma ListedAreActive(objects: map<nat, Row>, bucket: nat, prefix: string, delimiter: string, rows: seq<Row>,
                        folders: seq<FolderEntry>, listed: seq<Row>)
    requires delimiter != "" && IsQuery(objects, bucket, prefix, rows) && Lists(rows, prefix, delimiter, folders, listed)
    ensures forall key :: key in Keys(listed) ==> key in ActiveKeys(objects, bucket) && prefix <= key
  {
    DirectMembers(rows, prefix, delimiter);
    forall key | key in Keys(listed) ensures key in ActiveKeys(objects, bucket) && prefix <= key {
      var k :| 0 <= k < |listed| && listed[k].key == key;
      assert listed[k] in listed && listed[k] in rows;
      QueriedKeys(objects, bucket, prefix, rows, key);
    }
  }

  lemma FoldersAreUsed(objects: map<nat, Row>, bucket: nat, prefix: string, delimiter: string, rows: seq<Row>,
                       folders: seq<FolderEntry>, listed: seq<Row>)
    requires |delimiter| == 1 && IsQuery(objects, bucket, prefix, rows) && Lists(rows, prefix, delimiter, folders, listed)
    ensures forall p :: p in Prefixes(folders) ==> exists key :: key in ActiveKeys(objects, bucket) && prefix <= p <= key
  {
    forall p | p in Prefixes(folders) ensures exists key :: key in ActiveKeys(objects, bucket) && prefix <= p <= key {
      var k :| 0 <= k < |rows| && FolderOf(rows[k].key, prefix, delimiter) == Some(p);
      InFolderExactly(prefix, delimiter, p, rows[k].key, rows[k].key);
      assert rows[k] in rows;
      QueriedKeys(objects, bucket, prefix, rows, rows[k].key);
    }
  }

  /** The one place of a key in a listing. */
  ghost predicate Placed(key: string, prefix: string, delimiter: string, folders: seq<FolderEntry>, listed: seq<Row>)
    requires delimiter != ""
  {
    var level := AtLevel(key, prefix, delimiter);
    && (key in Keys(listed) <==> level && !IsMarker(key))
    && (!level <==> exists p :: p in Prefixes(folders) && p <= key)
    && (forall p, q :: p in Prefixes(folders) && q in Prefixes(folders) && p <= key && q <= key ==> p == q)
  }

  lemma PlacedOnce(rows: seq<Row>, prefix: string, delimiter: string, folders: seq<FolderEntry>, listed: seq<Row>, key: string)
    requires |delimiter| == 1 && Lists(rows, prefix, delimiter, folders, listed)
    requires prefix <= key && exists r :: r in rows && r.key == key
    ensures Placed(key, prefix, delimiter, folders, listed)
  {
    var r :| r in rows && r.key == key;
    DirectMembers(rows, prefix, delimiter);
    forall p | p in Prefixes(folders) ensures p <= key <==> FolderOf(key, prefix, delimiter) == Some(p) {
      var k :| 0 <= k < |rows| && FolderOf(rows[k].key, prefix, delimiter) == Some(p);
      InFolderExactly(prefix, delimiter, p, rows[k].key, key);
    }
    if FolderOf(key, prefix, delimiter).Some? {
      var j :| 0 <= j < |rows| && rows[j] == r;
      assert IsFolder(rows, prefix, delimiter, FolderOf(key, prefix, delimiter).value);
    }
    if AtLevel(key, prefix, delimiter) && !IsMarker(key) {
      var k :| 0 <= k < |listed| && listed[k] == r;
      assert Keys(listed)[k] == key;
    }
    if key in Keys(listed) {
      var k :| 0 <= k < |listed| && Keys(listed)[k] == key;
      assert listed[k] in listed;
    }
  }
}
