/** Prefix listing: the delimiter groups keys into virtual folders, `.keep` markers are dropped, and every folder
    carries the totals of the rows under it. */
module Listing {
  import opened Basics
  import opened Store
  import opened Ordering
  import Utf8

  const MARKER: string := ".keep"

  datatype FolderEntry = FolderEntry(prefix: string, created: Option<int>, modified: Option<int>, bytes: nat, count: nat)

  // ----- Where a key goes -----

  /** `str::find`: the first place where `needle` occurs. */
  function Find(s: string, needle: string): (r: Option<nat>)
    ensures r.Some? ==> r.value + |needle| <= |s| && s[r.value..r.value + |needle|] == needle
    ensures r.Some? ==> forall i :: 0 <= i < r.value ==> !(needle <= s[i..])
    ensures r.None? ==> forall i :: 0 <= i <= |s| ==> !(needle <= s[i..])
    decreases |s|
  {
    if needle <= s then
      assert s[0..] == s;
      Some(0)
    else if s == "" then None
    else
      var r := Find(s[1..], needle);
      assert forall i :: 1 <= i <= |s| ==> s[i..] == s[1..][i - 1..];
      assert s[0..] == s;
      if r.Some? then
        assert s[1..][r.value..r.value + |needle|] == s[r.value + 1..r.value + 1 + |needle|];
        Some(r.value + 1)
      else None
  }

  /** What follows the last '/' of a key: `rsplit('/').next()`. */
  function Base(key: string): string {
    if key == "" then "" else if key[|key| - 1] == '/' then "" else Base(key[..|key| - 1]) + [key[|key| - 1]]
  }

  predicate IsMarker(key: string) { Base(key) == MARKER }

  /** A key is a folder, empty or ending with a slash, and its base, which has none. */
  lemma {:induction false} BaseExactly(key: string) returns (folder: string)
    ensures key == folder + Base(key) && '/' !in Base(key) && (folder == "" || folder[|folder| - 1] == '/')
  {
    if key == "" || key[|key| - 1] == '/' {
      folder := key;
    } else {
      var init, last := key[..|key| - 1], [key[|key| - 1]];
      folder := BaseExactly(init);
      assert key == init + last && folder + Base(init) + last == folder + (Base(init) + last);
    }
  }

  /** A marker is ".keep" itself, or ends with "/.keep". */
  lemma MarkerExactly(key: string)
    ensures IsMarker(key) <==> key == ".keep" || (|key| >= 6 && key[|key| - 6..] == "/.keep")
  {
    var folder := BaseExactly(key);
    if Base(key) == ".keep" {
      assert folder != "" ==> key[|key| - 6..] == [folder[|folder| - 1]] + ".keep";
    } else if |key| >= 6 && key[|key| - 6..] == "/.keep" {
      assert key == key[..|key| - 5] + ".keep" && key[..|key| - 5][|key| - 6] == '/';
      BaseAfterSlash(key[..|key| - 5], ".keep");
      assert false;
    } else if key == ".keep" {
      assert "" + key == key;
      BaseAfterSlash("", key);
      assert false;
    }
  }

  /** The base is what follows the last slash. */
  lemma {:induction false} BaseAfterSlash(folder: string, name: string)
    requires '/' !in name && (folder == "" || folder[|folder| - 1] == '/')
    ensures Base(folder + name) == name
  {
    var key := folder + name;
    if name == "" {
      assert key == folder;
    } else {
      var init := name[..|name| - 1];
      assert key[..|key| - 1] == folder + init && key[|key| - 1] == name[|name| - 1];
      BaseAfterSlash(folder, init);
      assert name == init + [name[|name| - 1]];
    }
  }

  /** `str::find` counts bytes. */
  function FindByte(s: string, needle: string): Option<nat> {
    var found := Find(s, needle);
    if found.Some? then Some(|Utf8.Encode(s[..found.value])|) else None
  }

  /** The slice `rest[..=idx]` of a key ends inside a character, and the program panics. */
  predicate Breaks(key: string, prefix: string, delimiter: string) {
    prefix <= key &&
    var rest := key[|prefix|..];
    var idx := FindByte(rest, delimiter);
    idx.Some? && Utf8.Slice(rest, idx.value + 1).None?
  }

  /** The virtual folder of a key that does not break the slice: everything up to and including the first character of
      the delimiter. */
  function FolderOf(key: string, prefix: string, delimiter: string): Option<string>
    requires delimiter != ""
  {
    if prefix <= key then
      var found := Find(key[|prefix|..], delimiter);
      if found.Some? then Some(prefix + key[|prefix|..][..found.value + 1]) else None
    else None
  }

  /** The slice is the folder's text, or breaks, exactly by the size of the delimiter's first character. */
  lemma SliceIsFolder(key: string, prefix: string, delimiter: string)
    requires delimiter != "" && FolderOf(key, prefix, delimiter).Some?
    ensures var rest := key[|prefix|..];
      var idx := FindByte(rest, delimiter);
      && idx.Some?
      && (Breaks(key, prefix, delimiter) <==> |Utf8.EncodeChar(delimiter[0])| > 1)
      && (!Breaks(key, prefix, delimiter) ==>
            FolderOf(key, prefix, delimiter) == Some(prefix + Utf8.Slice(rest, idx.value + 1).value))
  {
    var rest := key[|prefix|..];
    var found := Find(rest, delimiter).value;
    assert rest[found] == rest[found..found + |delimiter|][0] == delimiter[0];
    Utf8.SliceOneMore(rest, found);
    assert |Utf8.EncodeChar(delimiter[0])| >= 1;
  }

  /** At this level: begins with the prefix, and no delimiter follows. */
  predicate AtLevel(key: string, prefix: string, delimiter: string)
    requires delimiter != ""
  {
    prefix <= key && FolderOf(key, prefix, delimiter).None?
  }

  function Direct(rows: seq<Row>, prefix: string, delimiter: string): seq<Row>
    requires delimiter != ""
  {
    if rows == [] then []
    else
      var r := rows[|rows| - 1];
      Direct(rows[..|rows| - 1], prefix, delimiter) + (if AtLevel(r.key, prefix, delimiter) && !IsMarker(r.key) then [r] else [])
  }

  function Markers(rows: seq<Row>, prefix: string, delimiter: string): seq<Row>
    requires delimiter != ""
  {
    if rows == [] then []
    else
      var r := rows[|rows| - 1];
      Markers(rows[..|rows| - 1], prefix, delimiter) + (if AtLevel(r.key, prefix, delimiter) && IsMarker(r.key) then [r] else [])
  }

  /** The rows whose key begins with `p`. */
  function Under(rows: seq<Row>, p: string): seq<Row> {
    if rows == [] then []
    else
      var r := rows[|rows| - 1];
      Under(rows[..|rows| - 1], p) + (if p <= r.key then [r] else [])
  }

  function TotalBytes(rows: seq<Row>): nat {
    if rows == [] then 0 else TotalBytes(rows[..|rows| - 1]) + rows[|rows| - 1].size
  }

  lemma TotalBytesSnoc(rows: seq<Row>, r: Row)
    ensures TotalBytes(rows + [r]) == TotalBytes(rows) + r.size
  {
    assert (rows + [r])[..|rows|] == rows;
  }

  // ----- Folder totals -----

  /** A folder entry sums up exactly the rows whose key begins with its prefix. */
  ghost predicate SumsUp(e: FolderEntry, rows: seq<Row>) {
    var under := Under(rows, e.prefix);
    && e.count == |under|
    && e.bytes == TotalBytes(under)
    && (e.created.None? <==> under == []) && (e.modified.None? <==> under == [])
    && (under != [] ==>
          && (forall k :: 0 <= k < |under| ==> e.created.value <= under[k].uploaded && under[k].modified <= e.modified.value)
          && (exists k :: 0 <= k < |under| && under[k].uploaded == e.created.value)
          && (exists k :: 0 <= k < |under| && under[k].modified == e.modified.value))
  }

  function Earlier(d: Option<int>, t: int): Option<int> {
    if d.Some? && d.value <= t then d else Some(t)
  }

  function Later(d: Option<int>, t: int): Option<int> {
    if d.Some? && d.value >= t then d else Some(t)
  }

  lemma SumsUpSkip(e: FolderEntry, rows: seq<Row>, r: Row)
    requires SumsUp(e, rows) && !(e.prefix <= r.key)
    ensures SumsUp(e, rows + [r])
  {
    assert (rows + [r])[..|rows|] == rows;
    assert Under(rows + [r], e.prefix) == Under(rows, e.prefix);
  }

  lemma SumsUpNext(e: FolderEntry, rows: seq<Row>, r: Row)
    requires SumsUp(e, rows) && e.prefix <= r.key
    ensures SumsUp(FolderEntry(e.prefix, Earlier(e.created, r.uploaded), Later(e.modified, r.modified), e.bytes + r.size, e.count + 1), rows + [r])
  {
    assert (rows + [r])[..|rows|] == rows;
    var under := Under(rows, e.prefix);
    var now := under + [r];
    TotalBytesSnoc(under, r);
    assert Under(rows + [r], e.prefix) == now;
    assert now[|under|] == r;
    assert forall k :: 0 <= k < |under| ==> now[k] == under[k];
  }

  /** `folder_entry_from_rows`. */
  method FolderEntryFromRows(prefix: string, rows: seq<Row>) returns (e: FolderEntry)
    ensures e.prefix == prefix && SumsUp(e, rows)
  {
    e := FolderEntry(prefix, None, None, 0, 0);
    for i := 0 to |rows|
      invariant e.prefix == prefix && SumsUp(e, rows[..i])
    {
      var row := rows[i];
      assert rows[..i + 1] == rows[..i] + [row];
      if prefix <= row.key {
        SumsUpNext(e, rows[..i], row);
        e := FolderEntry(prefix, Earlier(e.created, row.uploaded), Later(e.modified, row.modified), e.bytes + row.size, e.count + 1);
      } else {
        SumsUpSkip(e, rows[..i], row);
      }
    }
    assert rows[..|rows|] == rows;
  }

  // ----- The listing -----

  /** The virtual folders of `rows`, in order, each summed up; and the direct objects, in row order. */
  ghost predicate Lists(rows: seq<Row>, prefix: string, delimiter: string, folders: seq<FolderEntry>, objects: seq<Row>)
    requires delimiter != ""
  {
    && Sorted(Prefixes(folders))
    && (forall p :: p in Prefixes(folders) <==> IsFolder(rows, prefix, delimiter, p))
    && (forall k :: 0 <= k < |folders| ==> SumsUp(folders[k], rows))
    && objects == Direct(rows, prefix, delimiter)
  }

  function Prefixes(folders: seq<FolderEntry>): seq<string> {
    seq(|folders|, k requires 0 <= k < |folders| => folders[k].prefix)
  }

  ghost predicate IsFolder(rows: seq<Row>, prefix: string, delimiter: string, p: string)
    requires delimiter != ""
  {
    exists k :: 0 <= k < |rows| && FolderOf(rows[k].key, prefix, delimiter) == Some(p)
  }

  /** The rows grouped so far. */
  ghost predicate Grouped(rows: seq<Row>, prefix: string, delimiter: string, common: seq<string>, objects: seq<Row>)
    requires delimiter != ""
  {
    && Sorted(common) && (forall p :: p in common <==> IsFolder(rows, prefix, delimiter, p))
    && objects == Direct(rows, prefix, delimiter)
  }

  /** Cut the folder out of a key, by bytes; not `ok` when the slice panics. */
  method CutFolder(key: string, prefix: string, delimiter: string) returns (ok: bool, folder: Option<string>)
    requires delimiter != "" && prefix <= key
    ensures ok <==> !Breaks(key, prefix, delimiter)
    ensures ok ==> folder == FolderOf(key, prefix, delimiter)
  {
    var rest := key[|prefix|..];
    var idx := FindByte(rest, delimiter);
    if idx.None? { return true, None; }
    SliceIsFolder(key, prefix, delimiter);
    var slice := Utf8.Slice(rest, idx.value + 1);
    ok := slice.Some?;
    folder := if ok then Some(prefix + slice.value) else None;
  }

  /** One pass of the grouping loop; not `ok` when the slice panics. */
  method GroupRow(row: Row, prefix: string, delimiter: string, common: seq<string>, objects: seq<Row>, ghost before: seq<Row>)
    returns (ok: bool, common': seq<string>, objects': seq<Row>)
    requires delimiter != "" && Grouped(before, prefix, delimiter, common, objects)
    ensures ok <==> !Breaks(row.key, prefix, delimiter)
    ensures ok ==> Grouped(before + [row], prefix, delimiter, common', objects')
    ensures |common'| + |objects'| <= |common| + |objects| + 1
  {
    ok, common', objects' := true, common, objects;
    assert (before + [row])[..|before|] == before;
    IsFolderNext(before, row, prefix, delimiter);
    if prefix <= row.key {
      var folder;
      ok, folder := CutFolder(row.key, prefix, delimiter);
      if !ok { return; }
      if folder.Some? {
        common' := Insert(common, folder.value);
      } else if Base(row.key) != MARKER {
        objects' := objects + [row];
      }
    }
  }

  /** No key breaks the slice. */
  predicate Sliceable(rows: seq<Row>, prefix: string, delimiter: string) {
    forall k :: 0 <= k < |rows| ==> !Breaks(rows[k].key, prefix, delimiter)
  }

  lemma SliceableNext(rows: seq<Row>, r: Row, prefix: string, delimiter: string)
    ensures Sliceable(rows + [r], prefix, delimiter) <==> Sliceable(rows, prefix, delimiter) && !Breaks(r.key, prefix, delimiter)
  {
    assert (rows + [r])[|rows|] == r;
    assert forall k :: 0 <= k < |rows| ==> (rows + [r])[k] == rows[k];
  }

  /** The grouping loop of `list_objects_with_prefix`, over the rows the query returned. */
  method GroupRows(rows: seq<Row>, prefix: string, delimiter: string) returns (ok: bool, common: seq<string>, objects: seq<Row>)
    requires delimiter != ""
    ensures ok <==> Sliceable(rows, prefix, delimiter)
    ensures ok ==> Grouped(rows, prefix, delimiter, common, objects)
    ensures |common| + |objects| <= |rows|
  {
    ok, common, objects := true, [], [];
    for i := 0 to |rows|
      invariant ok && Sliceable(rows[..i], prefix, delimiter)
      invariant Grouped(rows[..i], prefix, delimiter, common, objects)
      invariant |common| + |objects| <= i
    {
      assert rows[..i + 1] == rows[..i] + [rows[i]];
      SliceableNext(rows[..i], rows[i], prefix, delimiter);
      ok, common, objects := GroupRow(rows[i], prefix, delimiter, common, objects, rows[..i]);
      if !ok { return; }
    }
    assert rows[..|rows|] == rows;
  }

  /** Group the rows, then sum up each folder. The listing fails exactly when some key breaks the slice. */
  method ListWithDelimiter(rows: seq<Row>, prefix: string, delimiter: string)
    returns (ok: bool, folders: seq<FolderEntry>, objects: seq<Row>)
    requires delimiter != ""
    ensures ok <==> Sliceable(rows, prefix, delimiter)
    ensures ok ==> Lists(rows, prefix, delimiter, folders, objects)
    ensures |folders| + |objects| <= |rows|
  {
    var common;
    ok, common, objects := GroupRows(rows, prefix, delimiter);
    folders := SumUpFolders(common, rows);
  }

  /** One summed-up entry per common prefix. */
  method SumUpFolders(common: seq<string>, rows: seq<Row>) returns (folders: seq<FolderEntry>)
    ensures Prefixes(folders) == common
    ensures forall k :: 0 <= k < |folders| ==> SumsUp(folders[k], rows)
  {
    folders := [];
    for j := 0 to |common|
      invariant |folders| == j
      invariant forall k :: 0 <= k < j ==> folders[k].prefix == common[k] && SumsUp(folders[k], rows)
    {
      var e := FolderEntryFromRows(common[j], rows);
      folders := folders + [e];
    }
  }

  lemma IsFolderNext(rows: seq<Row>, r: Row, prefix: string, delimiter: string)
    requires delimiter != ""
    ensures forall p :: IsFolder(rows + [r], prefix, delimiter, p) <==>
              IsFolder(rows, prefix, delimiter, p) || FolderOf(r.key, prefix, delimiter) == Some(p)
  {
    var more := rows + [r];
    assert more[|rows|] == r;
    forall p | IsFolder(rows, prefix, delimiter, p) ensures IsFolder(more, prefix, delimiter, p) {
      var k :| 0 <= k < |rows| && FolderOf(rows[k].key, prefix, delimiter) == Some(p);
      assert more[k] == rows[k];
    }
  }
}
