/** Windows over a folders-then-objects listing, and the explorer loop that walks them. */
module Paging {
  import opened Basics
  import opened LikePatterns
  import opened Store
  import opened Rename
  import opened Ordering
  import opened Listing
  import opened ListingLaws

  /** `usize` on a 64-bit machine. */
  const USIZE_MAX: int := U64_MAX

  datatype Page = Page(folders: seq<FolderEntry>, objects: seq<Row>, total: int, offset: int, limit: int, hasMore: bool)

  /** `page_folder_object_lists`. A limit of zero or less means no limit. The ranges of the machine integers are all
      that keeps every slice within bounds. */
  function PageOf(folders: seq<FolderEntry>, objects: seq<Row>, offset: int, limit: int): Page
    requires IsI64(offset) && IsI64(limit) && IsI64(|folders| + |objects|)
  {
    var start := Max(offset, 0);
    var size := if limit <= 0 then USIZE_MAX else limit;
    var total := |folders| + |objects|;
    var end := Min(start + size, USIZE_MAX);
    var pageFolders := if start >= |folders| then [] else folders[start..Min(end, |folders|)];
    var pageObjects :=
      if end <= |folders| then []
      else
        var objStart := Max(start - |folders|, 0);
        var objEnd := Min(end - |folders|, |objects|);
        if objStart >= |objects| then [] else objects[objStart..objEnd];
    var returned := |pageFolders| + |pageObjects|;
    Page(pageFolders, pageObjects, total, start, if size == USIZE_MAX then Max(total, 0) else size, start + returned < total)
  }

  datatype Entry = Folder(folder: FolderEntry) | Object(object: Row)

  /** A listing as one sequence: folders, then objects. */
  function Entries(folders: seq<FolderEntry>, objects: seq<Row>): seq<Entry> {
    seq(|folders| + |objects|, i requires 0 <= i < |folders| + |objects| =>
      if i < |folders| then Folder(folders[i]) else Object(objects[i - |folders|]))
  }

  /** At most `limit` entries from `offset` on; all of them when the limit is zero or less. */
  function Window<T>(s: seq<T>, offset: int, limit: int): seq<T> {
    var start := Max(offset, 0);
    if start >= |s| then [] else if limit <= 0 then s[start..] else s[start..Min(start + limit, |s|)]
  }

  /** A window begins at its offset, and is as long as its limit and the sequence allow. */
  lemma WindowExactly<T>(s: seq<T>, offset: int, limit: int)
    ensures var start := if offset < 0 then 0 else offset;
      var rest := if start < |s| then |s| - start else 0;
      && |Window(s, offset, limit)| == (if 0 < limit < rest then limit else rest)
      && forall k :: 0 <= k < |Window(s, offset, limit)| ==> Window(s, offset, limit)[k] == s[start + k]
  {
  }

  lemma PageFolders(folders: seq<FolderEntry>, objects: seq<Row>, offset: int, limit: int)
    requires IsI64(offset) && IsI64(limit) && IsI64(|folders| + |objects|)
    ensures PageOf(folders, objects, offset, limit).folders == Window(folders, offset, limit)
  {
  }

  lemma PageObjects(folders: seq<FolderEntry>, objects: seq<Row>, offset: int, limit: int)
    requires IsI64(offset) && IsI64(limit) && IsI64(|folders| + |objects|)
    ensures var start := Max(offset, 0);
      var from := Max(start - |folders|, 0);
      var to := if limit <= 0 then |objects| else Min(Max(start + limit - |folders|, 0), |objects|);
      PageOf(folders, objects, offset, limit).objects == if from < to then objects[from..to] else []
  {
  }

  lemma WindowAt<T>(s: seq<T>, offset: int, limit: int, k: nat)
    requires k < |Window(s, offset, limit)|
    ensures Max(offset, 0) + k < |s| && Window(s, offset, limit)[k] == s[Max(offset, 0) + k]
  {
  }

  lemma PageLength(folders: seq<FolderEntry>, objects: seq<Row>, offset: int, limit: int)
    requires IsI64(offset) && IsI64(limit) && IsI64(|folders| + |objects|)
    ensures var page := PageOf(folders, objects, offset, limit);
      |page.folders| + |page.objects| == |Window(Entries(folders, objects), offset, limit)|
  {
    PageFolders(folders, objects, offset, limit);
    PageObjects(folders, objects, offset, limit);
  }

  lemma ObjectAt(folders: seq<FolderEntry>, objects: seq<Row>, offset: int, limit: int, j: nat)
    requires IsI64(offset) && IsI64(limit) && IsI64(|folders| + |objects|)
    requires j < |PageOf(folders, objects, offset, limit).objects|
    ensures var page := PageOf(folders, objects, offset, limit);
      var at := Max(offset, 0) + |page.folders| + j - |folders|;
      0 <= at < |objects| && page.objects[j] == objects[at]
  {
    var start := Max(offset, 0);
    PageObjects(folders, objects, offset, limit);
    PageFolders(folders, objects, offset, limit);
    var page := PageOf(folders, objects, offset, limit);
    assert |page.folders| == Max(|folders| - start, 0);
  }

  lemma PageEntry(folders: seq<FolderEntry>, objects: seq<Row>, offset: int, limit: int, k: nat)
    requires IsI64(offset) && IsI64(limit) && IsI64(|folders| + |objects|)
    requires var page := PageOf(folders, objects, offset, limit); k < |page.folders| + |page.objects|
    ensures var page := PageOf(folders, objects, offset, limit);
      && Max(offset, 0) + k < |folders| + |objects|
      && Entries(page.folders, page.objects)[k] == Entries(folders, objects)[Max(offset, 0) + k]
  {
    var page := PageOf(folders, objects, offset, limit);
    if k < |page.folders| {
      PageFolders(folders, objects, offset, limit);
      WindowAt(folders, offset, limit, k);
    } else {
      ObjectAt(folders, objects, offset, limit, k - |page.folders|);
    }
  }

  /** Every page is the window of the whole listing at that offset and limit, the sum behind `has_more` does not
      overflow, and there is more exactly when the window ends before the listing does. */
  lemma PageIsWindow(folders: seq<FolderEntry>, objects: seq<Row>, offset: int, limit: int)
    requires IsI64(offset) && IsI64(limit) && IsI64(|folders| + |objects|)
    ensures var page := PageOf(folders, objects, offset, limit);
      var window := Window(Entries(folders, objects), offset, limit);
      && Entries(page.folders, page.objects) == window
      && IsI64(Max(offset, 0) + |window|)
      && page.total == |folders| + |objects| && page.offset == Max(offset, 0)
      && page.limit == (if limit <= 0 then |folders| + |objects| else limit)
      && (page.hasMore <==> Max(offset, 0) + |window| < |folders| + |objects|)
  {
    var page := PageOf(folders, objects, offset, limit);
    var all := Entries(folders, objects);
    var window := Window(all, offset, limit);
    PageLength(folders, objects, offset, limit);
    forall k | 0 <= k < |window| ensures Entries(page.folders, page.objects)[k] == window[k] {
      PageEntry(folders, objects, offset, limit, k);
      WindowAt(all, offset, limit, k);
    }
  }

  // ----- Listing and paging together -----

  /** All rows but the markers, in row order. */
  function Unmarked(rows: seq<Row>): seq<Row> {
    if rows == [] then []
    else
      var r := rows[|rows| - 1];
      Unmarked(rows[..|rows| - 1]) + (if IsMarker(r.key) then [] else [r])
  }

  method DropMarkers(rows: seq<Row>) returns (objects: seq<Row>)
    ensures objects == Unmarked(rows)
    ensures forall k :: 0 <= k < |objects| ==> !IsMarker(objects[k].key)
  {
    objects := [];
    for i := 0 to |rows|
      invariant objects == Unmarked(rows[..i])
      invariant forall k :: 0 <= k < |objects| ==> !IsMarker(objects[k].key)
    {
      assert rows[..i + 1][..i] == rows[..i];
      if Base(rows[i].key) != MARKER { objects := objects + [rows[i]]; }
    }
    assert rows[..|rows|] == rows;
  }

  lemma {:induction false} UnmarkedMembers(rows: seq<Row>)
    ensures forall r :: r in Unmarked(rows) <==> r in rows && !IsMarker(r.key)
  {
    if rows != [] {
      UnmarkedMembers(rows[..|rows| - 1]);
      assert rows == rows[..|rows| - 1] + [rows[|rows| - 1]];
    }
  }

  /** Leaving out the markers keeps the order. */
  lemma {:induction false} UnmarkedSorted(rows: seq<Row>)
    requires KeysSorted(rows)
    ensures KeysSorted(Unmarked(rows))
  {
    if rows != [] {
      var init, last := rows[..|rows| - 1], rows[|rows| - 1];
      UnmarkedSorted(init);
      UnmarkedMembers(init);
      forall k | 0 <= k < |Unmarked(init)| ensures Before(Unmarked(init)[k].key, last.key) {
        assert Unmarked(init)[k] in init;
        var j :| 0 <= j < |init| && init[j] == Unmarked(init)[k];
        assert Before(rows[j].key, rows[|rows| - 1].key);
      }
    }
  }

  /** Without a delimiter the listing is exactly the active keys that LIKE selects, markers left out: those that begin
      with the prefix up to ASCII case. */
  lemma FlatListingSelects(objects: map<nat, Row>, bucket: nat, prefix: string, rows: seq<Row>)
    requires IsQuery(objects, bucket, prefix, rows)
    ensures KeysSorted(Unmarked(rows))
    ensures forall key :: key in Keys(Unmarked(rows)) <==>
              key in ActiveKeys(objects, bucket) && FoldedPrefix(prefix, key) && !IsMarker(key)
  {
    UnmarkedSorted(rows);
    UnmarkedMembers(rows);
    LikeRowsMean(objects, bucket, prefix);
    forall key ensures key in Keys(Unmarked(rows)) <==>
        key in ActiveKeys(objects, bucket) && FoldedPrefix(prefix, key) && !IsMarker(key) {
      if key in Keys(Unmarked(rows)) {
        var k :| 0 <= k < |Unmarked(rows)| && Unmarked(rows)[k].key == key;
        assert Unmarked(rows)[k] in rows;
      }
      if key in ActiveKeys(objects, bucket) && FoldedPrefix(prefix, key) && !IsMarker(key) {
        var i :| i in objects && Active(objects[i]) && objects[i].bucket == bucket && objects[i].key == key;
        assert objects[i] in Unmarked(rows);
        var k :| 0 <= k < |Unmarked(rows)| && Unmarked(rows)[k] == objects[i];
        assert Keys(Unmarked(rows))[k] == key;
      }
    }
  }

  /** An active key that begins with the prefix in another case alone. */
  predicate Strays(objects: map<nat, Row>, bucket: nat, prefix: string, key: string) {
    key in ActiveKeys(objects, bucket) && FoldedPrefix(prefix, key) && !(prefix <= key) && !IsMarker(key)
  }

  predicate AllUnder(keys: seq<string>, prefix: string) {
    forall k :: 0 <= k < |keys| ==> prefix <= keys[k]
  }

  /** It lists only keys under the prefix exactly when no other key begins with the prefix in another case alone. */
  lemma FlatListingIsExact(objects: map<nat, Row>, bucket: nat, prefix: string, rows: seq<Row>)
    requires IsQuery(objects, bucket, prefix, rows)
    ensures AllUnder(Keys(Unmarked(rows)), prefix) <==> forall key :: !Strays(objects, bucket, prefix, key)
  {
    var listed := Keys(Unmarked(rows));
    FlatListingSelects(objects, bucket, prefix, rows);
    if key :| Strays(objects, bucket, prefix, key) {
      assert key in listed;
    } else {
      forall k | 0 <= k < |listed| ensures prefix <= listed[k] {
        assert listed[k] in listed && !Strays(objects, bucket, prefix, listed[k]);
      }
    }
  }

  /** `list_objects_with_prefix` without a search, over the rows its query returned. Without a delimiter nothing is
      grouped, and not even the prefix is checked again. With one it fails when a key breaks the slice. */
  method ListObjects(rows: seq<Row>, prefix: string, delimiter: string, offset: int, limit: int)
    returns (ok: bool, folders: seq<FolderEntry>, objects: seq<Row>, page: Page)
    requires IsI64(offset) && IsI64(limit) && IsI64(|rows|)
    ensures ok <==> delimiter == "" || Sliceable(rows, prefix, delimiter)
    ensures ok && delimiter == "" ==> folders == [] && objects == Unmarked(rows)
    ensures ok && delimiter != "" ==> Lists(rows, prefix, delimiter, folders, objects)
    ensures ok ==> forall k :: 0 <= k < |objects| ==> !IsMarker(objects[k].key)
    ensures IsI64(|folders| + |objects|) && page == PageOf(folders, objects, offset, limit)
  {
    if delimiter == "" {
      ok, folders := true, [];
      objects := DropMarkers(rows);
      UnmarkedLength(rows);
    } else {
      ok, folders, objects := ListWithDelimiter(rows, prefix, delimiter);
      DirectMembers(rows, prefix, delimiter);
      assert forall k :: 0 <= k < |objects| ==> objects[k] in objects;
    }
    page := PageOf(folders, objects, offset, limit);
  }

  lemma {:induction false} UnmarkedLength(rows: seq<Row>)
    ensures |Unmarked(rows)| <= |rows|
  {
    if rows != [] { UnmarkedLength(rows[..|rows| - 1]); }
  }

  // ----- The explorer -----

  /** The page size the listing endpoint grants. */
  function Clamp(limit: int): (r: int)
    ensures 1 <= r <= 500 && (limit < 1 ==> r == 1) && (1 <= limit <= 500 ==> r == limit) && (limit > 500 ==> r == 500)
  {
    if limit < 1 then 1 else if limit > 500 then 500 else limit
  }

  /** What the explorer counts: folders, and objects that are not markers. */
  function Counted(objects: seq<Row>): nat {
    if objects == [] then 0 else (if IsMarker(objects[0].key) then 0 else 1) + Counted(objects[1..])
  }

  lemma {:induction false} CountedAll(objects: seq<Row>)
    requires forall k :: 0 <= k < |objects| ==> !IsMarker(objects[k].key)
    ensures Counted(objects) == |objects|
  {
    if objects != [] { CountedAll(objects[1..]); }
  }

  /** Scrolling to the end: while there is more, ask for the next page at the offset counted so far. It terminates, and
      shows every entry once and in order, because a listing never contains a marker. */
  method Browse(folders: seq<FolderEntry>, objects: seq<Row>, pageSize: int) returns (shown: seq<Entry>)
    requires IsI64(|folders| + |objects|)
    requires forall k :: 0 <= k < |objects| ==> !IsMarker(objects[k].key)
    ensures shown == Entries(folders, objects)
  {
    var limit := Clamp(pageSize);
    var all := Entries(folders, objects);
    var offset, hasMore := 0, true;
    shown := [];
    while hasMore
      invariant 0 <= offset <= |all|
      invariant shown == all[..offset]
      invariant !hasMore ==> offset == |all|
      decreases |all| - offset, hasMore
    {
      var page := PageOf(folders, objects, offset, limit);
      PageIsWindow(folders, objects, offset, limit);
      PageHasNoMarkers(folders, objects, offset, limit);
      CountedAll(page.objects);
      WindowExtends(all, offset, limit);
      shown := shown + Entries(page.folders, page.objects);
      offset := offset + |page.folders| + Counted(page.objects);
      hasMore := page.hasMore;
    }
  }

  lemma WindowExtends<T>(s: seq<T>, offset: nat, limit: int)
    requires offset <= |s| && limit > 0
    ensures offset + |Window(s, offset, limit)| <= |s|
    ensures s[..offset] + Window(s, offset, limit) == s[..offset + |Window(s, offset, limit)|]
    ensures offset < |s| ==> |Window(s, offset, limit)| > 0
  {
  }

  lemma PageHasNoMarkers(folders: seq<FolderEntry>, objects: seq<Row>, offset: int, limit: int)
    requires IsI64(offset) && IsI64(limit) && IsI64(|folders| + |objects|)
    requires forall k :: 0 <= k < |objects| ==> !IsMarker(objects[k].key)
    ensures forall r :: r in PageOf(folders, objects, offset, limit).objects ==> !IsMarker(r.key)
  {
  }
}
