/** Disk and database reconciliation: a classification that conserves rows, and a repair that removes exactly the
    unreferenced files it can unlink. */
module Reconcile {
  import opened Text
  import opened Ordering

  const CAP: nat := 50

  // ----- Names -----

  /** `trim_start_matches("./")`. */
  function StripDots(s: string): string
    decreases |s|
  {
    if "./" <= s then StripDots(s[2..]) else s
  }

  /** `normalize_object_rel`. */
  function Normalize(filepath: string): string {
    var trimmed := StripDots(Trim(filepath));
    if "objects/" <= trimmed then trimmed
    else if '/' in trimmed then trimmed
    else "objects/" + trimmed
  }

  /** `absolute_path_for`, relative to the storage root. */
  function EnginePath(filepath: string): string {
    if "objects/" <= filepath || '/' in filepath then filepath else "objects/" + filepath
  }

  /** A file the reconciler lists: directly under `objects/` and not hidden. */
  predicate Visible(name: string) {
    name != "" && '/' !in name && name[0] != '.'
  }

  function OnDisk(name: string): string { "objects/" + name }

  function NameOf(rel: string): string
    requires "objects/" <= rel
  {
    rel[|"objects/"|..]
  }

  // ----- The directory -----

  /** The names of the regular files under `objects/`. */
  class ObjectsDir {
    var names: set<string>

    constructor (names: set<string>)
      ensures this.names == names
    {
      this.names := names;
    }

    function Listing(): set<string>
      reads this
    {
      Listed(names)
    }

    /** `list_disk_object_files`: visible files in order. */
    method List() returns (out: seq<string>)
      ensures Sorted(out) && forall p :: p in out <==> p in Listing()
      ensures forall name :: name in names ==>
                ("objects/" + name in out <==> name != "" && '/' !in name && name[0] != '.')
      ensures |out| == |Listing()|
    {
      out := [];
      var left := names;
      while left != {}
        invariant left <= names && Sorted(out)
        invariant forall p :: p in out <==> p in Listed(names - left)
        decreases |left|
      {
        var name :| name in left;
        ghost var before := Listed(names - left);
        left := left - {name};
        ListedGrows(names, left, name);
        if Visible(name) { out := Insert(out, OnDisk(name)); }
      }
      assert names - left == names;
      forall name | name in names { ListedIs(names, name); }
      SortedSize(out, Listing());
    }

    /** `unlink`; the file system refuses the names in `stuck`. A file that is not there is no error. */
    method Unlink(rel: string, stuck: set<string>) returns (ok: bool)
      requires "objects/" <= rel
      modifies this
      ensures ok <==> NameOf(rel) !in old(names) * stuck
      ensures names == if ok then old(names) - {NameOf(rel)} else old(names)
    {
      ok := !(NameOf(rel) in names && NameOf(rel) in stuck);
      if ok { names := names - {NameOf(rel)}; }
    }
  }

  function Listed(names: set<string>): set<string> {
    set name | name in names && Visible(name) :: OnDisk(name)
  }

  lemma ListedIs(names: set<string>, name: string)
    ensures OnDisk(name) in Listed(names) <==> name in names && Visible(name)
  {
    if OnDisk(name) in Listed(names) {
      var other :| other in names && Visible(other) && OnDisk(other) == OnDisk(name);
      assert other == OnDisk(other)[|"objects/"|..] == name;
    }
  }

  lemma ListedGrows(names: set<string>, left: set<string>, name: string)
    requires name in names && name !in left && left <= names
    ensures forall p :: p in Listed(names - left) <==> p in Listed(names - (left + {name})) || (Visible(name) && p == OnDisk(name))
  {
  }

  lemma {:induction false} SortedSize(s: seq<string>, members: set<string>)
    requires Sorted(s) && forall p :: p in s <==> p in members
    ensures |s| == |members|
  {
    if s == [] {
      assert members == {};
    } else {
      var init, last := s[..|s| - 1], s[|s| - 1];
      assert s == init + [last];
      assert last !in init by {
        if last in init {
          var k :| 0 <= k < |init| && init[k] == last;
          SortedDistinct(s, k, |s| - 1);
        }
      }
      SortedSize(init, members - {last});
    }
  }

  // ----- Classification -----

  /** A row of `object`, its path normalised. */
  datatype DbFile = DbFile(filepath: string, deleted: bool)

  function Referenced(files: seq<DbFile>): set<string> {
    set k | 0 <= k < |files| :: files[k].filepath
  }

  /** The paths of the rows in one state whose file is there, or is not. */
  function Paths(files: seq<DbFile>, deleted: bool, disk: set<string>, present: bool): seq<string> {
    if files == [] then []
    else
      var f := files[|files| - 1];
      Paths(files[..|files| - 1], deleted, disk, present) +
      (if f.deleted == deleted && (f.filepath in disk) == present then [f.filepath] else [])
  }

  function Rows(files: seq<DbFile>, deleted: bool): nat {
    if files == [] then 0
    else Rows(files[..|files| - 1], deleted) + (if files[|files| - 1].deleted == deleted then 1 else 0)
  }

  /** Every row is counted once: present or missing, active or recycled. */
  lemma {:induction false} RowsConserved(files: seq<DbFile>, disk: set<string>)
    ensures forall deleted :: |Paths(files, deleted, disk, true)| + |Paths(files, deleted, disk, false)| == Rows(files, deleted)
    ensures Rows(files, false) + Rows(files, true) == |files|
  {
    if files != [] { RowsConserved(files[..|files| - 1], disk); }
  }

  /** A path is in the group of a row's state and its file's presence, once for every such row. */
  lemma {:induction false} PathsExactly(files: seq<DbFile>, deleted: bool, disk: set<string>, present: bool, p: string)
    ensures multiset(Paths(files, deleted, disk, present))[p] == if (p in disk) == present then multiset(files)[DbFile(p, deleted)] else 0
  {
    if files != [] {
      var init, last := files[..|files| - 1], files[|files| - 1];
      PathsExactly(init, deleted, disk, present, p);
      assert files == init + [last];
    }
  }

  lemma PathsNext(files: seq<DbFile>, f: DbFile, disk: set<string>)
    ensures forall deleted, present :: Paths(files + [f], deleted, disk, present) ==
              Paths(files, deleted, disk, present) + (if f.deleted == deleted && (f.filepath in disk) == present then [f.filepath] else [])
    ensures forall deleted :: Rows(files + [f], deleted) == Rows(files, deleted) + (if f.deleted == deleted then 1 else 0)
  {
    assert (files + [f])[..|files|] == files;
  }

  datatype Findings = Findings(orphans: seq<string>, missingActive: seq<string>, missingRecycle: seq<string>, activeOk: nat, recycleOk: nat)

  /** The five outcomes of a classification. */
  ghost predicate Classifies(files: seq<DbFile>, disk: set<string>, f: Findings) {
    && Sorted(f.orphans)
    && (forall p :: p in f.orphans <==> p in disk && p !in Referenced(files))
    && f.activeOk == |Paths(files, false, disk, true)|
    && f.recycleOk == |Paths(files, true, disk, true)|
    && multiset(f.missingActive) == multiset(Paths(files, false, disk, false)) && Ordered(f.missingActive)
    && multiset(f.missingRecycle) == multiset(Paths(files, true, disk, false)) && Ordered(f.missingRecycle)
  }

  /** Ascending, duplicates allowed. */
  ghost predicate Ordered(s: seq<string>) {
    forall i, j :: 0 <= i < j < |s| ==> s[i] == s[j] || Before(s[i], s[j])
  }

  /** `sort`. */
  method Sort(s: seq<string>) returns (r: seq<string>)
    ensures Ordered(r) && multiset(r) == multiset(s)
  {
    r := [];
    for i := 0 to |s|
      invariant Ordered(r) && multiset(r) == multiset(s[..i])
    {
      assert s[..i + 1] == s[..i] + [s[i]];
      r := Place(r, s[i]);
    }
    assert s[..|s|] == s;
  }

  method Place(s: seq<string>, x: string) returns (r: seq<string>)
    requires Ordered(s)
    ensures Ordered(r) && multiset(r) == multiset(s) + multiset{x}
  {
    var k := 0;
    while k < |s| && Before(s[k], x)
      invariant 0 <= k <= |s|
      invariant forall i :: 0 <= i < k ==> Before(s[i], x)
    {
      k := k + 1;
    }
    r := s[..k] + [x] + s[k..];
    PlacedOrdered(s, k, x);
    assert s == s[..k] + s[k..];
  }

  lemma PlacedOrdered(s: seq<string>, k: nat, x: string)
    requires Ordered(s) && k <= |s| && (forall i :: 0 <= i < k ==> Before(s[i], x)) && (k < |s| ==> !Before(s[k], x))
    ensures Ordered(s[..k] + [x] + s[k..])
  {
    var r := s[..k] + [x] + s[k..];
    forall i, j | 0 <= i < j < |r| ensures r[i] == r[j] || Before(r[i], r[j]) {
      if j < k {
        assert r[i] == s[i] && r[j] == s[j];
      } else if j == k {
        assert r[i] == s[i] && r[j] == x;
      } else if i < k {
        assert r[i] == s[i] && r[j] == s[j - 1];
      } else if i == k {
        assert r[i] == x && r[j] == s[j - 1];
        BeforeIsTotal(s[k], x);
        if s[k] != x && s[j - 1] != s[k] { BeforeIsTransitive(x, s[k], s[j - 1]); }
      } else {
        assert r[i] == s[i - 1] && r[j] == s[j - 1];
      }
    }
  }

  lemma {:induction false} StripDotsExactly(s: string)
    ensures !("./" <= StripDots(s)) && (s == StripDots(s) || ("./" <= s && StripDots(s) == StripDots(s[2..])))
    decreases |s|
  {
    if "./" <= s { StripDotsExactly(s[2..]); }
  }

  /** A row's path without white space and leading "./" is kept if it names a directory, and is put under "objects/"
      otherwise. */
  lemma NormalizeExactly(filepath: string)
    ensures var rest := StripDots(Trim(filepath)); Normalize(filepath) == if '/' in rest then rest else "objects/" + rest
  {
    var rest := StripDots(Trim(filepath));
    if "objects/" <= rest { assert rest[7] == '/'; }
  }

  /** The rows with their paths normalised. */
  function DbFiles(rows: seq<(string, bool)>): seq<DbFile> {
    seq(|rows|, k requires 0 <= k < |rows| => DbFile(Normalize(rows[k].0), rows[k].1))
  }

  /** Every row is judged by its normalised path and its own state: a path is reported in a group once for each such row. */
  lemma ReportedExactly(rows: seq<(string, bool)>, deleted: bool, disk: set<string>, present: bool, p: string)
    ensures multiset(Paths(DbFiles(rows), deleted, disk, present))[p] ==
              if (p in disk) == present then RowsAt(rows, deleted, p) else 0
  {
    PathsExactly(DbFiles(rows), deleted, disk, present, p);
    RowsOf(rows, deleted, p);
  }

  /** How many rows in this state have the path, once it is normalised. */
  function RowsAt(rows: seq<(string, bool)>, deleted: bool, p: string): nat {
    if rows == [] then 0
    else
      var (filepath, state) := rows[|rows| - 1];
      RowsAt(rows[..|rows| - 1], deleted, p) + (if Normalize(filepath) == p && state == deleted then 1 else 0)
  }

  lemma {:induction false} RowsOf(rows: seq<(string, bool)>, deleted: bool, p: string)
    ensures multiset(DbFiles(rows))[DbFile(p, deleted)] == RowsAt(rows, deleted, p)
  {
    if rows != [] {
      var init, last := rows[..|rows| - 1], rows[|rows| - 1];
      RowsOf(init, deleted, p);
      assert DbFiles(rows) == DbFiles(init) + [DbFile(Normalize(last.0), last.1)];
    }
  }

  /** `list_db_object_files`. */
  method ListDbFiles(rows: seq<(string, bool)>) returns (files: seq<DbFile>)
    ensures files == DbFiles(rows)
  {
    files := [];
    for i := 0 to |rows|
      invariant files == DbFiles(rows[..i])
    {
      files := files + [DbFile(Normalize(rows[i].0), rows[i].1)];
    }
  }

  /** The paths of `disk` that no row refers to, in disk order: a map of the rows' paths is filled first. */
  method FindOrphans(files: seq<DbFile>, disk: seq<string>) returns (orphans: seq<string>)
    requires Sorted(disk)
    ensures Sorted(orphans)
    ensures forall p :: p in orphans <==> p in disk && p !in Referenced(files)
  {
    var dbByPath: map<string, bool> := map[];
    for i := 0 to |files|
      invariant dbByPath.Keys == Referenced(files[..i])
    {
      var f := files[i];
      ReferencedNext(files, i);
      dbByPath := dbByPath[f.filepath := if f.filepath in dbByPath then dbByPath[f.filepath] && f.deleted else f.deleted];
    }
    assert files[..|files|] == files;
    orphans := [];
    for j := 0 to |disk|
      invariant Sorted(orphans)
      invariant forall p :: p in orphans <==> p in disk[..j] && p !in Referenced(files)
    {
      assert disk[..j + 1] == disk[..j] + [disk[j]];
      if disk[j] !in dbByPath {
        forall k | 0 <= k < |orphans| ensures Before(orphans[k], disk[j]) {
          assert orphans[k] in disk[..j];
          var m :| 0 <= m < j && disk[m] == orphans[k];
        }
        orphans := orphans + [disk[j]];
      }
    }
    assert disk[..|disk|] == disk;
  }

  lemma ReferencedNext(files: seq<DbFile>, i: nat)
    requires i < |files|
    ensures Referenced(files[..i + 1]) == Referenced(files[..i]) + {files[i].filepath}
  {
    assert files[..i + 1] == files[..i] + [files[i]];
    forall p | p in Referenced(files[..i + 1]) ensures p in Referenced(files[..i]) + {files[i].filepath} {
      var k :| 0 <= k < i + 1 && files[..i + 1][k].filepath == p;
      if k < i { assert files[..i][k].filepath == p; }
    }
    forall p | p in Referenced(files[..i]) ensures p in Referenced(files[..i + 1]) {
      var k :| 0 <= k < i && files[..i][k].filepath == p;
      assert files[..i + 1][k].filepath == p;
    }
    assert files[..i + 1][i].filepath == files[i].filepath;
  }

  function Members(s: seq<string>): set<string> {
    set p | p in s
  }

  /** Sort every row into one of four groups by its state and whether its file is there. */
  method Classify(files: seq<DbFile>, disk: seq<string>) returns (f: Findings)
    requires Sorted(disk)
    ensures Classifies(files, Members(disk), f)
  {
    var orphans := FindOrphans(files, disk);
    var diskSet := Members(disk);
    var missingActive: seq<string>, missingRecycle: seq<string> := [], [];
    var activeOk: nat, recycleOk: nat := 0, 0;
    for i := 0 to |files|
      invariant missingActive == Paths(files[..i], false, diskSet, false)
      invariant missingRecycle == Paths(files[..i], true, diskSet, false)
      invariant activeOk == |Paths(files[..i], false, diskSet, true)|
      invariant recycleOk == |Paths(files[..i], true, diskSet, true)|
    {
      var row := files[i];
      assert files[..i + 1] == files[..i] + [row];
      PathsNext(files[..i], row, diskSet);
      if row.filepath in diskSet {
        if row.deleted { recycleOk := recycleOk + 1; } else { activeOk := activeOk + 1; }
      } else if row.deleted {
        missingRecycle := missingRecycle + [row.filepath];
      } else {
        missingActive := missingActive + [row.filepath];
      }
    }
    assert files[..|files|] == files;
    missingActive := Sort(missingActive);
    missingRecycle := Sort(missingRecycle);
    f := Findings(orphans, missingActive, missingRecycle, activeOk, recycleOk);
  }

  // ----- Reports -----

  datatype Report = Report(dbRows: nat, dbActive: nat, dbRecycled: nat, diskBefore: nat, diskAfter: nat, activeOk: nat, recycleOk: nat,
                           orphansRemoved: seq<string>, orphansRemovedCount: nat, missingActive: seq<string>, missingActiveCount: nat,
                           missingRecycle: seq<string>, missingRecycleCount: nat, repaired: bool)

  /** At most `cap` items are kept for display; the count is of all of them. */
  function Capped(items: seq<string>, cap: nat): (seq<string>, nat) {
    (if |items| > cap then items[..cap] else items, |items|)
  }

  method CountActive(files: seq<DbFile>) returns (n: nat)
    ensures n == Rows(files, false)
  {
    n := 0;
    for i := 0 to |files|
      invariant n == Rows(files[..i], false)
    {
      assert files[..i + 1] == files[..i] + [files[i]];
      PathsNext(files[..i], files[i], {});
      if !files[i].deleted { n := n + 1; }
    }
    assert files[..|files|] == files;
  }

  /** The sums every report satisfies. */
  predicate Conserves(r: Report) {
    && r.dbActive + r.dbRecycled == r.dbRows
    && r.activeOk + r.missingActiveCount == r.dbActive
    && r.recycleOk + r.missingRecycleCount == r.dbRecycled
    && r.diskAfter + (if r.repaired then r.orphansRemovedCount else 0) == r.diskBefore
    && |r.missingActive| <= CAP && |r.missingRecycle| <= CAP && |r.orphansRemoved| <= CAP
  }

  /** The rows part of a report agrees with the classification of the disk as it was. */
  ghost predicate Reports(files: seq<DbFile>, disk: set<string>, r: Report) {
    && r.dbRows == |files| && r.dbActive == Rows(files, false) && r.dbRecycled == Rows(files, true)
    && r.diskBefore == |disk|
    && r.activeOk == |Paths(files, false, disk, true)| && r.recycleOk == |Paths(files, true, disk, true)|
    && r.missingActiveCount == |Paths(files, false, disk, false)| && r.missingRecycleCount == |Paths(files, true, disk, false)|
    && Shows(r.missingActive, Paths(files, false, disk, false)) && Shows(r.missingRecycle, Paths(files, true, disk, false))
  }

  /** The first entries, in order, of all of these. */
  ghost predicate Shows(shown: seq<string>, all: seq<string>) {
    exists full :: Ordered(full) && multiset(full) == multiset(all) && shown == if |full| > 50 then full[..50] else full
  }

  /** The first members, in order, of this set. */
  ghost predicate ShowsSet(shown: seq<string>, all: set<string>) {
    exists full :: Sorted(full) && (forall p :: p in full <==> p in all) && shown == if |full| > 50 then full[..50] else full
  }

  lemma FindingsCount(files: seq<DbFile>, disk: set<string>, f: Findings)
    requires Classifies(files, disk, f)
    ensures |f.missingActive| == |Paths(files, false, disk, false)| && |f.missingRecycle| == |Paths(files, true, disk, false)|
    ensures Shows(Capped(f.missingActive, CAP).0, Paths(files, false, disk, false))
    ensures Shows(Capped(f.missingRecycle, CAP).0, Paths(files, true, disk, false))
  {
    assert |multiset(f.missingActive)| == |f.missingActive| && |multiset(f.missingRecycle)| == |f.missingRecycle|;
  }

  lemma OrphansShown(orphans: seq<string>, all: set<string>)
    requires Sorted(orphans) && forall p :: p in orphans <==> p in all
    ensures |orphans| == |all| && ShowsSet(Capped(orphans, CAP).0, all)
  {
    SortedSize(orphans, all);
  }

  /** The dry run: what a repair would remove, and nothing changed. */
  method Inspect(rows: seq<(string, bool)>, dir: ObjectsDir) returns (r: Report)
    ensures Reports(DbFiles(rows), dir.Listing(), r) && Conserves(r) && !r.repaired
    ensures r.orphansRemovedCount == |dir.Listing() - Referenced(DbFiles(rows))|
    ensures ShowsSet(r.orphansRemoved, dir.Listing() - Referenced(DbFiles(rows)))
  {
    var db := ListDbFiles(rows);
    var disk := dir.List();
    var f := Classify(db, disk);
    assert Members(disk) == dir.Listing();
    var active := CountActive(db);
    RowsConserved(db, dir.Listing());
    FindingsCount(db, dir.Listing(), f);
    OrphansShown(f.orphans, dir.Listing() - Referenced(db));
    r := Report(|db|, active, |db| - active, |disk|, |disk|, f.activeOk, f.recycleOk, Capped(f.orphans, CAP).0, Capped(f.orphans, CAP).1,
                Capped(f.missingActive, CAP).0, Capped(f.missingActive, CAP).1, Capped(f.missingRecycle, CAP).0,
                Capped(f.missingRecycle, CAP).1, false);
  }

  /** Remove what can be removed of the orphans. */
  method RemoveOrphans(dir: ObjectsDir, orphans: seq<string>, stuck: set<string>) returns (removed: seq<string>)
    requires Sorted(orphans) && forall p :: p in orphans ==> p in dir.Listing()
    modifies dir
    ensures dir.names == old(dir.names) - Removable(orphans, stuck)
    ensures |removed| == |Removable(orphans, stuck)|
    ensures removed == Freed(orphans, stuck)
  {
    removed := [];
    ghost var gone: set<string> := {};
    for i := 0 to |orphans|
      invariant gone == Removable(orphans[..i], stuck) && removed == Freed(orphans[..i], stuck)
      invariant dir.names == old(dir.names) - gone && |removed| == |gone|
    {
      RemovableNext(orphans, i, stuck, old(dir.names));
      FreedNext(orphans, i, stuck);
      var name := NameOf(orphans[i]);
      var ok := dir.Unlink(orphans[i], stuck);
      StillThere(old(dir.names), gone, name);
      if ok {
        removed := removed + [orphans[i]];
        gone := gone + {name};
      }
    }
    assert orphans[..|orphans|] == orphans;
  }

  lemma StillThere(names: set<string>, gone: set<string>, name: string)
    requires name in names && name !in gone
    ensures name in names - gone && names - gone - {name} == names - (gone + {name}) && |gone + {name}| == |gone| + 1
  {
  }

  /** The orphans the file system lets go, in their order. */
  function Freed(orphans: seq<string>, stuck: set<string>): seq<string> {
    if orphans == [] then []
    else
      var p := orphans[|orphans| - 1];
      Freed(orphans[..|orphans| - 1], stuck) + (if "objects/" <= p && NameOf(p) !in stuck then [p] else [])
  }

  lemma FreedNext(orphans: seq<string>, i: nat, stuck: set<string>)
    requires i < |orphans|
    ensures Freed(orphans[..i + 1], stuck) ==
              Freed(orphans[..i], stuck) + (if "objects/" <= orphans[i] && NameOf(orphans[i]) !in stuck then [orphans[i]] else [])
  {
    assert orphans[..i + 1][..i] == orphans[..i];
  }

  lemma SortedAppend(s: seq<string>, x: string)
    requires Sorted(s) && forall k :: 0 <= k < |s| ==> Before(s[k], x)
    ensures Sorted(s + [x])
  {
  }

  lemma {:induction false} FreedMembers(orphans: seq<string>, stuck: set<string>)
    ensures forall p :: p in Freed(orphans, stuck) <==> p in orphans && "objects/" <= p && NameOf(p) !in stuck
  {
    if orphans != [] {
      FreedMembers(orphans[..|orphans| - 1], stuck);
      assert orphans == orphans[..|orphans| - 1] + [orphans[|orphans| - 1]];
    }
  }

  lemma {:induction false} FreedSorted(orphans: seq<string>, stuck: set<string>)
    requires Sorted(orphans)
    ensures Sorted(Freed(orphans, stuck))
  {
    if orphans != [] {
      var init, last := orphans[..|orphans| - 1], orphans[|orphans| - 1];
      FreedSorted(init, stuck);
      FreedMembers(init, stuck);
      var some := Freed(init, stuck);
      forall k | 0 <= k < |some| ensures Before(some[k], last) {
        assert some[k] in init;
        var j :| 0 <= j < |init| && init[j] == some[k];
        assert Before(orphans[j], orphans[|orphans| - 1]);
      }
      SortedAppend(some, last);
      assert some + [] == some;
    }
  }

  /** What was removed is shown: the unreferenced files that were let go. */
  lemma FreedShown(orphans: seq<string>, names: set<string>, files: seq<DbFile>, stuck: set<string>)
    requires Sorted(orphans) && forall p :: p in orphans <==> p in Listed(names) && p !in Referenced(files)
    ensures ShowsSet(Capped(Freed(orphans, stuck), CAP).0, Listed(Unreferenced(names, files, stuck)))
  {
    FreedMembers(orphans, stuck);
    FreedSorted(orphans, stuck);
    forall p ensures p in Freed(orphans, stuck) <==> p in Listed(Unreferenced(names, files, stuck)) {
      if p in orphans {
        var name :| name in names && Visible(name) && OnDisk(name) == p;
        assert NameOf(p) == name;
        ListedIs(Unreferenced(names, files, stuck), name);
      }
      if p in Listed(Unreferenced(names, files, stuck)) {
        var name :| name in Unreferenced(names, files, stuck) && Visible(name) && OnDisk(name) == p;
        assert NameOf(p) == name;
        ListedIs(names, name);
      }
    }
  }

  /** The file names of those orphans the file system lets go. */
  function Removable(orphans: seq<string>, stuck: set<string>): set<string> {
    set p | p in orphans && "objects/" <= p && NameOf(p) !in stuck :: NameOf(p)
  }

  lemma RemovableNext(orphans: seq<string>, i: nat, stuck: set<string>, names: set<string>)
    requires Sorted(orphans) && i < |orphans| && forall p :: p in orphans ==> p in Listed(names)
    ensures "objects/" <= orphans[i] && NameOf(orphans[i]) in names && NameOf(orphans[i]) !in Removable(orphans[..i], stuck)
    ensures Removable(orphans[..i + 1], stuck) ==
              Removable(orphans[..i], stuck) + (if NameOf(orphans[i]) in stuck then {} else {NameOf(orphans[i])})
  {
    assert orphans[i] in orphans;
    var name :| name in names && Visible(name) && OnDisk(name) == orphans[i];
    assert NameOf(orphans[i]) == name;
    assert orphans[..i + 1] == orphans[..i] + [orphans[i]];
    if name in Removable(orphans[..i], stuck) {
      var p :| p in orphans[..i] && "objects/" <= p && NameOf(p) == name;
      assert p == OnDisk(name);
      var k :| 0 <= k < i && orphans[k] == p;
      SortedDistinct(orphans, k, i);
    }
  }

  /** `reconcile`: every visible file no row refers to is removed, unless the file system refuses; nothing else is. */
  method Repair(rows: seq<(string, bool)>, dir: ObjectsDir, stuck: set<string>) returns (r: Report)
    modifies dir
    ensures dir.names == old(dir.names) - Unreferenced(old(dir.names), DbFiles(rows), stuck)
    ensures Reports(DbFiles(rows), Listed(old(dir.names)), r) && Conserves(r) && r.repaired
    ensures r.diskAfter == |dir.Listing()|
    ensures r.orphansRemovedCount == |Unreferenced(old(dir.names), DbFiles(rows), stuck)|
    ensures ShowsSet(r.orphansRemoved, Listed(Unreferenced(old(dir.names), DbFiles(rows), stuck)))
  {
    var db := ListDbFiles(rows);
    ghost var before := dir.names;
    var disk := dir.List();
    var f := Classify(db, disk);
    assert Members(disk) == Listed(before);
    var active := CountActive(db);
    RowsConserved(db, Listed(before));
    FindingsCount(db, Listed(before), f);
    var removed := RemoveOrphans(dir, f.orphans, stuck);
    RemovableIs(f.orphans, before, db, stuck);
    FreedShown(f.orphans, before, db, stuck);
    var after := dir.List();
    ListedMinus(before, Unreferenced(before, db, stuck));
    r := Report(|db|, active, |db| - active, |disk|, |after|, f.activeOk, f.recycleOk, Capped(removed, CAP).0, |removed|,
                Capped(f.missingActive, CAP).0, Capped(f.missingActive, CAP).1, Capped(f.missingRecycle, CAP).0,
                Capped(f.missingRecycle, CAP).1, true);
  }

  /** Visible names that no row refers to and the file system lets go. */
  function Unreferenced(names: set<string>, files: seq<DbFile>, stuck: set<string>): set<string> {
    set name | name in names && Visible(name) && OnDisk(name) !in Referenced(files) && name !in stuck
  }

  lemma RemovableIs(orphans: seq<string>, names: set<string>, files: seq<DbFile>, stuck: set<string>)
    requires forall p :: p in orphans <==> p in Listed(names) && p !in Referenced(files)
    ensures Removable(orphans, stuck) == Unreferenced(names, files, stuck)
  {
    forall name ensures name in Removable(orphans, stuck) <==> name in Unreferenced(names, files, stuck) {
      ListedIs(names, name);
      assert NameOf(OnDisk(name)) == name;
      if name in Removable(orphans, stuck) {
        var p :| p in orphans && "objects/" <= p && NameOf(p) == name && name !in stuck;
        assert p == OnDisk(name);
      }
      if name in Unreferenced(names, files, stuck) { assert OnDisk(name) in orphans; }
    }
  }

  lemma {:induction false} ListedSize(names: set<string>)
    requires forall name :: name in names ==> Visible(name)
    ensures |Listed(names)| == |names|
  {
    if names == {} {
      assert Listed(names) == {};
    } else {
      var name :| name in names;
      ListedSize(names - {name});
      forall p ensures p in Listed(names) <==> p in Listed(names - {name}) + {OnDisk(name)} {
        if p in Listed(names) {
          var other :| other in names && Visible(other) && OnDisk(other) == p;
        }
      }
      ListedIs(names - {name}, name);
      assert Listed(names) == Listed(names - {name}) + {OnDisk(name)};
    }
  }

  lemma ListedMinus(names: set<string>, gone: set<string>)
    requires gone <= names && forall name :: name in gone ==> Visible(name)
    ensures Listed(names - gone) == Listed(names) - Listed(gone)
    ensures |Listed(names - gone)| + |gone| == |Listed(names)|
  {
    forall p ensures p in Listed(names - gone) <==> p in Listed(names) - Listed(gone) {
      if p in Listed(names) {
        var name :| name in names && Visible(name) && OnDisk(name) == p;
        ListedIs(gone, name);
        ListedIs(names - gone, name);
      }
    }
    assert Listed(gone) <= Listed(names);
    ListedSize(gone);
  }
}
