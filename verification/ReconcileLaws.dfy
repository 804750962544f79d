/** What reconciliation guarantees: a repair is idempotent and touches nothing that is referenced, and a normalised
    name resolves to the file the engine opens exactly for well-formed paths. */
module ReconcileLaws {
  import opened Text
  import opened Reconcile
  import PercentEncoding

  // ----- Repair -----

  /** The files left by a repair. */
  function Repaired(names: set<string>, files: seq<DbFile>, stuck: set<string>): set<string> {
    names - Unreferenced(names, files, stuck)
  }

  lemma {:induction false} PathsSame(files: seq<DbFile>, all: seq<DbFile>, before: set<string>, after: set<string>)
    requires forall k :: 0 <= k < |files| ==> files[k] in all
    requires forall f :: f in all ==> (f.filepath in before <==> f.filepath in after)
    ensures forall deleted, present :: Paths(files, deleted, before, present) == Paths(files, deleted, after, present)
  {
    if files != [] {
      PathsSame(files[..|files| - 1], all, before, after);
      assert files[|files| - 1] in all;
    }
  }

  lemma ReferencedStays(names: set<string>, files: seq<DbFile>, stuck: set<string>, p: string)
    requires p in Referenced(files)
    ensures p in Listed(names) <==> p in Listed(Repaired(names, files, stuck))
  {
    if p in Listed(names) {
      var name :| name in names && Visible(name) && OnDisk(name) == p;
      ListedIs(Repaired(names, files, stuck), name);
    }
  }

  /** A repair changes no row's verdict: the same rows are present and missing after it, whatever it could not unlink. */
  lemma RepairKeepsVerdicts(names: set<string>, files: seq<DbFile>, stuck: set<string>)
    ensures forall deleted, present :: Paths(files, deleted, Listed(names), present) == Paths(files, deleted, Listed(Repaired(names, files, stuck)), present)
  {
    forall f | f in files ensures f.filepath in Listed(names) <==> f.filepath in Listed(Repaired(names, files, stuck)) {
      ReferencedStays(names, files, stuck, f.filepath);
    }
    PathsSame(files, files, Listed(names), Listed(Repaired(names, files, stuck)));
  }

  /** When every unlink succeeds, what is visible afterwards is exactly what was visible and referenced, and a second
      repair removes nothing. Hidden files are never touched. */
  lemma RepairIsIdempotent(names: set<string>, files: seq<DbFile>)
    ensures Listed(Repaired(names, files, {})) == Listed(names) * Referenced(files)
    ensures Unreferenced(Repaired(names, files, {}), files, {}) == {}
    ensures Repaired(Repaired(names, files, {}), files, {}) == Repaired(names, files, {})
    ensures forall name :: name in names && !Visible(name) ==> name in Repaired(names, files, {})
  {
    var after := Repaired(names, files, {});
    forall p ensures p in Listed(after) <==> p in Listed(names) * Referenced(files) {
      if p in Listed(names) {
        var name :| name in names && Visible(name) && OnDisk(name) == p;
        ListedIs(after, name);
      }
    }
  }

  // ----- Names -----

  /** A path as the file system resolves it below the storage root: empty and "." components do nothing. */
  datatype Place = Place(absolute: bool, parts: seq<string>)

  function Significant(parts: seq<string>): seq<string> {
    if parts == [] then []
    else (if parts[0] == "" || parts[0] == "." then [] else [parts[0]]) + Significant(parts[1..])
  }

  function Resolve(path: string): Place {
    Place("/" <= path, Significant(Split(path, '/')))
  }

  lemma {:induction false} SignificantAdd(a: seq<string>, b: seq<string>)
    ensures Significant(a + b) == Significant(a) + Significant(b)
  {
    if a == [] {
      assert a + b == b;
    } else {
      assert (a + b)[1..] == a[1..] + b;
      SignificantAdd(a[1..], b);
    }
  }

  lemma {:induction false} StripDotsParts(s: string)
    ensures Resolve(s).parts == Resolve(StripDots(s)).parts
    decreases |s|
  {
    if "./" <= s {
      StripDotsParts(s[2..]);
      assert s == "." + ['/'] + s[2..];
      SplitJoin(".", '/', s[2..]);
      SplitPlain(".", '/');
      SignificantAdd(["."], Split(s[2..], '/'));
      assert ["."][1..] == [];
    }
  }

  lemma ObjectsParts(name: string)
    ensures Resolve("objects/" + name).parts == ["objects"] + Resolve(name).parts
  {
    assert "objects/" + name == "objects" + ['/'] + name;
    SplitJoin("objects", '/', name);
    SplitPlain("objects", '/');
    SignificantAdd(["objects"], Split(name, '/'));
    assert ["objects"][1..] == [];
  }

  function PartSpaces(parts: seq<string>): nat {
    if parts == [] then 0 else Spaces(parts[0]) + PartSpaces(parts[1..])
  }

  lemma {:induction false} SplitSpaces(s: string)
    ensures PartSpaces(Split(s, '/')) == Spaces(s)
  {
    if s == "" {
      assert [""][1..] == [];
    } else {
      SplitSpaces(s[1..]);
      var rest := Split(s[1..], '/');
      if s[0] == '/' {
        assert ([""] + rest)[1..] == rest;
      } else {
        assert [s[0]][1..] == "";
        SpacesAdd([s[0]], rest[0]);
        assert ([[s[0]] + rest[0]] + rest[1..])[1..] == rest[1..];
      }
    }
  }

  lemma {:induction false} SignificantSpaces(parts: seq<string>)
    ensures PartSpaces(Significant(parts)) == PartSpaces(parts)
  {
    if parts != [] {
      SignificantSpaces(parts[1..]);
      assert Spaces(".") == 0 by { assert "."[1..] == ""; }
      var rest := Significant(parts[1..]);
      if parts[0] == "" || parts[0] == "." {
        assert Significant(parts) == [] + rest == rest;
      } else {
        assert ([parts[0]] + rest)[1..] == rest;
      }
    }
  }

  /** No white space is lost in resolving. */
  lemma ResolveSpaces(path: string)
    ensures PartSpaces(Resolve(path).parts) == Spaces(path)
  {
    SplitSpaces(path);
    SignificantSpaces(Split(path, '/'));
  }

  lemma {:induction false} StripDotsSpaces(s: string)
    ensures Spaces(StripDots(s)) == Spaces(s)
    decreases |s|
  {
    if "./" <= s {
      StripDotsSpaces(s[2..]);
      assert s == "./" + s[2..];
      SpacesAdd("./", s[2..]);
      assert Spaces("./") == 0 by { assert "./"[1..] == "/" && "/"[1..] == ""; }
    }
  }

  lemma ObjectsSpaces(name: string)
    ensures Spaces("objects/" + name) == Spaces(name)
  {
    SpacesAdd("objects/", name);
    assert Spaces("objects/") == 0 by {
      assert "objects/"[1..] == "bjects/" && "bjects/"[1..] == "jects/" && "jects/"[1..] == "ects/" && "ects/"[1..] == "cts/";
      assert "cts/"[1..] == "ts/" && "ts/"[1..] == "s/" && "s/"[1..] == "/" && "/"[1..] == "";
    }
  }

  lemma UntrimmedDiffers(filepath: string)
    requires Trim(filepath) != filepath
    ensures Resolve(Normalize(filepath)) != Resolve(EnginePath(filepath))
  {
    TrimSpaces(filepath);
    StripDotsSpaces(Trim(filepath));
    ObjectsSpaces(StripDots(Trim(filepath)));
    ObjectsSpaces(filepath);
    ResolveSpaces(Normalize(filepath));
    ResolveSpaces(EnginePath(filepath));
  }

  /** A path the reconciler reads as the engine does: no white space at the ends, and stripping leading "./" leaves it
      alone or leaves a relative path with a directory in it. */
  predicate WellFormed(filepath: string) {
    var rest := StripDots(filepath);
    Trim(filepath) == filepath && (rest == filepath || ('/' in rest && rest[0] != '/'))
  }

  lemma UnstrippedAgrees(filepath: string)
    requires StripDots(filepath) == filepath && Trim(filepath) == filepath
    ensures Normalize(filepath) == EnginePath(filepath)
  {
  }

  lemma StrippedHasSlash(filepath: string)
    requires StripDots(filepath) != filepath
    ensures '/' in filepath && filepath[0] == '.'
  {
    assert filepath[1] == '/';
  }

  lemma StrippedAgreement(filepath: string)
    requires StripDots(filepath) != filepath && Trim(filepath) == filepath
    ensures var rest := StripDots(filepath);
      Resolve(Normalize(filepath)) == Resolve(EnginePath(filepath)) <==> '/' in rest && rest[0] != '/'
  {
    var rest := StripDots(filepath);
    StrippedHasSlash(filepath);
    StripDotsParts(filepath);
    assert EnginePath(filepath) == filepath && !Resolve(filepath).absolute;
    assert "objects/" <= rest ==> rest[7] == '/';
    if '/' in rest {
      assert Normalize(filepath) == rest;
    } else {
      assert Normalize(filepath) == "objects/" + rest;
      ObjectsParts(rest);
      assert |Resolve("objects/" + rest).parts| == |Resolve(rest).parts| + 1;
    }
  }

  /** The normalised name resolves to the file the engine opens exactly for well-formed paths. */
  lemma NormalizeResolvesExactly(filepath: string)
    ensures Resolve(Normalize(filepath)) == Resolve(EnginePath(filepath)) <==> WellFormed(filepath)
  {
    if Trim(filepath) != filepath {
      UntrimmedDiffers(filepath);
    } else if StripDots(filepath) == filepath {
      UnstrippedAgrees(filepath);
    } else {
      StrippedAgreement(filepath);
    }
  }

  // ----- A row's own file -----

  /** The engine opens the file `name` directly under `objects/` for a row with this path. */
  predicate Opens(filepath: string, name: string) {
    Resolve(EnginePath(filepath)) == Resolve(OnDisk(name))
  }

  /** No white space at the ends, and after any leading "./" no empty, "." or ".." component. */
  predicate Tidy(filepath: string) {
    Trim(filepath) == filepath && Plain(Split(StripDots(filepath), '/'))
  }

  predicate Plain(parts: seq<string>) {
    forall k :: 0 <= k < |parts| ==> parts[k] != "" && parts[k] != "." && parts[k] != ".."
  }

  lemma {:induction false} PlainIsSignificant(parts: seq<string>)
    requires Plain(parts)
    ensures Significant(parts) == parts
  {
    if parts != [] { PlainIsSignificant(parts[1..]); }
  }

  lemma NameParts(name: string)
    requires Visible(name)
    ensures Split(name, '/') == [name] && Split(OnDisk(name), '/') == ["objects", name]
    ensures Plain([name]) && Plain(["objects", name])
    ensures Resolve(OnDisk(name)) == Place(false, ["objects", name])
  {
    SplitPlain(name, '/');
    assert OnDisk(name) == "objects" + ['/'] + name;
    SplitJoin("objects", '/', name);
    SplitPlain("objects", '/');
    PlainName(name);
    PlainName("objects");
    PlainIsSignificant(["objects", name]);
    assert OnDisk(name)[0] == 'o';
  }

  lemma PlainName(name: string)
    requires Visible(name)
    ensures name != "" && name != "." && name != ".."
  {
  }

  /** A normalised path is the file's name on disk exactly when what is left of it is one of two texts. */
  lemma RecognisedAs(filepath: string, name: string)
    requires Visible(name)
    ensures Normalize(filepath) == OnDisk(name) <==>
              StripDots(Trim(filepath)) == name || StripDots(Trim(filepath)) == OnDisk(name)
  {
    var rest := StripDots(Trim(filepath));
    assert OnDisk(name)[7] == '/';
    if Normalize(filepath) == OnDisk(name) && rest != OnDisk(name) {
      assert rest == ("objects/" + rest)[8..] && name == ("objects/" + name)[8..];
    }
  }

  lemma RecognisedIsTidy(filepath: string, name: string)
    requires Visible(name) && Opens(filepath, name) && Normalize(filepath) == OnDisk(name)
    ensures Tidy(filepath)
  {
    if Trim(filepath) != filepath { UntrimmedDiffers(filepath); }
    NameParts(name);
    RecognisedAs(filepath, name);
  }

  lemma SamePieces(a: string, b: string)
    requires Split(a, '/') == Split(b, '/')
    ensures a == b
  {
    PercentEncoding.SplitThenJoin(a);
    PercentEncoding.SplitThenJoin(b);
  }

  lemma TidyPathIsOnDisk(filepath: string, name: string)
    requires Visible(name) && Opens(filepath, name) && Plain(Split(StripDots(filepath), '/')) && '/' in filepath
    ensures StripDots(filepath) == OnDisk(name)
  {
    NameParts(name);
    PlainIsSignificant(Split(StripDots(filepath), '/'));
    StripDotsParts(filepath);
    SamePieces(StripDots(filepath), OnDisk(name));
  }

  lemma HasSlash(filepath: string)
    requires "objects/" <= filepath
    ensures '/' in filepath
  {
    assert filepath[7] == '/';
  }

  lemma TidyNameIsName(filepath: string, name: string)
    requires Visible(name) && Opens(filepath, name) && Plain(Split(filepath, '/')) && '/' !in filepath
    ensures filepath == name
  {
    NameParts(name);
    PlainIsSignificant(Split(filepath, '/'));
    ObjectsParts(filepath);
    if "objects/" <= filepath { HasSlash(filepath); }
    assert Split(filepath, '/') == ["objects", name][1..] == [name] == Split(name, '/');
    SamePieces(filepath, name);
  }

  lemma TidyIsRecognised(filepath: string, name: string)
    requires Visible(name) && Opens(filepath, name) && Tidy(filepath)
    ensures Normalize(filepath) == OnDisk(name)
  {
    RecognisedAs(filepath, name);
    if '/' in filepath {
      TidyPathIsOnDisk(filepath, name);
    } else {
      assert StripDots(filepath) == filepath by { if StripDots(filepath) != filepath { StrippedHasSlash(filepath); } }
      TidyNameIsName(filepath, name);
    }
  }

  /** The repair takes a file that the engine opens for a row for that row's own file exactly when the stored path has no
      white space at its ends and, after leading "./", no component that the file system skips or climbs by. */
  lemma FileIsRecognisedExactly(filepath: string, name: string)
    requires Visible(name) && Opens(filepath, name)
    ensures Normalize(filepath) == OnDisk(name) <==> Tidy(filepath)
  {
    if Normalize(filepath) == OnDisk(name) { RecognisedIsTidy(filepath, name); }
    if Tidy(filepath) { TidyIsRecognised(filepath, name); }
  }

  /** A path that climbs by ".." is never taken for a file, whatever it opens. */
  lemma ClimbingIsNeverRecognised(filepath: string, name: string)
    requires Visible(name) && ".." in Split(StripDots(Trim(filepath)), '/')
    ensures Normalize(filepath) != OnDisk(name)
  {
    NameParts(name);
    RecognisedAs(filepath, name);
  }

  lemma ReferencedByRow(rows: seq<(string, bool)>, k: nat)
    requires k < |rows|
    ensures Normalize(rows[k].0) in Referenced(DbFiles(rows))
  {
    assert DbFiles(rows)[k].filepath == Normalize(rows[k].0);
  }

  /** A repair never removes a file the engine opens for a row with a tidy path, whatever the other rows are. */
  lemma RepairKeepsOpenedFiles(names: set<string>, rows: seq<(string, bool)>, stuck: set<string>, k: nat, name: string)
    requires k < |rows| && Visible(name) && name in names && Opens(rows[k].0, name) && Tidy(rows[k].0)
    ensures name in Repaired(names, DbFiles(rows), stuck)
  {
    FileIsRecognisedExactly(rows[k].0, name);
    ReferencedByRow(rows, k);
  }

  /** And when no other row is taken for it, it keeps the file exactly when the path is tidy or the unlink fails. */
  lemma RepairKeepsOwnFileExactly(names: set<string>, rows: seq<(string, bool)>, stuck: set<string>, k: nat, name: string)
    requires k < |rows| && Visible(name) && name in names && Opens(rows[k].0, name)
    requires forall j :: 0 <= j < |rows| && j != k ==> Normalize(rows[j].0) != OnDisk(name)
    ensures name in Repaired(names, DbFiles(rows), stuck) <==> Tidy(rows[k].0) || name in stuck
  {
    FileIsRecognisedExactly(rows[k].0, name);
    ReferencedByRow(rows, k);
    assert forall j :: 0 <= j < |rows| ==> DbFiles(rows)[j].filepath == Normalize(rows[j].0);
  }
}
