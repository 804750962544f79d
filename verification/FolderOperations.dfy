/** Folder and recycle-bin operations on a running node. */
module FolderOperations {
  import opened Basics
  import opened Store
  import opened Rename
  import opened NodeServers

  /** The new keys of the renames collected so far. */
  ghost predicate Collected(objects: map<nat, Row>, bucket: nat, from: string, to: string, left: set<nat>, renames: map<nat, string>) {
    && renames.Keys == (set i | i in RenameRows(objects, bucket, from) && i !in left)
    && (forall i :: i in renames ==> i in objects && from <= objects[i].key && renames[i] == Rebase(objects[i].key, from, to))
    && (forall i, j :: i in renames && j in objects ==> !Serves(objects[j], bucket, renames[i]))
  }

  /** The first loop: strip the prefix of every row the query returned, and stop at the first conflict. */
  method CollectRenames(s: NodeServer, bucket: nat, from: string, to: string) returns (renames: map<nat, string>, ok: bool)
    ensures ok <==> !RenameBlocked(s.objects, bucket, from, to)
    ensures ok ==> Collected(s.objects, bucket, from, to, {}, renames)
  {
    var left := LikeRows(s.objects, bucket, from);
    renames := map[];
    while left != {}
      invariant left <= LikeRows(s.objects, bucket, from)
      invariant Collected(s.objects, bucket, from, to, left, renames)
      decreases |left|
    {
      var i :| i in left;
      var key := s.objects[i].key;
      left := left - {i};
      if from <= key {
        var target := Rebase(key, from, to);
        if j :| j in s.objects && Serves(s.objects[j], bucket, target) {
          assert i in RenameRows(s.objects, bucket, from);
          return renames, false;
        }
        renames := renames[i := target];
      }
    }
    assert RenameRows(s.objects, bucket, from) == (set i | i in RenameRows(s.objects, bucket, from) && i !in left);
    ok := true;
  }

  lemma OneMoreRename(before: map<nat, Row>, done: set<nat>, i: nat, from: string, to: string, now: int)
    requires i !in done && forall j :: j in done + {i} ==> j in before && from <= before[j].key
    ensures var objects := RenameSome(before, done, from, to, now);
      RenameSome(before, done + {i}, from, to, now) == objects[i := objects[i].(key := Rebase(before[i].key, from, to), modified := now)]
  {
  }

  /** The table once the rows `done` have been rewritten. */
  ghost predicate RenamedSoFar(before: map<nat, Row>, after: map<nat, Row>, bucket: nat, from: string, to: string, now: int, done: set<nat>) {
    done <= RenameRows(before, bucket, from) && after == RenameSome(before, done, from, to, now)
  }

  lemma MoveOne(left: set<nat>, done: set<nat>, i: nat)
    requires left !! done && i in left
    ensures i in left + done && i !in done && left - {i} !! done + {i} && (left - {i}) + (done + {i}) == left + done
    ensures |left - {i}| < |left|
  {
  }

  lemma NothingRenamed(before: map<nat, Row>, bucket: nat, from: string, to: string, now: int)
    ensures RenamedSoFar(before, before, bucket, from, to, now, {})
  {
  }

  /** One UPDATE of the second loop; `done` are the rows rewritten before it. The unique index accepts it. */
  method UpdateKey(s: NodeServer, i: nat, key: string, ghost before: map<nat, Row>, ghost bucket: nat, ghost from: string, ghost to: string,
                   now: int, ghost done: set<nat>)
    requires UniqueKeys(before) && UniquePaths(before) && !RenameBlocked(before, bucket, from, to)
    requires i !in done && i in RenameRows(before, bucket, from) && key == Rebase(before[i].key, from, to)
    requires RenamedSoFar(before, s.objects, bucket, from, to, now, done)
    modifies s`objects
    ensures RenamedSoFar(before, s.objects, bucket, from, to, now, done + {i}) && UniqueKeys(s.objects)
  {
    OneMoreRename(before, done, i, from, to, now);
    PartialRenameIsSafe(before, bucket, from, to, now, done + {i});
    s.objects := s.objects[i := s.objects[i].(key := key, modified := now)];
  }

  /** The second loop: one UPDATE per rename, in any order; the unique index holds after every one of them. */
  method ApplyRenames(s: NodeServer, bucket: nat, from: string, to: string, renames: map<nat, string>, now: int)
    requires UniqueKeys(s.objects) && UniquePaths(s.objects) && !RenameBlocked(s.objects, bucket, from, to)
    requires renames.Keys == RenameRows(s.objects, bucket, from)
    requires forall i :: i in renames ==> renames[i] == Rebase(s.objects[i].key, from, to)
    modifies s`objects
    ensures RenamedSoFar(old(s.objects), s.objects, bucket, from, to, now, renames.Keys)
  {
    ghost var before := s.objects;
    ghost var all, done: set<nat> := renames.Keys, {};
    var left := renames.Keys;
    NothingRenamed(before, bucket, from, to, now);
    while left != {}
      invariant left !! done
      invariant left + done == all
      invariant RenamedSoFar(before, s.objects, bucket, from, to, now, done)
      invariant UniqueKeys(s.objects)
      decreases |left|
    {
      var i :| i in left;
      MoveOne(left, done, i);
      UpdateKey(s, i, renames[i], before, bucket, from, to, now, done);
      left, done := left - {i}, done + {i};
    }
    assert done == all;
  }

  /** `rename_prefix`. */
  method RenamePrefix(s: NodeServer, bucket: nat, from: string, to: string, now: int) returns (outcome: RenameOutcome)
    requires Sound(s.State())
    modifies s`objects
    ensures s.State() == Store.RenamePrefix(old(s.State()), bucket, from, to, now).0
    ensures outcome == Store.RenamePrefix(old(s.State()), bucket, from, to, now).1
  {
    if from == to { return Renamed(0); }
    if LikeRows(s.objects, bucket, from) == {} { return FolderEmpty; }
    var renames, ok := CollectRenames(s, bucket, from, to);
    if !ok { return TargetExists; }
    assert renames.Keys == RenameRows(s.objects, bucket, from);
    ApplyRenames(s, bucket, from, to, renames, now);
    outcome := Renamed(|renames.Keys|);
  }

  /** `soft_delete_prefix`: one UPDATE over the rows LIKE selects. */
  method SoftDeletePrefix(s: NodeServer, bucket: nat, prefix: string, now: int) returns (affected: nat)
    modifies s`objects
    ensures s.State() == Store.SoftDeletePrefix(old(s.State()), bucket, prefix, now)
    ensures affected == |LikeRows(old(s.objects), bucket, prefix)|
  {
    ghost var before := s.objects;
    var hit := LikeRows(s.objects, bucket, prefix);
    var left := hit;
    affected := 0;
    while left != {}
      invariant left <= hit && affected + |left| == |hit|
      invariant s.objects == map i | i in before ::
                  if i in hit && i !in left then before[i].(deletedAt := Some(now), modified := now) else before[i]
      decreases |left|
    {
      var i :| i in left;
      s.objects := s.objects[i := s.objects[i].(deletedAt := Some(now), modified := now)];
      left := left - {i};
      affected := affected + 1;
    }
  }

  /** An active row has the key, in this bucket when one is named. */
  ghost predicate HasKey(objects: map<nat, Row>, key: string, bucket: Option<nat>) {
    exists i :: i in objects && objects[i].deletedAt == None && objects[i].key == key && (bucket.Some? ==> objects[i].bucket == bucket.value)
  }

  /** `soft_delete_object_by_filename`: find an active row by its key, in one bucket or in any, and recycle it. Nothing to
      delete is no error. */
  method SoftDeleteObject(s: NodeServer, key: string, bucket: Option<nat>, now: int) returns (found: Option<nat>)
    modifies s`objects
    ensures found.None? ==> s.State() == old(s.State()) && !HasKey(old(s.objects), key, bucket)
    ensures found.Some? ==>
              && found.value in old(s.objects)
              && var r := old(s.objects)[found.value];
                 && r.deletedAt == None && r.key == key && (bucket.Some? ==> r.bucket == bucket.value)
                 && s.objects == old(s.objects)[found.value := r.(deletedAt := Some(now), modified := now)]
                 && s.State() == SoftDelete(old(s.State()), found.value, now)
  {
    if i :| i in s.objects && Active(s.objects[i]) && s.objects[i].key == key && (bucket.Some? ==> s.objects[i].bucket == bucket.value) {
      s.objects := s.objects[i := s.objects[i].(deletedAt := Some(now), modified := now)];
      found := Some(i);
    } else {
      found := None;
    }
  }

  /** `restore_object`: refused when another active row holds the key. */
  method RestoreObject(s: NodeServer, id: nat, now: int) returns (outcome: RestoreOutcome)
    requires Sound(s.State())
    modifies s`objects
    ensures s.State() == Restore(old(s.State()), id, now).0
    ensures outcome == Restore(old(s.State()), id, now).1
  {
    if id !in s.objects { return RestoreOutcome.NotFound; }
    var record := s.objects[id];
    if record.deletedAt.None? { return NotRecycled; }
    var conflict := s.ActiveRow(record.bucket, record.key);
    if conflict.Some? { return KeyInUse; }
    s.objects := s.objects[id := record.(deletedAt := None, modified := now)];
    outcome := Restored;
  }
}
