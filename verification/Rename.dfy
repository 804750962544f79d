/** Folder rename: exact, safe at every intermediate row, and undone by its reverse exactly when
    nothing else lived under the target. */
module Rename {
  import opened Basics
  import opened LikePatterns
  import opened Store

  /** `strip_prefix` after LIKE leaves exactly the active keys of the bucket that begin with the prefix. */
  lemma RenameRowsExact(objects: map<nat, Row>, bucket: nat, from: string)
    ensures forall i :: i in RenameRows(objects, bucket, from) <==>
              i in objects && Active(objects[i]) && objects[i].bucket == bucket && from <= objects[i].key
  {
    forall i | i in objects && Active(objects[i]) && objects[i].bucket == bucket && from <= objects[i].key
      ensures i in RenameRows(objects, bucket, from)
    {
      ExactPrefixAfterFilter(from, objects[i].key);
    }
  }

  /** Whatever subset of the rows has been rewritten so far, no two active rows share a key:
      the unique index accepts every single UPDATE of the loop, in any order. */
  lemma PartialRenameIsSafe(objects: map<nat, Row>, bucket: nat, from: string, to: string, now: int, done: set<nat>)
    requires UniqueKeys(objects) && UniquePaths(objects)
    requires !RenameBlocked(objects, bucket, from, to)
    requires done <= RenameRows(objects, bucket, from)
    ensures UniqueKeys(RenameSome(objects, done, from, to, now))
    ensures UniquePaths(RenameSome(objects, done, from, to, now))
  {
    var after := RenameSome(objects, done, from, to, now);
    RenameRowsExact(objects, bucket, from);
    forall i, j | i in after && j in after && Active(after[i]) && Active(after[j]) &&
        after[i].bucket == after[j].bucket && after[i].key == after[j].key
      ensures i == j
    {
      if i in done && j in done {
        assert objects[i].key == from + objects[i].key[|from|..];
        assert objects[j].key == from + objects[j].key[|from|..];
        assert after[i].key[|to|..] == objects[i].key[|from|..];
        assert after[j].key[|to|..] == objects[j].key[|from|..];
      }
    }
  }

  function ActiveKeys(objects: map<nat, Row>, bucket: nat): set<string> {
    set i | i in objects && Active(objects[i]) && objects[i].bucket == bucket :: objects[i].key
  }

  function Substitute(key: string, from: string, to: string): string {
    if from <= key then Rebase(key, from, to) else key
  }

  function RenamedKey(r: Row, bucket: nat, from: string, to: string): string {
    if Active(r) && r.bucket == bucket then Substitute(r.key, from, to) else r.key
  }

  /** A row that kept everything but its key and modification time. */
  ghost predicate SameButKey(a: Row, b: Row) {
    b.(key := a.key, modified := a.modified) == a
  }

  /** What a rename makes of a row: an active row of the bucket under `from` gets a new key and time. */
  function RenamedRow(r: Row, bucket: nat, from: string, to: string, now: int): Row {
    if r.deletedAt == None && r.bucket == bucket && from <= r.key then r.(key := to + r.key[|from|..], modified := now) else r
  }

  /** On success the bucket's active keys are the old ones with the prefix substituted, ids and all other
      columns stay, and the count is the number of active keys that began with the prefix. */
  lemma RenameIsExact(n: Node, bucket: nat, from: string, to: string, now: int)
    requires Sound(n) && from != to && RenamePrefix(n, bucket, from, to, now).1.Renamed?
    ensures var (m, outcome) := RenamePrefix(n, bucket, from, to, now);
      && m == n.(objects := m.objects)
      && m.objects.Keys == n.objects.Keys
      && (forall i :: i in n.objects ==> SameButKey(n.objects[i], m.objects[i]))
      && (forall i :: i in n.objects ==> m.objects[i].key == RenamedKey(n.objects[i], bucket, from, to))
      && (forall i :: i in n.objects ==> m.objects[i] == RenamedRow(n.objects[i], bucket, from, to, now))
      && ActiveKeys(m.objects, bucket) == (set k | k in ActiveKeys(n.objects, bucket) :: Substitute(k, from, to))
      && outcome.count == |set i | i in n.objects && Active(n.objects[i]) && n.objects[i].bucket == bucket && from <= n.objects[i].key|
      && Sound(m)
  {
    var ids := RenameRows(n.objects, bucket, from);
    RenameRowsExact(n.objects, bucket, from);
    assert ids == set i | i in n.objects && Active(n.objects[i]) && n.objects[i].bucket == bucket && from <= n.objects[i].key;
    PartialRenameIsSafe(n.objects, bucket, from, to, now, ids);
    RenamedKeySet(n.objects, bucket, from, to, now);
    RenamedRows(n.objects, bucket, from, to, now);
  }

  lemma RenamedRows(objects: map<nat, Row>, bucket: nat, from: string, to: string, now: int)
    ensures var after := RenameSome(objects, RenameRows(objects, bucket, from), from, to, now);
      && after.Keys == objects.Keys
      && (forall i :: i in objects ==> SameButKey(objects[i], after[i]) && after[i].key == RenamedKey(objects[i], bucket, from, to))
  {
    RenameRowsExact(objects, bucket, from);
  }

  lemma RenamedKeySet(objects: map<nat, Row>, bucket: nat, from: string, to: string, now: int)
    ensures ActiveKeys(RenameSome(objects, RenameRows(objects, bucket, from), from, to, now), bucket) ==
            (set k | k in ActiveKeys(objects, bucket) :: Substitute(k, from, to))
  {
    var after := RenameSome(objects, RenameRows(objects, bucket, from), from, to, now);
    RenameRowsExact(objects, bucket, from);
    forall k ensures k in ActiveKeys(after, bucket) <==> k in (set k | k in ActiveKeys(objects, bucket) :: Substitute(k, from, to)) {
      if k in ActiveKeys(after, bucket) {
        var i :| i in after && Active(after[i]) && after[i].bucket == bucket && after[i].key == k;
        assert objects[i].key in ActiveKeys(objects, bucket);
        assert k == Substitute(objects[i].key, from, to);
      }
      if k in (set k | k in ActiveKeys(objects, bucket) :: Substitute(k, from, to)) {
        var k0 :| k0 in ActiveKeys(objects, bucket) && k == Substitute(k0, from, to);
        var i :| i in objects && Active(objects[i]) && objects[i].bucket == bucket && objects[i].key == k0;
        assert i in after && after[i].key == k;
      }
    }
  }

  /** Some active key would move onto another active key of the bucket. */
  predicate Collides(keys: set<string>, from: string, to: string) {
    exists k :: k in keys && from <= k && Rebase(k, from, to) in keys
  }

  lemma BlockedMeansCollides(objects: map<nat, Row>, bucket: nat, from: string, to: string)
    ensures RenameBlocked(objects, bucket, from, to) <==> Collides(ActiveKeys(objects, bucket), from, to)
  {
    RenameRowsExact(objects, bucket, from);
    var keys := ActiveKeys(objects, bucket);
    if Collides(keys, from, to) {
      var k :| k in keys && from <= k && Rebase(k, from, to) in keys;
      var i :| i in objects && Active(objects[i]) && objects[i].bucket == bucket && objects[i].key == k;
      var j :| j in objects && Active(objects[j]) && objects[j].bucket == bucket && objects[j].key == Rebase(k, from, to);
      assert i in RenameRows(objects, bucket, from) && Serves(objects[j], bucket, Rebase(objects[i].key, from, to));
    }
    if RenameBlocked(objects, bucket, from, to) {
      var i, j :| i in RenameRows(objects, bucket, from) && j in objects &&
        Serves(objects[j], bucket, Rebase(objects[i].key, from, to));
      assert objects[i].key in keys;
    }
  }

  lemma LikeRowsMean(objects: map<nat, Row>, bucket: nat, prefix: string)
    ensures forall i :: i in LikeRows(objects, bucket, prefix) <==>
              i in objects && Active(objects[i]) && objects[i].bucket == bucket && FoldedPrefix(prefix, objects[i].key)
  {
    forall i | i in objects
      ensures Like(PrefixPattern(prefix), objects[i].key) <==> FoldedPrefix(prefix, objects[i].key)
    {
      PrefixPatternSelects(prefix, objects[i].key);
    }
  }

  lemma EmptyMeansNoKey(objects: map<nat, Row>, bucket: nat, prefix: string)
    ensures LikeRows(objects, bucket, prefix) == {} <==>
              forall k :: k in ActiveKeys(objects, bucket) ==> !FoldedPrefix(prefix, k)
  {
    LikeRowsMean(objects, bucket, prefix);
    if LikeRows(objects, bucket, prefix) != {} {
      var i :| i in LikeRows(objects, bucket, prefix);
      assert objects[i].key in ActiveKeys(objects, bucket);
    }
  }

  /** A rename that reports a conflict, or an empty folder, changes nothing and reports it truthfully:
      emptiness is judged up to ASCII case, conflicts on exact keys. A rename to the same name is never refused, and
      moves nothing. */
  lemma RenameRefusals(n: Node, bucket: nat, from: string, to: string, now: int)
    ensures var (m, outcome) := RenamePrefix(n, bucket, from, to, now);
      && (!outcome.Renamed? ==> m == n)
      && (from == to ==> m == n && outcome == Renamed(0))
      && (outcome.FolderEmpty? <==> from != to && forall k :: k in ActiveKeys(n.objects, bucket) ==> !FoldedPrefix(from, k))
      && (outcome.TargetExists? <==> from != to && Collides(ActiveKeys(n.objects, bucket), from, to))
  {
    EmptyMeansNoKey(n.objects, bucket, from);
    BlockedMeansCollides(n.objects, bucket, from, to);
    if RenameBlocked(n.objects, bucket, from, to) {
      var i :| i in RenameRows(n.objects, bucket, from);
      assert i in LikeRows(n.objects, bucket, from);
    }
  }

  /** A rename of a folder that exists only in another case succeeds and moves nothing: for two different names it
      reports success over no rows exactly when no active key begins with `from` but some does up to ASCII case. */
  lemma RenameMovesNothingExactly(n: Node, bucket: nat, from: string, to: string, now: int)
    requires from != to
    ensures var (m, outcome) := RenamePrefix(n, bucket, from, to, now); var keys := ActiveKeys(n.objects, bucket);
      && (outcome == Renamed(0) <==> (forall k :: k in keys ==> !(from <= k)) && exists k :: k in keys && FoldedPrefix(from, k))
      && (outcome == Renamed(0) ==> m == n)
  {
    var keys := ActiveKeys(n.objects, bucket);
    var ids := RenameRows(n.objects, bucket, from);
    RenameRefusals(n, bucket, from, to, now);
    RenameRowsExact(n.objects, bucket, from);
    if ids == {} {
      forall k | k in keys ensures !(from <= k) {
        var i :| i in n.objects && Active(n.objects[i]) && n.objects[i].bucket == bucket && n.objects[i].key == k;
      }
      assert RenameSome(n.objects, ids, from, to, now) == n.objects;
    } else {
      var i :| i in ids;
      assert n.objects[i].key in keys;
    }
  }

  // ----- Round trip -----

  ghost predicate SameKeys(a: map<nat, Row>, b: map<nat, Row>) {
    a.Keys == b.Keys && forall i :: i in a ==> a[i].key == b[i].key
  }

  /** Every active key under `to` is also under `from`. */
  ghost predicate OnlyUnder(objects: map<nat, Row>, bucket: nat, from: string, to: string) {
    forall k :: k in ActiveKeys(objects, bucket) && to <= k ==> from <= k
  }

  lemma ReverseReachesSameRows(objects: map<nat, Row>, bucket: nat, from: string, to: string, now: int)
    requires OnlyUnder(objects, bucket, from, to)
    ensures var moved := RenameRows(objects, bucket, from);
      RenameRows(RenameSome(objects, moved, from, to, now), bucket, to) == moved
  {
    var moved := RenameRows(objects, bucket, from);
    var after := RenameSome(objects, moved, from, to, now);
    RenameRowsExact(objects, bucket, from);
    RenameRowsExact(after, bucket, to);
    assert forall i :: i in objects && Active(objects[i]) && objects[i].bucket == bucket ==> objects[i].key in ActiveKeys(objects, bucket);
  }

  lemma ReverseIsNotBlocked(objects: map<nat, Row>, bucket: nat, from: string, to: string, now: int)
    requires UniqueKeys(objects) && OnlyUnder(objects, bucket, from, to)
    requires !RenameBlocked(objects, bucket, from, to)
    ensures !RenameBlocked(RenameSome(objects, RenameRows(objects, bucket, from), from, to, now), bucket, to, from)
  {
    var moved := RenameRows(objects, bucket, from);
    var after := RenameSome(objects, moved, from, to, now);
    RenameRowsExact(objects, bucket, from);
    ReverseReachesSameRows(objects, bucket, from, to, now);
    forall i, j | i in RenameRows(after, bucket, to) && j in after
      ensures !Serves(after[j], bucket, Rebase(after[i].key, to, from))
    {
      assert Rebase(after[i].key, to, from) == objects[i].key by {
        assert after[i].key[|to|..] == objects[i].key[|from|..];
        assert objects[i].key == from + objects[i].key[|from|..];
      }
      if j in moved {
        assert !Serves(objects[i], bucket, Rebase(objects[j].key, from, to));
      }
    }
  }

  lemma RebaseBack(key: string, from: string, to: string)
    requires from <= key
    ensures to <= Rebase(key, from, to) && Rebase(Rebase(key, from, to), to, from) == key
  {
    assert Rebase(key, from, to)[|to|..] == key[|from|..];
    assert key == from + key[|from|..];
  }

  lemma ReverseRestores(n: Node, bucket: nat, from: string, to: string, t1: int, t2: int)
    requires UniqueKeys(n.objects) && from != to && OnlyUnder(n.objects, bucket, from, to)
    requires RenamePrefix(n, bucket, from, to, t1).1.Renamed? && RenamePrefix(n, bucket, from, to, t1).1.count > 0
    ensures var m := RenamePrefix(n, bucket, from, to, t1).0;
      var (k, back) := RenamePrefix(m, bucket, to, from, t2);
      back.Renamed? && SameKeys(n.objects, k.objects)
  {
    var m := RenamePrefix(n, bucket, from, to, t1).0;
    var k := RenamePrefix(m, bucket, to, from, t2).0;
    var moved := RenameRows(n.objects, bucket, from);
    ReverseReachesSameRows(n.objects, bucket, from, to, t1);
    ReverseIsNotBlocked(n.objects, bucket, from, to, t1);
    var some :| some in moved;
    assert some in RenameRows(m.objects, bucket, to);
    assert some in LikeRows(m.objects, bucket, to);
    assert k.objects == RenameSome(m.objects, moved, to, from, t2);
    forall i | i in n.objects ensures k.objects[i].key == n.objects[i].key {
      if i in moved { RebaseBack(n.objects[i].key, from, to); }
    }
  }

  lemma ReverseMovesStrangers(n: Node, bucket: nat, from: string, to: string, t1: int, t2: int)
    requires from != to && !OnlyUnder(n.objects, bucket, from, to)
    requires RenamePrefix(n, bucket, from, to, t1).1.Renamed?
    ensures var m := RenamePrefix(n, bucket, from, to, t1).0;
      var (k, back) := RenamePrefix(m, bucket, to, from, t2);
      !(back.Renamed? && SameKeys(n.objects, k.objects))
  {
    var m := RenamePrefix(n, bucket, from, to, t1).0;
    var (k, back) := RenamePrefix(m, bucket, to, from, t2);
    RenameRowsExact(n.objects, bucket, from);
    RenameRowsExact(m.objects, bucket, to);
    var key :| key in ActiveKeys(n.objects, bucket) && to <= key && !(from <= key);
    var i :| i in n.objects && Active(n.objects[i]) && n.objects[i].bucket == bucket && n.objects[i].key == key;
    assert i in RenameRows(m.objects, bucket, to);
    if back.Renamed? {
      assert k.objects == RenameSome(m.objects, RenameRows(m.objects, bucket, to), to, from, t2);
      assert from <= k.objects[i].key;
    }
  }

  /** After a rename that moved something, renaming back succeeds and restores every key
      exactly when every active key under the target was already under the source. */
  lemma RenameRoundTrip(n: Node, bucket: nat, from: string, to: string, t1: int, t2: int)
    requires Sound(n) && from != to
    requires RenamePrefix(n, bucket, from, to, t1).1.Renamed? && RenamePrefix(n, bucket, from, to, t1).1.count > 0
    ensures var m := RenamePrefix(n, bucket, from, to, t1).0;
      var (k, back) := RenamePrefix(m, bucket, to, from, t2);
      (back.Renamed? && SameKeys(n.objects, k.objects)) <==> OnlyUnder(n.objects, bucket, from, to)
  {
    if OnlyUnder(n.objects, bucket, from, to) {
      ReverseRestores(n, bucket, from, to, t1, t2);
    } else {
      ReverseMovesStrangers(n, bucket, from, to, t1, t2);
    }
  }

  /** A rename that finds the folder only up to case moves nothing, and neither does its reverse
      when the target holds nothing of its own. */
  lemma EmptyRenameRoundTrip(n: Node, bucket: nat, from: string, to: string, t1: int, t2: int)
    requires from != to && RenamePrefix(n, bucket, from, to, t1).1 == Renamed(0)
    requires OnlyUnder(n.objects, bucket, from, to)
    ensures var m := RenamePrefix(n, bucket, from, to, t1).0;
      m.objects == n.objects && RenamePrefix(m, bucket, to, from, t2).0.objects == n.objects
  {
    assert RenameRows(n.objects, bucket, from) == {};
    RenameRowsExact(n.objects, bucket, from);
    RenameRowsExact(n.objects, bucket, to);
    assert forall i :: i in n.objects && Active(n.objects[i]) && n.objects[i].bucket == bucket ==>
             n.objects[i].key in ActiveKeys(n.objects, bucket);
    assert RenameRows(n.objects, bucket, to) == {};
  }

  // ----- Prefix deletion -----

  lemma KeyAfterPrefixDelete(n: Node, bucket: nat, prefix: string, now: int, b: nat, k: string)
    ensures k in ActiveKeys(SoftDeletePrefix(n, bucket, prefix, now).objects, b) <==>
              k in ActiveKeys(n.objects, b) && (b == bucket ==> !FoldedPrefix(prefix, k))
  {
    var m := SoftDeletePrefix(n, bucket, prefix, now);
    LikeRowsMean(n.objects, bucket, prefix);
    if k in ActiveKeys(n.objects, b) && (b == bucket ==> !FoldedPrefix(prefix, k)) {
      var i :| i in n.objects && Active(n.objects[i]) && n.objects[i].bucket == b && n.objects[i].key == k;
      assert i in m.objects && Active(m.objects[i]);
    }
  }

  /** Deleting a folder recycles exactly the active keys that begin with its prefix up to ASCII case. */
  lemma SoftDeletePrefixReach(n: Node, bucket: nat, prefix: string, now: int)
    ensures var m := SoftDeletePrefix(n, bucket, prefix, now);
      && m == n.(objects := m.objects)
      && ActiveKeys(m.objects, bucket) == (set k | k in ActiveKeys(n.objects, bucket) && !FoldedPrefix(prefix, k))
      && (forall b :: b != bucket ==> ActiveKeys(m.objects, b) == ActiveKeys(n.objects, b))
  {
    var m := SoftDeletePrefix(n, bucket, prefix, now);
    forall b ensures b != bucket ==> ActiveKeys(m.objects, b) == ActiveKeys(n.objects, b) {
      forall k { KeyAfterPrefixDelete(n, bucket, prefix, now, b, k); }
    }
    forall k { KeyAfterPrefixDelete(n, bucket, prefix, now, bucket, k); }
  }

  /** Deleting a folder leaves the rest of the bucket alone exactly when no other active key
      begins with the prefix in different case. */
  lemma SoftDeletePrefixExactness(n: Node, bucket: nat, prefix: string, now: int)
    ensures ActiveKeys(SoftDeletePrefix(n, bucket, prefix, now).objects, bucket) ==
              (set k | k in ActiveKeys(n.objects, bucket) && !(prefix <= k))
            <==> forall k :: k in ActiveKeys(n.objects, bucket) && FoldedPrefix(prefix, k) ==> prefix <= k
  {
    SoftDeletePrefixReach(n, bucket, prefix, now);
    var kept := ActiveKeys(SoftDeletePrefix(n, bucket, prefix, now).objects, bucket);
    forall k ensures prefix <= k ==> FoldedPrefix(prefix, k) {}
    if k :| k in ActiveKeys(n.objects, bucket) && FoldedPrefix(prefix, k) && !(prefix <= k) {
      assert k !in kept;
    }
  }
}
