/** Small shared vocabulary: options, bytes, and the ascending enumeration of a set of row ids. */
module Basics {

  datatype Option<+T> = None | Some(value: T)

  /** The ranges of the program's machine integers. */
  const I64_MIN: int := -0x8000_0000_0000_0000
  const I64_MAX: int := 0x7FFF_FFFF_FFFF_FFFF
  const U64_MAX: int := 0xFFFF_FFFF_FFFF_FFFF

  predicate IsI64(n: int) { I64_MIN <= n <= I64_MAX }

  function Min(a: int, b: int): int {
    if a <= b then a else b
  }

  function Max(a: int, b: int): int {
    if a >= b then a else b
  }

  type Byte = b: int | 0 <= b < 256

  type Bytes = seq<Byte>

  /** The bytes carried by a stream of chunks. */
  function Flatten(chunks: seq<Bytes>): Bytes {
    if chunks == [] then [] else chunks[0] + Flatten(chunks[1..])
  }

  lemma {:induction false} FlattenSnoc(chunks: seq<Bytes>, last: Bytes)
    ensures Flatten(chunks + [last]) == Flatten(chunks) + last
  {
    if chunks == [] {
      assert [last][1..] == [];
    } else {
      assert (chunks + [last])[1..] == chunks[1..] + [last];
      FlattenSnoc(chunks[1..], last);
    }
  }

  /** The members of `s` below `n`, in ascending order: what `ORDER BY id ASC` returns for rows with ids `s`. */
  function Ascending(s: set<nat>, n: nat): seq<nat> {
    if n == 0 then []
    else Ascending(s, n - 1) + (if n - 1 in s then [n - 1] else [])
  }

  ghost predicate StrictlyAscending(s: seq<nat>) {
    forall i, j :: 0 <= i < j < |s| ==> s[i] < s[j]
  }

  lemma {:induction false} AscendingMembers(s: set<nat>, n: nat)
    ensures forall i :: i in Ascending(s, n) <==> i in s && i < n
    ensures StrictlyAscending(Ascending(s, n))
  {
    if n > 0 {
      AscendingMembers(s, n - 1);
      var below := Ascending(s, n - 1);
      assert forall i :: 0 <= i < |below| ==> below[i] in below;
    }
  }

  /** Adding a new largest id appends it. */
  lemma {:induction false} AscendingAppend(s: set<nat>, x: nat, n: nat)
    requires x < n && forall i :: i in s ==> i < x
    ensures Ascending(s + {x}, n) == Ascending(s, n) + [x]
  {
    if x == n - 1 {
      AscendingSame(s + {x}, s, n - 1);
    } else {
      AscendingAppend(s, x, n - 1);
    }
  }

  /** A lower id range enumerates to a prefix. */
  lemma {:induction false} AscendingPrefix(s: set<nat>, m: nat, n: nat)
    requires m <= n
    ensures Ascending(s, m) <= Ascending(s, n)
  {
    if m < n { AscendingPrefix(s, m, n - 1); }
  }

  lemma {:induction false} AscendingCut(d: set<nat>, e: set<nat>, m: nat, n: nat)
    requires m <= n && forall i :: i in d <==> i in e && i < m
    ensures Ascending(d, n) == Ascending(e, m)
  {
    if m < n { AscendingCut(d, e, m, n - 1); } else { AscendingSame(d, e, n); }
  }

  /** The last entry is the largest member. */
  lemma {:induction false} AscendingLast(s: set<nat>, n: nat)
    requires Ascending(s, n) != []
    ensures var last := Ascending(s, n)[|Ascending(s, n)| - 1];
      last in s && last < n && forall i :: i in s && i < n ==> i <= last
  {
    if n - 1 !in s { AscendingLast(s, n - 1); }
  }

  /** The members of a strictly ascending sequence are as many as its entries. */
  lemma {:induction false} AscendingCount(s: set<nat>, n: nat)
    requires forall i :: i in s ==> i < n
    ensures |Ascending(s, n)| == |s|
    decreases n
  {
    if n == 0 {
      assert s == {};
    } else {
      var s' := s - {n - 1};
      AscendingCount(s', n - 1);
      AscendingSame(s, s', n - 1);
    }
  }

  lemma {:induction false} AscendingSame(s: set<nat>, t: set<nat>, n: nat)
    requires forall i :: i < n ==> (i in s <==> i in t)
    ensures Ascending(s, n) == Ascending(t, n)
  {
    if n > 0 { AscendingSame(s, t, n - 1); }
  }
}
