/** SQLite's `LIKE ... ESCAPE '\'` and the escaping the repository applies to user text in patterns. */
module LikePatterns {

  /** LIKE folds ASCII letters only. */
  function Lower(c: char): char {
    if 'A' <= c <= 'Z' then (c as int + 32) as char else c
  }

  /** Two characters match when they are the same, or the two cases of one of the letters from "a" to "z". */
  lemma FoldsAsciiOnly(c: char, d: char)
    ensures Lower(c) == Lower(d) <==>
              c == d || ('a' <= c <= 'z' && d as int + 32 == c as int) || ('a' <= d <= 'z' && c as int + 32 == d as int)
  {
  }

  function Fold(s: string): string {
    seq(|s|, i requires 0 <= i < |s| => Lower(s[i]))
  }

  /** `%` matches any run, `_` any one character, `\` takes the next pattern character literally. */
  predicate Like(p: string, s: string)
    decreases |p| + |s|
  {
    if p == "" then s == ""
    else if p[0] == '%' then Like(p[1..], s) || (s != "" && Like(p, s[1..]))
    else if p[0] == '_' then s != "" && Like(p[1..], s[1..])
    else if p[0] == '\\' then |p| >= 2 && s != "" && Lower(p[1]) == Lower(s[0]) && Like(p[2..], s[1..])
    else s != "" && Lower(p[0]) == Lower(s[0]) && Like(p[1..], s[1..])
  }

  /** `str::replace` with a one-character needle. */
  function Replace(s: string, c: char, into: string): string {
    if s == "" then "" else (if s[0] == c then into else [s[0]]) + Replace(s[1..], c, into)
  }

  function LikeEscape(s: string): string {
    Replace(Replace(Replace(s, '\\', "\\\\"), '%', "\\%"), '_', "\\_")
  }

  function EscapeChar(c: char): string {
    if c == '\\' || c == '%' || c == '_' then ['\\', c] else [c]
  }

  function EscapeEach(s: string): string {
    if s == "" then "" else EscapeChar(s[0]) + EscapeEach(s[1..])
  }

  lemma {:induction false} ReplaceConcat(a: string, b: string, c: char, into: string)
    ensures Replace(a + b, c, into) == Replace(a, c, into) + Replace(b, c, into)
  {
    if a == "" {
      assert a + b == b;
    } else {
      var head := if a[0] == c then into else [a[0]];
      assert (a + b)[0] == a[0] && (a + b)[1..] == a[1..] + b;
      ReplaceConcat(a[1..], b, c, into);
      assert head + (Replace(a[1..], c, into) + Replace(b, c, into)) == (head + Replace(a[1..], c, into)) + Replace(b, c, into);
    }
  }

  lemma ReplaceOne(x: char, c: char, into: string)
    ensures Replace([x], c, into) == if x == c then into else [x]
  {
    assert [x][1..] == "";
  }

  lemma ReplaceTwo(x: char, y: char, c: char, into: string)
    ensures Replace([x, y], c, into) == Replace([x], c, into) + Replace([y], c, into)
  {
    assert [x, y] == [x] + [y];
    ReplaceConcat([x], [y], c, into);
  }

  /** The order of the three replacements is harmless: together they escape character by character. */
  lemma {:induction false} EscapingIsPerCharacter(s: string)
    ensures LikeEscape(s) == EscapeEach(s)
  {
    if s != "" {
      var x, rest := s[0], s[1..];
      assert s == [x] + rest;
      EscapingIsPerCharacter(rest);
      ReplaceConcat([x], rest, '\\', "\\\\");
      var a, ar := Replace([x], '\\', "\\\\"), Replace(rest, '\\', "\\\\");
      ReplaceConcat(a, ar, '%', "\\%");
      var b, br := Replace(a, '%', "\\%"), Replace(ar, '%', "\\%");
      ReplaceConcat(b, br, '_', "\\_");
      EscapeOneChar(x);
    }
  }

  lemma EscapeOneChar(x: char)
    ensures LikeEscape([x]) == EscapeChar(x)
  {
    ReplaceOne(x, '\\', "\\\\");
    ReplaceOne(x, '%', "\\%");
    ReplaceOne(x, '_', "\\_");
    ReplaceOne('\\', '%', "\\%");
    ReplaceOne('\\', '_', "\\_");
    ReplaceOne('%', '_', "\\_");
    ReplaceTwo('\\', '\\', '%', "\\%");
    ReplaceTwo('\\', '\\', '_', "\\_");
    ReplaceTwo('\\', '%', '_', "\\_");
  }

  lemma EscapedHead(c: char, rest: string, s: string)
    ensures Like(EscapeChar(c) + rest, s) <==> s != "" && Lower(c) == Lower(s[0]) && Like(rest, s[1..])
  {
    var pat := EscapeChar(c) + rest;
    if |EscapeChar(c)| == 2 {
      assert pat[0] == '\\' && pat[1] == c && pat[2..] == rest;
    } else {
      assert pat[0] == c && pat[1..] == rest;
    }
  }

  /** An escaped literal matches its own characters, up to case, and nothing else. */
  lemma {:induction false} LiteralMatches(p: string, more: string, s: string)
    ensures Like(EscapeEach(p) + more, s) <==>
              |p| <= |s| && Fold(p) == Fold(s[..|p|]) && Like(more, s[|p|..])
  {
    if p == "" {
      assert EscapeEach(p) + more == more;
      assert s[0..] == s && s[..0] == "";
    } else {
      var rest := EscapeEach(p[1..]) + more;
      assert EscapeEach(p) + more == EscapeChar(p[0]) + rest;
      EscapedHead(p[0], rest, s);
      if s != "" {
        LiteralMatches(p[1..], more, s[1..]);
        if |p| <= |s| {
          FoldCons(p, s[..|p|]);
          assert s[..|p|][1..] == s[1..][..|p| - 1];
          assert s[1..][|p| - 1..] == s[|p|..];
        }
      }
    }
  }

  lemma FoldCons(a: string, b: string)
    requires |a| == |b| > 0
    ensures Fold(a) == Fold(b) <==> Lower(a[0]) == Lower(b[0]) && Fold(a[1..]) == Fold(b[1..])
  {
    if Fold(a) == Fold(b) {
      assert Fold(a)[0] == Fold(b)[0];
      forall i | 0 <= i < |a| - 1 ensures Fold(a[1..])[i] == Fold(b[1..])[i] {
        assert Fold(a)[i + 1] == Fold(b)[i + 1];
      }
    }
    if Lower(a[0]) == Lower(b[0]) && Fold(a[1..]) == Fold(b[1..]) {
      forall i | 0 <= i < |a| ensures Fold(a)[i] == Fold(b)[i] {
        if i > 0 { assert Fold(a[1..])[i - 1] == Fold(b[1..])[i - 1]; }
      }
    }
  }

  lemma {:induction false} PercentMatchesAll(s: string)
    ensures Like("%", s)
  {
    assert "%"[1..] == "";
    if s != "" { PercentMatchesAll(s[1..]); }
  }

  /** A pattern of plain characters after "%" matches what ends with them, up to case. */
  lemma {:induction false} SuffixMatches(tail: string, s: string)
    requires '%' !in tail && '_' !in tail && '\\' !in tail
    ensures Like("%" + tail, s) <==> |tail| <= |s| && Fold(tail) == Fold(s[|s| - |tail|..])
    decreases |s|
  {
    var pat := "%" + tail;
    assert pat[1..] == tail;
    PlainMatches(tail, s);
    if s != "" {
      SuffixMatches(tail, s[1..]);
      if |tail| < |s| { assert s[1..][|s| - 1 - |tail|..] == s[|s| - |tail|..]; }
    }
    if |tail| == |s| { assert s[0..] == s; }
  }

  lemma {:induction false} PlainMatches(p: string, s: string)
    requires '%' !in p && '_' !in p && '\\' !in p
    ensures Like(p, s) <==> |p| == |s| && Fold(p) == Fold(s)
  {
    if p != "" && s != "" {
      assert p[0] in p && forall c :: c in p[1..] ==> c in p;
      PlainMatches(p[1..], s[1..]);
      if |p| == |s| { FoldCons(p, s); }
    }
  }

  /** `_` matches any one character. */
  lemma UnderscoreMatchesOne(more: string, s: string)
    ensures Like("_" + more, s) <==> s != "" && Like(more, s[1..])
  {
    assert ("_" + more)[1..] == more;
  }

  /** `p` begins `s` up to ASCII case. */
  predicate FoldedPrefix(p: string, s: string) {
    |p| <= |s| && Fold(p) == Fold(s[..|p|])
  }

  function PrefixPattern(p: string): string { LikeEscape(p) + "%" }

  function ContainsPattern(q: string): string { "%" + LikeEscape(q) + "%" }

  /** `like_escape(p)%` selects exactly the keys that begin with `p` up to ASCII case. */
  lemma PrefixPatternSelects(p: string, s: string)
    ensures Like(PrefixPattern(p), s) <==> FoldedPrefix(p, s)
  {
    EscapingIsPerCharacter(p);
    LiteralMatches(p, "%", s);
    if |p| <= |s| { PercentMatchesAll(s[|p|..]); }
  }

  /** Filtering the rows a prefix pattern returns by `starts_with` gives exact prefix selection. */
  lemma ExactPrefixAfterFilter(p: string, s: string)
    ensures Like(PrefixPattern(p), s) && p <= s <==> p <= s
  {
    PrefixPatternSelects(p, s);
  }

  /** `%like_escape(q)%` selects exactly the keys that contain `q` up to ASCII case. */
  lemma {:induction false} ContainsPatternSelects(q: string, s: string)
    ensures Like(ContainsPattern(q), s) <==> exists i :: 0 <= i <= |s| && FoldedPrefix(q, s[i..])
    decreases |s|
  {
    var pat := ContainsPattern(q);
    assert pat[1..] == PrefixPattern(q);
    PrefixPatternSelects(q, s);
    assert s[0..] == s;
    if s != "" {
      ContainsPatternSelects(q, s[1..]);
      assert forall i :: 1 <= i <= |s| ==> s[i..] == s[1..][i - 1..];
      if exists i :: 0 <= i <= |s| && FoldedPrefix(q, s[i..]) && !FoldedPrefix(q, s) {
        var i :| 0 <= i <= |s| && FoldedPrefix(q, s[i..]) && !FoldedPrefix(q, s);
        assert FoldedPrefix(q, s[1..][i - 1..]);
      }
      if Like(pat, s[1..]) {
        var i :| 0 <= i <= |s[1..]| && FoldedPrefix(q, s[1..][i..]);
        assert s[i + 1..] == s[1..][i..];
      }
    }
  }
}
