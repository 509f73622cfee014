/**
 When rewriting settles, exactly: names that stand wholly in the directory part of another name
 are what makes a second pass go on, and the text on which it does can be given.
 */
module RewriteExact {
  import opened Basics
  import opened PathRewrite
  import opened JsonRewrite

  /** `q` stands in `n` and ends before `n` does. */
  ghost predicate InFront(q: string, n: string) {
    exists d: int :: 0 <= d && d + |q| < |n| && CanOverlap(q, n, d)
  }

  /** Where the two share characters one of them stands in front of the end of the other, or they are the same. */
  ghost predicate Nests(x: string, y: string) {
    forall d: int | CanOverlap(x, y, d) ::
      (d == 0 && x == y) || (0 <= d && d + |x| < |y|) || (d <= 0 && |y| - d < |x|)
  }

  ghost predicate SharesFrontTo(p: Pair, k: nat) {
    && k <= |p.from| && k <= |p.to| && p.from[..k] == p.to[..k]
    && (forall i | k <= i < |p.from| :: WordChar(p.from[i]))
    && (forall i | k <= i < |p.to| :: WordChar(p.to[i]))
  }

  /** Only the last word is replaced. */
  ghost predicate SharesFront(p: Pair) { exists k: nat :: SharesFrontTo(p, k) }

  ghost predicate LosesIn(p: Pair, c: char, head: string, from: string, to: string, tail: string) {
    p.from == head + from + tail && p.to == head + to + tail && c in from && c !in to
  }

  /** What is replaced in the name has a letter that its replacement has not. */
  ghost predicate Loses(p: Pair, c: char) {
    exists head, from, to, tail :: LosesIn(p, c, head, from, to, tail)
  }

  /** Every replacement loses one and the same letter. */
  ghost predicate Fewer(pairs: seq<Pair>, c: char) { forall p | p in pairs :: Loses(p, c) }

  /** A name that a replacement stands in has been tried before that replacement is made. */
  ghost predicate HoldersFirst(path: seq<Pair>) {
    forall i, j | 0 <= i < |path| && 0 <= j < |path| && InFront(path[i].to, path[j].from) :: j < i
  }

  ghost predicate Distinct(pairs: seq<Pair>) {
    && (forall p, q | p in pairs && q in pairs && p != q :: p.from != q.from && p.to != q.to)
    && (forall p, q | p in pairs && q in pairs :: p.from != q.to)
  }

  ghost predicate PathsNest(path: seq<Pair>) {
    && (forall p | p in path :: SharesFront(p))
    && (forall p, q | p in path && q in path :: Nests(p.from, q.from) && Nests(p.from, q.to) && Nests(p.to, q.to))
  }

  /** Names replaced only as whole strings stay clear of the others. */
  ghost predicate WholesAside(pairs: seq<Pair>) {
    && (forall p | p in pairs :: IsPath(p.from) == IsPath(p.to))
    && (forall r, q | r in PathPairs(pairs) && q in pairs && q !in PathPairs(pairs) ::
          Unstarted(r.from, q.from) && Unstarted(r.from, q.to) && Unreached(q.from, r.to) && Unreached(q.to, r.to))
  }

  /** A table of names as the migration uses it. */
  ghost predicate Table(pairs: seq<Pair>) {
    var path := PathPairs(pairs);
    && NoRepeats(pairs) && AllWellformed(pairs) && Distinct(pairs) && WholesAside(pairs)
    && PathsNest(path) && HoldersFirst(path) && exists c :: Fewer(path, c)
  }

  /** No name, replaced or replacement, stands in front of another one. */
  ghost predicate NoneInFront(path: seq<Pair>) {
    NoneHeld(path) && forall p, q | p in path && q in path :: !InFront(p.to, q.from)
  }

  /** No replaced name stands in front of a replacement. */
  ghost predicate NoneHeld(path: seq<Pair>) {
    forall p, q | p in path && q in path :: !InFront(p.from, q.to)
  }

  lemma FrontIsShared(x: string, p: Pair)
    requires SharesFront(p)
    ensures InFront(x, p.from) <==> InFront(x, p.to)
  {
    var k: nat :| SharesFrontTo(p, k);
    if InFront(x, p.from) { FrontMoves(x, p.from, p.to, k); }
    if InFront(x, p.to) { FrontMoves(x, p.to, p.from, k); }
  }

  lemma FrontMoves(x: string, n: string, n': string, k: nat)
    requires k <= |n| && k <= |n'| && n[..k] == n'[..k] && forall i | k <= i < |n| :: WordChar(n[i])
    requires InFront(x, n)
    ensures InFront(x, n')
  {
    var d: int :| 0 <= d && d + |x| < |n| && CanOverlap(x, n, d);
    assert d + |x| < k;
    assert forall i | 0 <= i < k :: n[i] == n[..k][i] == n'[..k][i] == n'[i];
    forall i | 0 <= i < |x| && 0 <= i + d < |n'| ensures x[i] == n'[i + d] { assert x[i] == n[i + d]; }
    assert CanOverlap(x, n', d);
  }

  // ---------------------------------------------------------------- names in front of none settle

  /** Where names that nest share characters. */
  lemma NestedOverlap(x: string, y: string, d: int)
    requires Nests(x, y) && CanOverlap(x, y, d)
    ensures (d == 0 && x == y) || InFront(x, y) || InFront(y, x)
  {
    if d <= 0 && |y| - d < |x| {
      OverlapIsMutual(x, y, d);
      assert 0 <= -d && -d + |y| < |x|;
    }
  }

  lemma NestedAside(x: string, y: string)
    requires Nests(x, y) && x != y && !InFront(x, y) && !InFront(y, x)
    ensures Disjoint(x, y)
  {
    forall d: int ensures !CanOverlap(x, y, d) {
      if CanOverlap(x, y, d) { NestedOverlap(x, y, d); }
    }
  }

  lemma NoneInFrontPair(pairs: seq<Pair>, p: Pair, q: Pair)
    requires Table(pairs) && NoneInFront(PathPairs(pairs)) && p in PathPairs(pairs) && q in PathPairs(pairs)
    ensures Disjoint(p.from, q.to)
    ensures p != q ==> Disjoint(p.from, q.from) && Disjoint(p.to, q.to)
  {
    FrontIsShared(p.from, q);
    FrontIsShared(q.from, p);
    FrontIsShared(p.to, q);
    FrontIsShared(q.to, p);
    NestedAside(p.from, q.to);
    if p != q {
      NestedAside(p.from, q.from);
      NestedAside(p.to, q.to);
    }
  }

  lemma NestedInItself(n: string)
    requires Nests(n, n)
    ensures SelfDisjoint(n)
  {
  }

  lemma NoneInFrontIsTwoWay(pairs: seq<Pair>)
    requires Table(pairs) && NoneInFront(PathPairs(pairs))
    ensures TwoWay(pairs)
  {
    var path := PathPairs(pairs);
    forall p, q | p in path && q in path
      ensures Disjoint(p.from, q.to) && SelfDisjoint(p.to) && (p != q ==> Disjoint(p.from, q.from) && Disjoint(p.to, q.to))
    {
      NoneInFrontPair(pairs, p, q);
      NestedInItself(p.to);
    }
    assert ApartBothWays(path);
    forall r, p | r in path && p in pairs ensures Unstarted(r.from, p.to) {
      if p in path { assert Disjoint(r.from, p.to); }
    }
  }

  // ---------------------------------------------------------------- a text is left alone exactly when no name stands in it

  function Count(c: char, s: string): nat {
    if s == "" then 0 else (if s[0] == c then 1 else 0) + Count(c, s[1..])
  }

  lemma {:induction false} CountInParts(c: char, a: string, b: string)
    ensures Count(c, a + b) == Count(c, a) + Count(c, b)
  {
    if a == "" {
      assert a + b == b;
    } else {
      assert (a + b)[1..] == a[1..] + b;
      CountInParts(c, a[1..], b);
    }
  }

  lemma {:induction false} CountIsMembership(c: char, s: string)
    ensures Count(c, s) > 0 <==> c in s
  {
    if s != "" {
      CountIsMembership(c, s[1..]);
      assert s == [s[0]] + s[1..];
    }
  }

  lemma LosingHasFewer(p: Pair, c: char)
    requires Loses(p, c)
    ensures Count(c, p.to) < Count(c, p.from)
  {
    var head, from, to, tail :| LosesIn(p, c, head, from, to, tail);
    CountIsMembership(c, from);
    CountIsMembership(c, to);
    CountInParts(c, head + to, tail);
    CountInParts(c, head, to);
    CountInParts(c, head + from, tail);
    CountInParts(c, head, from);
  }

  lemma {:induction false} ChangeHasFewer(p: Pair, c: char, before: bool, s: string)
    requires p.from != "" && Count(c, p.to) < Count(c, p.from)
    ensures Substitute(p, before, s) == s || Count(c, Substitute(p, before, s)) < Count(c, s)
    decreases |s|
  {
    if s == "" {
    } else if Matches(before, s, p.from) {
      var rest := s[|p.from|..];
      ChangeHasFewer(p, c, LastIsWord(p.from), rest);
      assert s == p.from + rest;
      CountInParts(c, p.from, rest);
      CountInParts(c, p.to, Substitute(p, LastIsWord(p.from), rest));
    } else {
      ChangeHasFewer(p, c, WordChar(s[0]), s[1..]);
      assert s == [s[0]] + s[1..];
      CountInParts(c, [s[0]], Substitute(p, WordChar(s[0]), s[1..]));
    }
  }

  /** A pass that changes nothing in the end has changed nothing on the way. */
  lemma {:induction false} UnchangedThroughout(path: seq<Pair>, c: char, s: string)
    requires Fewer(path, c) && AllWellformed(path)
    ensures RewriteAll(path, s) == s || Count(c, RewriteAll(path, s)) < Count(c, s)
    ensures RewriteAll(path, s) == s ==> forall p | p in path :: Substitute(p, false, s) == s
  {
    if path != [] {
      UnchangedThroughout(path[..|path| - 1], c, s);
      var last, t := path[|path| - 1], RewriteAll(path[..|path| - 1], s);
      LosingHasFewer(last, c);
      ChangeHasFewer(last, c, false, t);
      if RewriteAll(path, s) == s {
        assert t == s;
        forall p | p in path ensures Substitute(p, false, s) == s { assert p == last || p in path[..|path| - 1]; }
      }
    }
  }

  lemma StandingIsChanged(path: seq<Pair>, c: char, p: Pair, s: string)
    requires Fewer(path, c) && AllWellformed(path) && p in path && StandsIn(p.from, s)
    ensures RewriteAll(path, s) != s
  {
    var i :| 0 <= i < |s| && Matches(i > 0 && WordChar(s[i - 1]), s[i..], p.from);
    MatchAnywhereChanges(p, false, s, i);
    UnchangedThroughout(path, c, s);
  }

  lemma {:induction false} NotStandingFrom(q: string, s: string, i: nat)
    requires i <= |s| && forall j | i <= j < |s| :: !Matches(j > 0 && WordChar(s[j - 1]), s[j..], q)
    ensures NoMatchIn(q, i > 0 && WordChar(s[i - 1]), s[i..], "")
    decreases |s| - i
  {
    if i < |s| {
      assert s[i..] + "" == s[i..] && s[i..][1..] == s[i + 1..];
      NotStandingFrom(q, s, i + 1);
    }
  }

  lemma NotStandingIsKept(p: Pair, s: string)
    requires p.from != "" && !StandsIn(p.from, s)
    ensures Substitute(p, false, s) == s
  {
    NotStandingFrom(p.from, s, 0);
    assert s[0..] == s && s + "" == s;
    ScanPast(p, false, s, "");
  }

  /** A pass leaves a text as it is exactly when no replaced name stands in it. */
  lemma {:induction false} SettledIsClean(path: seq<Pair>, s: string)
    requires AllWellformed(path) && exists c :: Fewer(path, c)
    ensures RewriteAll(path, s) == s <==> forall p | p in path :: !StandsIn(p.from, s)
  {
    var c :| Fewer(path, c);
    if p :| p in path && StandsIn(p.from, s) {
      StandingIsChanged(path, c, p, s);
    } else {
      CleanIsKept(path, s);
    }
  }

  lemma {:induction false} CleanIsKept(path: seq<Pair>, s: string)
    requires AllWellformed(path) && forall p | p in path :: !StandsIn(p.from, s)
    ensures RewriteAll(path, s) == s
  {
    if path != [] {
      var n := |path| - 1;
      CleanIsKept(path[..n], s);
      assert path[n] in path;
      NotStandingIsKept(path[n], s);
    }
  }

  // ---------------------------------------------------------------- the text that is rewritten twice

  /** `q` is `left`, the replacement and `right`, with word boundaries between them. */
  ghost predicate Parts(p: Pair, q: string, left: string, right: string) {
    && p.from != "" && p.to != "" && Wellformed(p) && right != ""
    && q == left + (p.to + right)
    && !WordChar(right[0]) && (left != "" ==> !LastIsWord(left))
  }

  /** A match of `n` in `s` that stays left of a boundary at `k`. */
  ghost predicate MatchAt(n: string, s: string, e: nat) {
    e < |s| && Matches(e > 0 && WordChar(s[e - 1]), s[e..], n)
  }

  lemma MatchAtIsOverlap(n: string, s: string, e: nat)
    requires n != "" && MatchAt(n, s, e)
    ensures e + |n| <= |s| && CanOverlap(n, s, e)
  {
    forall k | 0 <= k < |n| && 0 <= k + e < |s| ensures n[k] == s[k + e] { assert n[k] == s[e..][k]; }
    if |s[e..]| > |n| { assert s[e..][|n|] == s[e + |n|]; }
  }

  /** A match left of what was put back stands in the name itself. */
  lemma MatchLeft(p: Pair, q: string, left: string, right: string, n: string, e: nat)
    requires Parts(p, q, left, right) && n != "" && e + |n| <= |left|
    requires MatchAt(n, left + (p.from + right), e)
    ensures InFront(n, q)
  {
    var s := left + (p.from + right);
    MatchAtIsOverlap(n, s, e);
    assert forall i | 0 <= i < |left| :: q[i] == s[i];
    assert s[|left|] == p.from[0] && q[|left|] == p.to[0];
    forall k | 0 <= k < |n| && 0 <= k + e < |q| ensures n[k] == q[k + e] { assert n[k] == s[k + e]; }
    assert CanOverlap(n, q, e);
  }

  /** A match right of what was put back shares the same characters with the name itself. */
  lemma MatchRight(p: Pair, q: string, left: string, right: string, n: string, e: nat)
    requires Parts(p, q, left, right) && n != "" && |left| + |p.from| <= e
    requires MatchAt(n, left + (p.from + right), e)
    ensures CanOverlap(n, q, e - |p.from| + |p.to|)
  {
    var s, f := left + (p.from + right), e - |p.from| + |p.to|;
    MatchAtIsOverlap(n, s, e);
    assert forall i | |left| + |p.from| - 1 < i < |s| :: s[i] == right[i - |left| - |p.from|];
    assert forall i | |left| + |p.to| - 1 < i < |q| :: q[i] == right[i - |left| - |p.to|];
    assert s[|left| + |p.from| - 1] == p.from[|p.from| - 1] && q[|left| + |p.to| - 1] == p.to[|p.to| - 1];
    forall k | 0 <= k < |n| && 0 <= k + f < |q| ensures n[k] == q[k + f] { assert n[k] == s[k + e]; }
  }

  /** A part between boundaries is met like the whole. */
  lemma PartIsMet(n: string, s: string, e: int, i: nat, j: nat)
    requires CanOverlap(n, s, e) && i < j <= |s| && e < j && e + |n| > i
    requires (i > 0 ==> !WordChar(s[i - 1])) && (j < |s| ==> !WordChar(s[j]))
    ensures CanOverlap(n, s[i..j], e - i)
  {
    var m, f := s[i..j], e - i;
    forall k | 0 <= k < |n| && 0 <= k + f < |m| ensures n[k] == m[k + f] { assert n[k] == s[k + e]; }
    if f < 0 && i > 0 { assert n[-f - 1] == s[i - 1]; }
    if f + |n| > |m| && j < |s| { assert n[|m| - f] == s[j]; }
  }

  lemma Middle(left: string, m: string, right: string)
    ensures var s := left + (m + right);
            && s[|left|..|left| + |m|] == m
            && (left != "" ==> s[|left| - 1] == left[|left| - 1]) && (right != "" ==> s[|left| + |m|] == right[0])
  {
  }

  lemma MiddleIsMet(n: string, left: string, m: string, right: string, e: int)
    requires m != "" && CanOverlap(n, left + (m + right), e) && e < |left| + |m| && e + |n| > |left|
    requires (left == "" || !LastIsWord(left)) && (right == "" || !WordChar(right[0]))
    ensures CanOverlap(n, m, e - |left|)
  {
    Middle(left, m, right);
    PartIsMet(n, left + (m + right), e, |left|, |left| + |m|);
  }

  /** A match that meets what was put back shares the same characters with it. */
  lemma MatchMeets(p: Pair, q: string, left: string, right: string, n: string, e: nat)
    requires Parts(p, q, left, right) && n != "" && e < |left| + |p.from| && e + |n| > |left|
    requires MatchAt(n, left + (p.from + right), e)
    ensures CanOverlap(n, p.from, e - |left|)
  {
    MatchAtIsOverlap(n, left + (p.from + right), e);
    MiddleIsMet(n, left, p.from, right, e);
  }

  /** Neither of two names stands in front of the other. */
  ghost predicate Level(x: string, y: string) {
    Nests(x, y) && !InFront(x, y) && !InFront(y, x)
  }

  lemma LevelOverlap(x: string, y: string, d: int)
    requires Level(x, y) && CanOverlap(x, y, d)
    ensures d == 0 && x == y
  {
    NestedOverlap(x, y, d);
  }

  lemma LevelMatch(p: Pair, q: string, left: string, right: string, n: string, e: nat)
    requires Parts(p, q, left, right) && n != "" && MatchAt(n, left + (p.from + right), e)
    requires Level(n, q) && Level(n, p.from)
    ensures n == p.from && e == |left|
  {
    if e + |n| <= |left| {
      MatchLeft(p, q, left, right, n, e);
    } else if |left| + |p.from| <= e {
      MatchRight(p, q, left, right, n, e);
      LevelOverlap(n, q, e - |p.from| + |p.to|);
    } else {
      MatchMeets(p, q, left, right, n, e);
      LevelOverlap(n, p.from, e - |left|);
    }
  }

  /** The replaced names are different and none stands in front of another. */
  ghost predicate AllLevel(path: seq<Pair>) {
    forall a, b | a in path && b in path :: Level(a.from, b.from) && (a != b ==> a.from != b.from)
  }

  lemma NoneHeldIsLevel(pairs: seq<Pair>)
    requires Table(pairs) && NoneHeld(PathPairs(pairs))
    ensures AllLevel(PathPairs(pairs))
  {
    var path := PathPairs(pairs);
    forall a, b | a in path && b in path ensures Level(a.from, b.from) && (a != b ==> a.from != b.from) {
      FrontIsShared(a.from, b);
      FrontIsShared(b.from, a);
    }
  }

  /** The text in which a replacement that stands in a name is put back to the name it replaces. */
  function PutBack(p: Pair, left: string, right: string): string { left + (p.from + right) }

  /** The only match of a replaced name is the one that was put back. */
  lemma OnlyMatch(path: seq<Pair>, p: Pair, q: Pair, left: string, right: string, r: Pair, e: nat)
    requires AllLevel(path) && p in path && q in path && r in path && r.from != ""
    requires Parts(p, q.from, left, right) && MatchAt(r.from, PutBack(p, left, right), e)
    ensures r == p && e == |left|
  {
    LevelMatch(p, q.from, left, right, r.from, e);
  }

  lemma OthersPass(path: seq<Pair>, p: Pair, q: Pair, left: string, right: string, r: Pair)
    requires AllLevel(path) && p in path && q in path && r in path && r.from != "" && r != p
    requires Parts(p, q.from, left, right)
    ensures Substitute(r, false, PutBack(p, left, right)) == PutBack(p, left, right)
  {
    var s := PutBack(p, left, right);
    if StandsIn(r.from, s) {
      var e :| 0 <= e < |s| && Matches(e > 0 && WordChar(s[e - 1]), s[e..], r.from);
      assert MatchAt(r.from, s, e);
      OnlyMatch(path, p, q, left, right, r, e);
    }
    NotStandingIsKept(r, s);
  }

  /** Other replaced names do not stand in this one. */
  lemma OthersKeepName(path: seq<Pair>, q: Pair, r: Pair)
    requires AllLevel(path) && q in path && r in path && r.from != "" && r != q
    ensures Substitute(r, false, q.from) == q.from
  {
    var s := q.from;
    if StandsIn(r.from, s) {
      var e :| 0 <= e < |s| && Matches(e > 0 && WordChar(s[e - 1]), s[e..], r.from);
      assert MatchAt(r.from, s, e);
      MatchAtIsOverlap(r.from, s, e);
      assert Level(r.from, q.from);
      LevelOverlap(r.from, q.from, e);
    }
    NotStandingIsKept(r, s);
  }

  lemma {:induction false} NoMatchUpTo(n: string, left: string, rest: string, i: nat)
    requires i <= |left| && forall e: nat | e < |left| :: !MatchAt(n, left + rest, e)
    ensures NoMatchIn(n, i > 0 && WordChar(left[i - 1]), left[i..], rest)
    decreases |left| - i
  {
    if i < |left| {
      assert left[i..] + rest == (left + rest)[i..] && left[i..][1..] == left[i + 1..];
      assert !MatchAt(n, left + rest, i);
      NoMatchUpTo(n, left, rest, i + 1);
    }
  }

  lemma {:induction false} NoMatchFrom(n: string, s: string, i: nat)
    requires i <= |s| && forall e: nat | i <= e :: !MatchAt(n, s, e)
    ensures NoMatchIn(n, i > 0 && WordChar(s[i - 1]), s[i..], "")
    decreases |s| - i
  {
    if i < |s| {
      assert s[i..] + "" == s[i..] && s[i..][1..] == s[i + 1..];
      assert !MatchAt(n, s, i);
      NoMatchFrom(n, s, i + 1);
    }
  }

  /** The pair itself makes the name that holds its replacement. */
  lemma MakesName(path: seq<Pair>, p: Pair, q: Pair, left: string, right: string)
    requires AllLevel(path) && p in path && q in path && Parts(p, q.from, left, right)
    ensures Substitute(p, false, PutBack(p, left, right)) == q.from
  {
    var s, rest := PutBack(p, left, right), p.from + right;
    forall e: nat | MatchAt(p.from, s, e) ensures e == |left| { OnlyMatch(path, p, q, left, right, p, e); }
    NoMatchUpTo(p.from, left, rest, 0);
    assert left[0..] == left;
    ScanPast(p, false, left, rest);
    var i := |left| + |p.from|;
    NoMatchFrom(p.from, s, i);
    assert s[i..] == right && s[i - 1] == p.from[|p.from| - 1];
    ScanPast(p, LastIsWord(p.from), right, "");
    assert right + "" == right;
    assert Matches(false, rest, p.from) && rest[|p.from|..] == right;
    assert left + (p.to + right) == q.from;
  }

  lemma {:induction false} AllPass(path: seq<Pair>, s: string)
    requires forall r | r in path :: r.from != "" && Substitute(r, false, s) == s
    ensures RewriteAll(path, s) == s
  {
    if path != [] {
      var n := |path| - 1;
      AllPass(path[..n], s);
      assert path[n] in path;
    }
  }

  lemma {:induction false} PassInParts(a: seq<Pair>, b: seq<Pair>, s: string)
    requires forall r | r in a + b :: r.from != ""
    ensures (forall r | r in a :: r in a + b) && (forall r | r in b :: r in a + b)
    ensures RewriteAll(a + b, s) == RewriteAll(b, RewriteAll(a, s))
    decreases |b|
  {
    if b == [] {
      assert a + b == a;
    } else {
      var n := |b| - 1;
      assert (a + b)[..|a| + n] == a + b[..n] && (a + b)[|a| + n] == b[n];
      PassInParts(a, b[..n], s);
    }
  }

  /** Up to its own turn the pairs leave the text alone, after it they leave the name alone. */
  lemma PassMakesName(before: seq<Pair>, p: Pair, after: seq<Pair>, s: string, n: string)
    requires forall r | r in before + [p] + after :: r.from != ""
    requires forall r | r in before :: Substitute(r, false, s) == s
    requires Substitute(p, false, s) == n
    requires forall r | r in after :: Substitute(r, false, n) == n
    ensures RewriteAll(before + [p] + after, s) == n
  {
    AllPass(before, s);
    PassInParts(before, [p], s);
    assert [p][..0] == [];
    PassInParts(before + [p], after, s);
    AllPass(after, n);
  }

  lemma OverlapStands(x: string, n: string, d: nat)
    requires d + |x| < |n| && CanOverlap(x, n, d)
    ensures n[d..d + |x|] == x
  {
    assert forall k | 0 <= k < |x| :: x[k] == n[k + d];
  }

  lemma BoundedAround(x: string, q: string, d: nat)
    requires x != "" && d + |x| < |q| && CanOverlap(x, q, d)
    ensures q[d + |x|..] != "" && !WordChar(q[d + |x|..][0]) && (q[..d] != "" ==> !LastIsWord(q[..d]))
  {
    assert q[d + |x|..][0] == q[d + |x|];
    if d > 0 { assert q[..d][d - 1] == q[d - 1]; }
  }

  lemma ReplacementInFront(p: Pair, q: string) returns (left: string, right: string)
    requires Wellformed(p) && InFront(p.to, q)
    ensures Parts(p, q, left, right)
  {
    var d: int :| 0 <= d && d + |p.to| < |q| && CanOverlap(p.to, q, d);
    left, right := q[..d], q[d + |p.to|..];
    BoundedAround(p.to, q, d);
    OverlapStands(p.to, q, d);
    InThree(q, d, d + |p.to|);
  }

  lemma InThree(q: string, i: nat, j: nat)
    requires i <= j <= |q|
    ensures q == q[..i] + (q[i..j] + q[j..])
  {
  }

  /** The name that holds a replacement is not tried again after it. */
  lemma TurnOf(path: seq<Pair>, p: Pair, q: Pair) returns (first: seq<Pair>, last: seq<Pair>)
    requires NoRepeats(path) && HoldersFirst(path) && p in path && q in path && InFront(p.to, q.from)
    ensures path == first + [p] + last && p !in first && q !in last
  {
    var i :| 0 <= i < |path| && path[i] == p;
    first, last := path[..i], path[i + 1..];
  }

  lemma NameComesAboutIn(path: seq<Pair>, first: seq<Pair>, p: Pair, last: seq<Pair>, q: Pair, left: string, right: string)
    requires AllLevel(path) && AllWellformed(path) && path == first + [p] + last && q in path && Parts(p, q.from, left, right)
    requires p !in first && q !in last
    ensures RewriteAll(path, PutBack(p, left, right)) == q.from
  {
    var s := PutBack(p, left, right);
    forall r | r in first || r in last || r == p ensures r in path && Wellformed(r) { assert r in first + [p] + last; }
    forall r | r in first ensures Substitute(r, false, s) == s { OthersPass(path, p, q, left, right, r); }
    MakesName(path, p, q, left, right);
    forall r | r in last ensures Substitute(r, false, q.from) == q.from { OthersKeepName(path, q, r); }
    PassMakesName(first, p, last, s, q.from);
  }

  /** A replacement in front of a replaced name brings that name about behind its turn. */
  lemma NameComesAbout(pairs: seq<Pair>, p: Pair, q: Pair, left: string, right: string)
    requires Table(pairs) && NoneHeld(PathPairs(pairs)) && p in PathPairs(pairs) && q in PathPairs(pairs)
    requires InFront(p.to, q.from) && Parts(p, q.from, left, right)
    ensures RewriteAll(PathPairs(pairs), PutBack(p, left, right)) == q.from
  {
    var path := PathPairs(pairs);
    NoneHeldIsLevel(pairs);
    var first, last := TurnOf(path, p, q);
    NameComesAboutIn(path, first, p, last, q, left, right);
  }

  lemma NameIsRewritten(pairs: seq<Pair>, q: Pair)
    requires Table(pairs) && q in PathPairs(pairs)
    ensures RewriteAll(PathPairs(pairs), q.from) != q.from
  {
    assert q.from[0..] == q.from;
    assert StandsIn(q.from, q.from);
    SettledIsClean(PathPairs(pairs), q.from);
  }

  /** As long as no replaced name stands in front of a replacement: idempotent on every text if and only if no replacement stands in front of a replaced name. */
  lemma PassIsExact(pairs: seq<Pair>)
    requires Table(pairs) && NoneHeld(PathPairs(pairs))
    ensures var path := PathPairs(pairs);
            NoneInFront(path) <==> forall s :: RewriteAll(path, RewriteAll(path, s)) == RewriteAll(path, s)
  {
    var path := PathPairs(pairs);
    if NoneInFront(path) {
      NoneInFrontIsTwoWay(pairs);
      forall s ensures RewriteAll(path, RewriteAll(path, s)) == RewriteAll(path, s) { RewritingIsIdempotent(path, s); }
    } else {
      var p, q :| p in path && q in path && InFront(p.to, q.from);
      var left, right := ReplacementInFront(p, q.from);
      NameComesAbout(pairs, p, q, left, right);
      NameIsRewritten(pairs, q);
    }
  }

  // ---------------------------------------------------------------- whole strings and values

  lemma NameIsReplaced(pairs: seq<Pair>, q: Pair)
    requires Distinct(pairs) && q in pairs
    ensures RewriteText(pairs, q.from) == q.to && RewriteKey(pairs, q.from) == q.to
  {
    ExactIsMembership(pairs, q.from, q.to);
  }

  lemma InFrontStands(x: string, n: string)
    requires InFront(x, n)
    ensures StandsIn(x, n)
  {
    var d: int :| 0 <= d && d + |x| < |n| && CanOverlap(x, n, d);
    assert forall k | 0 <= k < |x| :: n[d..][k] == n[k + d];
    assert n[d..][|x|] == n[d + |x|];
    assert Matches(d > 0 && WordChar(n[d - 1]), n[d..], x);
  }

  /** A replacement in which a replaced name stands is rewritten again. */
  lemma HeldIsRewrittenAgain(pairs: seq<Pair>, p: Pair, q: Pair)
    requires Table(pairs) && p in PathPairs(pairs) && q in PathPairs(pairs) && InFront(p.from, q.to)
    ensures RewriteText(pairs, q.from) == q.to && RewriteText(pairs, q.to) != q.to
  {
    NameIsReplaced(pairs, q);
    InFrontStands(p.from, q.to);
    SettledIsClean(PathPairs(pairs), q.to);
    ExactIsNoName(pairs, q);
  }

  lemma ExactIsNoName(pairs: seq<Pair>, q: Pair)
    requires Distinct(pairs) && q in pairs
    ensures Exact(pairs, q.to).None?
  {
    assert forall t: string :: Pair(q.to, t) !in pairs;
  }

  lemma PutBackIsNoName(pairs: seq<Pair>, p: Pair, q: Pair, left: string, right: string)
    requires Table(pairs) && NoneHeld(PathPairs(pairs)) && p in PathPairs(pairs) && q in PathPairs(pairs)
    requires Parts(p, q.from, left, right)
    ensures Exact(pairs, PutBack(p, left, right)).None?
  {
    var s := PutBack(p, left, right);
    assert s[0] == if left == "" then p.from[0] else q.from[0];
    if Exact(pairs, s).Some? {
      var r := Pair(s, Exact(pairs, s).value);
      assert r in PathPairs(pairs);
      NoneHeldIsLevel(pairs);
      assert s[0..] == s;
      assert MatchAt(r.from, s, 0);
      OnlyMatch(PathPairs(pairs), p, q, left, right, r, 0);
    }
  }

  /** The text with a replacement put back is turned into the name that holds it, and only the next pass replaces that. */
  lemma PutBackIsRewrittenTwice(pairs: seq<Pair>, p: Pair, q: Pair, left: string, right: string)
    requires Table(pairs) && NoneHeld(PathPairs(pairs)) && p in PathPairs(pairs) && q in PathPairs(pairs)
    requires InFront(p.to, q.from) && Parts(p, q.from, left, right)
    ensures RewriteText(pairs, PutBack(p, left, right)) == q.from && RewriteText(pairs, q.from) == q.to != q.from
  {
    PutBackIsNoName(pairs, p, q, left, right);
    NameComesAbout(pairs, p, q, left, right);
    NameIsReplaced(pairs, q);
  }

  /** A text no longer than the names of two pairs. */
  ghost predicate Short(pairs: seq<Pair>, s: string) {
    exists p, q | p in pairs && q in pairs :: |s| <= |p.from| + |q.from| + |q.to|
  }

  lemma ShortAsNames(pairs: seq<Pair>, p: Pair, q: Pair, s: string)
    requires p in pairs && q in pairs && |s| <= |p.from| + |q.from| + |q.to|
    ensures Short(pairs, s)
  {
  }

  /** Some short text is rewritten twice. */
  lemma SomeTextIsRewrittenTwice(pairs: seq<Pair>) returns (s: string)
    requires Table(pairs) && !NoneInFront(PathPairs(pairs))
    ensures RewriteText(pairs, RewriteText(pairs, s)) != RewriteText(pairs, s)
    ensures Short(pairs, s) && Short(pairs, RewriteText(pairs, s))
  {
    var path := PathPairs(pairs);
    var p, q;
    if NoneHeld(path) {
      p, q :| p in path && q in path && InFront(p.to, q.from);
      var left, right := ReplacementInFront(p, q.from);
      PutBackIsRewrittenTwice(pairs, p, q, left, right);
      s := PutBack(p, left, right);
    } else {
      p, q :| p in path && q in path && InFront(p.from, q.to);
      HeldIsRewrittenAgain(pairs, p, q);
      s := q.from;
    }
    ShortAsNames(pairs, p, q, s);
    ShortAsNames(pairs, p, q, RewriteText(pairs, s));
  }

  /** The second rewriting of a value changes nothing. */
  ghost predicate Repeatable(pairs: seq<Pair>, v: Json) {
    RewriteValue(pairs, v).Some? ==> RewriteValue(pairs, RewriteValue(pairs, v).value) == RewriteValue(pairs, v)
  }

  lemma CompatibleIsRepeatable(pairs: seq<Pair>, v: Json)
    requires Compatible(pairs)
    ensures Repeatable(pairs, v)
  {
    if RewriteValue(pairs, v).Some? { JsonRewritingIsIdempotent(pairs, v); }
  }

  lemma TwiceIsNotRepeatable(pairs: seq<Pair>, s: string)
    requires RewriteText(pairs, RewriteText(pairs, s)) != RewriteText(pairs, s)
    ensures !Repeatable(pairs, Text(s))
  {
  }

  /** Rewriting is idempotent on every persisted value if and only if no name stands in front of another. */
  lemma ValuesAreExact(pairs: seq<Pair>)
    requires Table(pairs)
    ensures NoneInFront(PathPairs(pairs)) <==> forall v :: Repeatable(pairs, v)
  {
    if NoneInFront(PathPairs(pairs)) {
      NoneInFrontIsTwoWay(pairs);
      forall v ensures Repeatable(pairs, v) { CompatibleIsRepeatable(pairs, v); }
    } else {
      var s := SomeTextIsRewrittenTwice(pairs);
      TwiceIsNotRepeatable(pairs, s);
    }
  }
}
