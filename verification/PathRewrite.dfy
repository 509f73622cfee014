/**
 Replacing known paths in text. A name is replaced where it stands at word boundaries, one
 pair after the other, each pair by a scan from left to right over the result of the last.
 */
module PathRewrite {
  import opened Basics

  datatype Pair = Pair(from: string, to: string)

  predicate WordChar(c: char) {
    'A' <= c <= 'Z' || 'a' <= c <= 'z' || '0' <= c <= '9' || c == '_' || c == '.' || c == '-'
  }

  ghost predicate AllWord(s: string) { s != "" && forall i | 0 <= i < |s| :: WordChar(s[i]) }

  /** `name` is a match at the start of `s`; `before` says whether a word character precedes it. */
  predicate Matches(before: bool, s: string, name: string) {
    !before && name <= s && (|s| > |name| ==> !WordChar(s[|name|]))
  }

  function LastIsWord(s: string): bool
    requires s != ""
  {
    WordChar(s[|s| - 1])
  }

  /** One pair: leftmost matches first, the scan going on behind each of them. */
  function Substitute(p: Pair, before: bool, s: string): string
    requires p.from != ""
    decreases |s|
  {
    if s == "" then ""
    else if Matches(before, s, p.from) then p.to + Substitute(p, LastIsWord(p.from), s[|p.from|..])
    else [s[0]] + Substitute(p, WordChar(s[0]), s[1..])
  }

  /** Both names end in the same kinds of characters, so replacing one leaves its neighbours' boundaries alone. */
  predicate Wellformed(p: Pair) {
    && p.from != "" && p.to != "" && p.from != p.to
    && WordChar(p.from[0]) == WordChar(p.to[0]) && LastIsWord(p.from) == LastIsWord(p.to)
  }

  ghost predicate AllWellformed(pairs: seq<Pair>) { forall p | p in pairs :: Wellformed(p) }

  /** Every pair in turn. */
  function RewriteAll(pairs: seq<Pair>, s: string): string
    requires forall p | p in pairs :: p.from != ""
  {
    if pairs == [] then s
    else Substitute(pairs[|pairs| - 1], false, RewriteAll(pairs[..|pairs| - 1], s))
  }

  method RewritePathReferences(value: string, pairs: seq<Pair>) returns (rewritten: string)
    requires forall p | p in pairs :: p.from != ""
    ensures rewritten == RewriteAll(pairs, value)
  {
    rewritten := value;
    for i := 0 to |pairs|
      invariant rewritten == RewriteAll(pairs[..i], value)
    {
      rewritten := Substitute(pairs[i], false, rewritten);
      assert pairs[..i + 1][..i] == pairs[..i];
    }
    assert pairs[..|pairs|] == pairs;
  }

  // ---------------------------------------------------------------- when names get in each other's way

  /** In some text `q` matches with its first character at position `d` of a match of `n`, the two sharing characters. */
  ghost predicate CanOverlap(q: string, n: string, d: int) {
    && -|q| < d < |n|
    && (forall k | 0 <= k < |q| && 0 <= k + d < |n| :: q[k] == n[k + d])
    && (d < 0 ==> !WordChar(q[-d - 1])) && (d > 0 ==> !WordChar(n[d - 1]))
    && (d + |q| > |n| ==> !WordChar(q[|n| - d])) && (d + |q| < |n| ==> !WordChar(n[d + |q|]))
  }

  ghost predicate Disjoint(q: string, n: string) { forall d: int :: !CanOverlap(q, n, d) }

  /** `q` cannot begin inside `n`. */
  ghost predicate Unstarted(q: string, n: string) { forall d: int | d >= 0 :: !CanOverlap(q, n, d) }

  /** `q` cannot begin where `n` begins, nor reach into it from the left. */
  ghost predicate Unreached(q: string, n: string) { forall d: int | d <= 0 :: !CanOverlap(q, n, d) }

  ghost predicate SelfDisjoint(n: string) { forall d: int :: CanOverlap(n, n, d) ==> d == 0 }

  /** No replaced name can share characters with another replaced name or with a replacement. */
  ghost predicate Apart(pairs: seq<Pair>) {
    && AllWellformed(pairs)
    && (forall p, q | p in pairs && q in pairs && p != q :: Disjoint(p.from, q.from))
    && (forall p, q | p in pairs && q in pairs :: Disjoint(p.from, q.to))
  }

  function Reversed(pairs: seq<Pair>): (r: seq<Pair>)
    ensures |r| == |pairs|
    ensures forall i | 0 <= i < |pairs| :: r[i] == Pair(pairs[i].to, pairs[i].from)
  {
    seq(|pairs|, i requires 0 <= i < |pairs| => Pair(pairs[i].to, pairs[i].from))
  }

  /** No two replacements can share characters either, so the way back is clear. */
  ghost predicate ApartBothWays(pairs: seq<Pair>) {
    && Apart(pairs)
    && (forall p, q | p in pairs && q in pairs && p != q :: Disjoint(p.to, q.to))
    && (forall p | p in pairs :: SelfDisjoint(p.to))
  }

  // ---------------------------------------------------------------- all pairs at once

  datatype Token = Kept(c: char) | Hit(pair: Pair)

  function FirstMatch(pairs: seq<Pair>, before: bool, s: string): (r: Option<Pair>)
    ensures r.Some? ==> r.value in pairs && Matches(before, s, r.value.from)
    ensures r.None? ==> forall p | p in pairs :: !Matches(before, s, p.from)
  {
    if pairs == [] then None
    else if Matches(before, s, pairs[0].from) then Some(pairs[0])
    else FirstMatch(pairs[1..], before, s)
  }

  /** The text after the matches of any pair have been replaced simultaneously. */
  function Simultaneous(pairs: seq<Pair>, before: bool, s: string): string
    requires forall p | p in pairs :: p.from != ""
    decreases |s|
  {
    if s == "" then ""
    else match FirstMatch(pairs, before, s)
      case Some(p) => p.to + Simultaneous(pairs, LastIsWord(p.from), s[|p.from|..])
      case None => [s[0]] + Simultaneous(pairs, WordChar(s[0]), s[1..])
  }

  lemma FirstClass(pairs: seq<Pair>, before: bool, s: string)
    requires AllWellformed(pairs)
    ensures s == "" <==> Simultaneous(pairs, before, s) == ""
    ensures s != "" ==> WordChar(Simultaneous(pairs, before, s)[0]) == WordChar(s[0])
  {
  }

  /** From position `k` of `q` on, the rewritten text continues with the rest of `q`, which ends at a boundary. */
  ghost predicate Continues(q: string, k: nat, x: string) {
    k <= |q| && q[k..] <= x && (|x| > |q| - k ==> !WordChar(x[|q| - k]))
  }

  /** Where the rest of a name would meet a replacement it overlaps it from the left. */
  lemma ReachesIntoHit(pairs: seq<Pair>, q: string, k: nat, before: bool, s: string, r: Pair)
    requires AllWellformed(pairs) && 0 < k < |q| && s != "" && FirstMatch(pairs, before, s) == Some(r)
    requires before == WordChar(q[k - 1])
    requires Continues(q, k, Simultaneous(pairs, before, s))
    ensures CanOverlap(q, r.to, 0 - k as int)
  {
    var x := Simultaneous(pairs, before, s);
    var rest := Simultaneous(pairs, LastIsWord(r.from), s[|r.from|..]);
    FirstClass(pairs, LastIsWord(r.from), s[|r.from|..]);
    assert x == r.to + rest;
    forall j | 0 <= j < |q| && 0 <= j - k < |r.to| ensures q[j] == r.to[j - k] {
      assert q[k..][j - k] == x[j - k];
    }
    if |q| - k > |r.to| { assert q[k..][|r.to|] == x[|r.to|]; }
  }

  /** A name that cannot reach into a replacement from the left and matches in the result was there before. */
  lemma {:induction false} MatchWasThere(pairs: seq<Pair>, q: string, k: nat, before: bool, s: string)
    requires AllWellformed(pairs) && k <= |q| && q != ""
    requires forall r, d: int | r in pairs && d < 0 :: !CanOverlap(q, r.to, d)
    requires k == 0 ==> s == "" || FirstMatch(pairs, before, s).None?
    requires k > 0 ==> before == WordChar(q[k - 1])
    requires Continues(q, k, Simultaneous(pairs, before, s))
    ensures Continues(q, k, s)
    decreases |q| - k
  {
    var x := Simultaneous(pairs, before, s);
    FirstClass(pairs, before, s);
    if k == |q| {
      return;
    }
    assert x[0] == q[k..][0] == q[k];
    match FirstMatch(pairs, before, s)
    case Some(r) =>
      ReachesIntoHit(pairs, q, k, before, s, r);
    case None =>
      var rest := Simultaneous(pairs, WordChar(s[0]), s[1..]);
      assert x == [s[0]] + rest && rest == x[1..];
      assert q[k + 1..] == q[k..][1..];
      MatchWasThere(pairs, q, k + 1, WordChar(s[0]), s[1..]);
      assert q[k..] == [q[k]] + q[k + 1..];
      assert s == [s[0]] + s[1..];
  }

  lemma NoNewMatch(pairs: seq<Pair>, q: string, before: bool, s: string)
    requires AllWellformed(pairs) && q != "" && s != "" && FirstMatch(pairs, before, s).None?
    requires forall r, d: int | r in pairs && d < 0 :: !CanOverlap(q, r.to, d)
    ensures Matches(before, Simultaneous(pairs, before, s), q) ==> Matches(before, s, q)
  {
    if Matches(before, Simultaneous(pairs, before, s), q) {
      assert q[0..] == q;
      MatchWasThere(pairs, q, 0, before, s);
    }
  }

  lemma MatchInsideOverlaps(q: string, n: string, d: nat, x: string)
    requires q != "" && d < |n| && (x == "" || !WordChar(x[0]))
    requires Matches(d > 0 && WordChar(n[d - 1]), n[d..] + x, q)
    ensures CanOverlap(q, n, d)
  {
    var s := n[d..] + x;
    forall k | 0 <= k < |q| && 0 <= k + d < |n| ensures q[k] == n[k + d] { assert q[k] == s[k]; }
    if d + |q| > |n| { assert q[|n| - d] == s[|n| - d] == x[0]; }
    if d + |q| < |n| { assert s[|q|] == n[d + |q|]; }
  }

  /** Nowhere in `y`, followed by `x`, does the name match. */
  predicate NoMatchIn(q: string, before: bool, y: string, x: string)
    decreases |y|
  {
    y == "" || (!Matches(before, y + x, q) && NoMatchIn(q, WordChar(y[0]), y[1..], x))
  }

  lemma {:induction false} UnstartedNoMatchFrom(q: string, n: string, d: nat, x: string)
    requires q != "" && d <= |n| && Unstarted(q, n) && (x == "" || !WordChar(x[0]))
    ensures NoMatchIn(q, d > 0 && WordChar(n[d - 1]), n[d..], x)
    decreases |n| - d
  {
    if d < |n| {
      if Matches(d > 0 && WordChar(n[d - 1]), n[d..] + x, q) { MatchInsideOverlaps(q, n, d, x); }
      assert n[d..][1..] == n[d + 1..];
      UnstartedNoMatchFrom(q, n, d + 1, x);
    }
  }

  lemma UnstartedNoMatch(q: string, n: string, x: string)
    requires q != "" && n != "" && Unstarted(q, n) && (x == "" || !WordChar(x[0]))
    ensures NoMatchIn(q, false, n, x)
  {
    UnstartedNoMatchFrom(q, n, 0, x);
    assert n[0..] == n;
  }

  /** A scan passes over text in which its name does not match. */
  lemma {:induction false} ScanPast(p: Pair, before: bool, y: string, x: string)
    requires p.from != "" && NoMatchIn(p.from, before, y, x)
    ensures Substitute(p, before, y + x) == y + Substitute(p, if y == "" then before else LastIsWord(y), x)
    decreases |y|
  {
    if y == "" {
      assert y + x == x;
    } else {
      assert (y + x)[1..] == y[1..] + x;
      ScanPast(p, WordChar(y[0]), y[1..], x);
      ScanOne(p, before, y, x, Substitute(p, LastIsWord(y), x));
    }
  }

  lemma ScanOne(p: Pair, before: bool, y: string, x: string, z: string)
    requires p.from != "" && y != "" && (y + x)[1..] == y[1..] + x && !Matches(before, y + x, p.from)
    requires Substitute(p, WordChar(y[0]), y[1..] + x) == y[1..] + z
    ensures Substitute(p, before, y + x) == y + z
  {
    assert [y[0]] + (y[1..] + z) == y + z;
  }

  lemma SkipReplacement(p: Pair, n: string, x: string)
    requires p.from != "" && n != "" && Disjoint(p.from, n)
    requires x == "" || !WordChar(x[0])
    ensures Substitute(p, false, n + x) == n + Substitute(p, LastIsWord(n), x)
  {
    UnstartedNoMatch(p.from, n, x);
    ScanPast(p, false, n, x);
  }

  // ---------------------------------------------------------------- the fold is simultaneous

  /** What can be said about the text behind a match, before and after rewriting. */
  lemma BehindMatch(pairs: seq<Pair>, before: bool, s: string, name: string)
    requires AllWellformed(pairs) && name != "" && Matches(before, s, name)
    ensures var x := Simultaneous(pairs, LastIsWord(name), s[|name|..]); x == "" || !WordChar(x[0])
    ensures s == name + s[|name|..]
  {
    FirstClass(pairs, LastIsWord(name), s[|name|..]);
  }

  /** Two matches at the same place overlap. */
  lemma SamePlaceOverlaps(p: string, q: string, before: bool, s: string)
    requires p != "" && q != "" && Matches(before, s, p) && Matches(before, s, q)
    ensures CanOverlap(p, q, 0)
  {
    forall k | 0 <= k < |p| && k < |q| ensures p[k] == q[k] { assert p[k] == s[k] && q[k] == s[k]; }
    if |p| < |q| { assert s[|p|] == q[|p|]; }
    if |p| > |q| { assert s[|q|] == p[|q|]; }
  }

  ghost predicate NoneMatchIn(pairs: seq<Pair>, before: bool, y: string, x: string) {
    forall r | r in pairs :: NoMatchIn(r.from, before, y, x)
  }

  lemma NoneMatchBehind(pairs: seq<Pair>, before: bool, y: string, x: string)
    requires y != "" && NoneMatchIn(pairs, before, y, x)
    ensures NoneMatchIn(pairs, WordChar(y[0]), y[1..], x) && FirstMatch(pairs, before, y + x).None?
    ensures (y + x)[1..] == y[1..] + x
  {
    assert forall r | r in pairs :: NoMatchIn(r.from, before, y, x);
  }

  lemma KeepsOne(pairs: seq<Pair>, before: bool, y: string, x: string, z: string)
    requires AllWellformed(pairs) && y != "" && (y + x)[1..] == y[1..] + x
    requires FirstMatch(pairs, before, y + x).None?
    requires Simultaneous(pairs, WordChar(y[0]), y[1..] + x) == y[1..] + z
    ensures Simultaneous(pairs, before, y + x) == y + z
  {
    assert [y[0]] + (y[1..] + z) == y + z;
  }

  /** Inside a match of another name none of the pairs matches: the scan keeps it whole. */
  lemma {:induction false} KeepsWhole(pairs: seq<Pair>, before: bool, y: string, x: string)
    requires AllWellformed(pairs) && NoneMatchIn(pairs, before, y, x)
    ensures Simultaneous(pairs, before, y + x) == y + Simultaneous(pairs, if y == "" then before else LastIsWord(y), x)
    decreases |y|
  {
    if y == "" {
      assert y + x == x;
    } else {
      NoneMatchBehind(pairs, before, y, x);
      KeepsWhole(pairs, WordChar(y[0]), y[1..], x);
      KeepsOne(pairs, before, y, x, Simultaneous(pairs, LastIsWord(y), x));
    }
  }

  lemma FirstMatchWithLast(pairs: seq<Pair>, p: Pair, before: bool, s: string)
    ensures
      FirstMatch(pairs + [p], before, s) ==
      match FirstMatch(pairs, before, s)
        case Some(r) => Some(r)
        case None => if Matches(before, s, p.from) then Some(p) else None
  {
    if pairs == [] {
      assert pairs + [p] == [p] && [p][1..] == [];
    } else {
      assert (pairs + [p])[1..] == pairs[1..] + [p];
      FirstMatchWithLast(pairs[1..], p, before, s);
    }
  }

  /** The next pair does not meddle with what the pairs before it did. */
  ghost predicate KeepsClear(pairs: seq<Pair>, p: Pair) {
    && AllWellformed(pairs) && Wellformed(p)
    && (forall r | r in pairs :: Disjoint(r.from, p.from) && Disjoint(p.from, r.to))
  }

  lemma {:induction false} StepIsSimultaneous(pairs: seq<Pair>, p: Pair, before: bool, s: string)
    requires KeepsClear(pairs, p)
    ensures Substitute(p, before, Simultaneous(pairs, before, s)) == Simultaneous(pairs + [p], before, s)
    decreases |s|
  {
    if s == "" {
      return;
    }
    FirstMatchWithLast(pairs, p, before, s);
    match FirstMatch(pairs, before, s)
    case Some(r) =>
      BehindMatch(pairs, before, s, r.from);
      SkipReplacement(p, r.to, Simultaneous(pairs, LastIsWord(r.from), s[|r.from|..]));
      StepIsSimultaneous(pairs, p, LastIsWord(r.from), s[|r.from|..]);
    case None =>
      if Matches(before, s, p.from) {
        StepAtMatch(pairs, p, before, s);
        StepIsSimultaneous(pairs, p, LastIsWord(p.from), s[|p.from|..]);
      } else {
        NoNewMatch(pairs, p.from, before, s);
        var x := Simultaneous(pairs, WordChar(s[0]), s[1..]);
        assert ([s[0]] + x)[1..] == x;
        StepIsSimultaneous(pairs, p, WordChar(s[0]), s[1..]);
      }
  }

  lemma StepAtMatch(pairs: seq<Pair>, p: Pair, before: bool, s: string)
    requires KeepsClear(pairs, p) && Matches(before, s, p.from)
    ensures
      Substitute(p, before, Simultaneous(pairs, before, s)) ==
      p.to + Substitute(p, LastIsWord(p.from), Simultaneous(pairs, LastIsWord(p.from), s[|p.from|..]))
  {
    var rest := s[|p.from|..];
    BehindMatch(pairs, before, s, p.from);
    forall r | r in pairs ensures NoMatchIn(r.from, false, p.from, rest) { UnstartedNoMatch(r.from, p.from, rest); }
    KeepsWhole(pairs, false, p.from, rest);
    var x := Simultaneous(pairs, LastIsWord(p.from), rest);
    assert Simultaneous(pairs, before, s) == p.from + x;
    assert (p.from + x)[|p.from|..] == x;
  }

  lemma {:induction false} SimultaneousNothing(before: bool, s: string)
    ensures Simultaneous([], before, s) == s
    decreases |s|
  {
    if s != "" { SimultaneousNothing(WordChar(s[0]), s[1..]); }
  }

  lemma PrefixApart(pairs: seq<Pair>, i: nat)
    requires Apart(pairs) && i < |pairs|
    requires forall j | 0 <= j < |pairs| && j != i :: pairs[j] != pairs[i]
    ensures KeepsClear(pairs[..i], pairs[i])
  {
    forall r | r in pairs[..i] ensures Disjoint(r.from, pairs[i].from) && Disjoint(pairs[i].from, r.to) {}
  }

  ghost predicate NoRepeats(pairs: seq<Pair>) {
    forall i, j | 0 <= i < j < |pairs| :: pairs[i] != pairs[j]
  }

  /** Pair after pair, or all pairs at once: the same text. */
  lemma {:induction false} FoldIsSimultaneous(pairs: seq<Pair>, s: string)
    requires Apart(pairs) && NoRepeats(pairs)
    ensures RewriteAll(pairs, s) == Simultaneous(pairs, false, s)
    decreases |pairs|
  {
    if pairs == [] {
      SimultaneousNothing(false, s);
    } else {
      var n := |pairs| - 1;
      FoldIsSimultaneous(pairs[..n], s);
      PrefixApart(pairs, n);
      StepIsSimultaneous(pairs[..n], pairs[n], false, s);
      assert pairs[..n] + [pairs[n]] == pairs;
    }
  }

  lemma SameMatch(a: seq<Pair>, b: seq<Pair>, before: bool, s: string)
    requires Apart(a) && Apart(b) && (forall p :: p in a <==> p in b)
    ensures FirstMatch(a, before, s) == FirstMatch(b, before, s)
  {
    var ra, rb := FirstMatch(a, before, s), FirstMatch(b, before, s);
    if ra.Some? && rb.Some? && ra != rb {
      SamePlaceOverlaps(ra.value.from, rb.value.from, before, s);
    }
  }

  lemma {:induction false} SimultaneousIgnoresOrder(a: seq<Pair>, b: seq<Pair>, before: bool, s: string)
    requires Apart(a) && Apart(b) && (forall p :: p in a <==> p in b)
    ensures Simultaneous(a, before, s) == Simultaneous(b, before, s)
    decreases |s|
  {
    if s != "" {
      SameMatch(a, b, before, s);
      match FirstMatch(a, before, s)
      case Some(p) => SimultaneousIgnoresOrder(a, b, LastIsWord(p.from), s[|p.from|..]);
      case None => SimultaneousIgnoresOrder(a, b, WordChar(s[0]), s[1..]);
    }
  }

  /** Sorting by length leaves pairs of one length in any order; the result does not depend on it. */
  lemma OrderIsIrrelevant(a: seq<Pair>, b: seq<Pair>, s: string)
    requires Apart(a) && NoRepeats(a) && Apart(b) && NoRepeats(b) && (forall p :: p in a <==> p in b)
    ensures RewriteAll(a, s) == RewriteAll(b, s)
  {
    FoldIsSimultaneous(a, s);
    FoldIsSimultaneous(b, s);
    SimultaneousIgnoresOrder(a, b, false, s);
  }

  // ---------------------------------------------------------------- idempotence

  lemma {:induction false} NothingLeft(pairs: seq<Pair>, p: Pair, before: bool, s: string)
    requires Apart(pairs) && p in pairs
    ensures Substitute(p, before, Simultaneous(pairs, before, s)) == Simultaneous(pairs, before, s)
    decreases |s|
  {
    if s == "" {
      return;
    }
    match FirstMatch(pairs, before, s)
    case Some(r) =>
      BehindMatch(pairs, before, s, r.from);
      SkipReplacement(p, r.to, Simultaneous(pairs, LastIsWord(r.from), s[|r.from|..]));
      NothingLeft(pairs, p, LastIsWord(r.from), s[|r.from|..]);
    case None =>
      NoNewMatch(pairs, p.from, before, s);
      var x := Simultaneous(pairs, WordChar(s[0]), s[1..]);
      assert ([s[0]] + x)[1..] == x;
      NothingLeft(pairs, p, WordChar(s[0]), s[1..]);
  }

  lemma {:induction false} NothingLeftForAny(pairs: seq<Pair>, i: nat, s: string)
    requires Apart(pairs) && i <= |pairs|
    ensures RewriteAll(pairs[..i], Simultaneous(pairs, false, s)) == Simultaneous(pairs, false, s)
  {
    if i > 0 {
      NothingLeftForAny(pairs, i - 1, s);
      assert pairs[..i][..i - 1] == pairs[..i - 1];
      NothingLeft(pairs, pairs[i - 1], false, s);
    }
  }

  /** Rewriting rewritten text changes nothing. */
  lemma RewritingIsIdempotent(pairs: seq<Pair>, s: string)
    requires Apart(pairs) && NoRepeats(pairs)
    ensures RewriteAll(pairs, RewriteAll(pairs, s)) == RewriteAll(pairs, s)
  {
    FoldIsSimultaneous(pairs, s);
    NothingLeftForAny(pairs, |pairs|, s);
    assert pairs[..|pairs|] == pairs;
  }

  // ---------------------------------------------------------------- and back again

  /** No match of a replacement stands anywhere in the text. */
  ghost predicate FreeOf(pairs: seq<Pair>, before: bool, s: string) {
    forall i, p | 0 <= i < |s| && p in pairs :: !Matches(if i == 0 then before else WordChar(s[i - 1]), s[i..], p.to)
  }

  lemma FreeBehind(pairs: seq<Pair>, before: bool, s: string, k: nat)
    requires FreeOf(pairs, before, s) && 0 < k <= |s|
    ensures FreeOf(pairs, WordChar(s[k - 1]), s[k..])
  {
    forall i, p | 0 <= i < |s[k..]| && p in pairs
      ensures !Matches(if i == 0 then WordChar(s[k - 1]) else WordChar(s[k..][i - 1]), s[k..][i..], p.to)
    {
      assert s[k..][i..] == s[k + i..];
      assert !Matches(WordChar(s[k + i - 1]), s[k + i..], p.to);
    }
  }

  lemma ReversedPairs(pairs: seq<Pair>)
    ensures forall p: Pair :: p in pairs <==> Pair(p.to, p.from) in Reversed(pairs)
    ensures AllWellformed(pairs) ==> AllWellformed(Reversed(pairs))
  {
    forall p | p in pairs ensures Pair(p.to, p.from) in Reversed(pairs) {
      var i :| 0 <= i < |pairs| && pairs[i] == p;
      assert Reversed(pairs)[i] == Pair(p.to, p.from);
    }
    forall p: Pair | Pair(p.to, p.from) in Reversed(pairs) ensures p in pairs {
      var i :| 0 <= i < |pairs| && Reversed(pairs)[i] == Pair(p.to, p.from);
      assert pairs[i] == p;
    }
    forall q | q in Reversed(pairs) && AllWellformed(pairs) ensures Wellformed(q) {
      assert Pair(q.to, q.from) in pairs;
    }
  }

  lemma OverlapIsMutual(q: string, n: string, d: int)
    requires CanOverlap(q, n, d)
    ensures CanOverlap(n, q, -d)
  {
    forall k | 0 <= k < |n| && 0 <= k - d < |q| ensures n[k] == q[k - d] { assert q[k - d] == n[(k - d) + d]; }
  }

  lemma ReversedApart(pairs: seq<Pair>)
    requires ApartBothWays(pairs)
    ensures Apart(Reversed(pairs))
  {
    ReversedPairs(pairs);
    forall p, q | p in Reversed(pairs) && q in Reversed(pairs) ensures Disjoint(p.from, q.to) {
      forall d: int ensures !CanOverlap(p.from, q.to, d) {
        assert Pair(q.to, q.from) in pairs && Pair(p.to, p.from) in pairs;
        assert Disjoint(Pair(q.to, q.from).from, Pair(p.to, p.from).to);
        if CanOverlap(p.from, q.to, d) { OverlapIsMutual(p.from, q.to, d); }
      }
    }
    forall p, q | p in Reversed(pairs) && q in Reversed(pairs) && p != q ensures Disjoint(p.from, q.from) {
      assert Pair(q.to, q.from) in pairs && Pair(p.to, p.from) in pairs && Pair(q.to, q.from) != Pair(p.to, p.from);
      assert Disjoint(Pair(p.to, p.from).to, Pair(q.to, q.from).to);
    }
  }

  lemma UndoAtHit(pairs: seq<Pair>, before: bool, r: Pair, x: string)
    requires ApartBothWays(pairs) && r in pairs && !before && (x == "" || !WordChar(x[0]))
    ensures FirstMatch(Reversed(pairs), before, r.to + x) == Some(Pair(r.to, r.from))
  {
    ReversedPairs(pairs);
    assert Matches(before, r.to + x, r.to);
    var q := FirstMatch(Reversed(pairs), before, r.to + x);
    assert Pair(r.to, r.from) in Reversed(pairs);
    if q.value != Pair(r.to, r.from) {
      var p := Pair(q.value.to, q.value.from);
      assert p in pairs && p != r;
      assert Disjoint(p.to, r.to);
      SamePlaceOverlaps(p.to, r.to, before, r.to + x);
    }
  }

  lemma UndoNoMatch(pairs: seq<Pair>, before: bool, s: string)
    requires ApartBothWays(pairs) && s != "" && FirstMatch(pairs, before, s).None? && FreeOf(pairs, before, s)
    ensures FirstMatch(Reversed(pairs), before, Simultaneous(pairs, before, s)).None?
  {
    ReversedPairs(pairs);
    forall q | q in Reversed(pairs) ensures !Matches(before, Simultaneous(pairs, before, s), q.from) {
      var p := Pair(q.to, q.from);
      assert p in pairs;
      forall r, d: int | r in pairs && d < 0 ensures !CanOverlap(q.from, r.to, d) {
        if r != p { assert Disjoint(p.to, r.to); }
      }
      NoNewMatch(pairs, q.from, before, s);
      assert s[0..] == s;
    }
  }

  lemma UndoHitStep(pairs: seq<Pair>, before: bool, s: string, r: Pair)
    requires ApartBothWays(pairs) && s != "" && FirstMatch(pairs, before, s) == Some(r)
    ensures AllWellformed(Reversed(pairs)) && s == r.from + s[|r.from|..]
    ensures
      var x := Simultaneous(pairs, LastIsWord(r.from), s[|r.from|..]);
      Simultaneous(Reversed(pairs), before, Simultaneous(pairs, before, s)) == r.from + Simultaneous(Reversed(pairs), LastIsWord(r.from), x)
  {
    ReversedPairs(pairs);
    var x := Simultaneous(pairs, LastIsWord(r.from), s[|r.from|..]);
    BehindMatch(pairs, before, s, r.from);
    UndoAtHit(pairs, before, r, x);
    assert Simultaneous(pairs, before, s) == r.to + x;
    assert (r.to + x)[|r.to|..] == x;
  }

  lemma UndoKeptStep(pairs: seq<Pair>, before: bool, s: string)
    requires ApartBothWays(pairs) && s != "" && FirstMatch(pairs, before, s).None? && FreeOf(pairs, before, s)
    ensures AllWellformed(Reversed(pairs)) && s == [s[0]] + s[1..]
    ensures
      var x := Simultaneous(pairs, WordChar(s[0]), s[1..]);
      Simultaneous(Reversed(pairs), before, Simultaneous(pairs, before, s)) == [s[0]] + Simultaneous(Reversed(pairs), WordChar(s[0]), x)
  {
    ReversedPairs(pairs);
    UndoNoMatch(pairs, before, s);
    var x := Simultaneous(pairs, WordChar(s[0]), s[1..]);
    assert Simultaneous(pairs, before, s) == [s[0]] + x;
    assert ([s[0]] + x)[1..] == x;
  }

  lemma {:induction false} SimultaneousUndone(pairs: seq<Pair>, before: bool, s: string)
    requires ApartBothWays(pairs) && FreeOf(pairs, before, s)
    ensures AllWellformed(Reversed(pairs))
    ensures Simultaneous(Reversed(pairs), before, Simultaneous(pairs, before, s)) == s
    decreases |s|
  {
    ReversedPairs(pairs);
    if s == "" {
      return;
    }
    match FirstMatch(pairs, before, s)
    case Some(r) =>
      FreeBehind(pairs, before, s, |r.from|);
      UndoHitStep(pairs, before, s, r);
      SimultaneousUndone(pairs, LastIsWord(r.from), s[|r.from|..]);
    case None =>
      FreeBehind(pairs, before, s, 1);
      UndoKeptStep(pairs, before, s);
      SimultaneousUndone(pairs, WordChar(s[0]), s[1..]);
  }

  lemma SameSetApart(a: seq<Pair>, b: seq<Pair>)
    requires Apart(a) && forall p :: p in a <==> p in b
    ensures Apart(b)
  {
  }

  /** Reverse after forward restores every text that holds no replacement name, in whatever order the pairs are tried. */
  lemma ReverseUndoesForward(pairs: seq<Pair>, back: seq<Pair>, s: string)
    requires ApartBothWays(pairs) && NoRepeats(pairs) && FreeOf(pairs, false, s)
    requires NoRepeats(back) && forall p :: p in back <==> p in Reversed(pairs)
    ensures AllWellformed(back)
    ensures RewriteAll(back, RewriteAll(pairs, s)) == s
  {
    FoldIsSimultaneous(pairs, s);
    ReversedApart(pairs);
    SameSetApart(Reversed(pairs), back);
    FoldIsSimultaneous(back, Simultaneous(pairs, false, s));
    SimultaneousIgnoresOrder(back, Reversed(pairs), false, Simultaneous(pairs, false, s));
    SimultaneousUndone(pairs, false, s);
  }

  // ---------------------------------------------------------------- where it fails

  const LONGER := Pair("/y/b", "/z")
  const SHORTER := Pair("/x", "/y")

  lemma FirstPassOnStraddle()
    ensures RewriteAll([LONGER, SHORTER], "/x/b") == "/y/b"
  {
    var s := "/x/b";
    assert [LONGER, SHORTER][..1] == [LONGER] && [LONGER][..0] == [];
    assert s[1..] == "x/b" && "x/b"[1..] == "/b" && "/b"[1..] == "b" && "b"[1..] == "";
    assert Substitute(LONGER, false, "b") == "b" && Substitute(LONGER, true, "/b") == "/b";
    assert Substitute(LONGER, false, "x/b") == "x" + "/b" && Substitute(LONGER, false, s) == "/" + "x/b";
    assert s[|SHORTER.from|..] == "/b";
    assert Substitute(SHORTER, false, "b") == "b" && Substitute(SHORTER, true, "/b") == "/b";
    assert Substitute(SHORTER, false, s) == "/y" + "/b";
    assert RewriteAll([LONGER], s) == Substitute(LONGER, false, s) == s;
    assert RewriteAll([LONGER, SHORTER], s) == Substitute(SHORTER, false, RewriteAll([LONGER], s));
  }

  lemma SecondPassOnStraddle()
    ensures RewriteAll([LONGER, SHORTER], "/y/b") == "/z"
  {
    var t := "/y/b";
    assert [LONGER, SHORTER][..1] == [LONGER] && [LONGER][..0] == [];
    assert t[|LONGER.from|..] == "" && Matches(false, t, LONGER.from);
    assert Substitute(LONGER, false, t) == "/z" + "" == "/z";
    assert "/z"[1..] == "z" && "z"[1..] == "";
    assert !Matches(false, "/z", SHORTER.from) by { assert "/z"[1] != SHORTER.from[1]; }
    assert Substitute(SHORTER, false, "z") == "z" && Substitute(SHORTER, false, "/z") == "/" + "z";
    assert RewriteAll([LONGER], t) == Substitute(LONGER, false, t);
    assert RewriteAll([LONGER, SHORTER], t) == Substitute(SHORTER, false, RewriteAll([LONGER], t));
  }

  /** The name matches somewhere in the text. */
  predicate StandsIn(name: string, s: string) {
    exists i :: 0 <= i < |s| && Matches(i > 0 && WordChar(s[i - 1]), s[i..], name)
  }

  lemma TooLongToStandIn(name: string, s: string)
    requires |name| > |s|
    ensures !StandsIn(name, s)
  {
  }

  lemma NoSuchLetter(s: string)
    requires 'x' !in s
    ensures !StandsIn(SHORTER.from, s)
  {
    forall i | 0 <= i < |s| ensures !(SHORTER.from <= s[i..]) {
      assert |s[i..]| >= 2 ==> s[i..][1] == s[i + 1];
    }
  }

  /** No replaced name stands inside another name or a replacement, yet the second pass goes on. */
  lemma StraddlingNamesAreRewrittenTwice()
    ensures
      var pairs := [LONGER, SHORTER];
      && RewriteAll(pairs, RewriteAll(pairs, "/x/b")) != RewriteAll(pairs, "/x/b")
      && !StandsIn(LONGER.from, SHORTER.from) && !StandsIn(LONGER.from, SHORTER.to) && !StandsIn(LONGER.from, LONGER.to)
      && !StandsIn(SHORTER.from, LONGER.from) && !StandsIn(SHORTER.from, LONGER.to) && !StandsIn(SHORTER.from, SHORTER.to)
      && !Disjoint(LONGER.from, SHORTER.to)
  {
    FirstPassOnStraddle();
    SecondPassOnStraddle();
    TooLongToStandIn(LONGER.from, SHORTER.from);
    TooLongToStandIn(LONGER.from, SHORTER.to);
    TooLongToStandIn(LONGER.from, LONGER.to);
    NoSuchLetter(LONGER.from);
    NoSuchLetter(LONGER.to);
    NoSuchLetter(SHORTER.to);
    assert CanOverlap(LONGER.from, SHORTER.to, 0);
  }

  // ---------------------------------------------------------------- the exact condition for one pair

  /** With one pair text only ever grows, or only ever shrinks. */
  lemma {:induction false} LengthMoves(p: Pair, before: bool, s: string)
    requires p.from != ""
    ensures |p.to| <= |p.from| ==> |Substitute(p, before, s)| <= |s|
    ensures |p.to| >= |p.from| ==> |Substitute(p, before, s)| >= |s|
    decreases |s|
  {
    if s == "" {
    } else if Matches(before, s, p.from) {
      LengthMoves(p, LastIsWord(p.from), s[|p.from|..]);
    } else {
      LengthMoves(p, WordChar(s[0]), s[1..]);
    }
  }

  lemma MatchChanges(p: Pair, before: bool, s: string)
    requires Wellformed(p) && Matches(before, s, p.from)
    ensures Substitute(p, before, s) != s
  {
    LengthMoves(p, LastIsWord(p.from), s[|p.from|..]);
    var t := Substitute(p, before, s);
    assert t[..|p.to|] == p.to && s[..|p.from|] == p.from;
  }

  /** Text in which the name matches anywhere is changed. */
  lemma {:induction false} MatchAnywhereChanges(p: Pair, before: bool, s: string, i: nat)
    requires Wellformed(p) && i < |s| && Matches(if i == 0 then before else WordChar(s[i - 1]), s[i..], p.from)
    ensures Substitute(p, before, s) != s
    decreases i
  {
    if Matches(before, s, p.from) {
      MatchChanges(p, before, s);
    } else {
      assert s[0..] == s;
      assert s[1..][i - 1..] == s[i..];
      MatchAnywhereChanges(p, WordChar(s[0]), s[1..], i - 1);
      assert ([s[0]] + Substitute(p, WordChar(s[0]), s[1..]))[1..] == Substitute(p, WordChar(s[0]), s[1..]);
    }
  }

  lemma {:induction false} ShortTextHasNoMatch(q: string, before: bool, y: string)
    requires |y| < |q|
    ensures NoMatchIn(q, before, y, "")
    decreases |y|
  {
    if y != "" { ShortTextHasNoMatch(q, WordChar(y[0]), y[1..]); }
  }

  /** What stands left and right of a replacement that a name reaches beyond. */
  function LeftOver(q: string, d: int): string
    requires -|q| < d
  {
    if d < 0 then q[..-d] else ""
  }

  function RightOver(q: string, n: string, d: int): string
    requires -|q| < d < |n|
  {
    if d + |q| > |n| then q[|n| - d..] else ""
  }

  /** A match that begins left of a match of the same name would make the name overlap itself. */
  lemma MatchFromTheLeft(q: string, left: string, right: string, j: nat)
    requires q != "" && left != "" && left <= q && j < |left| && !LastIsWord(left) && |left| < |q|
    requires Matches(j > 0 && WordChar(left[j - 1]), left[j..] + (q + right), q)
    ensures CanOverlap(q, q, j - |left|)
  {
    var e := |left| - j;
    var s := left[j..] + (q + right);
    assert |left[j..]| == e;
    forall k | e <= k < |q| ensures q[k] == q[k - e] { assert q[k] == s[k] == q[k - e]; }
    assert q[e - 1] == s[e - 1] == left[|left| - 1];
    assert s[|q|] == q[|q| - e];
  }

  lemma {:induction false} NoMatchOnTheLeft(q: string, left: string, right: string, j: nat)
    requires q != "" && SelfDisjoint(q) && left <= q && j <= |left| < |q| && (left != "" ==> !LastIsWord(left))
    ensures NoMatchIn(q, j > 0 && WordChar(left[j - 1]), left[j..], q + right)
    decreases |left| - j
  {
    if j < |left| {
      if Matches(j > 0 && WordChar(left[j - 1]), left[j..] + (q + right), q) { MatchFromTheLeft(q, left, right, j); }
      assert left[j..][1..] == left[j + 1..];
      NoMatchOnTheLeft(q, left, right, j + 1);
    }
  }

  lemma FirstPassPlantsMatch(p: Pair, d: int)
    requires Wellformed(p) && SelfDisjoint(p.from) && CanOverlap(p.from, p.to, d)
    ensures var left, right := LeftOver(p.from, d), RightOver(p.from, p.to, d);
            Substitute(p, false, left + (p.from + right)) == left + (p.to + right)
  {
    var left, right := LeftOver(p.from, d), RightOver(p.from, p.to, d);
    NoMatchOnTheLeft(p.from, left, right, 0);
    assert left[0..] == left;
    ScanPast(p, false, left, p.from + right);
    assert left != "" ==> !LastIsWord(left);
    assert Matches(false, p.from + right, p.from);
    assert (p.from + right)[|p.from|..] == right;
    ShortTextHasNoMatch(p.from, LastIsWord(p.from), right);
    ScanPast(p, LastIsWord(p.from), right, "");
    assert right + "" == right;
  }

  lemma PlantedMatch(q: string, n: string, d: int)
    requires q != "" && n != "" && CanOverlap(q, n, d)
    ensures var left, right := LeftOver(q, d), RightOver(q, n, d);
            var u := left + (n + right);
            var i := if d < 0 then 0 else d;
            i < |u| && Matches(if i == 0 then false else WordChar(u[i - 1]), u[i..], q)
  {
    var left, right := LeftOver(q, d), RightOver(q, n, d);
    var u := left + (n + right);
    if d < 0 {
      assert u[0..] == u;
      PlantedFromLeft(q, n, d);
    } else {
      PlantedInside(q, n, d);
      assert left + (n + right) == n + right;
    }
  }

  lemma PlantedFromLeft(q: string, n: string, d: int)
    requires q != "" && CanOverlap(q, n, d) && d < 0
    ensures Matches(false, q[..-d] + (n + RightOver(q, n, d)), q)
  {
    var right := RightOver(q, n, d);
    var u := q[..-d] + (n + right);
    forall k | -d <= k < |q| ensures u[k] == q[k] { assert u[k] == (n + right)[k + d]; }
    assert u[..|q|] == q;
    if |u| > |q| { assert u[|q|] == n[|q| + d]; }
  }

  lemma PlantedInside(q: string, n: string, d: nat)
    requires q != "" && CanOverlap(q, n, d)
    ensures Matches(d > 0 && WordChar(n[d - 1]), (n + RightOver(q, n, d))[d..], q)
  {
    var right := RightOver(q, n, d);
    var v := (n + right)[d..];
    forall k | 0 <= k < |q| ensures v[k] == q[k] { assert v[k] == (n + right)[k + d]; }
    assert v[..|q|] == q;
    if |v| > |q| { assert v[|q|] == n[d + |q|]; }
  }

  lemma PlantedMatchIsChanged(p: Pair, d: int)
    requires Wellformed(p) && CanOverlap(p.from, p.to, d)
    ensures var u := LeftOver(p.from, d) + (p.to + RightOver(p.from, p.to, d));
            Substitute(p, false, u) != u
  {
    PlantedMatch(p.from, p.to, d);
    MatchAnywhereChanges(p, false, LeftOver(p.from, d) + (p.to + RightOver(p.from, p.to, d)), if d < 0 then 0 else d);
  }

  lemma PlantedMatchIsRewritten(p: Pair, d: int)
    requires Wellformed(p) && SelfDisjoint(p.from) && CanOverlap(p.from, p.to, d)
    ensures var s := LeftOver(p.from, d) + (p.from + RightOver(p.from, p.to, d));
            Substitute(p, false, Substitute(p, false, s)) != Substitute(p, false, s)
  {
    FirstPassPlantsMatch(p, d);
    PlantedMatchIsChanged(p, d);
  }

  lemma OnePairSettles(p: Pair, s: string)
    requires Wellformed(p) && SelfDisjoint(p.from) && Disjoint(p.from, p.to)
    ensures Substitute(p, false, Substitute(p, false, s)) == Substitute(p, false, s)
  {
    RewritingIsIdempotent([p], s);
    assert [p][..0] == [];
    assert RewriteAll([p], s) == Substitute(p, false, s);
    assert RewriteAll([p], Substitute(p, false, s)) == Substitute(p, false, Substitute(p, false, s));
  }

  /** For one pair whose name cannot overlap itself: idempotent on every text if and only if the name cannot reach into the replacement. */
  lemma OnePairIsExact(p: Pair)
    requires Wellformed(p) && SelfDisjoint(p.from)
    ensures Disjoint(p.from, p.to) <==> forall s :: Substitute(p, false, Substitute(p, false, s)) == Substitute(p, false, s)
  {
    if Disjoint(p.from, p.to) {
      forall s ensures Substitute(p, false, Substitute(p, false, s)) == Substitute(p, false, s) { OnePairSettles(p, s); }
    } else {
      var d: int :| CanOverlap(p.from, p.to, d);
      PlantedMatchIsRewritten(p, d);
    }
  }
}
