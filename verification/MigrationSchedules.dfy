/**
 Schedules of kills and listing orders on which a wavering link ends differently, so that the
 condition of `MigrationWalk` on the links is the exact one.
 */
module MigrationSchedules {
  import opened Basics
  import opened MigrationTree
  import opened MigrationWalk

  // ---------------------------------------------------------------- every walk can be finished

  lemma GoesStep(a: Walk, b: Walk)
    requires Step(a, b)
    ensures GoesTo(a, b)
  {
    ReachesItself(Step, a);
    ReachesOnward(Step, a, a, b);
  }

  lemma {:induction false} Listing(s: set<RelPath>) returns (xs: seq<RelPath>)
    ensures Lists(xs, s)
    decreases |s|
  {
    if s == {} {
      xs := [];
    } else {
      var x :| x in s;
      var rest := Listing(s - {x});
      xs := [x] + rest;
      assert s == (s - {x}) + {x};
    }
  }

  /** The tree without what lies at or below the given entries. */
  ghost function Without(t: Tree, roots: seq<RelPath>): Tree {
    map p | p in t && !(exists c :: c in roots && c <= p) :: t[p]
  }

  lemma WithoutOne(t: Tree, root: RelPath, p: RelPath)
    ensures p in Without(t, [root]) <==> p in t && !(root <= p)
  {
    assert root in [root];
  }

  lemma WithoutIsClosed(t: Tree, roots: seq<RelPath>)
    requires Closed(t)
    ensures Closed(Without(t, roots))
  {
    forall p ensures Rooted(Without(t, roots), p) {
      assert Rooted(t, p);
      assert |p| > 1 ==> forall c | c in roots :: c <= p[..|p| - 1] ==> c <= p;
    }
  }

  lemma GoesOn(a: Walk, m: Walk, b: Walk)
    requires GoesTo(a, m) && GoesTo(m, b)
    ensures GoesTo(a, b)
  {
    ReachesTransitive(Step, a, m, b);
  }

  lemma TakeFirst(t: Tree, taking: seq<RelPath>, entering: seq<RelPath>)
    requires Closed(t) && taking != []
    ensures Closed(Without(t, [taking[0]])) && GoesTo(Walk(t, taking, entering), Walk(Without(t, [taking[0]]), taking[1..], entering))
  {
    var root := taking[0];
    WithoutIsClosed(t, [root]);
    assert root in [root];
    assert Below(Without(t, [root]), root) == {};
    GoesStep(Walk(t, taking, entering), Walk(Without(t, [root]), taking[1..], entering));
  }

  lemma WithoutInTurn(t: Tree, roots: seq<RelPath>)
    requires roots != []
    ensures Without(Without(t, [roots[0]]), roots[1..]) == Without(t, roots)
  {
    assert forall c :: c in roots <==> c in [roots[0]] || c in roots[1..];
  }

  /** Everything the last scan listed may be taken away, one root after the other. */
  lemma {:induction false} TakeAll(t: Tree, taking: seq<RelPath>, entering: seq<RelPath>)
    requires Closed(t)
    ensures Closed(Without(t, taking)) && GoesTo(Walk(t, taking, entering), Walk(Without(t, taking), [], entering))
    decreases |taking|
  {
    WithoutIsClosed(t, taking);
    if taking == [] {
      assert Without(t, taking) == t;
      ReachesItself(Step, Walk(t, [], entering));
    } else {
      TakeFirst(t, taking, entering);
      TakeAll(Without(t, [taking[0]]), taking[1..], entering);
      WithoutInTurn(t, taking);
      GoesOn(Walk(t, taking, entering), Walk(Without(t, [taking[0]]), taking[1..], entering), Walk(Without(t, taking), [], entering));
    }
  }

  /** Taking away all that a scan listed is what `ScannedOnce` says. */
  lemma WithoutListedIsScanned(t: Tree, dir: RelPath, temporary: seq<RelPath>, files: seq<RelPath>, kept: seq<RelPath>)
    requires Closed(t) && Listed(t, dir, temporary, files, kept)
    ensures Without(t, temporary + files) == ScannedOnce(t, dir)
  {
    RootsAreMarked(t, dir, temporary, files, kept);
    forall p | p in t ensures p in Without(t, temporary + files) <==> !Taken(t, dir, p) { TakenByRoot(t, dir, temporary + files, p); }
    SameRest(t, dir, temporary + files);
  }

  lemma SameRest(t: Tree, dir: RelPath, roots: seq<RelPath>)
    requires forall p | p in t :: p in Without(t, roots) <==> !Taken(t, dir, p)
    ensures Without(t, roots) == ScannedOnce(t, dir)
  {
    assert Without(t, roots).Keys == ScannedOnce(t, dir).Keys;
  }

  lemma RootsAreMarked(t: Tree, dir: RelPath, temporary: seq<RelPath>, files: seq<RelPath>, kept: seq<RelPath>)
    requires Listed(t, dir, temporary, files, kept)
    ensures forall c :: c in temporary + files <==> c in Children(t, dir) && Marked(t, c)
  {
    forall c ensures c in temporary + files <==> c in Children(t, dir) && Marked(t, c) {
      ListsAll(temporary, TemporaryDirectories(t, dir), c);
      ListsAll(files, VolatileFiles(t, dir), c);
    }
  }

  lemma TakenByRoot(t: Tree, dir: RelPath, roots: seq<RelPath>, p: RelPath)
    requires Closed(t) && p in t
    requires forall c :: c in roots <==> c in Children(t, dir) && Marked(t, c)
    ensures p in Without(t, roots) <==> !Taken(t, dir, p)
  {
    if dir < p {
      var c := p[..|dir| + 1];
      assert c <= p;
      assert forall d | d in roots && d <= p :: d == c;
    }
  }

  ghost predicate Bounded(t: Tree, d: nat) {
    forall p | p in t :: |p| <= d
  }

  /** No entry lies more than `depth` levels below one of the directories. */
  ghost predicate AllBounded(t: Tree, dirs: seq<RelPath>, depth: nat) {
    forall d | d in dirs :: Bounded(t, |d| + depth)
  }

  /** Only entries strictly below one of the directories have been taken away. */
  ghost predicate OnlyBelow(s: Tree, t: Tree, dirs: seq<RelPath>) {
    && (forall p | p in t :: p in s && t[p] == s[p])
    && (forall p | p in s && p !in t :: exists d :: d in dirs && d < p)
  }

  lemma ScanAndTake(t: Tree, entering: seq<RelPath>, temporary: seq<RelPath>, files: seq<RelPath>, kept: seq<RelPath>) returns (scanned: Tree)
    requires Closed(t) && entering != [] && Listed(t, entering[0], temporary, files, kept)
    ensures scanned == ScannedOnce(t, entering[0]) && Closed(scanned)
    ensures GoesTo(Walk(t, [], entering), Walk(scanned, [], kept + entering[1..]))
  {
    scanned := Without(t, temporary + files);
    GoesStep(Walk(t, [], entering), Walk(t, temporary + files, kept + entering[1..]));
    TakeAll(t, temporary + files, kept + entering[1..]);
    GoesOn(Walk(t, [], entering), Walk(t, temporary + files, kept + entering[1..]), Walk(scanned, [], kept + entering[1..]));
    WithoutListedIsScanned(t, entering[0], temporary, files, kept);
  }

  /** The walk through the first directory and all that it leads to can be finished. */
  lemma {:induction false} FinishScan(t: Tree, entering: seq<RelPath>, depth: nat) returns (end: Tree)
    requires Closed(t) && entering != [] && Bounded(t, |entering[0]| + depth)
    ensures Closed(end) && OnlyBelow(t, end, [entering[0]]) && GoesTo(Walk(t, [], entering), Walk(end, [], entering[1..]))
    decreases depth, 1
  {
    var temporary := Listing(TemporaryDirectories(t, entering[0]));
    var files := Listing(VolatileFiles(t, entering[0]));
    var kept := Listing(KeptDirectories(t, entering[0]));
    end := FinishListed(t, entering, depth, temporary, files, kept);
  }

  lemma KeptIsDeeper(t: Tree, dir: RelPath, kept: seq<RelPath>, depth: nat)
    requires Bounded(t, |dir| + depth) && Lists(kept, KeptDirectories(t, dir))
    ensures forall d | d in kept :: |d| == |dir| + 1 && dir < d
    ensures depth == 0 ==> kept == []
  {
    assert |kept| > 0 ==> kept[0] in kept;
    forall d | d in kept ensures d in KeptDirectories(t, dir) && d in t && dir < d { ListsAll(kept, KeptDirectories(t, dir), d); }
  }

  /** The same with a given listing of the first directory. */
  lemma {:induction false} FinishListed(t: Tree, entering: seq<RelPath>, depth: nat, temporary: seq<RelPath>, files: seq<RelPath>, kept: seq<RelPath>)
    returns (end: Tree)
    requires Closed(t) && entering != [] && Bounded(t, |entering[0]| + depth) && Listed(t, entering[0], temporary, files, kept)
    ensures Closed(end) && OnlyBelow(t, end, [entering[0]]) && GoesTo(Walk(t, [], entering), Walk(end, [], entering[1..]))
    decreases depth, 0
  {
    var dir := entering[0];
    var scanned := ScanAndTake(t, entering, temporary, files, kept);
    var next := kept + entering[1..];
    KeptIsDeeper(t, dir, kept, depth);
    assert next[..|kept|] == kept && next[|kept|..] == entering[1..];
    if depth == 0 {
      end := scanned;
    } else {
      end := FinishAll(scanned, next, |kept|, depth - 1);
      GoesOn(Walk(t, [], entering), Walk(scanned, [], next), Walk(end, [], entering[1..]));
    }
    ScannedOnlyBelow(t, scanned, end, dir, kept);
  }

  lemma ScannedOnlyBelow(t: Tree, scanned: Tree, end: Tree, dir: RelPath, kept: seq<RelPath>)
    requires scanned == ScannedOnce(t, dir) && (end == scanned || OnlyBelow(scanned, end, kept))
    requires forall d | d in kept :: dir < d
    ensures OnlyBelow(t, end, [dir])
  {
    assert dir in [dir];
  }

  /** The walk through the first `n` directories can be finished. */
  lemma {:induction false} FinishAll(t: Tree, entering: seq<RelPath>, n: nat, depth: nat) returns (end: Tree)
    requires Closed(t) && n <= |entering| && AllBounded(t, entering[..n], depth)
    ensures Closed(end) && OnlyBelow(t, end, entering[..n]) && GoesTo(Walk(t, [], entering), Walk(end, [], entering[n..]))
    decreases depth, n + 1
  {
    if n == 0 {
      end := t;
      ReachesItself(Step, Walk(t, [], entering));
    } else {
      assert entering[0] in entering[..n];
      var next := FinishScan(t, entering, depth);
      FirstLeft(entering, n);
      AllBoundedLeft(t, next, entering[..n], depth);
      end := FinishAll(next, entering[1..], n - 1, depth);
      GoesOn(Walk(t, [], entering), Walk(next, [], entering[1..]), Walk(end, [], entering[n..]));
      OnlyBelowBoth(t, next, end, entering[..n]);
    }
  }

  lemma FirstLeft(dirs: seq<RelPath>, n: nat)
    requires 0 < n <= |dirs|
    ensures dirs[1..][..n - 1] == dirs[..n][1..] && dirs[1..][n - 1..] == dirs[n..] && dirs[..n][0] == dirs[0]
  {
  }

  lemma AllBoundedLeft(t: Tree, next: Tree, dirs: seq<RelPath>, depth: nat)
    requires dirs != [] && AllBounded(t, dirs, depth) && forall p | p in next :: p in t
    ensures AllBounded(next, dirs[1..], depth)
  {
    forall d | d in dirs[1..] ensures Bounded(next, |d| + depth) { assert d in dirs && Bounded(t, |d| + depth); }
  }

  lemma OnlyBelowBoth(t: Tree, next: Tree, end: Tree, dirs: seq<RelPath>)
    requires dirs != [] && OnlyBelow(t, next, [dirs[0]]) && OnlyBelow(next, end, dirs[1..])
    ensures OnlyBelow(t, end, dirs)
  {
    forall p | p in t && p !in end ensures exists d :: d in dirs && d < p {
      if p in next {
        var d :| d in dirs[1..] && d < p;
        assert d in dirs;
      } else {
        assert dirs[0] in dirs;
      }
    }
  }

  // ---------------------------------------------------------------- straight down to one directory

  lemma AncestorStays(t: Tree, dir: RelPath, c: RelPath, p: RelPath)
    requires c in t && p in t && c <= p && |dir| <= |c|
    ensures p in Above(t, dir) ==> c in Above(t, dir) && Above(t, dir)[c] == t[c]
  {
    forall k | 0 <= k < |dir| ensures LostAt(t, dir[..k], c) ==> LostAt(t, dir[..k], p) {
      if LostAt(t, dir[..k], c) {
        assert c[..k + 1] <= p;
        LostTogether(t, dir[..k], c, p);
      }
    }
    AboveIs(t, dir, p);
    AboveIs(t, dir, c);
  }

  /** The scan of a directory on the way takes an entry exactly for the name of the next directory. */
  lemma LostOnTheWay(t: Tree, p: RelPath, i: nat)
    requires Closed(t) && p in t && i < |p| - 1
    ensures LostAt(t, p[..i], p) <==> p in Above(t, p[..i]) && TempName(p[i])
  {
    var c := p[..i + 1];
    AncestorIsDirectory(t, c, p);
    AncestorStays(t, p[..i], c, p);
    assert Last(c) == p[i];
  }

  lemma AboveOneMore(t: Tree, dir: RelPath, p: RelPath)
    requires dir != []
    ensures p in Above(t, dir) <==> p in Above(t, Parent(dir)) && !LostAt(t, Parent(dir), p)
  {
  }

  /** None of the first `k` names is that of a temporary directory. */
  predicate PlainWay(p: RelPath, k: nat)
    requires k <= |p|
  {
    k == 0 || (PlainWay(p, k - 1) && !TempName(p[k - 1]))
  }

  /** The walk gets to a place exactly when no directory on the way has a temporary name. */
  lemma {:induction false} ReachedByPlainWay(t: Tree, p: RelPath, k: nat)
    requires Closed(t) && p in t && k < |p|
    ensures p in Above(t, p[..k]) <==> PlainWay(p, k)
    decreases k
  {
    if k == 0 {
      assert p[..k] == [];
    } else {
      var dir := p[..k];
      assert Parent(dir) == p[..k - 1];
      AboveOneMore(t, dir, p);
      LostOnTheWay(t, p, k - 1);
      ReachedByPlainWay(t, p, k - 1);
    }
  }

  ghost predicate AsideFrom(dirs: seq<RelPath>, dir: RelPath) {
    forall d | d in dirs :: !(d <= dir) && |d| <= |dir|
  }

  /** A run may go straight down to a directory, doing nothing but the scans above it. */
  lemma {:induction false} Descend(t: Tree, dir: RelPath) returns (rest: seq<RelPath>)
    requires Closed(t) && (dir == [] || (dir in t && t[dir] == Dir && dir in Above(t, dir)))
    ensures Closed(Above(t, dir)) && AsideFrom(rest, dir)
    ensures GoesTo(Begin(t), Walk(Above(t, dir), [], [dir] + rest))
    decreases |dir|
  {
    if dir == [] {
      rest := [];
      assert [dir] + rest == [[]];
      ReachesItself(Step, Begin(t));
    } else {
      var parent := Parent(dir);
      assert dir in Above(t, parent);
      if parent != [] {
        AncestorIsDirectory(t, parent, dir);
        AncestorStays(t, parent, parent, dir);
      }
      var above := Descend(t, parent);
      rest := DescendOnce(t, dir, above);
    }
  }

  /** A listing of a set that begins with one of its elements. */
  lemma ListedFirst(s: set<RelPath>, x: RelPath) returns (others: seq<RelPath>)
    requires x in s
    ensures Lists([x] + others, s) && forall d :: d in others <==> d in s && d != x
  {
    others := Listing(s - {x});
    assert multiset(s) == multiset{x} + multiset(s - {x});
    forall d ensures d in others <==> d in s && d != x { ListsAll(others, s - {x}, d); }
  }

  lemma KeptOnTheWay(t: Tree, dir: RelPath) returns (others: seq<RelPath>)
    requires dir != [] && dir in t && t[dir] == Dir && dir in Above(t, dir)
    ensures Lists([dir] + others, KeptDirectories(Above(t, Parent(dir)), Parent(dir)))
    ensures AsideFrom(others, dir)
  {
    KeptAbove(t, dir);
    others := ListedFirst(KeptDirectories(Above(t, Parent(dir)), Parent(dir)), dir);
    forall d | d in others ensures !(d <= dir) { SameLengthAside(d, dir); }
  }

  /** A directory that the scans above leave is kept by the scan of its parent. */
  lemma KeptAbove(t: Tree, dir: RelPath)
    requires dir != [] && dir in t && t[dir] == Dir && dir in Above(t, dir)
    ensures dir in KeptDirectories(Above(t, Parent(dir)), Parent(dir))
  {
    AboveIs(t, Parent(dir), dir);
    assert dir[..|Parent(dir)| + 1] == dir;
  }

  lemma SameLengthAside(d: RelPath, dir: RelPath)
    requires |d| == |dir| && d != dir
    ensures !(d <= dir)
  {
  }

  lemma DescendOnce(t: Tree, dir: RelPath, above: seq<RelPath>) returns (rest: seq<RelPath>)
    requires dir != [] && dir in t && t[dir] == Dir && dir in Above(t, dir)
    requires Closed(Above(t, Parent(dir))) && AsideFrom(above, Parent(dir))
    requires GoesTo(Begin(t), Walk(Above(t, Parent(dir)), [], [Parent(dir)] + above))
    ensures Closed(Above(t, dir)) && AsideFrom(rest, dir)
    ensures GoesTo(Begin(t), Walk(Above(t, dir), [], [dir] + rest))
  {
    var parent, a, entering := Parent(dir), Above(t, Parent(dir)), [Parent(dir)] + above;
    var others := KeptOnTheWay(t, dir);
    var temporary := Listing(TemporaryDirectories(a, parent));
    var files := Listing(VolatileFiles(a, parent));
    var scanned := ScanAndTake(a, entering, temporary, files, [dir] + others);
    GoesOn(Begin(t), Walk(a, [], entering), Walk(scanned, [], ([dir] + others) + entering[1..]));
    rest := others + above;
    assert ([dir] + others) + entering[1..] == [dir] + rest;
    AsideFromParent(dir, above);
  }

  lemma AsideFromParent(dir: RelPath, dirs: seq<RelPath>)
    requires dir != [] && AsideFrom(dirs, Parent(dir))
    ensures AsideFrom(dirs, dir)
  {
    assert forall d | d in dirs :: d <= dir ==> d <= Parent(dir);
  }

  // ---------------------------------------------------------------- two schedules for one link

  lemma SomeBound(t: Tree) returns (d: nat)
    ensures Bounded(t, d)
  {
    if t.Keys == {} {
      d := 0;
    } else {
      LongestExists(t.Keys);
      var p :| p in t.Keys && forall q | q in t.Keys :: |q| <= |p|;
      d := |p|;
    }
  }

  /** Every run can be finished. */
  lemma RunEnds(t: Tree) returns (end: Tree)
    requires Closed(t)
    ensures GoesTo(Begin(t), Walk(end, [], []))
  {
    var depth := SomeBound(t);
    end := FinishAll(t, [[]], 1, depth);
  }

  lemma ParentReached(t: Tree, q: RelPath)
    requires Closed(t) && q in t && q != [] && q in Above(t, Parent(q))
    ensures var dir := Parent(q); dir == [] || (dir in t && t[dir] == Dir && dir in Above(t, dir))
  {
    var dir := Parent(q);
    if dir != [] {
      AncestorIsDirectory(t, dir, q);
      AncestorStays(t, dir, dir, q);
    }
  }

  /** A run that scans the directory of `q` with nothing gone but what the scans above take. */
  lemma ScanAlone(t: Tree, q: RelPath) returns (next: seq<RelPath>)
    requires Closed(t) && q in t && q != [] && q in Above(t, Parent(q))
    ensures var scanned := ScannedOnce(Above(t, Parent(q)), Parent(q));
            Closed(scanned) && GoesTo(Begin(t), Walk(scanned, [], next)) && forall d | d in next :: !(d < q)
  {
    var dir, a := Parent(q), Above(t, Parent(q));
    ParentReached(t, q);
    var rest := Descend(t, dir);
    var temporary := Listing(TemporaryDirectories(a, dir));
    var files := Listing(VolatileFiles(a, dir));
    var kept := Listing(KeptDirectories(a, dir));
    var entering := [dir] + rest;
    var scanned := ScanAndTake(a, entering, temporary, files, kept);
    next := kept + entering[1..];
    GoesOn(Begin(t), Walk(a, [], entering), Walk(scanned, [], next));
    NotBelowNext(a, dir, entering[1..], kept, q);
  }

  /** A run that judges `q` with nothing gone but what the scans above take. */
  lemma RunThrough(t: Tree, q: RelPath) returns (end: Tree)
    requires Closed(t) && q in t && q != [] && q in Above(t, Parent(q))
    ensures GoesTo(Begin(t), Walk(end, [], []))
    ensures q in end <==> !Marked(Above(t, Parent(q)), q)
  {
    var dir, a := Parent(q), Above(t, Parent(q));
    var next := ScanAlone(t, q);
    var scanned := ScannedOnce(a, dir);
    end := RunOn(t, scanned, next);
    StaysOnceScanned(a, dir, q, end, next);
  }

  lemma RunOn(t: Tree, s: Tree, next: seq<RelPath>) returns (end: Tree)
    requires Closed(s) && GoesTo(Begin(t), Walk(s, [], next))
    ensures OnlyBelow(s, end, next) && GoesTo(Begin(t), Walk(end, [], []))
  {
    var depth := SomeBound(s);
    end := FinishAll(s, next, |next|, depth);
    assert next[..|next|] == next && next[|next|..] == [];
    GoesOn(Begin(t), Walk(s, [], next), Walk(end, [], []));
  }

  lemma StaysOnceScanned(a: Tree, dir: RelPath, q: RelPath, end: Tree, next: seq<RelPath>)
    requires q in a && q != [] && Parent(q) == dir
    requires OnlyBelow(ScannedOnce(a, dir), end, next) && forall d | d in next :: !(d < q)
    ensures q in end <==> !Marked(a, q)
  {
    assert q[..|dir| + 1] == q;
  }

  lemma NotBelowNext(a: Tree, dir: RelPath, rest: seq<RelPath>, kept: seq<RelPath>, q: RelPath)
    requires q != [] && Parent(q) == dir && AsideFrom(rest, dir) && Lists(kept, KeptDirectories(a, dir))
    ensures forall d | d in kept + rest :: !(d < q)
  {
    forall d | d in kept + rest ensures !(d < q) {
      ListsAll(kept, KeptDirectories(a, dir), d);
      assert d < q ==> d <= dir;
    }
  }

  lemma LostNotAbove(t0: Tree, e: RelPath, dir: RelPath, lost: RelPath)
    requires e in Above(t0, dir)
    ensures lost < dir ==> !LostAt(t0, lost, e)
  {
    assert lost < dir ==> dir[..|lost|] == lost;
    AboveIs(t0, dir, e);
  }

  /** The link is still there when the scan of `lost` takes away what it rests on. */
  lemma LinkOutlasts(t0: Tree, q: RelPath, e: RelPath, lost: RelPath)
    requires q in t0 && q != [] && t0[q].Link? && DirLike(t0, q) && MeetsSupports(t0, q) && LosesSupport(t0, q, e, lost)
    ensures q in Above(t0, lost) && Above(t0, lost)[q] == t0[q]
    ensures lost != Parent(q) ==> !(lost < q)
  {
    var dir := Parent(q);
    LostNotAbove(t0, e, dir, lost);
    LinkLostByName(t0, q);
    forall k | 0 <= k < |lost| ensures LostAt(t0, lost[..k], q) ==> dir == lost[..k] {
      LostAtParentOnly(t0, q, lost[..k]);
    }
    AboveIs(t0, lost, q);
    assert lost < q ==> lost <= dir;
  }

  lemma LostAtParentOnly(t0: Tree, q: RelPath, lost: RelPath)
    requires q != [] && q in Above(t0, Parent(q))
    ensures LostAt(t0, lost, q) ==> lost == Parent(q)
  {
    var dir := Parent(q);
    assert lost < q && |lost| < |dir| ==> dir[..|lost|] == lost;
    assert lost < q && |lost| >= |dir| ==> lost == dir;
    AboveIs(t0, dir, q);
  }

  lemma LinkLostByName(t0: Tree, q: RelPath)
    requires q in t0 && q != [] && t0[q].Link? && DirLike(t0, q) && MeetsSupports(t0, q)
    ensures LostAt(t0, Parent(q), q) <==> TempName(Last(q))
  {
    var a := Above(t0, Parent(q));
    AboveIsPart(t0, Parent(q));
    DirLikeWhileSupported(t0, a, q);
    assert q[..|Parent(q)| + 1] == q;
  }

  lemma AboveIsPart(t0: Tree, dir: RelPath)
    ensures forall p | p in Above(t0, dir) :: p in t0 && t0[p] == Above(t0, dir)[p]
  {
    forall p | p in Above(t0, dir) ensures p in t0 && t0[p] == Above(t0, dir)[p] { AboveIs(t0, dir, p); }
  }

  /** A run killed right after it has taken away what the link rests on. */
  lemma CutAfter(t0: Tree, q: RelPath, e: RelPath, lost: RelPath) returns (s: Tree)
    requires Closed(t0) && q in t0 && q != [] && t0[q].Link? && DirLike(t0, q) && MeetsSupports(t0, q) && LosesSupport(t0, q, e, lost)
    ensures MayLeave(t0, s) && Closed(s) && (forall p | p in s :: p in t0 && s[p] == t0[p])
    ensures q in s && e !in s
  {
    LinkOutlasts(t0, q, e, lost);
    AboveIsPart(t0, lost);
    LostFromReached(t0, e, lost);
    var rest := Descend(t0, lost);
    if lost == Parent(q) {
      s := CutFirst(t0, q, e, lost, rest);
    } else {
      var a := Above(t0, lost);
      var temporary := Listing(TemporaryDirectories(a, lost));
      var files := Listing(VolatileFiles(a, lost));
      var kept := Listing(KeptDirectories(a, lost));
      s := ScanAndTake(a, [lost] + rest, temporary, files, kept);
      GoesOn(Begin(t0), Walk(a, [], [lost] + rest), Walk(s, [], kept + ([lost] + rest)[1..]));
    }
  }

  /** What is lost at a directory shows that the walk gets to that directory. */
  lemma LostFromReached(t0: Tree, e: RelPath, lost: RelPath)
    requires Closed(t0) && LostAt(t0, lost, e)
    ensures lost == [] || (lost in t0 && t0[lost] == Dir && lost in Above(t0, lost))
  {
    AboveIs(t0, lost, e);
    if lost != [] {
      AncestorIsDirectory(t0, lost, e);
      AncestorStays(t0, lost, lost, e);
    }
  }

  /** In the link's own directory the first directory to be taken away may be the one that the link needs. */
  lemma CutFirst(t0: Tree, q: RelPath, e: RelPath, dir: RelPath, rest: seq<RelPath>) returns (s: Tree)
    requires q in t0 && q != [] && Parent(q) == dir && t0[q].Link? && DirLike(t0, q) && MeetsSupports(t0, q)
    requires e in Supports(t0, q) && e != q && LostAt(t0, dir, e)
    requires q in Above(t0, dir) && Closed(Above(t0, dir)) && GoesTo(Begin(t0), Walk(Above(t0, dir), [], [dir] + rest))
    ensures MayLeave(t0, s) && Closed(s) && (forall p | p in s :: p in t0 && s[p] == t0[p])
    ensures q in s && e !in s
  {
    var a, c := Above(t0, dir), e[..|dir| + 1];
    AboveIsPart(t0, dir);
    FirstIsTemporary(t0, q, e, dir);
    var all := TemporaryDirectories(a, dir);
    var others := Listing(all - {c});
    assert all == (all - {c}) + {c};
    var files := Listing(VolatileFiles(a, dir));
    var kept := Listing(KeptDirectories(a, dir));
    var entering := [dir] + rest;
    s := Without(a, [c]);
    ScanAndTakeFirst(a, entering, [c] + others, files, kept);
    var w := Walk(s, (([c] + others) + files)[1..], kept + entering[1..]);
    GoesOn(Begin(t0), Walk(a, [], entering), w);
    CutThere(t0, w);
    WithoutOne(a, c, q);
    WithoutOne(a, c, e);
  }

  lemma CutThere(t0: Tree, w: Walk)
    requires GoesTo(Begin(t0), w)
    ensures MayLeave(t0, w.tree)
  {
  }

  lemma ScanAndTakeFirst(t: Tree, entering: seq<RelPath>, temporary: seq<RelPath>, files: seq<RelPath>, kept: seq<RelPath>)
    requires Closed(t) && entering != [] && temporary != [] && Listed(t, entering[0], temporary, files, kept)
    ensures Closed(Without(t, [temporary[0]]))
    ensures GoesTo(Walk(t, [], entering), Walk(Without(t, [temporary[0]]), (temporary + files)[1..], kept + entering[1..]))
  {
    var taking, next := temporary + files, kept + entering[1..];
    GoesStep(Walk(t, [], entering), Walk(t, taking, next));
    TakeFirst(t, taking, next);
    GoesOn(Walk(t, [], entering), Walk(t, taking, next), Walk(Without(t, [temporary[0]]), taking[1..], next));
  }

  lemma FirstIsTemporary(t0: Tree, q: RelPath, e: RelPath, dir: RelPath)
    requires q in t0 && q != [] && Parent(q) == dir && t0[q].Link? && DirLike(t0, q) && MeetsSupports(t0, q)
    requires e in Supports(t0, q) && e != q && LostAt(t0, dir, e) && Closed(Above(t0, dir)) && q in Above(t0, dir)
    ensures e[..|dir| + 1] in TemporaryDirectories(Above(t0, dir), dir)
    ensures !(e[..|dir| + 1] <= q)
  {
    var a, c := Above(t0, dir), e[..|dir| + 1];
    AboveIsPart(t0, dir);
    assert c <= q ==> c == q;
    if c != e {
      AncestorIsDirectory(a, c, e);
    } else {
      SupportsLeadAbove(t0, a, q, e);
    }
  }

  lemma SupportsLeadAbove(t0: Tree, a: Tree, q: RelPath, e: RelPath)
    requires q in t0 && t0[q].Link? && DirLike(t0, q) && e in Supports(t0, q)
    requires forall p | p in a :: p in t0 && t0[p] == a[p]
    requires q in a && forall p | p in Supports(t0, q) :: p in a
    ensures e in a && DirLike(a, e)
  {
    forall p | p in Supports(t0, q) ensures p in t0 { SupportsLead(t0, q, p); }
    DirLikeWhileSupported(t0, a, q);
    SupportsLead(a, q, e);
  }

  // ---------------------------------------------------------------- the exact condition

  /** A place is reached alike after removals. */
  lemma ReachedAlike(t: Tree, cut: Tree, q: RelPath)
    requires Closed(t) && Closed(cut) && q in t && q in cut && q != []
    ensures q in Above(t, Parent(q)) <==> q in Above(cut, Parent(q))
  {
    assert q[..|q| - 1] == Parent(q);
    ReachedByPlainWay(t, q, |q| - 1);
    ReachedByPlainWay(cut, q, |q| - 1);
  }

  lemma OwnFate(t0: Tree, q: RelPath) returns (end: Tree)
    requires Closed(t0) && Wavering(t0, q)
    ensures GoesTo(Begin(t0), Walk(end, [], [])) && (q in end <==> !TempName(Last(q)))
  {
    end := RunThrough(t0, q);
    LinkLostByName(t0, q);
    assert q[..|Parent(q)| + 1] == q;
  }

  lemma OtherFate(t0: Tree, q: RelPath) returns (cut: Tree, after: Tree)
    requires Closed(t0) && Wavering(t0, q)
    ensures MayLeave(t0, cut) && GoesTo(Begin(cut), Walk(after, [], [])) && (q in after <==> !VolatileName(Last(q)))
  {
    var e, lost :| LosesSupport(t0, q, e, lost);
    cut := CutAfter(t0, q, e, lost);
    ReachedAlike(t0, cut, q);
    after := RunThrough(cut, q);
    SupportGone(t0, cut, q, e);
  }

  /**
   The two fates of a wavering link: a run of its own judges it by its directory name, and a
   run that was killed between the removal of what it rests on and of itself is followed by
   one that judges it by its file name.
   */
  lemma WaveringSplits(t0: Tree, q: RelPath) returns (end: Tree, cut: Tree, after: Tree)
    requires Closed(t0) && Wavering(t0, q)
    ensures GoesTo(Begin(t0), Walk(end, [], [])) && (q in end <==> !TempName(Last(q)))
    ensures MayLeave(t0, cut) && GoesTo(Begin(cut), Walk(after, [], [])) && (q in after <==> !VolatileName(Last(q)))
  {
    end := OwnFate(t0, q);
    cut, after := OtherFate(t0, q);
  }

  lemma SupportGone(t0: Tree, cut: Tree, q: RelPath, e: RelPath)
    requires q in t0 && q != [] && t0[q].Link? && q in Above(cut, Parent(q))
    requires (forall p | p in cut :: p in t0 && cut[p] == t0[p]) && e in Supports(t0, q) && e !in cut
    ensures Above(cut, Parent(q))[q] == t0[q] && !DirLike(Above(cut, Parent(q)), q)
  {
    var a := Above(cut, Parent(q));
    AboveIsPart(cut, Parent(q));
    DirLikeWhileSupported(t0, a, q);
  }

  lemma RunIsOutcome(t0: Tree, t: Tree)
    requires GoesTo(Begin(t0), Walk(t, [], []))
    ensures Outcome(t0, t)
  {
    ReachesItself(MayLeave, t0);
  }

  lemma RerunIsOutcome(t0: Tree, s: Tree, t: Tree)
    requires MayLeave(t0, s) && GoesTo(Begin(s), Walk(t, [], []))
    ensures Outcome(t0, t)
  {
    ReachesItself(MayLeave, t0);
    ReachesOnward(MayLeave, t0, t0, s);
  }

  /**
   All schedules of kills and all listing orders end with one and the same tree if and only if
   no link wavers.
   */
  lemma LinkStableIsExact(t0: Tree)
    requires Closed(t0)
    ensures LinkStable(t0) <==> forall t1, t2 | Outcome(t0, t1) && Outcome(t0, t2) :: t1 == t2
  {
    if LinkStable(t0) {
      forall t1, t2 | Outcome(t0, t1) && Outcome(t0, t2) ensures t1 == t2 {
        OutcomeIsSwept(t0, t1);
        OutcomeIsSwept(t0, t2);
      }
    } else {
      var q :| q in t0 && Wavering(t0, q);
      var end, cut, after := WaveringSplits(t0, q);
      RunIsOutcome(t0, end);
      RerunIsOutcome(t0, cut, after);
      assert end != after;
    }
  }

  /** What killed runs leave of a stable tree is stable and has the same outcome. */
  lemma KillsKeepOutcome(t0: Tree, s: Tree)
    requires Closed(t0) && LinkStable(t0) && LeftByKills(t0, s)
    ensures Closed(s) && LinkStable(s) && Swept(s) == Swept(t0)
  {
    KillsKeepPartly(t0, s);
    forall t | Outcome(s, t) ensures t == Swept(t0) {
      KillsAddNoOutcome(t0, s, t);
      OutcomeIsSwept(t0, t);
    }
    LinkStableIsExact(s);
    var end := RunEnds(s);
    RunIsOutcome(s, end);
    OutcomeIsSwept(s, end);
  }

  // ---------------------------------------------------------------- instances

  lemma LockIsVolatile()
    ensures VolatileName("a.lock") && !TempName("a.lock") && TempName("tmp")
  {
    assert EndsWith("a.lock", VOLATILE_SUFFIXES[3]);
  }

  /** What `is_dir` finds under a temporary name: a directory, or a link to one outside of the tree. */
  predicate PlainDirectory(e: Entry) {
    e == Dir || (e.Link? && e.target.Outside? && e.target.directories != {})
  }

  lemma OutsideIsDirectory(e: Entry)
    requires PlainDirectory(e)
    ensures e.Link? ==> exists d :: d in e.target.directories && [] <= d
  {
    if e.Link? {
      var d :| d in e.target.directories;
      assert [] <= d;
    }
  }

  /** A link straight to a directory in the root rests on that directory alone. */
  lemma LinkToRootEntry(t0: Tree, target: RelPath, q: RelPath)
    requires |target| == 1 && target[0] != ".." && target in t0 && PlainDirectory(t0[target])
    requires q in t0 && t0[q] == Link(Inside(target))
    ensures DirLike(t0, target) && DirLike(t0, q) && Supports(t0, q) == {target}
  {
    var limit := FOLLOW_LIMIT - 1;
    OutsideIsDirectory(t0[target]);
    assert target + [] == target && [] + [target[0]] == target && target[1..] == [];
    assert Leads(t0, [], target, limit);
    if t0[target] == Dir {
      assert Found(t0, target, [], limit) == {};
    } else {
      assert FoundBehind(t0, t0[target].target, [], limit - 1) == {};
    }
    assert Found(t0, [], target, limit) == {target};
  }

  lemma LinkToTemporaryWavers(target: RelPath, q: RelPath, e: Entry)
    requires |target| == |q| == 1 && target != q && target[0] != ".." && PlainDirectory(e)
    requires TempName(target[0]) && !TempName(q[0]) && VolatileName(q[0])
    ensures var t0: Tree := map[target := e, q := Link(Inside(target))];
            Closed(t0) && Wavering(t0, q)
  {
    var t0: Tree := map[target := e, q := Link(Inside(target))];
    LinkToRootEntry(t0, target, q);
    assert target[..1] == target && Parent(q) == [];
    assert LostAt(t0, [], target);
    assert LosesSupport(t0, q, target, []);
  }

  /**
   Two trees on which a run that is killed and run again may end differently from a run of
   its own: a lock file linked to a temporary directory, and one linked to a link with a
   temporary name.
   */
  lemma LinkIntoTempDirectoryWavers(e: Entry)
    requires PlainDirectory(e)
    ensures var t0: Tree := map[["tmp"] := e, ["a.lock"] := Link(Inside(["tmp"]))];
            exists end, cut, after ::
              && GoesTo(Begin(t0), Walk(end, [], [])) && ["a.lock"] in end
              && MayLeave(t0, cut) && GoesTo(Begin(cut), Walk(after, [], [])) && ["a.lock"] !in after
  {
    LockIsVolatile();
    LinkToTemporaryWavers(["tmp"], ["a.lock"], e);
    var end, cut, after := WaveringSplits(map[["tmp"] := e, ["a.lock"] := Link(Inside(["tmp"]))], ["a.lock"]);
  }

  /** A lock file one directory below, linked to a temporary directory in the root. */
  ghost predicate LockBelow(t0: Tree, target: RelPath, sub: RelPath, q: RelPath, e: Entry) {
    && |target| == |sub| == 1 && |q| == 2 && target != sub && q[..1] == sub && target[0] != ".."
    && TempName(target[0]) && !TempName(sub[0]) && !TempName(q[1]) && VolatileName(q[1]) && PlainDirectory(e)
    && t0.Keys == {target, sub, q} && t0[target] == e && t0[sub] == Dir && t0[q] == Link(Inside(target))
  }

  lemma TwoLevelsAreClosed(t0: Tree, target: RelPath, sub: RelPath, q: RelPath)
    requires t0.Keys == {target, sub, q} && |target| == |sub| == 1 && |q| == 2 && q[..1] == sub && t0[sub] == Dir
    ensures Closed(t0)
  {
  }

  /** The scan of the root takes the target and leaves the link. */
  lemma LockBelowScanned(t0: Tree, target: RelPath, sub: RelPath, q: RelPath, e: Entry)
    requires LockBelow(t0, target, sub, q, e)
    ensures DirLike(t0, q) && Supports(t0, q) == {target}
    ensures target !in Above(t0, sub) && q in Above(t0, sub) && sub in Swept(t0)
  {
    LinkToRootEntry(t0, target, q);
    assert target[..1] == target && sub[..1] == sub && q[..1] == sub && sub[..0] == [];
    assert Above(t0, []) == t0 && Taken(t0, [], target) && !Taken(t0, [], sub) && !Taken(t0, [], q);
    assert Parent(sub) == [];
    assert !Lost(t0, sub);
  }

  lemma LockBelowSwept(t0: Tree, target: RelPath, sub: RelPath, q: RelPath, e: Entry)
    requires LockBelow(t0, target, sub, q, e)
    ensures q !in Swept(t0)
  {
    LockBelowScanned(t0, target, sub, q, e);
    var a := Above(t0, sub);
    AboveIsPart(t0, sub);
    DirLikeWhileSupported(t0, a, q);
    assert target in Supports(t0, q) && !DirLike(a, q);
    assert q[..2] == q;
    assert LostAt(t0, sub, q);
  }

  lemma LockBelowIsStable(t0: Tree, target: RelPath, sub: RelPath, q: RelPath, e: Entry)
    requires LockBelow(t0, target, sub, q, e)
    ensures Closed(t0) && LinkStable(t0)
  {
    TwoLevelsAreClosed(t0, target, sub, q);
    LockBelowScanned(t0, target, sub, q, e);
    assert Parent(q) == sub;
    forall p | p in t0 ensures !Wavering(t0, p) {
      if p == target && t0[p].Link? { assert Supports(t0, p) == {}; }
    }
  }

  /** The same link one directory further down is found dangling by every run and always removed. */
  lemma LinkBelowIsStable(e: Entry, t: Tree)
    requires PlainDirectory(e)
    ensures var t0: Tree := map[["tmp"] := e, ["sub"] := Dir, ["sub", "a.lock"] := Link(Inside(["tmp"]))];
            LinkStable(t0) && (Outcome(t0, t) ==> ["sub"] in t && ["sub", "a.lock"] !in t)
  {
    var target, sub, q := ["tmp"], ["sub"], ["sub", "a.lock"];
    var t0: Tree := map[target := e, sub := Dir, q := Link(Inside(target))];
    LockIsVolatile();
    assert q[..1] == sub;
    assert LockBelow(t0, target, sub, q, e);
    LockBelowIsStable(t0, target, sub, q, e);
    if Outcome(t0, t) {
      OutcomeIsSwept(t0, t);
      LockBelowScanned(t0, target, sub, q, e);
      LockBelowSwept(t0, target, sub, q, e);
    }
  }
}
