/** The top-down walk that discards volatile entries, step by step and killed at any of them. */
module MigrationDiscard {
  import opened Basics
  import opened MigrationTree
  import opened MigrationWalk
  import opened MigrationSchedules

  /** `t` is `s` with only entries below `dir` removed. */
  ghost predicate Pruned(s: Tree, t: Tree, dir: RelPath) {
    && (forall p | p in t :: p in s && t[p] == s[p])
    && (forall p | p in s && p !in t :: dir < p)
  }

  // ---------------------------------------------------------------- listings

  /** The file system hands out the entries of a directory in an order of its own. */
  method ListInSomeOrder(s: set<RelPath>) returns (xs: seq<RelPath>)
    ensures Lists(xs, s)
  {
    xs := [];
    var todo := s;
    while todo != {}
      invariant todo <= s && multiset(xs) == multiset(s - todo)
    {
      var x :| x in todo;
      var rest := todo - {x};
      assert s - rest == (s - todo) + {x};
      xs, todo := xs + [x], rest;
    }
    assert s - {} == s;
  }

  ghost predicate Distinct(xs: seq<RelPath>) {
    forall i, j | 0 <= i < j < |xs| :: xs[i] != xs[j]
  }

  lemma {:induction false} ListsDistinct(xs: seq<RelPath>, s: set<RelPath>)
    requires Lists(xs, s)
    ensures Distinct(xs)
  {
    forall i, j | 0 <= i < j < |xs| ensures xs[i] != xs[j] {
      assert xs == xs[..i] + [xs[i]] + xs[i + 1..j] + [xs[j]] + xs[j + 1..];
      assert multiset(s)[xs[i]] <= 1;
    }
  }

  // ---------------------------------------------------------------- removals

  lemma NothingBelowLeaf(t: Tree, p: RelPath)
    requires Closed(t) && p in t && p != [] && t[p] != Dir
    ensures Below(t - {p}, p) == {}
  {
    forall q | q in t && p <= q ensures q == p {
      if p < q { AncestorIsDirectory(t, p, q); }
    }
  }

  /** One entry, judged removable and now taken away together with all below it. */
  method RemoveMarked(start: Tree, p: RelPath, budget: nat) returns (t: Tree, left: nat, alive: bool)
    requires Closed(start) && p in start && p != []
    ensures Thinned(start, t, p) && Spent(start, t, budget, left, alive)
    ensures alive ==> Below(t, p) == {}
  {
    if start[p] != Dir {
      if budget == 0 {
        return start, 0, false;
      }
      UnlinkKeepsClosed(start, p);
      OneEntryLess(start, p);
      NothingBelowLeaf(start, p);
      return start - {p}, budget - 1, true;
    }
    t, left, alive := RemoveTree(start, p, budget);
  }

  /** Entries of one directory that are listed and still there. */
  ghost predicate Present(t: Tree, dir: RelPath, listed: seq<RelPath>) {
    Distinct(listed) && forall p | p in listed :: p in t && |p| == |dir| + 1
  }

  lemma OthersPresent(before: Tree, t: Tree, dir: RelPath, listed: seq<RelPath>)
    requires listed != [] && Present(before, dir, listed) && Thinned(before, t, listed[0])
    ensures Present(t, dir, listed[1..])
  {
    var first := listed[0];
    assert forall p: RelPath | |p| == |first| :: first <= p ==> p[..|first|] == p;
    forall p | p in listed[1..] ensures p in t {
      var i :| 0 <= i < |listed[1..]| && listed[1..][i] == p;
      assert listed[i + 1] == p && p in listed;
    }
  }

  /** Only entries at or below the listed ones have been taken away. */
  ghost predicate TakenOf(start: Tree, t: Tree, listed: seq<RelPath>) {
    && (forall p | p in t :: p in start && t[p] == start[p])
    && (forall p | p in start && p !in t :: exists c :: c in listed && c <= p)
  }

  /** A walk that began at `begun` has got to this tree, with these entries still to be taken away. */
  ghost predicate At(begun: Walk, t: Tree, taking: seq<RelPath>, entering: seq<RelPath>) { GoesTo(begun, Walk(t, taking, entering)) }

  ghost predicate CutAt(begun: Walk, t: Tree) { exists w: Walk :: GoesTo(begun, w) && w.tree == t }

  lemma AtIsCut(begun: Walk, t: Tree, taking: seq<RelPath>, entering: seq<RelPath>)
    requires At(begun, t, taking, entering)
    ensures CutAt(begun, t)
  {
    assert Walk(t, taking, entering).tree == t;
  }

  /** Part of the removal of the next root, or all of it. */
  lemma TakingStep(begun: Walk, before: Tree, t: Tree, taking: seq<RelPath>, entering: seq<RelPath>)
    requires taking != [] && At(begun, before, taking, entering) && Thinned(before, t, taking[0])
    ensures CutAt(begun, t)
    ensures Below(t, taking[0]) == {} ==> At(begun, t, taking[1..], entering)
  {
    var a, cut := Walk(before, taking, entering), Walk(t, taking, entering);
    GoesStep(a, cut);
    GoesOn(begun, a, cut);
    if Below(t, taking[0]) == {} {
      var done := Walk(t, taking[1..], entering);
      GoesStep(a, done);
      GoesOn(begun, a, done);
    }
  }

  lemma TakenOnceMore(start: Tree, before: Tree, t: Tree, dir: RelPath, listed: seq<RelPath>, i: nat)
    requires i < |listed| && TakenOf(start, before, listed) && Thinned(before, t, listed[i]) && Present(before, dir, listed[i..])
    ensures TakenOf(start, t, listed) && Present(t, dir, listed[i + 1..])
  {
    assert listed[i..][1..] == listed[i + 1..];
    OthersPresent(before, t, dir, listed[i..]);
    assert listed[i] in listed;
  }

  /** How far the removal of listed children has got: the first `i` are gone, the others untouched. */
  ghost predicate Removing(start: Tree, t: Tree, dir: RelPath, listed: seq<RelPath>, i: nat, begun: Walk, entering: seq<RelPath>)
    requires i <= |listed|
  {
    && Closed(t) && TakenOf(start, t, listed) && Present(t, dir, listed[i..])
    && CutAt(begun, t) && At(begun, t, listed[i..], entering)
    && forall j | 0 <= j < i :: listed[j] !in t
  }

  lemma RemovingStep(start: Tree, before: Tree, t: Tree, dir: RelPath, listed: seq<RelPath>, i: nat, begun: Walk, entering: seq<RelPath>)
    requires i < |listed| && Removing(start, before, dir, listed, i, begun, entering) && Thinned(before, t, listed[i])
    ensures TakenOf(start, t, listed) && CutAt(begun, t)
    ensures Below(t, listed[i]) == {} ==> Removing(start, t, dir, listed, i + 1, begun, entering)
  {
    assert listed[i..][0] == listed[i] && listed[i..][1..] == listed[i + 1..];
    TakenOnceMore(start, before, t, dir, listed, i);
    TakingStep(begun, before, t, listed[i..], entering);
    assert listed[i] in t ==> listed[i] in Below(t, listed[i]);
  }

  lemma RemovingBegins(start: Tree, dir: RelPath, listed: seq<RelPath>, begun: Walk, entering: seq<RelPath>)
    requires Closed(start) && Present(start, dir, listed) && At(begun, start, listed, entering)
    ensures Removing(start, start, dir, listed, 0, begun, entering)
  {
    AtIsCut(begun, start, listed, entering);
    assert listed[0..] == listed;
  }

  /** Takes away the listed children, in the order of the list. */
  method RemoveListed(start: Tree, dir: RelPath, listed: seq<RelPath>, budget: nat, ghost begun: Walk, ghost entering: seq<RelPath>)
    returns (t: Tree, left: nat, alive: bool)
    requires Closed(start) && Present(start, dir, listed) && At(begun, start, listed, entering)
    ensures Closed(t) && Spent(start, t, budget, left, alive) && TakenOf(start, t, listed) && CutAt(begun, t)
    ensures alive ==> At(begun, t, [], entering) && forall p | p in listed :: p !in t
  {
    t, left := start, budget;
    var i := 0;
    RemovingBegins(start, dir, listed, begun, entering);
    while i < |listed|
      invariant 0 <= i <= |listed| && Removing(start, t, dir, listed, i, begun, entering)
      invariant Spent(start, t, budget, left, true)
    {
      ghost var before := t;
      assert listed[i] == listed[i..][0];
      t, left, alive := RemoveMarked(t, listed[i], left);
      RemovingStep(start, before, t, dir, listed, i, begun, entering);
      if !alive {
        return;
      }
      i := i + 1;
    }
    alive := true;
    assert listed[i..] == [];
  }

  // ---------------------------------------------------------------- scans

  /** After the scan of a directory its removable children are gone and the others remain. */
  ghost predicate Scanned(s: Tree, t: Tree, dir: RelPath) {
    forall p | p in Children(s, dir) :: p in t <==> !Marked(s, p)
  }

  lemma RootsPresent(s: Tree, dir: RelPath, temporary: seq<RelPath>, files: seq<RelPath>, kept: seq<RelPath>)
    requires Listed(s, dir, temporary, files, kept)
    ensures Present(s, dir, temporary + files)
  {
    RootsAreMarked(s, dir, temporary, files, kept);
    ListsDistinct(temporary, TemporaryDirectories(s, dir));
    ListsDistinct(files, VolatileFiles(s, dir));
    forall p ensures !(p in temporary && p in files) {
      ListsAll(temporary, TemporaryDirectories(s, dir), p);
      ListsAll(files, VolatileFiles(s, dir), p);
    }
    DistinctTogether(temporary, files);
  }

  lemma DistinctTogether(xs: seq<RelPath>, ys: seq<RelPath>)
    requires Distinct(xs) && Distinct(ys) && forall p :: !(p in xs && p in ys)
    ensures Distinct(xs + ys)
  {
    var all := xs + ys;
    forall i, j | 0 <= i < j < |all| ensures all[i] != all[j] {
      if i < |xs| && j >= |xs| { assert all[i] in xs && all[j] in ys; }
    }
  }

  lemma ScanResult(s: Tree, t: Tree, dir: RelPath, roots: seq<RelPath>)
    requires forall c :: c in roots <==> c in Children(s, dir) && Marked(s, c)
    requires TakenOf(s, t, roots)
    ensures Pruned(s, t, dir)
    ensures (forall p | p in roots :: p !in t) ==> Scanned(s, t, dir)
  {
    forall p | p in s && p !in t ensures dir < p && (|p| == |dir| + 1 ==> p in roots) {
      var c :| c in roots && c <= p;
      if |p| == |dir| + 1 { SameLevel(c, p); }
    }
  }

  lemma ListingIsStep(begun: Walk, s: Tree, stack: seq<RelPath>, temporary: seq<RelPath>, files: seq<RelPath>, kept: seq<RelPath>)
    requires stack != [] && GoesTo(begun, Walk(s, [], stack)) && Listed(s, stack[0], temporary, files, kept)
    ensures At(begun, s, temporary + files, kept + stack[1..])
  {
    GoesStep(Walk(s, [], stack), Walk(s, temporary + files, kept + stack[1..]));
    GoesOn(begun, Walk(s, [], stack), Walk(s, temporary + files, kept + stack[1..]));
  }

  /**
   One directory of the walk: the removable directories of its listing are taken away, then the
   removable files; `kept` are the directories that the walk will enter.
   */
  method ScanDirectory(s: Tree, dir: RelPath, budget: nat, ghost begun: Walk, ghost stack: seq<RelPath>)
    returns (t: Tree, kept: seq<RelPath>, left: nat, alive: bool)
    requires Closed(s) && stack != [] && stack[0] == dir && GoesTo(begun, Walk(s, [], stack))
    ensures Closed(t) && Pruned(s, t, dir) && Spent(s, t, budget, left, alive)
    ensures Lists(kept, KeptDirectories(s, dir)) && (alive ==> Scanned(s, t, dir))
    ensures CutAt(begun, t) && (alive ==> At(begun, t, [], kept + stack[1..]))
  {
    var temporary := ListInSomeOrder(TemporaryDirectories(s, dir));
    var files := ListInSomeOrder(VolatileFiles(s, dir));
    kept := ListInSomeOrder(KeptDirectories(s, dir));
    ListingIsStep(begun, s, stack, temporary, files, kept);
    RootsPresent(s, dir, temporary, files, kept);
    t, left, alive := RemoveListed(s, dir, temporary + files, budget, begun, kept + stack[1..]);
    RootsAreMarked(s, dir, temporary, files, kept);
    ScanResult(s, t, dir, temporary + files);
  }

  // ---------------------------------------------------------------- the walk

  /** No directory still to be entered is another one or lies in it. */
  ghost predicate Unrelated(stack: seq<RelPath>) {
    forall i, j | 0 <= i < j < |stack| :: !(stack[i] <= stack[j]) && !(stack[j] <= stack[i])
  }

  /** The places that the walk may still get to. */
  ghost function Ahead(start: Tree, stack: seq<RelPath>): set<RelPath> {
    set p | p in start.Keys + {[]} && exists d :: d in stack && d <= p
  }

  lemma KeptUnrelated(s: Tree, stack: seq<RelPath>, kept: seq<RelPath>)
    requires stack != [] && Unrelated(stack) && Lists(kept, KeptDirectories(s, stack[0]))
    ensures Unrelated(kept + stack[1..])
  {
    var dir, next := stack[0], kept + stack[1..];
    ListsDistinct(kept, KeptDirectories(s, dir));
    forall d | d in kept ensures |d| == |dir| + 1 && dir <= d { ListsAll(kept, KeptDirectories(s, dir), d); }
    forall i, j | 0 <= i < j < |next| ensures !(next[i] <= next[j]) && !(next[j] <= next[i]) {
      assert i < |kept| ==> next[i] == kept[i] && next[i] in kept;
      assert j < |kept| ==> next[j] == kept[j];
      assert i >= |kept| ==> next[i] == stack[i - |kept| + 1];
      assert j >= |kept| ==> next[j] == stack[j - |kept| + 1];
      if i < |kept| { KeptAside(dir, next[i], next[j]); }
      if j < |kept| { SameLevel(next[i], next[j]); SameLevel(next[j], next[i]); }
    }
  }

  lemma KeptAside(dir: RelPath, d: RelPath, e: RelPath)
    requires |d| == |dir| + 1 && dir <= d
    ensures !(dir <= e) && !(e <= dir) ==> !(d <= e) && !(e <= d)
  {
    AboveOrSame(e, d);
    assert Parent(d) == dir;
    assert d <= e ==> Parent(d) <= e;
  }

  lemma FewerAhead(start: Tree, s: Tree, stack: seq<RelPath>, kept: seq<RelPath>)
    requires stack != [] && Unrelated(stack) && Lists(kept, KeptDirectories(s, stack[0]))
    requires stack[0] in start.Keys + {[]}
    ensures Ahead(start, kept + stack[1..]) < Ahead(start, stack)
  {
    var dir, next := stack[0], kept + stack[1..];
    forall d | d in kept ensures |d| == |dir| + 1 && dir <= d { ListsAll(kept, KeptDirectories(s, dir), d); }
    forall p | p in Ahead(start, next) ensures p in Ahead(start, stack) && p != dir {
      var d :| d in next && d <= p;
      if d in kept {
        assert dir <= p && dir in stack;
      } else {
        assert d in stack[1..];
        var i :| 1 <= i < |stack| && stack[i] == d;
        assert !(stack[i] <= stack[0]) && stack[i] in stack;
      }
    }
    assert dir in Ahead(start, stack);
  }

  /**
   The whole discard, with the directories still to be entered on a stack. Every run ends as
   the walk allows. For a tree in which no link wavers, a run that ends normally leaves exactly
   the swept tree, and a killed one a tree from which the same result is still reached.
   */
  method DiscardVolatileEntries(start: Tree, budget: nat) returns (t: Tree, left: nat, alive: bool)
    requires Closed(start)
    ensures Closed(t) && Spent(start, t, budget, left, alive)
    ensures MayLeave(start, t) && (alive ==> GoesTo(Begin(start), Walk(t, [], [])))
    ensures LinkStable(start) ==> LinkStable(t) && Swept(t) == Swept(start)
    ensures LinkStable(start) && alive ==> t == Swept(start)
  {
    t, left := start, budget;
    var stack: seq<RelPath> := [[]];
    ReachesItself(Step, Begin(start));
    while stack != []
      invariant Closed(t) && Spent(start, t, budget, left, true)
      invariant GoesTo(Begin(start), Walk(t, [], stack))
      invariant Unrelated(stack) && forall d | d in stack :: d in start.Keys + {[]}
      invariant forall p | p in t :: p in start
      decreases Ahead(start, stack)
    {
      var kept;
      ghost var before := t;
      t, kept, left, alive := ScanDirectory(t, stack[0], left, Begin(start), stack);
      if !alive {
        CutKeepsOutcome(start, t);
        return;
      }
      KeptUnrelated(before, stack, kept);
      FewerAhead(start, before, stack, kept);
      forall d | d in kept ensures d in start { ListsAll(kept, KeptDirectories(before, stack[0]), d); }
      stack := kept + stack[1..];
    }
    alive := true;
    CutThere(start, Walk(t, [], []));
    CutKeepsOutcome(start, t);
    RunIsOutcome(start, t);
    if LinkStable(start) { OutcomeIsSwept(start, t); }
  }

  lemma CutKeepsOutcome(start: Tree, t: Tree)
    requires Closed(start) && MayLeave(start, t)
    ensures LinkStable(start) ==> LinkStable(t) && Swept(t) == Swept(start)
  {
    ReachesItself(MayLeave, start);
    ReachesOnward(MayLeave, start, start, t);
    if LinkStable(start) { KillsKeepOutcome(start, t); }
  }
}
