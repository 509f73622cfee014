/**
 What the top-down discard can do to a tree, in whatever order directories are listed and
 killed at any step: the walk as a relation, and why its outcome is one and the same tree
 when no link wavers.
 */
module MigrationWalk {
  import opened Basics
  import opened MigrationTree

  // ---------------------------------------------------------------- the walk

  /**
   A walk under way: what the last scan judged removable and is still to be taken away, in
   order, and the directories still to be entered, the next one first.
   */
  datatype Walk = Walk(tree: Tree, taking: seq<RelPath>, entering: seq<RelPath>)

  function Begin(t: Tree): Walk { Walk(t, [], [[]]) }

  function TemporaryDirectories(t: Tree, dir: RelPath): set<RelPath> {
    set p | p in Children(t, dir) && DirLike(t, p) && TempName(Last(p))
  }

  function VolatileFiles(t: Tree, dir: RelPath): set<RelPath> {
    set p | p in Children(t, dir) && !DirLike(t, p) && VolatileName(Last(p))
  }

  /** The child directories that a scan keeps and the walk enters; links are not entered. */
  function KeptDirectories(t: Tree, dir: RelPath): set<RelPath> {
    set p | p in Children(t, dir) && t[p] == Dir && !TempName(Last(p))
  }

  ghost predicate Lists(xs: seq<RelPath>, s: set<RelPath>) { multiset(xs) == multiset(s) }

  /** One listing of a directory: all children are judged before anything is taken away. */
  ghost predicate Listed(t: Tree, dir: RelPath, temporary: seq<RelPath>, files: seq<RelPath>, kept: seq<RelPath>) {
    && Lists(temporary, TemporaryDirectories(t, dir))
    && Lists(files, VolatileFiles(t, dir))
    && Lists(kept, KeptDirectories(t, dir))
  }

  /** Some entries at or below `root` have been taken away, children before parents. */
  ghost predicate Thinned(s: Tree, t: Tree, root: RelPath) {
    && Closed(t)
    && (forall p | p in t :: p in s && t[p] == s[p])
    && (forall p | p in s && p !in t :: Under(root, p))
  }

  /** Part of a removal, the end of a removal, or the scan of the next directory. */
  ghost predicate Step(a: Walk, b: Walk) {
    if a.taking != [] then
      && b.entering == a.entering && Thinned(a.tree, b.tree, a.taking[0])
      && (b.taking == a.taking || (b.taking == a.taking[1..] && Below(b.tree, a.taking[0]) == {}))
    else
      && a.entering != [] && b.tree == a.tree
      && exists temporary, files, kept ::
           && Listed(a.tree, a.entering[0], temporary, files, kept)
           && b.taking == temporary + files && b.entering == kept + a.entering[1..]
  }

  ghost predicate GoesTo(a: Walk, b: Walk) { Reaches(Step, a, b) }

  /** A run on `s`, killed somewhere, may leave `t`. */
  ghost predicate MayLeave(s: Tree, t: Tree) {
    exists w: Walk :: GoesTo(Begin(s), w) && w.tree == t
  }

  /** Any number of killed runs, one after the other, may leave `t`. */
  ghost predicate LeftByKills(t0: Tree, t: Tree) { Reaches(MayLeave, t0, t) }

  /** A run to the end may leave `t`, after any number of killed runs. */
  ghost predicate Outcome(t0: Tree, t: Tree) {
    exists s :: LeftByKills(t0, s) && GoesTo(Begin(s), Walk(t, [], []))
  }

  /** What killed runs leave has no outcome that their start did not have. */
  lemma KillsAddNoOutcome(t0: Tree, s: Tree, t: Tree)
    requires LeftByKills(t0, s) && Outcome(s, t)
    ensures Outcome(t0, t)
  {
    var r :| LeftByKills(s, r) && GoesTo(Begin(r), Walk(t, [], []));
    ReachesTransitive(MayLeave, t0, s, r);
  }

  // ---------------------------------------------------------------- what each scan takes

  /** At or below a child of `dir` that a scan of `dir` in this tree judges removable. */
  ghost predicate Taken(t: Tree, dir: RelPath, p: RelPath) {
    dir < p && p[..|dir| + 1] in t && Marked(t, p[..|dir| + 1])
  }

  ghost function ScannedOnce(t: Tree, dir: RelPath): Tree {
    map p | p in t && !Taken(t, dir, p) :: t[p]
  }

  /** The tree after the scans of all directories strictly above `dir`, and of no others. */
  ghost function Above(t0: Tree, dir: RelPath): Tree
    decreases |dir|
  {
    if dir == [] then t0 else ScannedOnce(Above(t0, Parent(dir)), Parent(dir))
  }

  /** It is the scan of `dir` that takes `p` away. */
  ghost predicate LostAt(t0: Tree, dir: RelPath, p: RelPath) {
    p in Above(t0, dir) && Taken(Above(t0, dir), dir, p)
  }

  ghost predicate Lost(t0: Tree, p: RelPath) {
    exists dir :: LostAt(t0, dir, p)
  }

  /** The tree without everything that some scan takes away. */
  ghost function Swept(t0: Tree): Tree {
    map p | p in t0 && !Lost(t0, p) :: t0[p]
  }

  lemma {:induction false} AboveIs(t0: Tree, dir: RelPath, p: RelPath)
    ensures p in Above(t0, dir) <==> p in t0 && forall k | 0 <= k < |dir| :: !LostAt(t0, dir[..k], p)
    ensures p in Above(t0, dir) ==> Above(t0, dir)[p] == t0[p]
    decreases |dir|
  {
    if dir != [] {
      var parent := Parent(dir);
      AboveIs(t0, parent, p);
      assert forall k | 0 <= k < |parent| :: parent[..k] == dir[..k];
      assert dir[..|parent|] == parent;
    }
  }

  lemma LostInOne(t0: Tree, p: RelPath, d: RelPath, e: RelPath)
    requires LostAt(t0, d, p) && LostAt(t0, e, p)
    ensures d == e
  {
    assert |d| <= |e| ==> e[..|d|] == d;
    assert |e| <= |d| ==> d[..|e|] == e;
    AboveIs(t0, e, p);
    AboveIs(t0, d, p);
  }

  /** An entry is lost together with everything below the same child. */
  lemma LostTogether(t0: Tree, dir: RelPath, p: RelPath, q: RelPath)
    requires LostAt(t0, dir, p) && q in t0 && p[..|dir| + 1] <= q
    ensures LostAt(t0, dir, q)
  {
    AboveIs(t0, dir, p);
    forall k | 0 <= k < |dir| ensures !LostAt(t0, dir[..k], q) {
      AboveIs(t0, dir[..k], p);
      assert forall i | 0 <= i < k :: dir[..k][..i] == dir[..i];
      assert q[..k + 1] == p[..k + 1];
    }
    AboveIs(t0, dir, q);
    assert q[..|dir| + 1] == p[..|dir| + 1];
  }

  /** Neither the link nor anything it rests on goes in a scan strictly above its directory. */
  ghost predicate MeetsSupports(t0: Tree, q: RelPath)
    requires q in t0 && q != [] && t0[q].Link?
  {
    q in Above(t0, Parent(q)) && forall e | e in Supports(t0, q) :: e in Above(t0, Parent(q))
  }

  /**
   Something the link rests on is taken away by the scan of `dir`, and may be while the link is
   there. A link that goes by its directory name goes before anything a scan further down takes.
   */
  ghost predicate LosesSupport(t0: Tree, q: RelPath, e: RelPath, dir: RelPath)
    requires q in t0 && q != [] && t0[q].Link?
  {
    e in Supports(t0, q) && e != q && LostAt(t0, dir, e) && (TempName(Last(q)) ==> !(Parent(q) < dir))
  }

  /** A link whose verdict depends on whether something it rests on has been taken away yet. */
  ghost predicate Wavering(t0: Tree, q: RelPath) {
    && q in t0 && q != [] && t0[q].Link? && DirLike(t0, q) && MeetsSupports(t0, q)
    && TempName(Last(q)) != VolatileName(Last(q))
    && exists e, dir :: LosesSupport(t0, q, e, dir)
  }

  /**
   No link wavers: whatever a link rests on stays, or is gone in a scan strictly above its
   directory, or the link itself is always gone before.
   */
  ghost predicate LinkStable(t0: Tree) {
    forall q | q in t0 :: !Wavering(t0, q)
  }

  // ---------------------------------------------------------------- the invariant of all runs

  /** The scans strictly above `dir` have nothing more to take away. */
  ghost predicate Cleared(t0: Tree, t: Tree, dir: RelPath) {
    forall p | p in t :: p in Above(t0, dir)
  }

  /** Part of what the scans take is gone, and only after all that scans further up take. */
  ghost predicate Partly(t0: Tree, t: Tree) {
    && Closed(t)
    && (forall p | p in t :: p in t0 && t[p] == t0[p])
    && (forall p | p in t0 && p !in t :: Lost(t0, p))
    && (forall p, dir | p in t0 && p !in t && LostAt(t0, dir, p) :: Cleared(t0, t, dir))
  }

  ghost predicate RightlyTaken(t0: Tree, t: Tree, c: RelPath) {
    c != [] && LostAt(t0, Parent(c), c) && Cleared(t0, t, Parent(c))
  }

  ghost predicate Enterable(t0: Tree, dir: RelPath) {
    dir == [] || (dir in Swept(t0) && t0[dir] == Dir)
  }

  ghost predicate InTaking(w: Walk, p: RelPath) { exists c :: c in w.taking && c <= p }

  ghost predicate StillToCome(w: Walk, dir: RelPath) { exists d :: d in w.entering && d <= dir }

  ghost predicate OnCourse(t0: Tree, w: Walk) {
    && Partly(t0, w.tree)
    && (forall c | c in w.taking :: RightlyTaken(t0, w.tree, c))
    && (forall d | d in w.entering :: Enterable(t0, d))
    && (forall d, p | d in w.entering && p in w.tree :: p in Above(t0, d) || InTaking(w, p))
    && (forall p, dir | p in w.tree && LostAt(t0, dir, p) :: InTaking(w, p) || StillToCome(w, dir))
  }

  lemma BeginIsOnCourse(t0: Tree, t: Tree)
    requires Partly(t0, t)
    ensures OnCourse(t0, Begin(t))
  {
    assert Above(t0, []) == t0;
    forall p, dir | p in t && LostAt(t0, dir, p) ensures StillToCome(Begin(t), dir) {
      assert [] in Begin(t).entering && [] <= dir;
    }
  }

  lemma StartIsPartly(t0: Tree)
    requires Closed(t0)
    ensures Partly(t0, t0)
  {
  }

  /** The heart of crash safety: a scan judges every child as it would in a run of its own. */
  lemma ScanJudgesAlike(t0: Tree, t: Tree, dir: RelPath, q: RelPath)
    requires LinkStable(t0) && Partly(t0, t) && Cleared(t0, t, dir) && q in Children(t, dir)
    ensures q in Above(t0, dir) && t[q] == Above(t0, dir)[q]
    ensures Marked(t, q) <==> Marked(Above(t0, dir), q)
  {
    var a := Above(t0, dir);
    forall p | p in t ensures p in a && t[p] == a[p] { AboveIs(t0, dir, p); }
    forall p | p in a ensures p in t0 && t0[p] == a[p] { AboveIs(t0, dir, p); }
    DirLikeWhileSupported(t0, a, q);
    DirLikeWhileSupported(t0, t, q);
    if t[q].Link? && DirLike(a, q) && !DirLike(t, q) {
      var e :| e in Supports(t0, q) && !(e in t0 && e in t && t[e] == t0[e]);
      LostSupport(t0, t, dir, q, e);
    }
  }

  lemma GoneIsLost(t0: Tree, t: Tree, e: RelPath) returns (dir: RelPath)
    requires Partly(t0, t) && e in t0 && e !in t
    ensures LostAt(t0, dir, e) && Cleared(t0, t, dir)
  {
    assert Lost(t0, e);
    dir :| LostAt(t0, dir, e);
  }

  lemma LostSupport(t0: Tree, t: Tree, dir: RelPath, q: RelPath, e: RelPath)
    requires LinkStable(t0) && Partly(t0, t) && q in Children(t, dir) && q in Above(t0, dir)
    requires t0[q].Link? && DirLike(t0, q) && DirLike(Above(t0, dir), q)
    requires forall p | p in Supports(t0, q) :: p in t0 && p in Above(t0, dir)
    requires e in Supports(t0, q) && e !in t
    ensures TempName(Last(q)) == VolatileName(Last(q))
  {
    if TempName(Last(q)) != VolatileName(Last(q)) {
      var lost := GoneIsLost(t0, t, e);
      assert Parent(q) == dir;
      if TempName(Last(q)) { NotWhileLinkStays(t0, t, dir, q, lost); }
      SupportIsLost(t0, q, e, lost);
    }
  }

  /** No scan below `dir` has taken anything while a removable child of `dir` is still there. */
  lemma NotWhileLinkStays(t0: Tree, t: Tree, dir: RelPath, q: RelPath, lost: RelPath)
    requires Cleared(t0, t, lost) && q in Children(t, dir) && q in Above(t0, dir) && Marked(Above(t0, dir), q)
    ensures !(dir < lost)
  {
    assert q[..|dir| + 1] == q;
    assert LostAt(t0, dir, q);
    assert dir < lost ==> lost[..|dir|] == dir;
    AboveIs(t0, lost, q);
  }

  lemma SupportIsLost(t0: Tree, q: RelPath, e: RelPath, lost: RelPath)
    requires q in t0 && q != [] && t0[q].Link? && DirLike(t0, q) && MeetsSupports(t0, q)
    requires LosesSupport(t0, q, e, lost) && TempName(Last(q)) != VolatileName(Last(q))
    ensures !LinkStable(t0)
  {
    assert Wavering(t0, q);
  }

  lemma ThinningIsPartly(t0: Tree, s: Tree, t: Tree, c: RelPath)
    requires Partly(t0, s) && RightlyTaken(t0, s, c) && Thinned(s, t, c)
    ensures Partly(t0, t)
  {
    forall p | p in s && p !in t ensures LostAt(t0, Parent(c), p) && Lost(t0, p) {
      assert c[..|Parent(c)| + 1] == c;
      LostTogether(t0, Parent(c), c, p);
    }
    forall p, dir | p in t0 && p !in t && LostAt(t0, dir, p) ensures Cleared(t0, t, dir) {
      if p in s { LostInOne(t0, p, dir, Parent(c)); }
    }
  }

  lemma TakingKeepsCourse(t0: Tree, a: Walk, b: Walk)
    requires OnCourse(t0, a) && a.taking != [] && Step(a, b)
    ensures OnCourse(t0, b)
  {
    ThinningIsPartly(t0, a.tree, b.tree, a.taking[0]);
    TakingKeepsCover(t0, a, b);
    forall c | c in b.taking ensures RightlyTaken(t0, b.tree, c) { assert c in a.taking && RightlyTaken(t0, a.tree, c); }
  }

  lemma TakingKeepsCover(t0: Tree, a: Walk, b: Walk)
    requires OnCourse(t0, a) && a.taking != [] && Step(a, b)
    ensures forall d, p | d in b.entering && p in b.tree :: p in Above(t0, d) || InTaking(b, p)
    ensures forall p, dir | p in b.tree && LostAt(t0, dir, p) :: InTaking(b, p) || StillToCome(b, dir)
  {
    forall p | p in b.tree ensures InTaking(a, p) ==> InTaking(b, p) {
      if InTaking(a, p) { StillInTaking(a, b, p); }
    }
    forall dir ensures StillToCome(b, dir) == StillToCome(a, dir) {}
  }

  lemma StillInTaking(a: Walk, b: Walk, p: RelPath)
    requires a.taking != [] && Step(a, b) && p in b.tree && InTaking(a, p)
    ensures InTaking(b, p)
  {
    var d :| d in a.taking && d <= p;
    assert d == a.taking[0] ==> p in Below(b.tree, a.taking[0]);
    assert d != a.taking[0] ==> d in a.taking[1..];
  }

  lemma ListsAll(xs: seq<RelPath>, s: set<RelPath>, x: RelPath)
    requires Lists(xs, s)
    ensures x in xs <==> x in s
  {
    assert x in xs <==> x in multiset(xs);
  }

  /** What no scan above takes can be lost only in its own directory. */
  lemma LostBelowReached(t0: Tree, q: RelPath, dir: RelPath, lost: RelPath)
    requires q in Above(t0, dir) && |q| == |dir| + 1 && dir < q
    ensures LostAt(t0, lost, q) ==> lost == dir
  {
    assert lost < q && |lost| < |dir| ==> dir[..|lost|] == lost;
    assert lost < q && |lost| == |dir| ==> lost == dir;
    AboveIs(t0, dir, q);
  }

  /** What a scan on course finds: removable children are lost at this directory, kept directories can be entered. */
  lemma ScanFindings(t0: Tree, t: Tree, dir: RelPath, q: RelPath)
    requires LinkStable(t0) && Partly(t0, t) && Cleared(t0, t, dir) && q in Children(t, dir)
    ensures Parent(q) == dir
    ensures Marked(t, q) ==> RightlyTaken(t0, t, q)
    ensures t[q] == Dir && !TempName(Last(q)) ==> Enterable(t0, q)
  {
    ScanJudgesAlike(t0, t, dir, q);
    assert q[..|dir| + 1] == q && Parent(q) == dir;
    if t[q] == Dir && !TempName(Last(q)) {
      assert !LostAt(t0, dir, q);
      forall lost ensures !LostAt(t0, lost, q) { LostBelowReached(t0, q, dir, lost); }
    }
  }

  /** An entry that its scan has still to take is in the list of that scan or below a kept directory. */
  lemma ScanCovers(t0: Tree, t: Tree, dir: RelPath, p: RelPath, lost: RelPath)
    requires LinkStable(t0) && Partly(t0, t) && Cleared(t0, t, dir) && p in t && LostAt(t0, lost, p) && dir <= lost
    ensures var c := p[..|dir| + 1];
            && c in Children(t, dir) && c <= p
            && (Marked(t, c) || (c in KeptDirectories(t, dir) && c <= lost))
  {
    var c := p[..|dir| + 1];
    if c != p { AncestorIsDirectory(t, c, p); }
    ScanJudgesAlike(t0, t, dir, c);
    AboveIs(t0, dir, p);
    if !Marked(t, c) {
      assert !Taken(Above(t0, dir), dir, p);
      assert dir != lost;
      assert c <= lost;
    }
  }

  ghost predicate ScanStep(a: Walk, b: Walk, temporary: seq<RelPath>, files: seq<RelPath>, kept: seq<RelPath>) {
    && a.taking == [] && a.entering != [] && b.tree == a.tree
    && Listed(a.tree, a.entering[0], temporary, files, kept)
    && b.taking == temporary + files && b.entering == kept + a.entering[1..]
  }

  lemma ListedChildren(a: Walk, b: Walk, temporary: seq<RelPath>, files: seq<RelPath>, kept: seq<RelPath>, c: RelPath)
    requires ScanStep(a, b, temporary, files, kept)
    ensures c in b.taking <==> c in Children(a.tree, a.entering[0]) && Marked(a.tree, c)
    ensures c in b.entering <==> c in KeptDirectories(a.tree, a.entering[0]) || c in a.entering[1..]
  {
    ListsAll(temporary, TemporaryDirectories(a.tree, a.entering[0]), c);
    ListsAll(files, VolatileFiles(a.tree, a.entering[0]), c);
    ListsAll(kept, KeptDirectories(a.tree, a.entering[0]), c);
  }

  lemma ScannedForChild(t0: Tree, t: Tree, dir: RelPath, d: RelPath, p: RelPath) returns (c: RelPath)
    requires LinkStable(t0) && Partly(t0, t) && Cleared(t0, t, dir) && d in Children(t, dir) && p in t
    ensures p in Above(t0, d) || (c in Children(t, dir) && Marked(t, c) && c <= p)
  {
    assert Parent(d) == dir;
    assert p in Above(t0, dir);
    c := p[..if |p| > |dir| then |dir| + 1 else 0];
    if Taken(Above(t0, dir), dir, p) {
      ScanCovers(t0, t, dir, p, dir);
    }
  }

  /** Every entry left behind a scan is in order for the directories now to be entered. */
  lemma ScannedForNext(t0: Tree, a: Walk, b: Walk, temporary: seq<RelPath>, files: seq<RelPath>, kept: seq<RelPath>, d: RelPath, p: RelPath)
    requires LinkStable(t0) && OnCourse(t0, a) && ScanStep(a, b, temporary, files, kept)
    requires Cleared(t0, a.tree, a.entering[0])
    requires d in b.entering && p in b.tree
    ensures p in Above(t0, d) || InTaking(b, p)
  {
    var dir := a.entering[0];
    ListedChildren(a, b, temporary, files, kept, d);
    if d in a.entering {
      assert !InTaking(a, p);
    } else {
      var c := ScannedForChild(t0, a.tree, dir, d, p);
      ListedChildren(a, b, temporary, files, kept, c);
    }
  }

  lemma StillCovered(t0: Tree, a: Walk, b: Walk, temporary: seq<RelPath>, files: seq<RelPath>, kept: seq<RelPath>, p: RelPath, lost: RelPath)
    requires LinkStable(t0) && OnCourse(t0, a) && ScanStep(a, b, temporary, files, kept)
    requires Cleared(t0, a.tree, a.entering[0])
    requires p in b.tree && LostAt(t0, lost, p)
    ensures InTaking(b, p) || StillToCome(b, lost)
  {
    assert !InTaking(a, p) && StillToCome(a, lost);
    var d :| d in a.entering && d <= lost;
    if d == a.entering[0] {
      ScanCovers(t0, a.tree, d, p, lost);
      ListedChildren(a, b, temporary, files, kept, p[..|d| + 1]);
    } else {
      ListedChildren(a, b, temporary, files, kept, d);
    }
  }

  lemma ScanKeepsCourse(t0: Tree, a: Walk, b: Walk, temporary: seq<RelPath>, files: seq<RelPath>, kept: seq<RelPath>)
    requires LinkStable(t0) && OnCourse(t0, a) && ScanStep(a, b, temporary, files, kept)
    ensures OnCourse(t0, b)
  {
    var dir := a.entering[0];
    forall p | p in a.tree ensures p in Above(t0, dir) { assert !InTaking(a, p); }
    forall c | c in b.taking ensures RightlyTaken(t0, b.tree, c) {
      ListedChildren(a, b, temporary, files, kept, c);
      ScanFindings(t0, a.tree, dir, c);
    }
    forall d | d in b.entering ensures Enterable(t0, d) {
      ListedChildren(a, b, temporary, files, kept, d);
      if d in KeptDirectories(a.tree, dir) { ScanFindings(t0, a.tree, dir, d); }
    }
    forall d, p | d in b.entering && p in b.tree ensures p in Above(t0, d) || InTaking(b, p) {
      ScannedForNext(t0, a, b, temporary, files, kept, d, p);
    }
    forall p, lost | p in b.tree && LostAt(t0, lost, p) ensures InTaking(b, p) || StillToCome(b, lost) {
      StillCovered(t0, a, b, temporary, files, kept, p, lost);
    }
  }

  lemma StepKeepsCourse(t0: Tree, a: Walk, b: Walk)
    requires LinkStable(t0) && OnCourse(t0, a) && Step(a, b)
    ensures OnCourse(t0, b)
  {
    if a.taking != [] {
      TakingKeepsCourse(t0, a, b);
    } else {
      var temporary, files, kept :| Listed(a.tree, a.entering[0], temporary, files, kept)
                                    && b.taking == temporary + files && b.entering == kept + a.entering[1..];
      ScanKeepsCourse(t0, a, b, temporary, files, kept);
    }
  }

  // ---------------------------------------------------------------- one outcome

  lemma RunKeepsCourse(t0: Tree, s: Tree, w: Walk)
    requires LinkStable(t0) && Partly(t0, s) && GoesTo(Begin(s), w)
    ensures OnCourse(t0, w)
  {
    BeginIsOnCourse(t0, s);
    forall a, b | OnCourse(t0, a) && Step(a, b) ensures OnCourse(t0, b) { StepKeepsCourse(t0, a, b); }
    ReachesKeeps(Step, a => OnCourse(t0, a), Begin(s), w);
  }

  lemma KillsKeepPartly(t0: Tree, t: Tree)
    requires LinkStable(t0) && Closed(t0) && LeftByKills(t0, t)
    ensures Partly(t0, t)
  {
    StartIsPartly(t0);
    forall a, b | Partly(t0, a) && MayLeave(a, b) ensures Partly(t0, b) {
      var w: Walk :| GoesTo(Begin(a), w) && w.tree == b;
      RunKeepsCourse(t0, a, w);
    }
    ReachesKeeps(MayLeave, a => Partly(t0, a), t0, t);
  }

  lemma OverIsSwept(t0: Tree, t: Tree)
    requires OnCourse(t0, Walk(t, [], []))
    ensures t == Swept(t0)
  {
    var w := Walk(t, [], []);
    forall p, dir | p in t ensures !LostAt(t0, dir, p) { assert !InTaking(w, p) && !StillToCome(w, dir); }
    assert t.Keys == Swept(t0).Keys;
  }

  /** In a stable tree every schedule of kills and every listing order ends with the swept tree. */
  lemma OutcomeIsSwept(t0: Tree, t: Tree)
    requires LinkStable(t0) && Closed(t0) && Outcome(t0, t)
    ensures t == Swept(t0)
  {
    var s :| LeftByKills(t0, s) && GoesTo(Begin(s), Walk(t, [], []));
    KillsKeepPartly(t0, s);
    RunKeepsCourse(t0, s, Walk(t, [], []));
    OverIsSwept(t0, t);
  }

  // ---------------------------------------------------------------- trees with nothing left to discard

  ghost predicate NothingMarked(t: Tree) {
    forall p | p in t && p != [] :: !Marked(t, p)
  }

  /** No directory, and no link to one, has a temporary name: a scan takes away only plain files and dangling links. */
  ghost predicate Calm(t: Tree) {
    forall p | p in t && p != [] && DirLike(t, p) :: !TempName(Last(p))
  }

  ghost function Unmarked(t: Tree): Tree {
    map p | p in t && (p != [] ==> !Marked(t, p)) :: t[p]
  }

  /** Only marked leaves have been taken away, which no link to a directory rests on. */
  ghost predicate LeavesTaken(t: Tree, a: Tree) {
    && (forall p | p in a :: p in t && a[p] == t[p])
    && (forall p | p in t && p !in a :: p != [] && !DirLike(t, p) && Marked(t, p))
  }

  lemma LeavesTakenJudgesAlike(t: Tree, a: Tree, q: RelPath)
    requires LeavesTaken(t, a) && q in a
    ensures DirLike(a, q) <==> DirLike(t, q)
  {
    DirLikeWhileSupported(t, a, q);
    if DirLike(t, q) && t[q].Link? {
      forall e | e in Supports(t, q) ensures e in t && e in a { SupportsLead(t, q, e); }
    }
  }

  lemma {:induction false} CalmAbove(t: Tree, dir: RelPath)
    requires Closed(t) && Calm(t)
    ensures LeavesTaken(t, Above(t, dir))
    decreases |dir|
  {
    if dir != [] {
      var parent, a := Parent(dir), Above(t, Parent(dir));
      CalmAbove(t, parent);
      forall p | p in a && Taken(a, parent, p) ensures p != [] && !DirLike(t, p) && Marked(t, p) { CalmTaken(t, a, parent, p); }
    }
  }

  lemma CalmTaken(t: Tree, a: Tree, dir: RelPath, p: RelPath)
    requires Closed(t) && Calm(t) && LeavesTaken(t, a) && p in a && Taken(a, dir, p)
    ensures p != [] && !DirLike(t, p) && Marked(t, p)
  {
    var c := p[..|dir| + 1];
    LeavesTakenJudgesAlike(t, a, c);
    if c != p { AncestorIsDirectory(t, c, p); }
  }

  lemma LostIsMarked(t: Tree, p: RelPath)
    requires Closed(t) && Calm(t) && p in t && Lost(t, p)
    ensures p != [] && Marked(t, p) && !DirLike(t, p)
  {
    var dir :| LostAt(t, dir, p);
    CalmAbove(t, dir);
    CalmTaken(t, Above(t, dir), dir, p);
  }

  lemma GoneAboveIsLost(t: Tree, p: RelPath, dir: RelPath)
    requires p in t && p !in Above(t, dir)
    ensures Lost(t, p)
  {
    AboveIs(t, dir, p);
  }

  lemma MarkedIsTaken(t: Tree, a: Tree, p: RelPath)
    requires LeavesTaken(t, a) && p in a && p != [] && Marked(t, p)
    ensures Taken(a, Parent(p), p)
  {
    LeavesTakenJudgesAlike(t, a, p);
    assert p[..|Parent(p)| + 1] == p;
  }

  lemma MarkedIsLost(t: Tree, p: RelPath)
    requires Closed(t) && Calm(t) && p in t && p != [] && Marked(t, p)
    ensures Lost(t, p)
  {
    var dir := Parent(p);
    if p in Above(t, dir) {
      CalmAbove(t, dir);
      MarkedIsTaken(t, Above(t, dir), p);
      assert LostAt(t, dir, p);
    } else {
      GoneAboveIsLost(t, p, dir);
    }
  }

  lemma CalmNeverWavers(t: Tree, q: RelPath, e: RelPath, dir: RelPath)
    requires Closed(t) && Calm(t) && q in t && q != [] && t[q].Link? && DirLike(t, q)
    ensures !LosesSupport(t, q, e, dir)
  {
    if e in Supports(t, q) {
      SupportsLead(t, q, e);
      CalmAbove(t, dir);
      if LostAt(t, dir, e) { CalmTaken(t, Above(t, dir), dir, e); }
    }
  }

  lemma CalmLost(t: Tree, p: RelPath)
    requires Closed(t) && Calm(t) && p in t
    ensures Lost(t, p) <==> p != [] && Marked(t, p)
  {
    if Lost(t, p) { LostIsMarked(t, p); }
    if p != [] && Marked(t, p) { MarkedIsLost(t, p); }
  }

  lemma CalmSwept(t: Tree)
    requires Closed(t) && Calm(t)
    ensures Swept(t) == Unmarked(t)
  {
    forall p | p in t ensures Lost(t, p) <==> p != [] && Marked(t, p) { CalmLost(t, p); }
  }

  /** In a calm tree nothing that a link rests on is ever lost, and the discard takes away exactly what is marked. */
  lemma CalmIsStable(t: Tree)
    requires Closed(t) && Calm(t)
    ensures LinkStable(t) && Swept(t) == Unmarked(t)
  {
    forall q, e, dir | q in t && q != [] && t[q].Link? && DirLike(t, q) ensures !LosesSupport(t, q, e, dir) {
      CalmNeverWavers(t, q, e, dir);
    }
    CalmSwept(t);
  }

  lemma NothingMarkedIsSettled(t: Tree)
    requires Closed(t) && NothingMarked(t)
    ensures LinkStable(t) && Swept(t) == t
  {
    assert Calm(t);
    CalmIsStable(t);
    assert Unmarked(t).Keys == t.Keys;
  }

  lemma SweptAbove(t0: Tree, p: RelPath, dir: RelPath)
    requires p in Swept(t0)
    ensures p in Above(t0, dir)
  {
    AboveIs(t0, dir, p);
  }

  lemma SweptIsClosed(t0: Tree)
    requires Closed(t0)
    ensures Closed(Swept(t0))
  {
    forall p ensures Rooted(Swept(t0), p) {
      assert Rooted(t0, p);
      if p in Swept(t0) && |p| > 1 { ParentOfSwept(t0, p); }
    }
  }

  lemma SweptIsCleared(t0: Tree, dir: RelPath)
    ensures Cleared(t0, Swept(t0), dir)
  {
    forall p | p in Swept(t0) ensures p in Above(t0, dir) { SweptAbove(t0, p, dir); }
  }

  lemma SweptIsPartly(t0: Tree)
    requires Closed(t0)
    ensures Partly(t0, Swept(t0))
  {
    SweptIsClosed(t0);
    forall dir ensures Cleared(t0, Swept(t0), dir) { SweptIsCleared(t0, dir); }
  }

  lemma ParentOfSwept(t0: Tree, p: RelPath)
    requires Closed(t0) && p in Swept(t0) && |p| > 1
    ensures Parent(p) in Swept(t0)
  {
    assert Rooted(t0, p);
    forall dir | LostAt(t0, dir, Parent(p)) ensures LostAt(t0, dir, p) {
      assert Parent(p)[..|dir| + 1] <= p;
      LostTogether(t0, dir, Parent(p), p);
    }
  }

  lemma SweptUnmarked(t0: Tree, q: RelPath)
    requires Closed(t0) && LinkStable(t0) && q in Swept(t0) && q != []
    ensures !Marked(Swept(t0), q)
  {
    var dir := Parent(q);
    SweptIsPartly(t0);
    SweptIsCleared(t0, dir);
    ScanJudgesAlike(t0, Swept(t0), dir, q);
    assert q[..|dir| + 1] == q && !LostAt(t0, dir, q);
  }

  /** After a discard of a stable tree another one finds nothing to do. */
  lemma SweptIsSettled(t0: Tree)
    requires Closed(t0) && LinkStable(t0)
    ensures Closed(Swept(t0)) && NothingMarked(Swept(t0))
  {
    SweptIsClosed(t0);
    forall q | q in Swept(t0) && q != [] ensures !Marked(Swept(t0), q) { SweptUnmarked(t0, q); }
  }
}
