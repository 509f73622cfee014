/** Normalization of a whole updater cache, and why it never revives a discard decision. */
module MigrationCache {
  import opened Basics
  import opened Text
  import opened MigrationTree
  import opened MigrationDmg

  datatype Progress = Finished | Killed | Refused

  /** The directory that normalization arrives at, as a value. */
  ghost function NormalForm(t: Tree, base: RelPath, w: Prefixes, sha: Hash): Tree {
    var renamed := set p | p in t && SourceName(base, w, p) :: base + [DmgName(w.target, DigestIn(p[|base|], w.source).value)];
    map p | p in t.Keys + renamed && NormalEntry(t, base, w, sha, p).Some? :: NormalEntry(t, base, w, sha, p).value
  }

  lemma NormalFormEntries(t: Tree, base: RelPath, w: Prefixes, sha: Hash, p: RelPath)
    ensures Get(NormalForm(t, base, w, sha), p) == NormalEntry(t, base, w, sha, p)
  {
    var renamed := set q | q in t && SourceName(base, w, q) :: base + [DmgName(w.target, DigestIn(q[|base|], w.source).value)];
    var e := NormalEntry(t, base, w, sha, p);
    if e.Some? && p !in t {
      var digest := DigestIn(p[|base|], w.target).value;
      var source := base + [DmgName(w.source, digest)];
      DigestOfName(w.source, digest);
      assert source in t && SourceName(base, w, source);
      assert p == base + [DmgName(w.target, digest)];
      assert p in renamed;
    }
  }

  lemma SameNormalForm(t0: Tree, t: Tree, base: RelPath, w: Prefixes, sha: Hash)
    requires SameNormal(t0, t, base, w, sha)
    ensures NormalForm(t, base, w, sha) == NormalForm(t0, base, w, sha)
  {
    forall p ensures Get(NormalForm(t, base, w, sha), p) == Get(NormalForm(t0, base, w, sha), p) {
      NormalFormEntries(t, base, w, sha, p);
      NormalFormEntries(t0, base, w, sha, p);
    }
    SameEntriesSameTree(NormalForm(t, base, w, sha), NormalForm(t0, base, w, sha));
  }

  lemma NormalFormOfNormal(t: Tree, base: RelPath, w: Prefixes, sha: Hash)
    requires Closed(t) && Normal(t, base, w, sha) && (w == FORWARD || w == REVERSE)
    ensures NormalForm(t, base, w, sha) == t
  {
    NormalIsFixed(t, base, w, sha);
    forall p ensures Get(NormalForm(t, base, w, sha), p) == Get(t, p) {
      NormalFormEntries(t, base, w, sha, p);
    }
    SameEntriesSameTree(NormalForm(t, base, w, sha), t);
  }

  lemma NormalizingRefl(t: Tree, base: RelPath, w: Prefixes, sha: Hash)
    requires Closed(t) && (base == [] || (base in t && t[base] == Dir))
    ensures Normalizing(t, t, base, w, sha)
  {
  }

  lemma TargetsSurviveImage(before: Tree, t: Tree, base: RelPath, w: Prefixes, source: RelPath, todo: set<RelPath>)
    requires w == FORWARD || w == REVERSE
    requires source in before && SourceName(base, w, source)
    requires forall p | p in before && p !in t ::
      base < p && (p[|base|] == source[|base|] || p[|base|] == DmgName(w.target, ImageDigest(base, w.source, source)))
    requires forall p | p in todo :: p in before && SourceName(base, w, p)
    ensures forall p | p in todo - {source} :: p in t
  {
    forall p | p in todo - {source} ensures p in t {
      if p !in t {
        OnePrefixOnly(p[|base|], w);
        ChildNamed(base, p, p[|base|]);
        ChildNamed(base, source, source[|base|]);
        DigestOfName(w.target, ImageDigest(base, w.source, source));
      }
    }
  }

  /** First loop: every source-prefixed image in the listing, in any order. */
  method NormalizeSources(start: Tree, base: RelPath, w: Prefixes, sha: Hash, budget: nat) returns (t: Tree, left: nat, alive: bool)
    requires w == FORWARD || w == REVERSE
    requires Closed(start) && (base == [] || (base in start && start[base] == Dir))
    ensures Normalizing(start, t, base, w, sha) && Worked(start, t, base, w, budget, left, alive)
    ensures alive ==> forall p | p in t && SourceName(base, w, p) :: t[p] == Special
  {
    NormalizingRefl(start, base, w, sha);
    t, left := start, budget;
    var todo := NamedWith(start, base, w.source);
    while todo != {}
      invariant Normalizing(start, t, base, w, sha) && Worked(start, t, base, w, budget, left, true)
      invariant forall p | p in todo :: p in t && SourceName(base, w, p)
      invariant forall p | p in t && SourceName(base, w, p) && p !in todo :: t[p] == Special
    {
      var source :| source in todo;
      ghost var before := t;
      t, left, alive := NormalizeImage(start, t, base, w, sha, source, left);
      if !alive {
        return;
      }
      TargetsSurviveImage(before, t, base, w, source, todo);
      todo := todo - {source};
    }
    alive := true;
  }

  /** How far the second loop has got: the entries still to do are there, the others hash to their names. */
  ghost predicate DropState(t0: Tree, t: Tree, base: RelPath, w: Prefixes, sha: Hash, todo: set<RelPath>) {
    && Normalizing(t0, t, base, w, sha)
    && (forall p | p in t && SourceName(base, w, p) :: t[p] == Special)
    && (forall p | p in todo :: p in t && TargetName(base, w, p))
    && (forall p | p in t && TargetName(base, w, p) && p !in todo :: t[p] == Special || Valid(t, p, DigestIn(p[|base|], w.target).value, sha))
  }

  lemma DropTargetStep(t0: Tree, before: Tree, t: Tree, base: RelPath, w: Prefixes, sha: Hash, target: RelPath)
    requires w == FORWARD || w == REVERSE
    requires Normalizing(t0, before, base, w, sha) && Closed(t)
    requires forall p | p in before && SourceName(base, w, p) :: before[p] == Special
    requires target in before && TargetName(base, w, target) && !Valid(before, target, ImageDigest(base, w.target, target), sha)
    requires forall p | p in t :: p in before && t[p] == before[p]
    requires forall p | p in before && p !in t :: target <= p && before[target] != Special
    ensures Normalizing(t0, t, base, w, sha)
  {
    var digest := ImageDigest(base, w.target, target);
    var source := base + [DmgName(w.source, digest)];
    DigestOfName(w.source, digest);
    assert source in before ==> SourceName(base, w, source);
    DiscardStep(t0, before, t, base, w, sha, target);
  }

  lemma SiblingsStay(before: Tree, t: Tree, base: RelPath, target: RelPath, p: RelPath)
    requires Immediate(base, target) && Immediate(base, p) && p != target && p in before
    requires forall q | q in before && q !in t :: target <= q
    ensures p in t
  {
    if target <= p { BelowChild(base, target, p); }
  }

  lemma DropStep(t0: Tree, before: Tree, t: Tree, base: RelPath, w: Prefixes, sha: Hash, todo: set<RelPath>, target: RelPath)
    requires w == FORWARD || w == REVERSE
    requires DropState(t0, before, base, w, sha, todo) && Normalizing(t0, t, base, w, sha)
    requires target in todo && (target in t ==> before[target] == Special)
    requires forall p | p in t :: p in before && t[p] == before[p]
    requires forall p | p in before && p !in t :: target <= p
    ensures DropState(t0, t, base, w, sha, todo - {target})
  {
    forall p | p in todo - {target} ensures p in t { SiblingsStay(before, t, base, target, p); }
  }

  lemma DropWorked(t0: Tree, start: Tree, before: Tree, t: Tree, base: RelPath, w: Prefixes, sha: Hash, todo: set<RelPath>, target: RelPath,
                   budget: nat, had: nat, left: nat, alive: bool)
    requires w == FORWARD || w == REVERSE
    requires DropState(t0, before, base, w, sha, todo) && Worked(start, before, base, w, budget, had, true)
    requires target in todo && !Valid(before, target, ImageDigest(base, w.target, target), sha)
    requires Closed(t) && Spent(before, t, had, left, alive)
    requires forall p | p in t :: p in before && t[p] == before[p]
    requires forall p | p in before && p !in t :: target <= p && before[target] != Special
    requires alive ==> (target in t <==> before[target] == Special)
    ensures Normalizing(t0, t, base, w, sha) && Worked(start, t, base, w, budget, left, alive)
    ensures alive ==> DropState(t0, t, base, w, sha, todo - {target})
  {
    DropTargetStep(t0, before, t, base, w, sha, target);
    SpentIsWorked(before, t, base, w, had, left, alive);
    if alive { DropStep(t0, before, t, base, w, sha, todo, target); }
  }

  /** One target-prefixed entry: dropped unless it hashes to its name. */
  method DropTarget(ghost t0: Tree, ghost start: Tree, before: Tree, base: RelPath, w: Prefixes, sha: Hash, ghost todo: set<RelPath>, target: RelPath,
                    ghost budget: nat, had: nat) returns (t: Tree, left: nat, alive: bool)
    requires w == FORWARD || w == REVERSE
    requires DropState(t0, before, base, w, sha, todo) && Worked(start, before, base, w, budget, had, true)
    requires target in todo
    ensures Normalizing(t0, t, base, w, sha) && Worked(start, t, base, w, budget, left, alive)
    ensures alive ==> DropState(t0, t, base, w, sha, todo - {target})
  {
    if Valid(before, target, ImageDigest(base, w.target, target), sha) {
      return before, had, true;
    }
    t, left, alive := DiscardCacheEntry(before, target, had);
    DropWorked(t0, start, before, t, base, w, sha, todo, target, budget, had, left, alive);
  }

  /** Second loop: every target-prefixed entry that does not hash to its name goes. */
  method DropCorruptTargets(t0: Tree, start: Tree, base: RelPath, w: Prefixes, sha: Hash, budget: nat) returns (t: Tree, left: nat, alive: bool)
    requires w == FORWARD || w == REVERSE
    requires Normalizing(t0, start, base, w, sha)
    requires forall p | p in start && SourceName(base, w, p) :: start[p] == Special
    ensures Normalizing(t0, t, base, w, sha) && Worked(start, t, base, w, budget, left, alive)
    ensures alive ==> Normal(t, base, w, sha)
  {
    t, left := start, budget;
    var todo := NamedWith(start, base, w.target);
    DropsToDo(t0, start, base, w, sha, todo);
    while todo != {}
      invariant DropState(t0, t, base, w, sha, todo) && Worked(start, t, base, w, budget, left, true)
    {
      var target :| target in todo;
      t, left, alive := DropTarget(t0, start, t, base, w, sha, todo, target, budget, left);
      if !alive {
        return;
      }
      todo := todo - {target};
    }
    alive := true;
  }

  lemma DropsToDo(t0: Tree, start: Tree, base: RelPath, w: Prefixes, sha: Hash, todo: set<RelPath>)
    requires Normalizing(t0, start, base, w, sha) && todo == NamedWith(start, base, w.target)
    requires forall p | p in start && SourceName(base, w, p) :: start[p] == Special
    ensures DropState(t0, start, base, w, sha, todo)
  {
  }

  /**
   One directory. A finished run leaves its normal form, whatever the listing order; a
   killed one leaves a directory with the same normal form.
   */
  method NormalizeDirectory(start: Tree, base: RelPath, w: Prefixes, sha: Hash, budget: nat) returns (t: Tree, left: nat, alive: bool)
    requires w == FORWARD || w == REVERSE
    requires Closed(start) && (base == [] || (base in start && start[base] == Dir))
    ensures Normalizing(start, t, base, w, sha) && |t.Keys| <= |start.Keys|
    ensures Within(budget, left, !alive, 2 * |start.Keys|)
    ensures NormalForm(t, base, w, sha) == NormalForm(start, base, w, sha)
    ensures alive ==> Normal(t, base, w, sha) && t == NormalForm(start, base, w, sha)
  {
    t, left, alive := NormalizeSources(start, base, w, sha, budget);
    if alive {
      t, left, alive := DropCorruptTargets(start, t, base, w, sha, left);
    }
    WorkIsBounded(start, base, w);
    SameNormalForm(start, t, base, w, sha);
    if alive { NormalFormOfNormal(t, base, w, sha); }
  }

  // ---------------------------------------------------------------- the whole cache

  const DOWNLOADS: RelPath := ["downloads"]

  predicate DownloadsSafe(t: Tree) { DOWNLOADS in t ==> t[DOWNLOADS] == Dir }

  predicate HasDownloads(t: Tree) { DOWNLOADS in t && t[DOWNLOADS] == Dir }

  /** The cache with its root and then its download directory in normal form. */
  ghost function NormalCache(t: Tree, w: Prefixes, sha: Hash): Tree {
    var root := NormalForm(t, [], w, sha);
    if HasDownloads(t) then NormalForm(root, DOWNLOADS, w, sha) else root
  }

  ghost predicate NormalCached(t: Tree, w: Prefixes, sha: Hash) {
    Normal(t, [], w, sha) && (HasDownloads(t) ==> Normal(t, DOWNLOADS, w, sha))
  }

  lemma DownloadsIsNoImage()
    ensures !IsImage("downloads")
  {
  }

  lemma DownloadsKept(t0: Tree, t: Tree, base: RelPath, w: Prefixes, sha: Hash)
    requires Normalizing(t0, t, base, w, sha) && (base == [] || base == DOWNLOADS)
    ensures Get(t, DOWNLOADS) == Get(t0, DOWNLOADS)
  {
    DownloadsIsNoImage();
    if base == [] {
      assert NormalEntry(t, [], w, sha, DOWNLOADS) == Get(t, DOWNLOADS);
      assert NormalEntry(t0, [], w, sha, DOWNLOADS) == Get(t0, DOWNLOADS);
    }
  }

  /** A second phase leaves the root as normal as the first phase made it. */
  lemma RootStaysNormal(t1: Tree, t: Tree, w: Prefixes, sha: Hash)
    requires Normalizing(t1, t, DOWNLOADS, w, sha) && Normal(t1, [], w, sha)
    ensures Normal(t, [], w, sha)
  {
    forall p | |p| == 1 ensures Get(t, p) == Get(t1, p) { assert !(DOWNLOADS < p); }
  }

  lemma NormalCachedIsFixed(t: Tree, w: Prefixes, sha: Hash)
    requires Closed(t) && NormalCached(t, w, sha) && (w == FORWARD || w == REVERSE)
    ensures NormalCache(t, w, sha) == t
  {
    NormalFormOfNormal(t, [], w, sha);
    if HasDownloads(t) { NormalFormOfNormal(t, DOWNLOADS, w, sha); }
  }

  /** Progress on the cache: reached from `start` by normalization steps of one directory, then the other. */
  ghost predicate CacheProgress(start: Tree, t: Tree, w: Prefixes, sha: Hash) {
    || Normalizing(start, t, [], w, sha)
    || exists mid :: Normalizing(start, mid, [], w, sha) && Normal(mid, [], w, sha) && Normalizing(mid, t, DOWNLOADS, w, sha)
  }

  lemma CacheProgressKeepsOutcome(start: Tree, t: Tree, w: Prefixes, sha: Hash)
    requires CacheProgress(start, t, w, sha) && (w == FORWARD || w == REVERSE)
    ensures Closed(t) && NormalCache(t, w, sha) == NormalCache(start, w, sha)
    ensures Get(t, DOWNLOADS) == Get(start, DOWNLOADS)
  {
    if Normalizing(start, t, [], w, sha) {
      DownloadsKept(start, t, [], w, sha);
      SameNormalForm(start, t, [], w, sha);
    } else {
      var mid :| Normalizing(start, mid, [], w, sha) && Normal(mid, [], w, sha) && Normalizing(mid, t, DOWNLOADS, w, sha);
      DownloadsKept(start, mid, [], w, sha);
      DownloadsKept(mid, t, DOWNLOADS, w, sha);
      SameNormalForm(start, mid, [], w, sha);
      NormalFormOfNormal(mid, [], w, sha);
      RootStaysNormal(mid, t, w, sha);
      NormalFormOfNormal(t, [], w, sha);
      SameNormalForm(mid, t, DOWNLOADS, w, sha);
    }
  }

  /**
   Root first, then the download directory. Killed at any step, the cache still has the
   same outcome; finished, it is that outcome and every image hashes to its name.
   */
  method NormalizeCache(start: Tree, w: Prefixes, sha: Hash, budget: nat) returns (t: Tree, left: nat, progress: Progress)
    requires Closed(start) && (w == FORWARD || w == REVERSE)
    ensures CacheProgress(start, t, w, sha) && |t.Keys| <= |start.Keys|
    ensures Within(budget, left, progress == Killed, 4 * |start.Keys|)
    ensures progress == Finished ==> t == NormalCache(start, w, sha) && NormalCached(t, w, sha)
    ensures progress == Finished ==> DownloadsSafe(start)
    ensures progress == Refused ==> !DownloadsSafe(start)
  {
    var alive: bool;
    t, left, alive := NormalizeDirectory(start, [], w, sha, budget);
    DownloadsKept(start, t, [], w, sha);
    if !alive {
      return t, left, Killed;
    }
    if DOWNLOADS !in t {
      return t, left, Finished;
    }
    if t[DOWNLOADS] != Dir {
      return t, left, Refused;
    }
    ghost var mid := t;
    t, left, alive := NormalizeDirectory(t, DOWNLOADS, w, sha, left);
    DownloadsKept(mid, t, DOWNLOADS, w, sha);
    RootStaysNormal(mid, t, w, sha);
    assert Normalizing(start, mid, [], w, sha) && Normal(mid, [], w, sha) && Normalizing(mid, t, DOWNLOADS, w, sha);
    progress := if alive then Finished else Killed;
  }

  // ---------------------------------------------------------------- the normal form is reached

  lemma NormalFormIsNormal(t: Tree, base: RelPath, w: Prefixes, sha: Hash)
    requires w == FORWARD || w == REVERSE
    ensures Normal(NormalForm(t, base, w, sha), base, w, sha)
  {
    var n := NormalForm(t, base, w, sha);
    forall p | p in n && SourceName(base, w, p) ensures n[p] == Special { NormalFormEntries(t, base, w, sha, p); }
    forall p | p in n && TargetName(base, w, p)
      ensures n[p] == Special || Valid(n, p, DigestIn(p[|base|], w.target).value, sha)
    {
      NormalFormEntries(t, base, w, sha, p);
      OnePrefixOnly(p[|base|], w);
      ChildNamed(base, p, p[|base|]);
    }
  }

  lemma NormalFormIsClosed(t: Tree, base: RelPath, w: Prefixes, sha: Hash)
    requires Closed(t) && (base == [] || (base in t && t[base] == Dir)) && (w == FORWARD || w == REVERSE)
    ensures Closed(NormalForm(t, base, w, sha))
  {
    var n := NormalForm(t, base, w, sha);
    forall p ensures Rooted(n, p) {
      NormalFormEntries(t, base, w, sha, p);
      assert Rooted(t, p);
      if p in n && |p| > 1 {
        NormalFormEntries(t, base, w, sha, p[..|p| - 1]);
        ParentStays(t, base, w, sha, p);
      }
    }
  }

  lemma ParentStays(t: Tree, base: RelPath, w: Prefixes, sha: Hash, p: RelPath)
    requires Closed(t) && (base == [] || (base in t && t[base] == Dir)) && (w == FORWARD || w == REVERSE)
    requires |p| > 1 && NormalEntry(t, base, w, sha, p).Some?
    ensures NormalEntry(t, base, w, sha, p[..|p| - 1]) == Some(Dir)
  {
    var parent := p[..|p| - 1];
    assert Rooted(t, p);
    if base < p {
      if Immediate(base, p) {
        assert parent == base;
      } else {
        assert base < parent && parent[|base|] == p[|base|];
        NestedSurvivor(t, base, w, sha, p);
      }
    } else {
      assert !(base < parent);
    }
  }

  /** What survives deeper inside lies under a name that is no image. */
  lemma NestedSurvivor(t: Tree, base: RelPath, w: Prefixes, sha: Hash, p: RelPath)
    requires Closed(t) && base < p && !Immediate(base, p) && NormalEntry(t, base, w, sha, p).Some?
    ensures DigestIn(p[|base|], w.source).None? && DigestIn(p[|base|], w.target).None? && p in t
  {
    if p in t {
      ChildPresent(t, base, p);
      assert p[..|base| + 1] == base + [p[|base|]];
    }
  }

  lemma NormalFormAt(t: Tree, base: RelPath, w: Prefixes, sha: Hash, p: RelPath)
    requires w == FORWARD || w == REVERSE
    ensures var n := NormalForm(t, base, w, sha);
            && (!(base < p) ==> Get(n, p) == Get(t, p))
            && (p in n ==> (p in t && n[p] == t[p]) || (TargetName(base, w, p) && n[p].File?))
            && (p in t && p !in n ==> base < p && IsImage(p[|base|]))
  {
    NormalFormEntries(t, base, w, sha, p);
  }

  lemma NormalFormIsSame(t: Tree, base: RelPath, w: Prefixes, sha: Hash)
    requires Closed(t) && (base == [] || (base in t && t[base] == Dir)) && (w == FORWARD || w == REVERSE)
    ensures SameNormal(t, NormalForm(t, base, w, sha), base, w, sha)
  {
    var n := NormalForm(t, base, w, sha);
    NormalFormIsNormal(t, base, w, sha);
    NormalFormIsClosed(t, base, w, sha);
    NormalIsFixed(n, base, w, sha);
    forall p ensures NormalEntry(n, base, w, sha, p) == NormalEntry(t, base, w, sha, p) { NormalFormEntries(t, base, w, sha, p); }
  }

  /** One directory's normal form is a place that its normalization gets to. */
  lemma NormalFormReached(t: Tree, base: RelPath, w: Prefixes, sha: Hash)
    requires Closed(t) && (base == [] || (base in t && t[base] == Dir)) && (w == FORWARD || w == REVERSE)
    ensures Normalizing(t, NormalForm(t, base, w, sha), base, w, sha) && Normal(NormalForm(t, base, w, sha), base, w, sha)
  {
    NormalFormIsNormal(t, base, w, sha);
    NormalFormIsClosed(t, base, w, sha);
    NormalFormIsSame(t, base, w, sha);
    NormalFormFrames(t, NormalForm(t, base, w, sha), base, w, sha);
  }

  lemma NormalFormFrames(t: Tree, n: Tree, base: RelPath, w: Prefixes, sha: Hash)
    requires n == NormalForm(t, base, w, sha) && (base == [] || (base in t && t[base] == Dir)) && (w == FORWARD || w == REVERSE)
    ensures base == [] || (base in n && n[base] == Dir)
    ensures forall p | !(base < p) :: Get(n, p) == Get(t, p)
    ensures forall p | p in n :: (p in t && n[p] == t[p]) || (TargetName(base, w, p) && n[p].File?)
    ensures forall p | p in t && p !in n :: base < p && IsImage(p[|base|])
  {
    NormalFormAt(t, base, w, sha, base);
    forall p | !(base < p) ensures Get(n, p) == Get(t, p) { NormalFormAt(t, base, w, sha, p); }
    forall p | p in n ensures (p in t && n[p] == t[p]) || (TargetName(base, w, p) && n[p].File?) { NormalFormAt(t, base, w, sha, p); }
    forall p | p in t && p !in n ensures base < p && IsImage(p[|base|]) { NormalFormAt(t, base, w, sha, p); }
  }

  lemma NormalCacheReached(t: Tree, w: Prefixes, sha: Hash)
    requires Closed(t) && (w == FORWARD || w == REVERSE)
    ensures CacheProgress(t, NormalCache(t, w, sha), w, sha)
  {
    var root := NormalForm(t, [], w, sha);
    NormalFormReached(t, [], w, sha);
    DownloadsKept(t, root, [], w, sha);
    if HasDownloads(t) { NormalFormReached(root, DOWNLOADS, w, sha); }
  }

  // ---------------------------------------------------------------- special files

  /**
   What normalization is for is reached exactly when the directory held no special file under
   an image name: then no source-prefixed name is left and every target-prefixed one hashes to
   its name.
   */
  lemma NoSourceNameLeft(start: Tree, base: RelPath, w: Prefixes, sha: Hash)
    requires Closed(start) && (base == [] || (base in start && start[base] == Dir)) && (w == FORWARD || w == REVERSE)
    ensures var t := NormalForm(start, base, w, sha);
            NoSpecialImages(start, base, w) <==>
            && (forall p | p in t :: !SourceName(base, w, p))
            && (forall p | p in t && TargetName(base, w, p) :: Valid(t, p, DigestIn(p[|base|], w.target).value, sha))
  {
    var t := NormalForm(start, base, w, sha);
    NormalFormIsNormal(start, base, w, sha);
    forall p | p in t && t[p] == Special ensures p in start && start[p] == Special { NormalFormAt(start, base, w, sha, p); }
    if !NoSpecialImages(start, base, w) {
      var p :| p in start && (SourceName(base, w, p) || TargetName(base, w, p)) && start[p] == Special;
      SpecialStays(start, base, w, sha, p);
    }
  }

  lemma SpecialStays(start: Tree, base: RelPath, w: Prefixes, sha: Hash, p: RelPath)
    requires w == FORWARD || w == REVERSE
    requires p in start && start[p] == Special && (SourceName(base, w, p) || TargetName(base, w, p))
    ensures Get(NormalForm(start, base, w, sha), p) == Some(Special)
  {
    NormalFormEntries(start, base, w, sha, p);
    OnePrefixOnly(p[|base|], w);
    ChildNamed(base, p, p[|base|]);
  }

  /** A cache whose only entry is a special file under a source-prefixed name: normalization leaves it there. */
  lemma SpecialImageSurvives(digest: string, sha: Hash)
    requires IsDigest(digest)
    ensures var start: Tree := map[[DmgName(FORWARD.source, digest)] := Special];
            && Closed(start) && NormalForm(start, [], FORWARD, sha) == start
            && SourceName([], FORWARD, [DmgName(FORWARD.source, digest)])
  {
    var p := [DmgName(FORWARD.source, digest)];
    var start: Tree := map[p := Special];
    ImageNames([], FORWARD, digest);
    assert [] + [DmgName(FORWARD.source, digest)] == p;
    assert forall q | q in start :: q == p;
    NormalFormOfNormal(start, [], FORWARD, sha);
  }
}
