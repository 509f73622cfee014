/**
 A run killed while it normalizes a cache is followed by one that discards first. When that
 discard does no harm, for every point at which the normalization may have been cut short.
 */
module MigrationSteady {
  import opened Basics
  import opened Text
  import opened MigrationTree
  import opened MigrationWalk
  import opened MigrationSchedules
  import opened MigrationDmg
  import opened MigrationCache

  // ---------------------------------------------------------------- what normalization changes

  lemma ImageNameNotVolatile(name: string)
    requires IsImage(name)
    ensures !VolatileName(name) && !TempName(name) && name != ".."
  {
    assert |name| > 60;
    assert name[|name| - 1] == 'g';
    forall i | 0 <= i < |VOLATILE_SUFFIXES| ensures !EndsWith(name, VOLATILE_SUFFIXES[i]) {
      if EndsWith(name, VOLATILE_SUFFIXES[i]) { EndsLike(name, VOLATILE_SUFFIXES[i]); }
    }
    assert "app.pid"[6] == 'd' && "webview.pid"[10] == 'd' && "check.lock"[9] == 'k' && "launch-action.sock"[17] == 'k';
    assert "SingletonCookie"[14] == 'e' && "SingletonLock"[12] == 'k' && "SingletonSocket"[14] == 't';
  }

  /** Entries are gone, and new files stand only under names that no discard removes. */
  ghost predicate ImagesChanged(t0: Tree, t: Tree) {
    forall p | p in t :: (p in t0 && t[p] == t0[p]) || (t[p].File? && p != [] && !VolatileName(Last(p)))
  }

  lemma NormalizingChangesImages(t0: Tree, t: Tree, base: RelPath, w: Prefixes, sha: Hash)
    requires (w == FORWARD || w == REVERSE) && Normalizing(t0, t, base, w, sha)
    ensures ImagesChanged(t0, t)
  {
    forall p | p in t && !(p in t0 && t[p] == t0[p]) ensures t[p].File? && p != [] && !VolatileName(Last(p)) {
      assert TargetName(base, w, p) && Last(p) == p[|base|];
      ImageNameNotVolatile(p[|base|]);
    }
  }

  lemma ProgressChangesImages(c: Tree, t: Tree, w: Prefixes, sha: Hash)
    requires CacheProgress(c, t, w, sha) && (w == FORWARD || w == REVERSE)
    ensures ImagesChanged(c, t)
  {
    if Normalizing(c, t, [], w, sha) {
      NormalizingChangesImages(c, t, [], w, sha);
    } else {
      var mid :| Normalizing(c, mid, [], w, sha) && Normal(mid, [], w, sha) && Normalizing(mid, t, DOWNLOADS, w, sha);
      NormalizingChangesImages(c, mid, [], w, sha);
      NormalizingChangesImages(mid, t, DOWNLOADS, w, sha);
    }
  }

  // ---------------------------------------------------------------- the condition on the links

  /** The entry is there, as it was, when normalization has finished. */
  ghost predicate Survives(c: Tree, w: Prefixes, sha: Hash, p: RelPath) {
    p in c && p in NormalCache(c, w, sha) && NormalCache(c, w, sha)[p] == c[p]
  }

  /**
   A link that survives normalization but rests on something that does not: what its directory
   name protected from the discard, its file name would give up afterwards.
   */
  ghost predicate Exposed(c: Tree, w: Prefixes, sha: Hash, q: RelPath) {
    && Survives(c, w, sha, q) && q != [] && c[q].Link? && DirLike(c, q) && VolatileName(Last(q))
    && exists e :: e in Supports(c, q) && !Survives(c, w, sha, e)
  }

  ghost predicate CacheSteady(c: Tree, w: Prefixes, sha: Hash) {
    forall q | q in c :: !Exposed(c, w, sha, q)
  }

  /** Directories and links that survive are in place all along. */
  lemma SurvivorStays(c: Tree, t: Tree, w: Prefixes, sha: Hash, e: RelPath)
    requires CacheProgress(c, t, w, sha) && (w == FORWARD || w == REVERSE)
    requires Survives(c, w, sha, e) && !c[e].File?
    ensures e in t && t[e] == c[e]
  {
    CacheProgressKeepsOutcome(c, t, w, sha);
    NormalCacheReached(t, w, sha);
    ProgressChangesImages(t, NormalCache(t, w, sha), w, sha);
  }

  lemma CutIsCalm(c: Tree, t: Tree)
    requires NothingMarked(c) && ImagesChanged(c, t)
    ensures Calm(t)
  {
    forall p | p in t && p != [] && DirLike(t, p) ensures !TempName(Last(p)) {
      assert p in c && t[p] == c[p];
      DirLikeWhileSupported(c, t, p);
      assert !Marked(c, p);
    }
  }

  /** What a discard after a cut finds removable does not survive normalization anyway. */
  lemma MarkedDoesNotSurvive(c: Tree, t: Tree, w: Prefixes, sha: Hash, p: RelPath)
    requires NothingMarked(c) && CacheSteady(c, w, sha)
    requires CacheProgress(c, t, w, sha) && (w == FORWARD || w == REVERSE)
    requires Closed(c) && p in t && p != [] && Marked(t, p)
    ensures p !in NormalCache(c, w, sha)
  {
    ProgressChangesImages(c, t, w, sha);
    var e := MarkedLostSupport(c, t, p);
    if Survives(c, w, sha, e) { SurvivorStays(c, t, w, sha, e); }
    assert !Exposed(c, w, sha, p);
    VolatileSurvivesAsItWas(c, w, sha, p);
  }

  lemma VolatileSurvivesAsItWas(c: Tree, w: Prefixes, sha: Hash, p: RelPath)
    requires Closed(c) && (w == FORWARD || w == REVERSE) && p != [] && VolatileName(Last(p))
    ensures p in NormalCache(c, w, sha) ==> Survives(c, w, sha, p)
  {
    NormalCacheReached(c, w, sha);
    ProgressChangesImages(c, NormalCache(c, w, sha), w, sha);
  }

  /** A removable entry was a link to a directory before, and something it rests on is gone. */
  lemma MarkedLostSupport(c: Tree, t: Tree, p: RelPath) returns (e: RelPath)
    requires NothingMarked(c) && ImagesChanged(c, t) && p in t && p != [] && Marked(t, p)
    ensures p in c && t[p] == c[p] && c[p].Link? && DirLike(c, p) && VolatileName(Last(p))
    ensures e in Supports(c, p) && e in c && !c[e].File? && !(e in t && t[e] == c[e])
  {
    CutIsCalm(c, t);
    assert p in c && !Marked(c, p);
    DirLikeWhileSupported(c, t, p);
    e :| e in Supports(c, p) && !(e in c && e in t && t[e] == c[e]);
    SupportsLead(c, p, e);
  }

  // ---------------------------------------------------------------- taking away what does not survive

  /** Entries further down in a directory play no part in its normalization. */
  lemma DeepRemovalKeepsForm(t: Tree, s: Tree, base: RelPath, w: Prefixes, sha: Hash, p: RelPath)
    requires forall q | q in s :: q in t && s[q] == t[q]
    requires forall q | q in t && q !in s :: !Immediate(base, q)
    ensures Get(NormalForm(s, base, w, sha), p) == if p in t && p !in s then None else Get(NormalForm(t, base, w, sha), p)
  {
    NormalFormEntries(s, base, w, sha, p);
    NormalFormEntries(t, base, w, sha, p);
  }

  /** An entry that lies under no image name of a directory keeps its place in its normal form. */
  lemma PlainNameKept(t: Tree, base: RelPath, w: Prefixes, sha: Hash, p: RelPath)
    requires p in t && (base < p ==> !IsImage(p[|base|])) && (w == FORWARD || w == REVERSE)
    ensures p in NormalForm(t, base, w, sha)
  {
    NormalFormEntries(t, base, w, sha, p);
  }

  /** An entry of one of the two directories that is no image survives. */
  lemma PlainNameSurvives(t: Tree, w: Prefixes, sha: Hash, p: RelPath)
    requires p in t && p != [] && VolatileName(Last(p)) && (w == FORWARD || w == REVERSE)
    requires Immediate([], p) || Immediate(DOWNLOADS, p)
    ensures p in NormalCache(t, w, sha)
  {
    if IsImage(Last(p)) { ImageNameNotVolatile(Last(p)); }
    DownloadsIsNoImage();
    assert DOWNLOADS < p ==> p[0] == "downloads";
    PlainNameKept(t, [], w, sha, p);
    PlainNameKept(NormalForm(t, [], w, sha), DOWNLOADS, w, sha, p);
  }

  lemma ShallowStays(t: Tree, s: Tree, w: Prefixes, sha: Hash)
    requires w == FORWARD || w == REVERSE
    requires forall q | q in t && q !in s :: q != [] && VolatileName(Last(q)) && q !in NormalCache(t, w, sha)
    ensures forall q | q in t && q !in s :: !Immediate([], q) && !Immediate(DOWNLOADS, q)
  {
    forall q | q in t && q !in s ensures !Immediate([], q) && !Immediate(DOWNLOADS, q) {
      if Immediate([], q) || Immediate(DOWNLOADS, q) { PlainNameSurvives(t, w, sha, q); }
    }
  }

  lemma DiscardKeepsNormalCache(t: Tree, s: Tree, w: Prefixes, sha: Hash)
    requires Closed(t) && (w == FORWARD || w == REVERSE)
    requires forall q | q in s :: q in t && s[q] == t[q]
    requires forall q | q in t && q !in s :: q != [] && VolatileName(Last(q)) && q !in NormalCache(t, w, sha)
    ensures NormalCache(s, w, sha) == NormalCache(t, w, sha) && Get(s, DOWNLOADS) == Get(t, DOWNLOADS)
  {
    ShallowStays(t, s, w, sha);
    var rootT, rootS := NormalForm(t, [], w, sha), NormalForm(s, [], w, sha);
    forall p ensures Get(rootS, p) == if p in t && p !in s then None else Get(rootT, p) { DeepRemovalKeepsForm(t, s, [], w, sha, p); }
    assert Immediate([], DOWNLOADS);
    SmallerRoot(t, s, rootT, rootS);
    SmallerDownloads(t, s, rootT, rootS, w, sha);
  }

  lemma SmallerDownloads(t: Tree, s: Tree, rootT: Tree, rootS: Tree, w: Prefixes, sha: Hash)
    requires rootT == NormalForm(t, [], w, sha) && rootS == NormalForm(s, [], w, sha) && HasDownloads(s) == HasDownloads(t)
    requires forall p | p in rootS :: p in rootT && rootS[p] == rootT[p]
    requires forall p | p in rootT && p !in rootS :: p in t && p !in s
    requires forall q | q in t && q !in s :: !Immediate(DOWNLOADS, q) && q !in NormalCache(t, w, sha)
    ensures NormalCache(s, w, sha) == NormalCache(t, w, sha)
  {
    forall p ensures Get(NormalCache(s, w, sha), p) == Get(NormalCache(t, w, sha), p) {
      DeepRemovalKeepsForm(rootT, rootS, DOWNLOADS, w, sha, p);
    }
    SameEntriesSameTree(NormalCache(s, w, sha), NormalCache(t, w, sha));
  }

  lemma SmallerRoot(t: Tree, s: Tree, rootT: Tree, rootS: Tree)
    requires forall p :: Get(rootS, p) == if p in t && p !in s then None else Get(rootT, p)
    ensures forall p | p in rootS :: p in rootT && rootS[p] == rootT[p]
    ensures forall p | p in rootT && p !in rootS :: p in t && p !in s
  {
    forall p ensures p in rootS ==> p in rootT && rootS[p] == rootT[p] { assert Get(rootS, p) == if p in t && p !in s then None else Get(rootT, p); }
    forall p | p in rootT && p !in rootS ensures p in t && p !in s { assert Get(rootS, p) == if p in t && p !in s then None else Get(rootT, p); }
  }

  // ---------------------------------------------------------------- a cut at any point

  /**
   However far normalization has got when the run is killed: the discard of the next run takes
   away nothing that matters, whatever its schedule, and leaves a cache in the same condition.
   */
  lemma CutKeepsCache(c: Tree, t: Tree, w: Prefixes, sha: Hash)
    requires Closed(c) && NothingMarked(c) && CacheSteady(c, w, sha)
    requires CacheProgress(c, t, w, sha) && (w == FORWARD || w == REVERSE)
    ensures Closed(t) && LinkStable(t)
    ensures NormalCache(Swept(t), w, sha) == NormalCache(c, w, sha) && Get(Swept(t), DOWNLOADS) == Get(c, DOWNLOADS)
    ensures NothingMarked(Swept(t)) && CacheSteady(Swept(t), w, sha)
    ensures forall p | p in t && p != [] && Marked(t, p) :: p !in NormalCache(c, w, sha)
  {
    CacheProgressKeepsOutcome(c, t, w, sha);
    ProgressChangesImages(c, t, w, sha);
    CutIsCalm(c, t);
    CalmIsStable(t);
    forall p | p in t && p != [] && Marked(t, p) ensures p !in NormalCache(c, w, sha) { MarkedDoesNotSurvive(c, t, w, sha, p); }
    DiscardKeepsNormalCache(t, Swept(t), w, sha);
    SweptIsSettled(t);
    SweptIsSteady(c, t, w, sha);
  }

  lemma SweptIsSteady(c: Tree, t: Tree, w: Prefixes, sha: Hash)
    requires CacheSteady(c, w, sha) && ImagesChanged(c, t)
    requires NormalCache(Swept(t), w, sha) == NormalCache(c, w, sha)
    ensures CacheSteady(Swept(t), w, sha)
  {
    var s := Swept(t);
    forall q | q in s ensures !Exposed(s, w, sha, q) {
      if Exposed(s, w, sha, q) {
        DirLikeWhileSupported(c, s, q);
        var e :| e in Supports(s, q) && !Survives(s, w, sha, e);
        SupportsLead(s, q, e);
        assert Exposed(c, w, sha, q);
      }
    }
  }

  /** A cut right after normalization has finished costs an exposed link its place. */
  lemma ExposedLinkIsLost(c: Tree, w: Prefixes, sha: Hash, q: RelPath) returns (end: Tree)
    requires Closed(c) && NothingMarked(c) && Exposed(c, w, sha, q) && (w == FORWARD || w == REVERSE)
    ensures Outcome(NormalCache(c, w, sha), end)
    ensures q in NormalCache(c, w, sha) && q !in end && q !in NormalCache(end, w, sha)
  {
    var t := NormalCache(c, w, sha);
    NormalCacheReached(c, w, sha);
    CacheProgressKeepsOutcome(c, t, w, sha);
    ProgressChangesImages(c, t, w, sha);
    CutIsCalm(c, t);
    CalmIsStable(t);
    DirLikeWhileSupported(c, t, q);
    assert Marked(t, q);
    end := RunEnds(t);
    RunIsOutcome(t, end);
    OutcomeIsSwept(t, end);
    SweptIsSettled(t);
    NormalCacheReached(end, w, sha);
    ProgressChangesImages(end, NormalCache(end, w, sha), w, sha);
  }

  /**
   The exact condition: normalization may be cut short anywhere, and the next run's discard may
   take any schedule, without any effect on the outcome if and only if no link is exposed.
   */
  lemma CacheSteadyIsExact(c: Tree, w: Prefixes, sha: Hash)
    requires Closed(c) && NothingMarked(c) && (w == FORWARD || w == REVERSE)
    ensures CacheSteady(c, w, sha) <==>
            forall t, end | CacheProgress(c, t, w, sha) && Outcome(t, end) :: NormalCache(end, w, sha) == NormalCache(c, w, sha)
  {
    if CacheSteady(c, w, sha) {
      forall t, end | CacheProgress(c, t, w, sha) && Outcome(t, end) ensures NormalCache(end, w, sha) == NormalCache(c, w, sha) {
        CutKeepsCache(c, t, w, sha);
        OutcomeIsSwept(t, end);
      }
    } else {
      var q :| q in c && Exposed(c, w, sha, q);
      var end := ExposedLinkIsLost(c, w, sha, q);
      NormalCacheReached(c, w, sha);
    }
  }

  /** Once a cache is in normal form everything survives. */
  lemma NormalCachedIsSteady(t: Tree, w: Prefixes, sha: Hash)
    requires Closed(t) && NormalCached(t, w, sha) && (w == FORWARD || w == REVERSE)
    ensures CacheSteady(t, w, sha)
  {
    NormalCachedIsFixed(t, w, sha);
    forall q, e | q in t && q != [] && t[q].Link? && DirLike(t, q) && e in Supports(t, q) ensures Survives(t, w, sha, e) {
      SupportsLead(t, q, e);
    }
  }

  // ---------------------------------------------------------------- an instance

  /**
   A lock file linked to a directory, or to a link to one, that has the name of an image: the
   outcome of an uninterrupted run holds the lock file, and a run after a cut loses it.
   */
  lemma LinkIntoImageIsLost(digest: string, sha: Hash, e: Entry)
    requires IsDigest(digest) && PlainDirectory(e)
    ensures var c: Tree := map[[DmgName(FORWARD.source, digest)] := e, ["a.lock"] := Link(Inside([DmgName(FORWARD.source, digest)]))];
            && Closed(c) && NothingMarked(c)
            && exists end :: Outcome(NormalCache(c, FORWARD, sha), end) && ["a.lock"] in NormalCache(c, FORWARD, sha) && ["a.lock"] !in NormalCache(end, FORWARD, sha)
  {
    var image, q := [DmgName(FORWARD.source, digest)], ["a.lock"];
    var c: Tree := map[image := e, q := Link(Inside(image))];
    LockIsVolatile();
    ImageNames([], FORWARD, digest);
    ImageNameNotVolatile(image[0]);
    LinkToRootEntry(c, image, q);
    LockOnImage(c, image, q, digest, sha);
    var end := ExposedLinkIsLost(c, FORWARD, sha, q);
  }

  lemma LockIsSettled(c: Tree, image: RelPath, q: RelPath)
    requires |image| == |q| == 1 && IsImage(image[0]) && !TempName(q[0])
    requires c.Keys == {image, q} && DirLike(c, image) && DirLike(c, q)
    ensures Closed(c) && NothingMarked(c)
  {
    ImageNameNotVolatile(image[0]);
    RootDirectoriesAreSettled(c);
  }

  lemma LockOnImage(c: Tree, image: RelPath, q: RelPath, digest: string, sha: Hash)
    requires IsDigest(digest) && image == [DmgName(FORWARD.source, digest)] && |q| == 1 && VolatileName(q[0]) && !TempName(q[0])
    requires c.Keys == {image, q} && PlainDirectory(c[image]) && c[q].Link?
    requires DirLike(c, image) && DirLike(c, q) && Supports(c, q) == {image}
    ensures Closed(c) && NothingMarked(c) && Exposed(c, FORWARD, sha, q)
  {
    ImageNames([], FORWARD, digest);
    LockIsSettled(c, image, q);
    LockIsExposed(c, image, q, digest, sha);
  }

  lemma LockIsExposed(c: Tree, image: RelPath, q: RelPath, digest: string, sha: Hash)
    requires IsDigest(digest) && image == [DmgName(FORWARD.source, digest)] && |q| == 1 && VolatileName(q[0]) && !TempName(q[0])
    requires image in c && q in c && PlainDirectory(c[image]) && c[q].Link? && Closed(c)
    requires DirLike(c, q) && Supports(c, q) == {image}
    ensures Exposed(c, FORWARD, sha, q)
  {
    PlainNameSurvives(c, FORWARD, sha, q);
    VolatileSurvivesAsItWas(c, FORWARD, sha, q);
    FolderImageGoes(c, sha, digest);
    assert image in Supports(c, q) && !Survives(c, FORWARD, sha, image);
  }

  lemma RootDirectoriesAreSettled(c: Tree)
    requires forall p | p in c :: |p| == 1 && DirLike(c, p) && !TempName(Last(p))
    ensures Closed(c) && NothingMarked(c)
  {
  }

  /** A directory, or a link to one, under a source-prefixed name is no image and does not survive. */
  lemma FolderImageGoes(c: Tree, sha: Hash, digest: string)
    requires IsDigest(digest) && [DmgName(FORWARD.source, digest)] in c && PlainDirectory(c[[DmgName(FORWARD.source, digest)]])
    ensures [DmgName(FORWARD.source, digest)] !in NormalCache(c, FORWARD, sha)
  {
    var image := [DmgName(FORWARD.source, digest)];
    ImageNames([], FORWARD, digest);
    assert [] + [DmgName(FORWARD.source, digest)] == image;
    var root := NormalForm(c, [], FORWARD, sha);
    NormalFormEntries(c, [], FORWARD, sha, image);
    NormalFormEntries(root, DOWNLOADS, FORWARD, sha, image);
    assert !(DOWNLOADS < image);
  }
}
