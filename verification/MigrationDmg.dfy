/**
 Normalization of cached disk images: names move from one product prefix to the other,
 and only files whose content hashes to the digest in their name survive.
 */
module MigrationDmg {
  import opened Basics
  import opened Text
  import opened MigrationTree

  type Hash = string -> string

  /** The prefix that is migrated away from and the prefix that is migrated to. */
  datatype Prefixes = Prefixes(source: string, target: string)

  const FORWARD := Prefixes("Codex", "ChatGPT")
  const REVERSE := Prefixes("ChatGPT", "Codex")

  predicate IsDigest(digest: string) { |digest| == 64 && AllLowerHex(digest) }

  function DmgName(prefix: string, digest: string): string { prefix + "-" + digest + ".dmg" }

  /** The digest in a cached image's name, when the whole name has the expected form. */
  function DigestIn(name: string, prefix: string): (r: Option<string>)
    ensures r.Some? ==> IsDigest(r.value) && name == DmgName(prefix, r.value)
    ensures r.None? ==> forall d | IsDigest(d) :: name != DmgName(prefix, d)
  {
    var n := |prefix| + 1;
    if |name| == n + 68 && AllLowerHex(name[n..n + 64]) && name == DmgName(prefix, name[n..n + 64])
    then Some(name[n..n + 64])
    else
      assert forall d | IsDigest(d) && name == DmgName(prefix, d) :: name[n..n + 64] == d;
      None
  }

  lemma DigestOfName(prefix: string, digest: string)
    requires IsDigest(digest)
    ensures DigestIn(DmgName(prefix, digest), prefix) == Some(digest)
  {
    var n := |prefix| + 1;
    var name := DmgName(prefix, digest);
    assert name[n..n + 64] == digest;
  }

  predicate IsImage(name: string) {
    DigestIn(name, "Codex").Some? || DigestIn(name, "ChatGPT").Some?
  }

  lemma OnePrefixOnly(name: string, w: Prefixes)
    requires w == FORWARD || w == REVERSE
    ensures !(DigestIn(name, w.source).Some? && DigestIn(name, w.target).Some?)
  {
  }

  function Get(t: Tree, p: RelPath): Option<Entry> {
    if p in t then Some(t[p]) else None
  }

  /** A regular file whose content hashes to this digest. */
  predicate Valid(t: Tree, p: RelPath, digest: string, sha: Hash) {
    p in t && t[p].File? && sha(t[p].data) == digest
  }

  predicate Immediate(base: RelPath, p: RelPath) { base < p && |p| == |base| + 1 }

  /** What normalizing the directory `base` makes of one path. */
  function NormalEntry(t: Tree, base: RelPath, w: Prefixes, sha: Hash, p: RelPath): Option<Entry> {
    if !(base < p) then Get(t, p)
    else
      var name := p[|base|];
      if DigestIn(name, w.source).Some? then
        if Immediate(base, p) && Get(t, p) == Some(Special) then Some(Special) else None
      else if DigestIn(name, w.target).Some? then
        var digest := DigestIn(name, w.target).value;
        var source, target := base + [DmgName(w.source, digest)], base + [name];
        if target in t then
          if t[target] == Special || Valid(t, target, digest, sha) then Get(t, p) else None
        else if p == target && Valid(t, source, digest, sha) then Some(t[source]) else None
      else Get(t, p)
  }

  /** Two trees that normalize to the same directory. */
  ghost predicate SameNormal(t0: Tree, t: Tree, base: RelPath, w: Prefixes, sha: Hash) {
    forall p :: NormalEntry(t, base, w, sha, p) == NormalEntry(t0, base, w, sha, p)
  }

  predicate SourceName(base: RelPath, w: Prefixes, p: RelPath) {
    Immediate(base, p) && DigestIn(p[|base|], w.source).Some?
  }

  predicate TargetName(base: RelPath, w: Prefixes, p: RelPath) {
    Immediate(base, p) && DigestIn(p[|base|], w.target).Some?
  }

  /** No source-prefixed image is left and every target-prefixed one hashes to its name. */
  ghost predicate Normal(t: Tree, base: RelPath, w: Prefixes, sha: Hash) {
    && (forall p | p in t && SourceName(base, w, p) :: t[p] == Special)
    && (forall p | p in t && TargetName(base, w, p) :: t[p] == Special || Valid(t, p, DigestIn(p[|base|], w.target).value, sha))
  }

  ghost predicate NoSpecialImages(t: Tree, base: RelPath, w: Prefixes) {
    forall p | p in t && (SourceName(base, w, p) || TargetName(base, w, p)) :: t[p] != Special
  }

  /** Normal directories are the fixed points of normalization. */
  lemma NormalIsFixed(t: Tree, base: RelPath, w: Prefixes, sha: Hash)
    requires Closed(t) && Normal(t, base, w, sha)
    requires w == FORWARD || w == REVERSE
    ensures forall p :: NormalEntry(t, base, w, sha, p) == Get(t, p)
  {
    forall p ensures NormalEntry(t, base, w, sha, p) == Get(t, p) {
      if base < p && p in t {
        var child := p[..|base| + 1];
        OnePrefixOnly(p[|base|], w);
        ChildPresent(t, base, p);
        assert child == base + [p[|base|]];
      } else if base < p && DigestIn(p[|base|], w.target).Some? {
        var digest := DigestIn(p[|base|], w.target).value;
        var source := base + [DmgName(w.source, digest)];
        DigestOfName(w.source, digest);
        assert source in t ==> SourceName(base, w, source);
      }
    }
  }

  lemma {:induction false} ChildPresent(t: Tree, base: RelPath, p: RelPath)
    requires Closed(t) && p in t && base < p
    ensures p[..|base| + 1] in t
    ensures |p| > |base| + 1 ==> t[p[..|base| + 1]] == Dir
    decreases |p|
  {
    var child := p[..|base| + 1];
    if child != p {
      var parent := p[..|p| - 1];
      assert Rooted(t, p);
      if parent != child {
        assert base < parent && parent[..|base| + 1] == child;
        ChildPresent(t, base, parent);
      }
    } else {
      assert child == p;
    }
  }

  lemma SameEntriesSameTree(t: Tree, t': Tree)
    requires forall p :: Get(t, p) == Get(t', p)
    ensures t == t'
  {
    forall p ensures p in t <==> p in t' { assert Get(t, p) == Get(t', p); }
    forall p | p in t ensures t[p] == t'[p] { assert Get(t, p) == Get(t', p); }
  }

  /** Two normal directories reached from the same start are the same directory. */
  lemma NormalFormIsUnique(t0: Tree, t1: Tree, t2: Tree, base: RelPath, w: Prefixes, sha: Hash)
    requires Closed(t1) && Closed(t2) && (w == FORWARD || w == REVERSE)
    requires SameNormal(t0, t1, base, w, sha) && SameNormal(t0, t2, base, w, sha)
    requires Normal(t1, base, w, sha) && Normal(t2, base, w, sha)
    ensures t1 == t2
  {
    NormalIsFixed(t1, base, w, sha);
    NormalIsFixed(t2, base, w, sha);
    forall p ensures Get(t1, p) == Get(t2, p) {
      assert NormalEntry(t1, base, w, sha, p) == NormalEntry(t0, base, w, sha, p);
      assert NormalEntry(t2, base, w, sha, p) == NormalEntry(t0, base, w, sha, p);
    }
    SameEntriesSameTree(t1, t2);
  }

  // ---------------------------------------------------------------- single steps

  lemma BelowChild(base: RelPath, child: RelPath, p: RelPath)
    requires Immediate(base, child) && child <= p
    ensures base < p && p[|base|] == child[|base|]
    ensures |p| == |base| + 1 ==> p == child
  {
  }

  lemma ChildNamed(base: RelPath, child: RelPath, name: string)
    requires Immediate(base, child)
    ensures child == base + [child[|base|]]
    ensures child <= base + [name] ==> child[|base|] == name
  {
  }

  /** An image entry that normalization drops on every run. */
  ghost predicate Dropped(t: Tree, base: RelPath, w: Prefixes, sha: Hash, root: RelPath)
    requires root in t && Immediate(base, root)
  {
    var name := root[|base|];
    || (DigestIn(name, w.source).Some?
        && var digest := DigestIn(name, w.source).value;
           !Valid(t, root, digest, sha) || base + [DmgName(w.target, digest)] in t)
    || (DigestIn(name, w.target).Some?
        && var digest := DigestIn(name, w.target).value;
           !Valid(t, root, digest, sha) && !Valid(t, base + [DmgName(w.source, digest)], digest, sha))
  }

  /** Nothing becomes of a dropped image's own entries, before or after part of them is gone. */
  lemma DroppedHasNoEntry(t: Tree, t': Tree, base: RelPath, w: Prefixes, sha: Hash, root: RelPath, p: RelPath)
    requires w == FORWARD || w == REVERSE
    requires root in t && t[root] != Special && Immediate(base, root) && Dropped(t, base, w, sha, root)
    requires forall q | q in t' :: q in t && t'[q] == t[q]
    requires root <= p
    ensures NormalEntry(t', base, w, sha, p) == NormalEntry(t, base, w, sha, p)
  {
    OnePrefixOnly(root[|base|], w);
    BelowChild(base, root, p);
    ChildNamed(base, root, p[|base|]);
  }

  /** Other entries look at nothing that is gone. */
  lemma ElsewhereKeepsEntry(t: Tree, t': Tree, base: RelPath, w: Prefixes, sha: Hash, root: RelPath, p: RelPath)
    requires w == FORWARD || w == REVERSE
    requires root in t && t[root] != Special && Immediate(base, root) && Dropped(t, base, w, sha, root)
    requires forall q | q in t' :: q in t && t'[q] == t[q]
    requires forall q | q in t && q !in t' :: root <= q
    requires !(root <= p)
    ensures NormalEntry(t', base, w, sha, p) == NormalEntry(t, base, w, sha, p)
  {
    OnePrefixOnly(root[|base|], w);
    if base < p {
      OnePrefixOnly(p[|base|], w);
      if DigestIn(p[|base|], w.target).Some? {
        var digest := DigestIn(p[|base|], w.target).value;
        DigestOfName(w.source, digest);
        ChildNamed(base, root, DmgName(w.source, digest));
        ChildNamed(base, root, p[|base|]);
      }
    }
  }

  /** Taking away part of an image entry that will not survive changes no outcome. */
  lemma PartialDiscardKeepsNormal(t: Tree, t': Tree, base: RelPath, w: Prefixes, sha: Hash, root: RelPath)
    requires w == FORWARD || w == REVERSE
    requires root in t && t[root] != Special && Immediate(base, root) && Dropped(t, base, w, sha, root)
    requires forall p | p in t' :: p in t && t'[p] == t[p]
    requires forall p | p in t && p !in t' :: root <= p
    ensures SameNormal(t, t', base, w, sha)
  {
    forall p ensures NormalEntry(t', base, w, sha, p) == NormalEntry(t, base, w, sha, p) {
      if root <= p { DroppedHasNoEntry(t, t', base, w, sha, root, p); } else { ElsewhereKeepsEntry(t, t', base, w, sha, root, p); }
    }
  }


  /** The tree after an image has been renamed to the target prefix. */
  function Renamed(t: Tree, base: RelPath, w: Prefixes, digest: string): Tree
    requires base + [DmgName(w.source, digest)] in t
  {
    var source, target := base + [DmgName(w.source, digest)], base + [DmgName(w.target, digest)];
    t[target := t[source]] - {source}
  }

  /** An image that may be renamed: valid, with nothing under the target name. */
  ghost predicate Renamable(t: Tree, base: RelPath, w: Prefixes, sha: Hash, digest: string) {
    && (w == FORWARD || w == REVERSE)
    && Closed(t) && IsDigest(digest)
    && Valid(t, base + [DmgName(w.source, digest)], digest, sha)
    && base + [DmgName(w.target, digest)] !in t
  }

  lemma RenameAtSameDigest(t: Tree, base: RelPath, w: Prefixes, sha: Hash, digest: string, p: RelPath)
    requires Renamable(t, base, w, sha, digest)
    requires base < p && p[|base|] == DmgName(w.target, digest)
    ensures NormalEntry(Renamed(t, base, w, digest), base, w, sha, p) == NormalEntry(t, base, w, sha, p)
  {
    var source, target := base + [DmgName(w.source, digest)], base + [DmgName(w.target, digest)];
    DigestOfName(w.target, digest);
    OnePrefixOnly(p[|base|], w);
    assert source[|base|] == DmgName(w.source, digest);
    DigestOfName(w.source, digest);
    assert p[..|base| + 1] == target;
    if p in t { ChildPresent(t, base, p); }
  }

  /** Image paths of another digest are not touched by a rename. */
  lemma OtherImagesUntouched(base: RelPath, w: Prefixes, digest: string, d: string)
    requires w == FORWARD || w == REVERSE
    requires IsDigest(digest) && IsDigest(d) && d != digest
    ensures
      var source, target := base + [DmgName(w.source, digest)], base + [DmgName(w.target, digest)];
      && base + [DmgName(w.source, d)] != source && base + [DmgName(w.source, d)] != target
      && base + [DmgName(w.target, d)] != source && base + [DmgName(w.target, d)] != target
  {
    var names := [DmgName(w.source, d), DmgName(w.target, d), DmgName(w.source, digest), DmgName(w.target, digest)];
    DigestOfName(w.source, d);
    DigestOfName(w.target, d);
    DigestOfName(w.source, digest);
    DigestOfName(w.target, digest);
    OnePrefixOnly(names[2], w);
    OnePrefixOnly(names[3], w);
    assert forall name: string :: (base + [name])[|base|] == name;
  }

  lemma RenameAtOtherDigest(t: Tree, base: RelPath, w: Prefixes, sha: Hash, digest: string, p: RelPath, d: string)
    requires Renamable(t, base, w, sha, digest)
    requires base < p && IsDigest(d) && d != digest && p[|base|] == DmgName(w.target, d)
    ensures NormalEntry(Renamed(t, base, w, digest), base, w, sha, p) == NormalEntry(t, base, w, sha, p)
  {
    var t' := Renamed(t, base, w, digest);
    var source, target := base + [DmgName(w.source, digest)], base + [DmgName(w.target, digest)];
    OtherImagesUntouched(base, w, digest, d);
    assert p != source && p != target by {
      if |p| == |base| + 1 { assert p == base + [p[|base|]]; }
    }
    assert Get(t', p) == Get(t, p);
    assert Get(t', base + [DmgName(w.source, d)]) == Get(t, base + [DmgName(w.source, d)]);
    assert Get(t', base + [DmgName(w.target, d)]) == Get(t, base + [DmgName(w.target, d)]);
    DigestOfName(w.target, d);
    OnePrefixOnly(p[|base|], w);
  }

  lemma RenameElsewhere(t: Tree, base: RelPath, w: Prefixes, sha: Hash, digest: string, p: RelPath)
    requires Renamable(t, base, w, sha, digest)
    requires base < p ==> p[|base|] != DmgName(w.target, digest)
    ensures NormalEntry(Renamed(t, base, w, digest), base, w, sha, p) == NormalEntry(t, base, w, sha, p)
  {
    var source, target := base + [DmgName(w.source, digest)], base + [DmgName(w.target, digest)];
    if base < p && DigestIn(p[|base|], w.target).Some? {
      RenameAtOtherDigest(t, base, w, sha, digest, p, DigestIn(p[|base|], w.target).value);
    } else {
      assert source[|base|] == DmgName(w.source, digest) && target[|base|] == DmgName(w.target, digest);
      DigestOfName(w.source, digest);
    }
  }

  lemma RenameKeepsNormal(t: Tree, base: RelPath, w: Prefixes, sha: Hash, digest: string)
    requires Renamable(t, base, w, sha, digest)
    ensures SameNormal(t, Renamed(t, base, w, digest), base, w, sha)
    ensures base == [] || (base in t && t[base] == Dir) ==> Closed(Renamed(t, base, w, digest))
  {
    forall p ensures NormalEntry(Renamed(t, base, w, digest), base, w, sha, p) == NormalEntry(t, base, w, sha, p) {
      if base < p && p[|base|] == DmgName(w.target, digest) {
        RenameAtSameDigest(t, base, w, sha, digest, p);
      } else {
        RenameElsewhere(t, base, w, sha, digest, p);
      }
    }
    var source, target := base + [DmgName(w.source, digest)], base + [DmgName(w.target, digest)];
    assert target[..|target| - 1] == base;
    if base == [] || (base in t && t[base] == Dir) {
      forall p ensures Rooted(Renamed(t, base, w, digest), p) {
        assert Rooted(t, p);
        assert p in t && |p| > 1 ==> p[..|p| - 1] != source;
      }
    }
  }

  // ---------------------------------------------------------------- the loops

  function ImageDigest(base: RelPath, prefix: string, p: RelPath): string
    requires Immediate(base, p) && DigestIn(p[|base|], prefix).Some?
  {
    DigestIn(p[|base|], prefix).value
  }

  function NamedWith(t: Tree, base: RelPath, prefix: string): set<RelPath> {
    set p | p in t && Immediate(base, p) && DigestIn(p[|base|], prefix).Some?
  }

  /** A normalization under way from `t0`: every step so far keeps the outcome. */
  ghost predicate Normalizing(t0: Tree, t: Tree, base: RelPath, w: Prefixes, sha: Hash) {
    && Closed(t) && SameNormal(t0, t, base, w, sha)
    && (base == [] || (base in t && t[base] == Dir))
    && (forall p | !(base < p) :: Get(t, p) == Get(t0, p))
    && (forall p | p in t :: (p in t0 && t[p] == t0[p]) || (TargetName(base, w, p) && t[p].File?))
    && (forall p | p in t0 && p !in t :: base < p && IsImage(p[|base|]))
  }

  /** Removes an image entry of any kind but a special file, which stays. */
  method DiscardCacheEntry(start: Tree, root: RelPath, budget: nat) returns (t: Tree, left: nat, alive: bool)
    requires Closed(start) && root in start && root != []
    ensures Closed(t) && Spent(start, t, budget, left, alive)
    ensures forall p | p in t :: p in start && t[p] == start[p]
    ensures forall p | p in start && p !in t :: root <= p && start[root] != Special
    ensures alive ==> (root in t <==> start[root] == Special)
  {
    match start[root]
    case Special => return start, budget, true;
    case Dir =>
      t, left, alive := RemoveTree(start, root, budget);
      assert alive ==> root !in t by { if root in t { assert root in Below(t, root); } }
    case _ =>
      if budget == 0 {
        return start, 0, false;
      }
      UnlinkKeepsClosed(start, root);
      OneEntryLess(start, root);
      return start - {root}, budget - 1, true;
  }

  // ---------------------------------------------------------------- how long it takes

  /** The entries, and once more the images still to be renamed. */
  ghost function Work(t: Tree, base: RelPath, w: Prefixes): nat { |t.Keys| + |NamedWith(t, base, w.source)| }

  /** Every step does some of the work. */
  ghost predicate Worked(start: Tree, t: Tree, base: RelPath, w: Prefixes, budget: nat, left: nat, alive: bool) {
    && left <= budget && Work(t, base, w) + budget <= Work(start, base, w) + left && |t.Keys| <= |start.Keys|
    && (!alive ==> left == 0 && t.Keys != {})
  }

  lemma SmallerSet<T>(a: set<T>, b: set<T>)
    requires a <= b
    ensures |a| <= |b|
  {
    assert b == a + (b - a);
  }

  lemma SpentIsWorked(start: Tree, t: Tree, base: RelPath, w: Prefixes, budget: nat, left: nat, alive: bool)
    requires Spent(start, t, budget, left, alive) && forall p | p in t :: p in start
    ensures Worked(start, t, base, w, budget, left, alive)
  {
    SmallerSet(NamedWith(t, base, w.source), NamedWith(start, base, w.source));
    SmallerSet(t.Keys, start.Keys);
  }

  lemma RenameIsWork(t: Tree, base: RelPath, w: Prefixes, sha: Hash, digest: string)
    requires Renamable(t, base, w, sha, digest)
    ensures Work(Renamed(t, base, w, digest), base, w) + 1 <= Work(t, base, w)
    ensures |Renamed(t, base, w, digest).Keys| == |t.Keys|
  {
    var source, target := base + [DmgName(w.source, digest)], base + [DmgName(w.target, digest)];
    var t' := Renamed(t, base, w, digest);
    ImageNames(base, w, digest);
    assert t'.Keys == (t.Keys + {target}) - {source};
    assert NamedWith(t, base, w.source) == NamedWith(t', base, w.source) + {source};
  }

  lemma WorkIsBounded(t: Tree, base: RelPath, w: Prefixes)
    ensures Work(t, base, w) <= 2 * |t.Keys|
  {
    SmallerSet(NamedWith(t, base, w.source), t.Keys);
  }

  lemma NormalizingTransitive(t0: Tree, t: Tree, t': Tree, base: RelPath, w: Prefixes, sha: Hash)
    requires Normalizing(t0, t, base, w, sha)
    requires Closed(t') && SameNormal(t, t', base, w, sha) && (base == [] || (base in t' && t'[base] == Dir))
    requires forall p | !(base < p) :: Get(t', p) == Get(t, p)
    requires forall p | p in t' :: (p in t && t'[p] == t[p]) || (TargetName(base, w, p) && t'[p].File?)
    requires forall p | p in t && p !in t' :: base < p && IsImage(p[|base|])
    ensures Normalizing(t0, t', base, w, sha)
  {
    forall p ensures NormalEntry(t', base, w, sha, p) == NormalEntry(t0, base, w, sha, p) {
      assert NormalEntry(t', base, w, sha, p) == NormalEntry(t, base, w, sha, p);
    }
  }

  lemma DiscardStep(t0: Tree, t: Tree, t': Tree, base: RelPath, w: Prefixes, sha: Hash, root: RelPath)
    requires w == FORWARD || w == REVERSE
    requires Normalizing(t0, t, base, w, sha) && Closed(t')
    requires root in t && Immediate(base, root)
    requires forall p | p in t' :: p in t && t'[p] == t[p]
    requires forall p | p in t && p !in t' :: root <= p && t[root] != Special
    requires
      || (SourceName(base, w, root)
          && (!Valid(t, root, ImageDigest(base, w.source, root), sha)
              || base + [DmgName(w.target, ImageDigest(base, w.source, root))] in t))
      || (TargetName(base, w, root)
          && !Valid(t, root, ImageDigest(base, w.target, root), sha)
          && !Valid(t, base + [DmgName(w.source, ImageDigest(base, w.target, root))], ImageDigest(base, w.target, root), sha))
    ensures Normalizing(t0, t', base, w, sha)
  {
    if t[root] == Special {
      assert t' == t;
    } else {
      PartialDiscardKeepsNormal(t, t', base, w, sha, root);
      forall p | p in t && p !in t' ensures base < p && IsImage(p[|base|]) { BelowChild(base, root, p); }
      NormalizingTransitive(t0, t, t', base, w, sha);
    }
  }

  lemma SourceGoes(t0: Tree, start: Tree, base: RelPath, w: Prefixes, sha: Hash, source: RelPath)
    requires w == FORWARD || w == REVERSE
    requires Normalizing(t0, start, base, w, sha)
    requires source in start && SourceName(base, w, source) && start[source].File?
    requires base + [DmgName(w.target, ImageDigest(base, w.source, source))] in start
    ensures var t, target := start - {source}, base + [DmgName(w.target, ImageDigest(base, w.source, source))];
            && Normalizing(t0, t, base, w, sha) && target in t && TargetName(base, w, target)
            && ImageDigest(base, w.target, target) == ImageDigest(base, w.source, source)
            && source == base + [DmgName(w.source, ImageDigest(base, w.source, source))]
  {
    var digest := ImageDigest(base, w.source, source);
    UnlinkKeepsClosed(start, source);
    DiscardStep(t0, start, start - {source}, base, w, sha, source);
    DigestOfName(w.target, digest);
    OnePrefixOnly(DmgName(w.target, digest), w);
    ChildNamed(base, source, source[|base|]);
  }

  lemma CorruptTargetGoes(t0: Tree, start: Tree, t: Tree, base: RelPath, w: Prefixes, sha: Hash, source: RelPath, target: RelPath)
    requires w == FORWARD || w == REVERSE
    requires source in start && SourceName(base, w, source) && target in start - {source} && TargetName(base, w, target)
    requires Normalizing(t0, start - {source}, base, w, sha) && Closed(t)
    requires var digest := ImageDigest(base, w.source, source);
             && ImageDigest(base, w.target, target) == digest && source == base + [DmgName(w.source, digest)]
             && !Valid(start, target, digest, sha)
    requires forall p | p in t :: p in start - {source} && t[p] == start[p]
    requires forall p | p in start - {source} && p !in t :: target <= p && start[target] != Special
    ensures Normalizing(t0, t, base, w, sha)
  {
    DiscardStep(t0, start - {source}, t, base, w, sha, target);
  }

  /** The target name is taken: the source goes, and so does a target that does not hash to its name. */
  method ResolveClash(t0: Tree, start: Tree, base: RelPath, w: Prefixes, sha: Hash, source: RelPath, budget: nat)
    returns (t: Tree, left: nat, alive: bool)
    requires w == FORWARD || w == REVERSE
    requires Normalizing(t0, start, base, w, sha)
    requires source in start && SourceName(base, w, source) && start[source].File?
    requires base + [DmgName(w.target, ImageDigest(base, w.source, source))] in start
    ensures Normalizing(t0, t, base, w, sha) && Spent(start, t, budget, left, alive)
    ensures forall p | p in start && p !in t :: base < p && (p[|base|] == source[|base|] || p[|base|] == DmgName(w.target, ImageDigest(base, w.source, source)))
    ensures forall p | p in t :: p in start && t[p] == start[p]
    ensures alive ==> source !in t
  {
    var digest := ImageDigest(base, w.source, source);
    var target := base + [DmgName(w.target, digest)];
    if budget == 0 {
      return start, 0, false;
    }
    t, left := start - {source}, budget - 1;
    OneEntryLess(start, source);
    SourceGoes(t0, start, base, w, sha, source);
    if Valid(start, target, digest, sha) {
      return t, left, true;
    }
    ghost var before := t;
    t, left, alive := DiscardCacheEntry(t, target, left);
    CorruptTargetGoes(t0, start, t, base, w, sha, source, target);
  }

  /** One source-prefixed image: dropped, renamed, or dropped together with a corrupt target. */
  method NormalizeImage(t0: Tree, start: Tree, base: RelPath, w: Prefixes, sha: Hash, source: RelPath, budget: nat)
    returns (t: Tree, left: nat, alive: bool)
    requires w == FORWARD || w == REVERSE
    requires Normalizing(t0, start, base, w, sha)
    requires source in start && SourceName(base, w, source)
    ensures Normalizing(t0, t, base, w, sha) && Worked(start, t, base, w, budget, left, alive)
    ensures forall p | p in start && p !in t :: base < p && (p[|base|] == source[|base|] || p[|base|] == DmgName(w.target, ImageDigest(base, w.source, source)))
    ensures forall p | p in t && SourceName(base, w, p) :: p in start && t[p] == start[p]
    ensures alive ==> source in t ==> t[source] == Special
  {
    var digest := ImageDigest(base, w.source, source);
    var target := base + [DmgName(w.target, digest)];
    ChildNamed(base, source, source[|base|]);
    assert source == base + [DmgName(w.source, digest)];
    if !Valid(start, source, digest, sha) {
      t, left, alive := DiscardCacheEntry(start, source, budget);
      DiscardStep(t0, start, t, base, w, sha, source);
      SpentIsWorked(start, t, base, w, budget, left, alive);
      return;
    }
    if target in start {
      t, left, alive := ResolveClash(t0, start, base, w, sha, source, budget);
      SpentIsWorked(start, t, base, w, budget, left, alive);
      return;
    }
    if budget == 0 {
      return start, 0, false;
    }
    RenameKeepsNormal(start, base, w, sha, digest);
    RenameIsWork(start, base, w, sha, digest);
    t, left, alive := start[target := start[source]] - {source}, budget - 1, true;
    RenameStep(t0, start, base, w, sha, digest);
  }

  lemma ImageNames(base: RelPath, w: Prefixes, digest: string)
    requires IsDigest(digest) && (w == FORWARD || w == REVERSE)
    ensures SourceName(base, w, base + [DmgName(w.source, digest)]) && !TargetName(base, w, base + [DmgName(w.source, digest)])
    ensures TargetName(base, w, base + [DmgName(w.target, digest)]) && !SourceName(base, w, base + [DmgName(w.target, digest)])
    ensures IsImage(DmgName(w.source, digest))
    ensures (base + [DmgName(w.source, digest)])[|base|] == DmgName(w.source, digest)
  {
    DigestOfName(w.source, digest);
    DigestOfName(w.target, digest);
    OnePrefixOnly(DmgName(w.source, digest), w);
    OnePrefixOnly(DmgName(w.target, digest), w);
  }

  lemma RenameStep(t0: Tree, t: Tree, base: RelPath, w: Prefixes, sha: Hash, digest: string)
    requires Normalizing(t0, t, base, w, sha) && Renamable(t, base, w, sha, digest)
    ensures Normalizing(t0, Renamed(t, base, w, digest), base, w, sha)
    ensures forall p | p in Renamed(t, base, w, digest) && SourceName(base, w, p) :: p in t && Renamed(t, base, w, digest)[p] == t[p]
  {
    RenameKeepsNormal(t, base, w, sha, digest);
    ImageNames(base, w, digest);
    NormalizingTransitive(t0, t, Renamed(t, base, w, digest), base, w, sha);
  }
}
