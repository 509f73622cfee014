/**
 What happens to a moved directory before its operation is complete: volatile entries are
 discarded, cached images normalized and known paths rewritten. Killed in any phase, the
 phases run again from the start on the next invocation.
 */
module MigrationPost {
  import opened Basics
  import opened Text
  import opened MigrationTree
  import opened MigrationWalk
  import opened MigrationDiscard
  import opened MigrationDmg
  import opened MigrationCache
  import opened MigrationSteady

  // ---------------------------------------------------------------- rewriting documents

  /** What rewriting makes of a document: nothing, a new document, or a refusal. */
  datatype Rewrite = Keep | Write(data: string) | Collision

  /** From the name of a file and its content; oversized and undecodable files are kept. */
  type Rewriter = (string, string) -> Rewrite

  /** Rewriting leaves this document as it is. */
  predicate Stays(rw: Rewriter, name: string, data: string) {
    rw(name, data) == Keep || rw(name, data) == Write(data)
  }

  /** This document, once rewritten, is left alone by a second rewriting. */
  predicate SettlesAt(rw: Rewriter, name: string, data: string) {
    SchemaName(name) && rw(name, data).Write? ==> Stays(rw, name, rw(name, data).data)
  }

  ghost predicate Settles(rw: Rewriter) {
    forall name, data :: SettlesAt(rw, name, data)
  }

  const SCHEMA_SUFFIXES: seq<string> := [".conf", ".ini", ".json", ".toml"]

  predicate SchemaName(name: string) {
    exists i :: 0 <= i < |SCHEMA_SUFFIXES| && |name| > |SCHEMA_SUFFIXES[i]| && EndsWith(Lower(name), SCHEMA_SUFFIXES[i])
  }

  predicate Rewritable(t: Tree, p: RelPath) {
    p in t && p != [] && t[p].File? && SchemaName(p[|p| - 1])
  }

  function Verdict(t: Tree, p: RelPath, rw: Rewriter): Rewrite
    requires p in t
  {
    if Rewritable(t, p) then rw(p[|p| - 1], t[p].data) else Keep
  }

  function RewrittenEntry(t: Tree, p: RelPath, rw: Rewriter): Entry
    requires p in t
  {
    if Verdict(t, p, rw).Write? then File(Verdict(t, p, rw).data) else t[p]
  }

  function RewrittenTree(t: Tree, rw: Rewriter): Tree {
    map p | p in t :: RewrittenEntry(t, p, rw)
  }

  predicate Collides(t: Tree, rw: Rewriter) {
    exists p :: p in t && Verdict(t, p, rw) == Collision
  }

  /** Some files of `t0` have been rewritten, the others are as they were. */
  ghost predicate Rewriting(t0: Tree, t: Tree, rw: Rewriter) {
    && t.Keys == t0.Keys
    && forall p | p in t :: t[p] == t0[p] || (Verdict(t0, p, rw).Write? && t[p] == RewrittenEntry(t0, p, rw))
  }

  lemma RewritingKeepsOutcome(t0: Tree, t: Tree, rw: Rewriter)
    requires Settles(rw) && Rewriting(t0, t, rw)
    ensures RewrittenTree(t, rw) == RewrittenTree(t0, rw)
    ensures Collides(t, rw) <==> Collides(t0, rw)
  {
    forall p | p in t
      ensures RewrittenEntry(t, p, rw) == RewrittenEntry(t0, p, rw)
      ensures Verdict(t, p, rw) == Collision <==> Verdict(t0, p, rw) == Collision
    {
      if t[p] != t0[p] {
        assert Rewritable(t0, p) && Rewritable(t, p);
        assert SettlesAt(rw, p[|p| - 1], t0[p].data);
      }
    }
  }

  /** The exact condition: a pass may be cut short anywhere if and only if rewriting settles. */
  lemma SettlesIsExact(rw: Rewriter)
    ensures Settles(rw) <==>
            forall t0, t | Rewriting(t0, t, rw) :: RewrittenTree(t, rw) == RewrittenTree(t0, rw) && (Collides(t, rw) <==> Collides(t0, rw))
  {
    if Settles(rw) {
      forall t0, t | Rewriting(t0, t, rw)
        ensures RewrittenTree(t, rw) == RewrittenTree(t0, rw) && (Collides(t, rw) <==> Collides(t0, rw))
      {
        RewritingKeepsOutcome(t0, t, rw);
      }
    } else {
      var name, data :| !SettlesAt(rw, name, data);
      var t0: Tree := map[[name] := File(data)];
      var t: Tree := map[[name] := File(rw(name, data).data)];
      assert Verdict(t0, [name], rw) == rw(name, data);
      assert Rewriting(t0, t, rw);
      assert Verdict(t, [name], rw) == rw(name, rw(name, data).data);
      assert RewrittenTree(t0, rw)[[name]] == t[[name]];
      assert Collides(t, rw) || RewrittenTree(t, rw)[[name]] != t[[name]];
    }
  }

  lemma RewrittenIsFixed(t: Tree, rw: Rewriter)
    requires Settles(rw) && !Collides(t, rw)
    ensures RewrittenTree(RewrittenTree(t, rw), rw) == RewrittenTree(t, rw)
    ensures !Collides(RewrittenTree(t, rw), rw)
  {
    assert Rewriting(t, RewrittenTree(t, rw), rw);
    RewritingKeepsOutcome(t, RewrittenTree(t, rw), rw);
  }

  /** The name under which a rewritten document is prepared. */
  function TemporaryName(name: string, pid: nat): string {
    "." + name + ".migration-tmp." + Decimal(pid)
  }

  lemma {:induction false} DecimalEndsInDigit(n: nat)
    ensures IsDigit(Decimal(n)[|Decimal(n)| - 1])
  {
  }

  /** A prepared document that a crash left behind is not touched by any later phase. */
  lemma TemporaryIsInert(name: string, pid: nat)
    ensures var temporary := TemporaryName(name, pid);
            !VolatileName(temporary) && !TempName(temporary) && !SchemaName(temporary) && !IsImage(temporary) && temporary != "downloads"
  {
    var t := TemporaryName(name, pid);
    DecimalEndsInDigit(pid);
    assert t[|t| - 1] == Decimal(pid)[|Decimal(pid)| - 1];
    assert IsDigit(t[|t| - 1]);
    forall i | 0 <= i < |VOLATILE_SUFFIXES| ensures !EndsWith(t, VOLATILE_SUFFIXES[i]) {
      if EndsWith(t, VOLATILE_SUFFIXES[i]) { EndsLike(t, VOLATILE_SUFFIXES[i]); }
    }
    forall i | 0 <= i < |SCHEMA_SUFFIXES| ensures !EndsWith(Lower(t), SCHEMA_SUFFIXES[i]) {
      if EndsWith(Lower(t), SCHEMA_SUFFIXES[i]) { EndsLike(Lower(t), SCHEMA_SUFFIXES[i]); }
    }
    assert |t| >= 16;
    assert "launch-action.sock"[17] == 'k';
  }

  /** How far a rewriting pass has got: the files still to do are untouched, the others done. */
  ghost predicate RewriteState(start: Tree, t: Tree, rw: Rewriter, todo: set<RelPath>) {
    && Rewriting(start, t, rw)
    && (forall p | p in todo :: p in t && t[p] == start[p] && Rewritable(start, p))
    && (forall p | p in t && p !in todo :: t[p] == RewrittenEntry(start, p, rw) && Verdict(start, p, rw) != Collision)
  }

  lemma RewriteStep(start: Tree, t: Tree, rw: Rewriter, todo: set<RelPath>, p: RelPath)
    requires RewriteState(start, t, rw, todo) && p in todo && Verdict(t, p, rw) != Collision
    ensures RewriteState(start, t[p := RewrittenEntry(t, p, rw)], rw, todo - {p})
  {
  }

  /**
   One pass over the files in any order. Each rewritten file is prepared under a temporary
   name and then replaced in one step; `leftover` is the temporary a crash leaves behind.
   */
  method RewriteKnownPaths(start: Tree, rw: Rewriter, budget: nat)
    returns (t: Tree, left: nat, progress: Progress, leftover: Option<RelPath>)
    ensures Rewriting(start, t, rw) && Within(budget, left, progress == Killed, 2 * |start.Keys|)
    ensures progress == Finished ==> t == RewrittenTree(start, rw) && !Collides(start, rw)
    ensures progress == Refused ==> Collides(start, rw)
    ensures leftover.Some? ==> progress == Killed && leftover.value in start && Rewritable(start, leftover.value)
  {
    t, left, leftover := start, budget, None;
    var todo := set p | p in start && Rewritable(start, p);
    SmallerSet(todo, start.Keys);
    RewriteBegins(start, rw, todo);
    while todo != {}
      invariant RewriteState(start, t, rw, todo)
      invariant left <= budget && |todo| <= |start.Keys| && budget - left <= 2 * (|start.Keys| - |todo|)
      decreases |todo|
    {
      var p :| p in todo;
      RewriteStepIfKept(start, t, rw, todo, p);
      match rw(p[|p| - 1], t[p].data) {
        case Collision =>
          return t, left, Refused, None;
        case Keep =>
        case Write(data) =>
          if left <= 1 {
            leftover := if left == 1 then Some(p) else None;
            return t, 0, Killed, leftover;
          }
          t, left := t[p := File(data)], left - 2;
      }
      todo := todo - {p};
    }
    RewriteEnds(start, t, rw);
    progress := Finished;
  }

  lemma RewriteBegins(start: Tree, rw: Rewriter, todo: set<RelPath>)
    requires todo == set p | p in start && Rewritable(start, p)
    ensures RewriteState(start, start, rw, todo)
  {
  }

  lemma RewriteEnds(start: Tree, t: Tree, rw: Rewriter)
    requires RewriteState(start, t, rw, {})
    ensures t == RewrittenTree(start, rw) && !Collides(start, rw)
  {
  }

  lemma RewriteStepIfKept(start: Tree, t: Tree, rw: Rewriter, todo: set<RelPath>, p: RelPath)
    requires RewriteState(start, t, rw, todo) && p in todo
    ensures Rewritable(start, p) && Rewritable(t, p)
    ensures Verdict(t, p, rw) == Collision ==> Collides(start, rw)
    ensures Verdict(t, p, rw) == rw(p[|p| - 1], t[p].data) == Verdict(start, p, rw)
    ensures Verdict(t, p, rw) != Collision ==> RewriteState(start, t[p := RewrittenEntry(t, p, rw)], rw, todo - {p})
    ensures Verdict(t, p, rw) == Keep ==> t[p := RewrittenEntry(t, p, rw)] == t
  {
    if Verdict(t, p, rw) != Collision { RewriteStep(start, t, rw, todo, p); }
  }

  // ---------------------------------------------------------------- rewriting disturbs no earlier phase

  lemma ImageNotSchema(name: string)
    requires IsImage(name)
    ensures !SchemaName(name)
  {
    assert name[|name| - 1] == 'g';
    forall i | 0 <= i < |SCHEMA_SUFFIXES| ensures !EndsWith(Lower(name), SCHEMA_SUFFIXES[i]) {
      if EndsWith(Lower(name), SCHEMA_SUFFIXES[i]) { EndsLike(Lower(name), SCHEMA_SUFFIXES[i]); }
    }
  }

  /** Same entries of the same kinds; only the content of some rewritable files differs. */
  ghost predicate SameShape(t0: Tree, t: Tree) {
    && t.Keys == t0.Keys
    && forall p | p in t :: t[p] == t0[p] || (t[p].File? && t0[p].File? && p != [] && SchemaName(p[|p| - 1]))
  }

  lemma RewritingKeepsShape(t0: Tree, t: Tree, rw: Rewriter)
    requires Rewriting(t0, t, rw)
    ensures SameShape(t0, t)
  {
  }

  lemma ShapeKeepsClosed(t0: Tree, t: Tree)
    requires Closed(t0) && SameShape(t0, t)
    ensures Closed(t)
  {
    forall p ensures Rooted(t, p) { assert Rooted(t0, p); }
  }

  lemma ShapeKeepsUnmarked(t0: Tree, t: Tree)
    requires SameShape(t0, t) && NothingMarked(t0)
    ensures NothingMarked(t)
  {
    forall p | p in t && p != [] ensures !Marked(t, p) {
      if t[p] == t0[p] {
        DirLikeWhileSupported(t0, t, p);
        DirLikeWhileSupported(t, t0, p);
      }
      assert !Marked(t0, p);
    }
  }

  lemma ShapeKeepsNormal(t0: Tree, t: Tree, base: RelPath, w: Prefixes, sha: Hash)
    requires SameShape(t0, t) && Normal(t0, base, w, sha) && (w == FORWARD || w == REVERSE)
    ensures Normal(t, base, w, sha)
  {
    forall p | p in t && Immediate(base, p) && IsImage(p[|base|]) ensures t[p] == t0[p] {
      ImageNotSchema(p[|base|]);
    }
    forall p | p in t && TargetName(base, w, p)
      ensures t[p] == Special || Valid(t, p, DigestIn(p[|base|], w.target).value, sha)
    {
      assert IsImage(p[|base|]) && t[p] == t0[p];
    }
    forall p | p in t && SourceName(base, w, p) ensures t[p] == Special {
      assert IsImage(p[|base|]) && t[p] == t0[p];
    }
  }

  // ---------------------------------------------------------------- the three phases

  /** Which phases an operation has, and with which rewriting and hash. */
  datatype Phases = Phases(discards: bool, normalizes: bool, w: Prefixes, sha: Hash, rw: Rewriter) {
    ghost predicate Sound() {
      && (w == FORWARD || w == REVERSE) && Settles(rw)
      && (normalizes ==> discards)
    }

    ghost function Cleaned(t: Tree): Tree { if discards then Swept(t) else t }

    ghost function Normalized(t: Tree): Tree {
      if normalizes then NormalCache(Cleaned(t), w, sha) else Cleaned(t)
    }

    /** What an uninterrupted run makes of the moved directory. */
    ghost function Post(t: Tree): Tree { RewrittenTree(Normalized(t), rw) }

    /** An uninterrupted run stops with an error. */
    ghost predicate Refuses(t: Tree) {
      (normalizes && !DownloadsSafe(Cleaned(t))) || Collides(Normalized(t), rw)
    }

    /** No link wavers under the discard, and none that survives is exposed by the normalization. */
    ghost predicate Steady(t: Tree) {
      && Closed(t)
      && (discards ==> LinkStable(t))
      && (normalizes ==> CacheSteady(Swept(t), w, sha))
    }

    /** `t` leads to the same result as `start`, however far the phases have got. */
    ghost predicate Underway(start: Tree, t: Tree) {
      Steady(t) && Post(t) == Post(start) && (Refuses(t) <==> Refuses(start))
    }
  }

  lemma DiscardUnderway(f: Phases, start: Tree, t: Tree)
    requires f.Sound() && f.Steady(start) && f.discards
    requires Closed(t) && LinkStable(t) && Swept(t) == Swept(start)
    ensures f.Underway(start, t)
  {
    assert f.Cleaned(t) == f.Cleaned(start) && f.Normalized(t) == f.Normalized(start);
  }

  lemma NormalizeUnderway(f: Phases, start: Tree, t: Tree)
    requires f.Sound() && f.Steady(start) && f.normalizes
    requires CacheProgress(Swept(start), t, f.w, f.sha)
    ensures f.Underway(start, t)
    ensures t == NormalCache(Swept(start), f.w, f.sha) ==> NothingMarked(t)
  {
    SweptIsSettled(start);
    CutKeepsCache(Swept(start), t, f.w, f.sha);
    SameCacheUnderway(f, start, t);
  }

  lemma SameCacheUnderway(f: Phases, start: Tree, t: Tree)
    requires f.Sound() && f.normalizes && Closed(t) && LinkStable(t) && CacheSteady(Swept(t), f.w, f.sha)
    requires NormalCache(Swept(t), f.w, f.sha) == NormalCache(Swept(start), f.w, f.sha)
    requires Get(Swept(t), DOWNLOADS) == Get(Swept(start), DOWNLOADS)
    ensures f.Underway(start, t)
  {
    assert f.Normalized(t) == f.Normalized(start);
    assert DownloadsSafe(Swept(t)) <==> DownloadsSafe(Swept(start));
  }

  /** What the rewriting phase starts from: all earlier phases would change nothing. */
  ghost predicate Prepared(f: Phases, t: Tree) {
    && Closed(t)
    && (f.discards ==> NothingMarked(t))
    && (f.normalizes ==> NormalCached(t, f.w, f.sha) && DownloadsSafe(t))
  }

  lemma PreparedIsFixed(f: Phases, t: Tree)
    requires f.Sound() && Prepared(f, t)
    ensures f.Normalized(t) == t && f.Steady(t)
    ensures f.Refuses(t) <==> Collides(t, f.rw)
  {
    if f.discards { NothingMarkedIsSettled(t); }
    if f.normalizes {
      NormalCachedIsFixed(t, f.w, f.sha);
      NormalCachedIsSteady(t, f.w, f.sha);
    }
  }

  lemma ShapeKeepsPrepared(f: Phases, t0: Tree, t: Tree)
    requires f.Sound() && Prepared(f, t0) && SameShape(t0, t)
    ensures Prepared(f, t)
  {
    ShapeKeepsClosed(t0, t);
    if f.discards { ShapeKeepsUnmarked(t0, t); }
    if f.normalizes {
      ShapeKeepsNormal(t0, t, [], f.w, f.sha);
      assert HasDownloads(t) == HasDownloads(t0);
      if HasDownloads(t0) { ShapeKeepsNormal(t0, t, DOWNLOADS, f.w, f.sha); }
    }
  }

  lemma RewriteUnderway(f: Phases, start: Tree, ready: Tree, t: Tree)
    requires f.Sound() && f.Steady(start) && Prepared(f, ready) && ready == f.Normalized(start)
    requires f.normalizes ==> DownloadsSafe(f.Cleaned(start))
    requires Rewriting(ready, t, f.rw)
    ensures f.Underway(start, t)
  {
    RewritingKeepsShape(ready, t, f.rw);
    ShapeKeepsPrepared(f, ready, t);
    PreparedIsFixed(f, t);
    RewritingKeepsOutcome(ready, t, f.rw);
  }

  /** A finished directory stays as it is when the phases run over it again. */
  lemma PostIsFixed(f: Phases, ready: Tree)
    requires f.Sound() && Prepared(f, ready) && !Collides(ready, f.rw)
    ensures var t := RewrittenTree(ready, f.rw);
            && Prepared(f, t) && f.Post(t) == t && !f.Refuses(t) && !Collides(t, f.rw) && RewrittenTree(t, f.rw) == t
  {
    var t := RewrittenTree(ready, f.rw);
    assert Rewriting(ready, t, f.rw);
    RewritingKeepsShape(ready, t, f.rw);
    ShapeKeepsPrepared(f, ready, t);
    PreparedIsFixed(f, t);
    RewrittenIsFixed(ready, f.rw);
  }

  /**
   The phases of one operation, killed after any number of steps. Whatever happens the
   result of an uninterrupted run stays reachable; a finished run is that result.
   */
  method RunPhases(f: Phases, start: Tree, budget: nat) returns (t: Tree, left: nat, progress: Progress)
    requires f.Sound() && f.Steady(start)
    ensures f.Underway(start, t) && |t.Keys| <= |start.Keys|
    ensures Within(budget, left, progress == Killed, 7 * |start.Keys|)
    ensures progress == Finished ==> t == f.Post(start) && !f.Refuses(start) && Prepared(f, t)
    ensures progress == Finished ==> RewrittenTree(t, f.rw) == t && !Collides(t, f.rw)
    ensures progress == Refused ==> f.Refuses(start)
  {
    t, left := start, budget;
    if f.discards {
      var alive: bool;
      t, left, alive := DiscardVolatileEntries(t, left);
      DiscardUnderway(f, start, t);
      if !alive {
        return t, left, Killed;
      }
      SweptIsSettled(start);
    }
    if f.normalizes {
      t, left, progress := NormalizeCache(t, f.w, f.sha, left);
      NormalizeUnderway(f, start, t);
      if progress != Finished {
        return;
      }
      CacheProgressKeepsOutcome(f.Cleaned(start), t, f.w, f.sha);
    }
    ghost var ready := t;
    assert Prepared(f, ready);
    var leftover: Option<RelPath>;
    t, left, progress, leftover := RewriteKnownPaths(t, f.rw, left);
    RewriteUnderway(f, start, ready, t);
    if progress == Finished { PostIsFixed(f, ready); }
  }
}
