/**
 The journaled migration as a whole: a machine whose disk is changed in single steps and
 which may be killed before any of them, run any number of times in one direction.
 */
module MigrationJournal {
  import opened Basics
  import opened MigrationTree
  import opened MigrationDiscard
  import opened MigrationDmg
  import opened MigrationCache
  import opened MigrationPost
  import opened MigrationJob

  datatype Direction = Forward | Reverse

  predicate DiscardsIn(name: string) { EndsWith(name, "-state") || EndsWith(name, "-cache") }

  predicate IsUpdaterCache(name: string) { name == "updater-cache" }

  lemma UpdaterCacheDiscards(name: string)
    ensures IsUpdaterCache(name) ==> DiscardsIn(name)
  {
    assert IsUpdaterCache(name) ==> name[7..] == "-cache";
  }

  datatype Operation = Operation(name: string, kind: Kind, sameDevice: bool)

  datatype Pair = Pair(legacy: Node, canonical: Node)

  /** The journal on disk; `Unusable` is any file that `load_journal` refuses. */
  datatype Journal = NoJournal | Unusable | InProgress(direction: Direction, statuses: seq<Status>)

  datatype RuntimeRoot = Unset | Relative | Given

  /** What stays fixed while the migration is run and rerun. */
  datatype Setting = Setting(operations: seq<Operation>, runtimeRoot: RuntimeRoot, sha: Hash, rewriter: Direction -> Rewriter) {
    ghost predicate Sound() {
      && Settles(rewriter(Forward)) && Settles(rewriter(Reverse))
      && forall i | 0 <= i < |operations| :: IsUpdaterCache(operations[i].name) ==> operations[i].kind == DirectoryKind
    }
  }

  datatype Disk = Disk(pairs: seq<Pair>, journal: Journal, runtime: Tree)


  function JobOf(setting: Setting, i: nat, dir: Direction): (job: Job)
    requires i < |setting.operations|
    ensures setting.Sound() ==> job.Sound() && (job.phases.normalizes ==> job.kind == DirectoryKind)
  {
    var operation := setting.operations[i];
    UpdaterCacheDiscards(operation.name);
    var w := if dir.Forward? then FORWARD else REVERSE;
    Job(operation.kind, operation.sameDevice,
        Phases(DiscardsIn(operation.name), IsUpdaterCache(operation.name), w, setting.sha, setting.rewriter(dir)))
  }

  function Source(pair: Pair, dir: Direction): Node { if dir.Forward? then pair.legacy else pair.canonical }

  function Destination(pair: Pair, dir: Direction): Node { if dir.Forward? then pair.canonical else pair.legacy }

  function PairFrom(source: Node, destination: Node, dir: Direction): Pair {
    if dir.Forward? then Pair(source, destination) else Pair(destination, source)
  }

  // ---------------------------------------------------------------- what a disk leads to

  /** The operation as a run in this direction sees it; without a journal the check assigns the status. */
  function SlotAt(d: Disk, i: nat, dir: Direction): Slot
    requires i < |d.pairs| && (d.journal.InProgress? ==> i < |d.journal.statuses|)
  {
    var source, destination := Source(d.pairs[i], dir), Destination(d.pairs[i], dir);
    var status := if d.journal.InProgress? then d.journal.statuses[i] else if source == Absent then Skipped else Pending;
    Slot(status, source, destination)
  }

  ghost predicate Shaped(setting: Setting, d: Disk) {
    && |d.pairs| == |setting.operations|
    && (d.journal.InProgress? ==> |d.journal.statuses| == |setting.operations|)
    && Closed(d.runtime)
  }

  ghost predicate Steady(setting: Setting, d: Disk, dir: Direction)
    requires Shaped(setting, d)
  {
    forall i | 0 <= i < |setting.operations| :: JobOf(setting, i, dir).Steady(SlotAt(d, i, dir))
  }

  function RuntimeNames(dir: Direction): seq<string> {
    if dir.Forward? then ["codex-app", "codex-app-updater"] else ["chatgpt", "chatgpt-updater"]
  }

  predicate RuntimeRefuses(root: RuntimeRoot, names: seq<string>, t: Tree) {
    || root.Relative?
    || (root.Given? && exists n :: n in names && [n] in t && t[[n]] != Dir)
  }

  predicate RuntimeDoomed(names: seq<string>, t: Tree, p: RelPath) {
    p != [] && p[0] in names && [p[0]] in t && t[[p[0]]] == Dir
  }

  function RuntimeAfter(root: RuntimeRoot, names: seq<string>, t: Tree): Tree {
    if root.Given? then map p | p in t && !RuntimeDoomed(names, t, p) :: t[p] else t
  }

  /** Where an uninterrupted run leaves one operation's places. */
  ghost function FinalPair(setting: Setting, d: Disk, dir: Direction, i: nat): Pair
    requires Shaped(setting, d) && i < |setting.operations|
  {
    var e := JobOf(setting, i, dir).Finish(SlotAt(d, i, dir));
    PairFrom(e.source, e.destination, dir)
  }

  /** The disk that one uninterrupted successful run leaves. */
  ghost function Final(setting: Setting, d: Disk, dir: Direction): (r: Disk)
    requires Shaped(setting, d)
    ensures |r.pairs| == |setting.operations|
  {
    Disk(seq(|setting.operations|, i requires 0 <= i < |setting.operations| => FinalPair(setting, d, dir, i)),
         NoJournal,
         RuntimeAfter(setting.runtimeRoot, RuntimeNames(dir), d.runtime))
  }

  ghost predicate SomeRefuses(setting: Setting, d: Disk, dir: Direction)
    requires Shaped(setting, d)
  {
    exists i :: 0 <= i < |setting.operations| && JobOf(setting, i, dir).Refuses(SlotAt(d, i, dir))
  }

  predicate PreflightRefuses(setting: Setting, d: Disk, dir: Direction)
    requires |d.pairs| == |setting.operations|
  {
    exists i :: 0 <= i < |setting.operations| && JobOf(setting, i, dir).PreflightRefuses(Source(d.pairs[i], dir), Destination(d.pairs[i], dir))
  }

  /** An uninterrupted run in this direction ends with an error. */
  ghost predicate Blocked(setting: Setting, d: Disk, dir: Direction)
    requires Shaped(setting, d)
  {
    match d.journal
    case Unusable => true
    case InProgress(other, _) =>
      other != dir || SomeRefuses(setting, d, dir) || RuntimeRefuses(setting.runtimeRoot, RuntimeNames(dir), d.runtime)
    case NoJournal =>
      PreflightRefuses(setting, d, dir) || SomeRefuses(setting, d, dir) || RuntimeRefuses(setting.runtimeRoot, RuntimeNames(dir), d.runtime)
  }

  // ---------------------------------------------------------------- journal consistency

  /** (complete|skipped)* moving? (pending|skipped)* with the operation at `k` in the middle. */
  predicate Split(statuses: seq<Status>, k: nat) {
    && k <= |statuses|
    && (forall i | 0 <= i < k :: statuses[i] == Complete || statuses[i] == Skipped)
    && (forall i | k < i < |statuses| :: statuses[i] == Pending || statuses[i] == Skipped)
  }

  ghost predicate InOrder(statuses: seq<Status>) { exists k: nat :: Split(statuses, k) }

  /** The invariant of every reachable disk: statuses in order, each matching what is on the disk. */
  ghost predicate Consistent(setting: Setting, d: Disk)
    requires Shaped(setting, d)
  {
    d.journal.InProgress? ==>
      && InOrder(d.journal.statuses)
      && forall i | 0 <= i < |setting.operations| :: JobOf(setting, i, d.journal.direction).Consistent(SlotAt(d, i, d.journal.direction))
  }

  /** Every operation is at rest and no journal is left. */
  ghost predicate AtRest(setting: Setting, d: Disk, dir: Direction)
    requires Shaped(setting, d)
  {
    && d.journal.NoJournal?
    && !RuntimeRefuses(setting.runtimeRoot, RuntimeNames(dir), d.runtime)
    && RuntimeAfter(setting.runtimeRoot, RuntimeNames(dir), d.runtime) == d.runtime
    && forall i | 0 <= i < |setting.operations| :: Resting(JobOf(setting, i, dir), SlotAt(d, i, dir))
  }

  lemma RestingSlot(setting: Setting, d: Disk, dir: Direction, i: nat)
    requires Shaped(setting, d) && AtRest(setting, d, dir) && i < |setting.operations|
    ensures Final(setting, d, dir).pairs[i] == d.pairs[i]
    ensures !JobOf(setting, i, dir).Refuses(SlotAt(d, i, dir)) && JobOf(setting, i, dir).Steady(SlotAt(d, i, dir))
    ensures !JobOf(setting, i, dir).PreflightRefuses(Source(d.pairs[i], dir), Destination(d.pairs[i], dir))
  {
    assert Resting(JobOf(setting, i, dir), SlotAt(d, i, dir));
    RestingIsFinished(JobOf(setting, i, dir), SlotAt(d, i, dir));
  }

  /** Running again after completion changes nothing. */
  lemma AtRestIsFixed(setting: Setting, d: Disk, dir: Direction)
    requires Shaped(setting, d) && AtRest(setting, d, dir)
    ensures Final(setting, d, dir) == d && !Blocked(setting, d, dir)
    ensures Steady(setting, d, dir) && Consistent(setting, d)
  {
    forall i | 0 <= i < |setting.operations|
      ensures Final(setting, d, dir).pairs[i] == d.pairs[i]
      ensures !JobOf(setting, i, dir).Refuses(SlotAt(d, i, dir)) && JobOf(setting, i, dir).Steady(SlotAt(d, i, dir))
      ensures !JobOf(setting, i, dir).PreflightRefuses(Source(d.pairs[i], dir), Destination(d.pairs[i], dir))
    {
      RestingSlot(setting, d, dir, i);
    }
    assert Final(setting, d, dir).pairs == d.pairs;
  }

  // ---------------------------------------------------------------- progress of a run

  /** `d` has been reached from `d0` by some steps of runs in this direction. */
  ghost predicate Onward(setting: Setting, d0: Disk, d: Disk, dir: Direction)
    requires Shaped(setting, d0) && Shaped(setting, d)
  {
    && d.journal.InProgress? && d.journal.direction == dir
    && (d0.journal.NoJournal? ==> !PreflightRefuses(setting, d0, dir))
    && (d0.journal.InProgress? ==> d0.journal.direction == dir)
    && !d0.journal.Unusable?
    && (forall i | 0 <= i < |setting.operations| :: JobOf(setting, i, dir).Underway(SlotAt(d0, i, dir), SlotAt(d, i, dir)))
    && RuntimeUnderway(setting.runtimeRoot, RuntimeNames(dir), d0.runtime, d.runtime)
    && ((d0.journal.InProgress? ==> InOrder(d0.journal.statuses)) ==> InOrder(d.journal.statuses))
  }

  ghost predicate RuntimeUnderway(root: RuntimeRoot, names: seq<string>, t0: Tree, t: Tree) {
    && RuntimeAfter(root, names, t) == RuntimeAfter(root, names, t0)
    && (RuntimeRefuses(root, names, t) <==> RuntimeRefuses(root, names, t0))
  }

  /** Crash or failure at any step: the same outcome is still ahead. */
  lemma OnwardKeepsOutcome(setting: Setting, d0: Disk, d: Disk, dir: Direction)
    requires Shaped(setting, d0) && Shaped(setting, d) && Onward(setting, d0, d, dir)
    ensures Final(setting, d, dir) == Final(setting, d0, dir)
    ensures Blocked(setting, d, dir) <==> Blocked(setting, d0, dir)
    ensures Steady(setting, d, dir)
  {
    forall i | 0 <= i < |setting.operations|
      ensures FinalPair(setting, d, dir, i) == FinalPair(setting, d0, dir, i)
      ensures JobOf(setting, i, dir).Refuses(SlotAt(d, i, dir)) <==> JobOf(setting, i, dir).Refuses(SlotAt(d0, i, dir))
      ensures JobOf(setting, i, dir).Steady(SlotAt(d, i, dir))
    {
      OnwardAt(setting, d0, d, dir, i);
    }
    SameFinalPairs(setting, d0, d, dir);
  }

  lemma OnwardAt(setting: Setting, d0: Disk, d: Disk, dir: Direction, i: nat)
    requires Shaped(setting, d0) && Shaped(setting, d) && Onward(setting, d0, d, dir) && i < |setting.operations|
    ensures FinalPair(setting, d, dir, i) == FinalPair(setting, d0, dir, i)
    ensures JobOf(setting, i, dir).Refuses(SlotAt(d, i, dir)) <==> JobOf(setting, i, dir).Refuses(SlotAt(d0, i, dir))
    ensures JobOf(setting, i, dir).Steady(SlotAt(d, i, dir))
  {
    assert JobOf(setting, i, dir).Underway(SlotAt(d0, i, dir), SlotAt(d, i, dir));
  }

  lemma SameFinalPairs(setting: Setting, d0: Disk, d: Disk, dir: Direction)
    requires Shaped(setting, d0) && Shaped(setting, d)
    requires forall i | 0 <= i < |setting.operations| :: FinalPair(setting, d, dir, i) == FinalPair(setting, d0, dir, i)
    ensures Final(setting, d, dir).pairs == Final(setting, d0, dir).pairs
  {
  }

  ghost predicate RuntimePartly(names: seq<string>, t0: Tree, t: Tree) {
    && Closed(t)
    && (forall p | p in t :: p in t0 && t[p] == t0[p])
    && (forall p | p in t0 && p !in t :: RuntimeDoomed(names, t0, p))
  }

  lemma RuntimePartlyIsUnderway(names: seq<string>, t0: Tree, t: Tree)
    requires Closed(t0) && RuntimePartly(names, t0, t)
    ensures RuntimeUnderway(Given, names, t0, t)
  {
    forall p | p in t ensures RuntimeDoomed(names, t, p) <==> RuntimeDoomed(names, t0, p) {
      assert Rooted(t, p);
      if |p| > 1 {
        ChildPresent(t, [], p);
        assert p[..1] == [p[0]];
      } else {
        assert p == [p[0]];
      }
    }
    forall p | p in t0 && !RuntimeDoomed(names, t0, p) ensures p in t {}
    assert RuntimeAfter(Given, names, t) == RuntimeAfter(Given, names, t0);
    forall n | n in names && [n] in t0 && t0[[n]] != Dir ensures [n] in t { assert !RuntimeDoomed(names, t0, [n]); }
  }

  lemma RuntimeStep(names: seq<string>, start: Tree, before: Tree, t: Tree, name: string)
    requires RuntimePartly(names, start, before) && Closed(t)
    requires name in names && [name] in before && before[[name]] == Dir
    requires forall p | p in t :: p in before && t[p] == before[p]
    requires forall p | p in before && p !in t :: Under([name], p)
    ensures RuntimePartly(names, start, t)
  {
    forall p | p in before && p !in t ensures RuntimeDoomed(names, start, p) { assert p[0] == name; }
  }

  lemma RuntimeGone(names: seq<string>, start: Tree, t: Tree)
    requires RuntimePartly(names, start, t) && forall n | n in names :: [n] !in t
    ensures t == RuntimeAfter(Given, names, start)
  {
    forall p | p in t ensures !RuntimeDoomed(names, start, p) {
      assert Rooted(t, p);
      ChildPresent(t, [], p);
      assert p[..1] == [p[0]];
    }
  }

  /** Removes one runtime directory. */
  method RemoveRuntime(ghost start: Tree, before: Tree, names: seq<string>, name: string, ghost budget: nat, had: nat)
    returns (t: Tree, left: nat, alive: bool)
    requires Closed(start) && RuntimePartly(names, start, before) && Spent(start, before, budget, had, true)
    requires name in names && [name] in before && before[[name]] == Dir
    ensures RuntimePartly(names, start, t) && RuntimeUnderway(Given, names, start, t) && Spent(start, t, budget, left, alive)
    ensures forall p | p in t :: p in before
    ensures alive ==> [name] !in t
  {
    t, left, alive := RemoveTree(before, [name], had);
    RuntimeStep(names, start, before, t, name);
    RuntimePartlyIsUnderway(names, start, t);
    assert [name] in t ==> [name] in Below(t, [name]);
  }

  /** How far the removal has got: none of the first `i` names stands in the runtime root any more. */
  ghost predicate RuntimeRemoving(names: seq<string>, start: Tree, t: Tree, i: nat)
    requires i <= |names|
  {
    RuntimePartly(names, start, t) && forall n | n in names[..i] :: [n] !in t
  }

  lemma RuntimeNameDone(names: seq<string>, start: Tree, before: Tree, t: Tree, i: nat)
    requires i < |names| && RuntimeRemoving(names, start, before, i) && RuntimePartly(names, start, t)
    requires (forall p | p in t :: p in before) && [names[i]] !in t
    ensures RuntimeRemoving(names, start, t, i + 1)
  {
    assert names[..i + 1] == names[..i] + [names[i]];
  }

  lemma RuntimeAllDone(names: seq<string>, start: Tree, t: Tree)
    requires Closed(start) && RuntimeRemoving(names, start, t, |names|)
    ensures t == RuntimeAfter(Given, names, start) && !RuntimeRefuses(Given, names, start) && RuntimeUnderway(Given, names, start, t)
  {
    assert names[..|names|] == names;
    RuntimePartlyIsUnderway(names, start, t);
    RuntimeGone(names, start, t);
  }

  /** Something else than a directory under one of the names is met by the removal. */
  lemma RuntimeObstacle(names: seq<string>, start: Tree, t: Tree, i: nat)
    requires Closed(start) && i < |names| && RuntimePartly(names, start, t) && [names[i]] in t && t[[names[i]]] != Dir
    ensures RuntimeRefuses(Given, names, start) && RuntimeUnderway(Given, names, start, t)
  {
    RuntimePartlyIsUnderway(names, start, t);
    assert names[i] in names;
  }

  /** Removes the runtime directories of the identity that is left behind. */
  method DiscardRuntimeState(start: Tree, root: RuntimeRoot, names: seq<string>, budget: nat) returns (t: Tree, left: nat, progress: Progress)
    requires Closed(start)
    ensures Closed(t) && RuntimeUnderway(root, names, start, t)
    ensures Within(budget, left, progress == Killed, |start.Keys|)
    ensures progress == Finished ==> t == RuntimeAfter(root, names, start) && !RuntimeRefuses(root, names, start)
    ensures progress == Refused ==> RuntimeRefuses(root, names, start)
  {
    t, left := start, budget;
    if !root.Given? {
      progress := if root.Unset? then Finished else Refused;
      return;
    }
    var i := 0;
    while i < |names|
      invariant 0 <= i <= |names| && RuntimeRemoving(names, start, t, i) && Spent(start, t, budget, left, true)
    {
      ghost var before := t;
      if [names[i]] in t {
        if t[[names[i]]] != Dir {
          RuntimeObstacle(names, start, t, i);
          return t, left, Refused;
        }
        var alive: bool;
        t, left, alive := RemoveRuntime(start, t, names, names[i], budget, left);
        if !alive {
          return t, left, Killed;
        }
      }
      RuntimeNameDone(names, start, before, t, i);
      i := i + 1;
    }
    RuntimeAllDone(names, start, t);
    progress := Finished;
  }
}
