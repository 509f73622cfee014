/** Running the migration: every disk change is one step, and `left` counts the steps before the kill. */
module MigrationRun {
  import opened Basics
  import opened MigrationTree
  import opened MigrationDmg
  import opened MigrationCache
  import opened MigrationPost
  import opened MigrationJob
  import opened MigrationJournal

  datatype Outcome = Done | Crashed | Failed

  /** The disk with one operation changed, in the journal and in its two places. */
  function WithSlot(d: Disk, i: nat, s: Slot, dir: Direction): Disk
    requires d.journal.InProgress? && i < |d.journal.statuses| && i < |d.pairs|
  {
    d.(pairs := d.pairs[i := PairFrom(s.source, s.destination, dir)],
       journal := InProgress(d.journal.direction, d.journal.statuses[i := s.status]))
  }

  /** The state in which the loop works: a journal in this direction, the operation at hand steady. */
  ghost predicate Ready(setting: Setting, d: Disk, i: nat, dir: Direction) {
    && setting.Sound() && Shaped(setting, d) && i < |setting.operations|
    && d.journal.InProgress? && d.journal.direction == dir
    && JobOf(setting, i, dir).Steady(SlotAt(d, i, dir))
  }

  /** What one operation's turn does: only its own slot changes, and only onwards. */
  ghost predicate Turn(setting: Setting, d0: Disk, d: Disk, i: nat, dir: Direction)
    requires Ready(setting, d0, i, dir)
  {
    && Ready(setting, d, i, dir)
    && d == WithSlot(d0, i, SlotAt(d, i, dir), dir)
    && JobOf(setting, i, dir).Underway(SlotAt(d0, i, dir), SlotAt(d, i, dir))
    && (SlotAt(d0, i, dir).status == Complete || SlotAt(d0, i, dir).status == Skipped ==> SlotAt(d, i, dir).status == SlotAt(d0, i, dir).status)
  }

  /** The turn has been completed: the operation is where an uninterrupted run takes it. */
  ghost predicate TurnDone(setting: Setting, d0: Disk, d: Disk, i: nat, dir: Direction)
    requires Ready(setting, d0, i, dir)
  {
    var job, s := JobOf(setting, i, dir), SlotAt(d0, i, dir);
    && Turn(setting, d0, d, i, dir)
    && SlotAt(d, i, dir) == job.Finish(s) && !job.Refuses(s)
    && (job.Consistent(s) ==> Resting(job, job.Finish(s)))
  }

  lemma TurnStep(setting: Setting, d0: Disk, d1: Disk, s: Slot, i: nat, dir: Direction)
    requires Ready(setting, d0, i, dir) && Turn(setting, d0, d1, i, dir)
    requires JobOf(setting, i, dir).Underway(SlotAt(d1, i, dir), s)
    requires SlotAt(d0, i, dir).status == Complete || SlotAt(d0, i, dir).status == Skipped ==> s.status == SlotAt(d0, i, dir).status
    ensures Turn(setting, d0, WithSlot(d1, i, s, dir), i, dir)
    ensures SlotAt(WithSlot(d1, i, s, dir), i, dir) == s
  {
    var d := WithSlot(d1, i, s, dir);
    assert SlotAt(d, i, dir) == s;
    UnderwayTransitive(JobOf(setting, i, dir), SlotAt(d0, i, dir), SlotAt(d1, i, dir), s);
    var was := SlotAt(d1, i, dir);
    UpdateTwice(d0.pairs, i, PairFrom(was.source, was.destination, dir), PairFrom(s.source, s.destination, dir));
    UpdateTwice(d0.journal.statuses, i, was.status, s.status);
  }

  lemma NoStep(setting: Setting, d: Disk, i: nat, dir: Direction)
    requires Ready(setting, d, i, dir)
    ensures Turn(setting, d, d, i, dir)
    ensures WithSlot(d, i, SlotAt(d, i, dir), dir) == d
  {
    SameIsUnderway(JobOf(setting, i, dir), SlotAt(d, i, dir));
    var s := SlotAt(d, i, dir);
    UpdateSame(d.pairs, i, PairFrom(s.source, s.destination, dir));
    UpdateSame(d.journal.statuses, i, s.status);
  }

  /** The phases of an operation over what has arrived; a file has none. */
  method CleanNode(job: Job, s: Slot, budget: nat) returns (node: Node, left: nat, progress: Progress)
    requires job.Sound() && job.Steady(s) && s.status == Moving && s.source == Absent && OfKind(s.destination, job.kind)
    ensures job.Underway(s, s.(destination := node))
    ensures progress == Finished ==> !job.Refuses(s) && job.Settled(node) && node == job.PostNode(s.destination)
    ensures progress == Refused ==> job.Refuses(s)
    ensures Within(budget, left, progress == Killed, 7 * Size(s.destination))
  {
    match s.destination
    case DirNode(tree) =>
      var t;
      t, left, progress := RunPhases(job.phases, tree, budget);
      PhasesAreUnderway(job, s, t);
      node := DirNode(t);
    case _ =>
      SameIsUnderway(job, s);
      node, left, progress := s.destination, budget, Finished;
  }

  class Machine {
    const setting: Setting
    var disk: Disk
    var left: nat

    constructor (setting: Setting, disk: Disk)
      ensures this.setting == setting && this.disk == disk && left == 0
    {
      this.setting, this.disk, left := setting, disk, 0;
    }

    /** Prepared under a temporary name and renamed over the journal: old or new, never torn. */
    method WriteJournal(journal: Journal) returns (alive: bool)
      modifies this
      ensures alive ==> disk == old(disk).(journal := journal)
      ensures !alive ==> disk == old(disk)
      ensures Within(old(left), left, !alive, 2)
    {
      if left < 2 {
        left := 0;
        return false;
      }
      left := left - 2;
      disk := disk.(journal := journal);
      return true;
    }

    /** The no-replace rename, after the last look at both places. */
    method RevalidateAndMovePath(i: nat, dir: Direction) returns (progress: Progress)
      requires Ready(setting, disk, i, dir)
      requires SlotAt(disk, i, dir).status == Moving && SlotAt(disk, i, dir).source != Absent
      modifies this
      ensures Turn(setting, old(disk), disk, i, dir)
      ensures progress == Finished ==>
        SlotAt(disk, i, dir) == Slot(Moving, Absent, old(SlotAt(disk, i, dir).source)) && OfKind(SlotAt(disk, i, dir).destination, JobOf(setting, i, dir).kind)
      ensures progress == Refused ==> JobOf(setting, i, dir).Refuses(old(SlotAt(disk, i, dir)))
      ensures Within(old(left), left, progress == Killed, 1)
      ensures progress != Finished ==> disk == old(disk)
    {
      var job, s := JobOf(setting, i, dir), SlotAt(disk, i, dir);
      NoStep(setting, disk, i, dir);
      if !OfKind(s.source, job.kind) || s.destination != Absent || !job.sameDevice {
        return Refused;
      }
      if left == 0 {
        return Killed;
      }
      MoveIsUnderway(job, s);
      TurnStep(setting, disk, disk, Slot(Moving, Absent, s.source), i, dir);
      disk, left := WithSlot(disk, i, Slot(Moving, Absent, s.source), dir), left - 1;
      return Finished;
    }

    /** Discarding, normalizing and rewriting at the destination. */
    method CleanDestination(i: nat, dir: Direction) returns (progress: Progress)
      requires Ready(setting, disk, i, dir)
      requires SlotAt(disk, i, dir).status == Moving && SlotAt(disk, i, dir).source == Absent
      requires OfKind(SlotAt(disk, i, dir).destination, JobOf(setting, i, dir).kind)
      modifies this
      ensures Turn(setting, old(disk), disk, i, dir)
      ensures
        var job, s := JobOf(setting, i, dir), old(SlotAt(disk, i, dir));
        && (progress == Finished ==>
              && !job.Refuses(s) && job.Settled(SlotAt(disk, i, dir).destination)
              && SlotAt(disk, i, dir) == Slot(Moving, Absent, job.PostNode(s.destination)))
        && (progress == Refused ==> job.Refuses(s))
      ensures Within(old(left), left, progress == Killed, 7 * old(Size(SlotAt(disk, i, dir).destination)))
    {
      var job, s := JobOf(setting, i, dir), SlotAt(disk, i, dir);
      NoStep(setting, disk, i, dir);
      var node;
      node, left, progress := CleanNode(job, s, left);
      TurnStep(setting, disk, disk, s.(destination := node), i, dir);
      disk := WithSlot(disk, i, s.(destination := node), dir);
    }

    /** After the move, now or in an earlier run, only the destination is there. */
    method Arrive(i: nat, dir: Direction) returns (progress: Progress)
      requires Ready(setting, disk, i, dir) && SlotAt(disk, i, dir).status == Moving
      modifies this
      ensures Turn(setting, old(disk), disk, i, dir)
      ensures
        var job, s := JobOf(setting, i, dir), old(SlotAt(disk, i, dir));
        && (progress == Finished ==> SlotAt(disk, i, dir) == Slot(Moving, Absent, job.Cargo(s)) && OfKind(job.Cargo(s), job.kind))
        && (progress == Refused ==> job.Refuses(s))
      ensures Within(old(left), left, progress == Killed, 1)
    {
      NoStep(setting, disk, i, dir);
      if SlotAt(disk, i, dir).source != Absent {
        progress := RevalidateAndMovePath(i, dir);
      } else {
        progress := if OfKind(SlotAt(disk, i, dir).destination, JobOf(setting, i, dir).kind) then Finished else Refused;
      }
    }

    /** Records a new status for one operation. */
    method Record(i: nat, status: Status, dir: Direction) returns (alive: bool)
      requires Ready(setting, disk, i, dir)
      modifies this
      ensures alive ==> disk == WithSlot(old(disk), i, old(SlotAt(disk, i, dir)).(status := status), dir)
      ensures !alive ==> disk == old(disk)
      ensures Within(old(left), left, !alive, 2)
    {
      ghost var d0 := disk;
      alive := WriteJournal(InProgress(dir, disk.journal.statuses[i := status]));
      assert d0.pairs[i := d0.pairs[i]] == d0.pairs;
    }

    /** The turn of an operation that is neither complete nor skipped. */
    method MoveAndClean(i: nat, dir: Direction) returns (progress: Progress)
      requires Ready(setting, disk, i, dir)
      requires SlotAt(disk, i, dir).status == Pending || SlotAt(disk, i, dir).status == Moving
      modifies this
      ensures Turn(setting, old(disk), disk, i, dir)
      ensures progress == Finished ==> TurnDone(setting, old(disk), disk, i, dir)
      ensures progress == Refused ==> JobOf(setting, i, dir).Refuses(old(SlotAt(disk, i, dir)))
      ensures Within(old(left), left, progress == Killed, Cost(old(SlotAt(disk, i, dir))))
    {
      ghost var d0 := disk;
      ghost var job, s := JobOf(setting, i, dir), SlotAt(disk, i, dir);
      NoStep(setting, d0, i, dir);
      var alive := Record(i, Moving, dir);
      if !alive {
        return Killed;
      }
      MarkingIsUnderway(job, s);
      TurnStep(setting, d0, d0, s.(status := Moving), i, dir);
      ghost var d1 := disk;
      progress := Arrive(i, dir);
      TurnStep(setting, d0, d1, SlotAt(disk, i, dir), i, dir);
      TurnIsChange(setting, d0, d1, disk, i, dir);
      if progress != Finished {
        return;
      }
      progress := FinishTurn(i, dir, d0);
    }

    /** Cleaning the arrived destination and recording completion. */
    method FinishTurn(i: nat, dir: Direction, ghost d0: Disk) returns (progress: Progress)
      requires Ready(setting, d0, i, dir) && Turn(setting, d0, disk, i, dir)
      requires SlotAt(d0, i, dir).status == Pending || SlotAt(d0, i, dir).status == Moving
      requires SlotAt(disk, i, dir) == Slot(Moving, Absent, JobOf(setting, i, dir).Cargo(SlotAt(d0, i, dir)))
      requires OfKind(SlotAt(disk, i, dir).destination, JobOf(setting, i, dir).kind)
      modifies this
      ensures Turn(setting, d0, disk, i, dir)
      ensures progress == Finished ==> TurnDone(setting, d0, disk, i, dir)
      ensures progress == Refused ==> JobOf(setting, i, dir).Refuses(SlotAt(d0, i, dir))
      ensures Within(old(left), left, progress == Killed, 2 + 7 * Size(JobOf(setting, i, dir).Cargo(SlotAt(d0, i, dir))))
    {
      ghost var d2 := disk;
      progress := CleanDestination(i, dir);
      TurnStep(setting, d0, d2, SlotAt(disk, i, dir), i, dir);
      TurnIsChange(setting, d0, d2, disk, i, dir);
      if progress != Finished {
        return;
      }
      ghost var d3 := disk;
      var alive := Record(i, Complete, dir);
      if !alive {
        return Killed;
      }
      CompletionEndsTurn(setting, d0, d3, i, dir);
    }

    /** The turn of a skipped operation: only its destination is rewritten, again in every run. */
    method RewriteSkipped(i: nat, dir: Direction) returns (progress: Progress)
      requires Ready(setting, disk, i, dir) && SlotAt(disk, i, dir).status == Skipped
      modifies this
      ensures Turn(setting, old(disk), disk, i, dir)
      ensures progress == Finished ==> TurnDone(setting, old(disk), disk, i, dir)
      ensures progress == Refused ==> JobOf(setting, i, dir).Refuses(old(SlotAt(disk, i, dir)))
      ensures Within(old(left), left, progress == Killed, Cost(old(SlotAt(disk, i, dir))))
    {
      var job, s := JobOf(setting, i, dir), SlotAt(disk, i, dir);
      NoStep(setting, disk, i, dir);
      if !job.Refuses(s) { SkippedRests(job, s); }
      match s.destination
      case DirNode(tree) =>
        var t, leftover;
        t, left, progress, leftover := RewriteKnownPaths(tree, job.phases.rw, left);
        RewritingIsUnderway(job, s, t);
        TurnStep(setting, disk, disk, s.(destination := DirNode(t)), i, dir);
        disk := WithSlot(disk, i, s.(destination := DirNode(t)), dir);
      case _ =>
        progress := Finished;
    }

    method RunOperation(i: nat, dir: Direction) returns (progress: Progress)
      requires Ready(setting, disk, i, dir)
      modifies this
      ensures Turn(setting, old(disk), disk, i, dir)
      ensures progress == Finished ==> TurnDone(setting, old(disk), disk, i, dir)
      ensures progress == Refused ==> JobOf(setting, i, dir).Refuses(old(SlotAt(disk, i, dir)))
      ensures Within(old(left), left, progress == Killed, Cost(old(SlotAt(disk, i, dir))))
    {
      match disk.journal.statuses[i]
      case Complete =>
        NoStep(setting, disk, i, dir);
        if JobOf(setting, i, dir).Consistent(SlotAt(disk, i, dir)) { CompleteRests(JobOf(setting, i, dir), SlotAt(disk, i, dir)); }
        progress := Finished;
      case Skipped =>
        progress := RewriteSkipped(i, dir);
      case _ =>
        progress := MoveAndClean(i, dir);
    }

    /** The next operation of the loop that started at `d0` with `budget` steps. */
    method RunNext(i: nat, dir: Direction, ghost d0: Disk, ghost budget: nat) returns (progress: Progress)
      requires setting.Sound() && Shaped(setting, d0) && Steady(setting, d0, dir)
      requires d0.journal.InProgress? && d0.journal.direction == dir
      requires i < |setting.operations| && Looping(setting, d0, disk, i, dir, budget, left)
      modifies this
      ensures Shaped(setting, disk)
      ensures progress == Finished ==> Looping(setting, d0, disk, i + 1, dir, budget, left)
      ensures progress != Finished ==> Onward(setting, d0, disk, dir)
      ensures progress == Refused ==> SomeRefuses(setting, d0, dir)
      ensures Within(budget, left, progress == Killed, TotalCost(setting, d0, dir, |setting.operations|))
    {
      ghost var d, had := disk, left;
      LoopIsReady(setting, d0, d, i, dir);
      progress := RunOperation(i, dir);
      TurnInLoop(setting, d0, d, disk, i, dir, budget, had, left, progress == Killed);
    }

    /** All operations in order. */
    method RunOperations(dir: Direction) returns (progress: Progress)
      requires setting.Sound() && Shaped(setting, disk) && Steady(setting, disk, dir)
      requires disk.journal.InProgress? && disk.journal.direction == dir
      modifies this
      ensures Shaped(setting, disk) && Onward(setting, old(disk), disk, dir)
      ensures progress == Finished ==> LoopState(setting, old(disk), disk, |setting.operations|, dir)
      ensures progress == Refused ==> SomeRefuses(setting, old(disk), dir)
      ensures Within(old(left), left, progress == Killed, TotalCost(setting, old(disk), dir, |setting.operations|))
    {
      ghost var d0 := disk;
      var i := 0;
      while i < |setting.operations|
        invariant 0 <= i <= |setting.operations| && Looping(setting, d0, disk, i, dir, old(left), left)
      {
        progress := RunNext(i, dir, d0, old(left));
        if progress != Finished {
          return;
        }
        i := i + 1;
      }
      LoopIsOnward(setting, d0, disk, i, dir);
      progress := Finished;
    }

    /** All operations, then the runtime directories, then the journal itself. */
    method Resume(dir: Direction, ghost d0: Disk) returns (outcome: Outcome)
      requires setting.Sound() && Shaped(setting, d0) && Shaped(setting, disk) && Consistent(setting, disk)
      requires Onward(setting, d0, disk, dir) && d0.runtime == disk.runtime
      modifies this
      ensures Shaped(setting, disk) && Steady(setting, disk, dir)
      ensures outcome != Done ==> Onward(setting, d0, disk, dir)
      ensures outcome == Done ==> disk == Final(setting, d0, dir) && AtRest(setting, disk, dir) && !Blocked(setting, d0, dir)
      ensures outcome == Failed ==> Blocked(setting, d0, dir)
      ensures Within(old(left), left, outcome == Crashed, TotalCost(setting, old(disk), dir, |setting.operations|) + |old(disk).runtime.Keys| + 1)
    {
      ghost var d1 := disk;
      OnwardKeepsOutcome(setting, d0, d1, dir);
      var progress := RunOperations(dir);
      ghost var d2 := disk;
      OnwardTransitive(setting, d0, d1, d2, dir);
      OnwardKeepsOutcome(setting, d0, d2, dir);
      if progress != Finished {
        return if progress == Killed then Crashed else Failed;
      }
      outcome := FinishRun(dir, d0, d1);
    }

    /** After the last operation: the runtime directories of the old identity go, then the journal. */
    method FinishRun(dir: Direction, ghost d0: Disk, ghost d1: Disk) returns (outcome: Outcome)
      requires setting.Sound() && Shaped(setting, d0) && Shaped(setting, d1) && Consistent(setting, d1)
      requires Onward(setting, d0, d1, dir) && d0.runtime == d1.runtime
      requires LoopState(setting, d1, disk, |setting.operations|, dir) && Onward(setting, d1, disk, dir)
      modifies this
      ensures Shaped(setting, disk) && Steady(setting, disk, dir)
      ensures outcome != Done ==> Onward(setting, d0, disk, dir)
      ensures outcome == Done ==> disk == Final(setting, d0, dir) && AtRest(setting, disk, dir) && !Blocked(setting, d0, dir)
      ensures outcome == Failed ==> Blocked(setting, d0, dir)
      ensures Within(old(left), left, outcome == Crashed, |old(disk).runtime.Keys| + 1)
    {
      ghost var d2 := disk;
      var runtime, progress;
      runtime, left, progress := DiscardRuntimeState(disk.runtime, setting.runtimeRoot, RuntimeNames(dir), left);
      disk := disk.(runtime := runtime);
      RuntimeGoneIsOnward(setting, d0, d1, d2, disk, dir);
      if progress != Finished {
        return if progress == Killed then Crashed else Failed;
      }
      outcome := RemoveJournal(dir, d0, d1);
    }

    /** The last step: without its journal the migration is complete. */
    method RemoveJournal(dir: Direction, ghost d0: Disk, ghost d1: Disk) returns (outcome: Outcome)
      requires setting.Sound() && Shaped(setting, d0) && Shaped(setting, d1) && Shaped(setting, disk) && Consistent(setting, d1)
      requires Onward(setting, d0, d1, dir) && d0.runtime == d1.runtime && Onward(setting, d0, disk, dir)
      requires LoopState(setting, d1, disk.(runtime := d1.runtime), |setting.operations|, dir)
      requires !RuntimeRefuses(setting.runtimeRoot, RuntimeNames(dir), d1.runtime)
      requires disk.runtime == RuntimeAfter(setting.runtimeRoot, RuntimeNames(dir), d1.runtime)
      requires RuntimeUnderway(setting.runtimeRoot, RuntimeNames(dir), d1.runtime, disk.runtime)
      modifies this
      ensures Shaped(setting, disk) && Steady(setting, disk, dir)
      ensures outcome != Done ==> Onward(setting, d0, disk, dir)
      ensures outcome == Done ==> disk == Final(setting, d0, dir) && AtRest(setting, disk, dir) && !Blocked(setting, d0, dir)
      ensures outcome != Failed
      ensures Within(old(left), left, outcome == Crashed, 1)
    {
      if left == 0 {
        OnwardKeepsOutcome(setting, d0, disk, dir);
        return Crashed;
      }
      left := left - 1;
      ghost var d3 := disk;
      disk := disk.(journal := NoJournal);
      AllDone(setting, d1, d3, dir);
      OnwardKeepsOutcome(setting, d0, d1, dir);
      AtRestIsFixed(setting, disk, dir);
      outcome := Done;
    }

    /**
     One invocation, killed after `budget` steps at the latest. However it ends, the outcome
     of an uninterrupted run is still what lies ahead; a run that succeeds has reached it.
     With `Enough` steps it is not killed, and then it succeeds exactly when nothing blocks it.
     */
    method RunMigration(dir: Direction, budget: nat) returns (outcome: Outcome)
      requires setting.Sound() && Shaped(setting, disk) && Steady(setting, disk, dir) && Consistent(setting, disk)
      modifies this
      ensures Shaped(setting, disk) && Steady(setting, disk, dir) && Consistent(setting, disk)
      ensures Final(setting, disk, dir) == old(Final(setting, disk, dir))
      ensures Blocked(setting, disk, dir) == old(Blocked(setting, disk, dir))
      ensures outcome == Done ==> disk == old(Final(setting, disk, dir)) && AtRest(setting, disk, dir) && !old(Blocked(setting, disk, dir))
      ensures outcome == Failed ==> old(Blocked(setting, disk, dir))
      ensures Within(budget, left, outcome == Crashed, old(Enough(setting, disk, dir)))
      ensures outcome == Done && old(AtRest(setting, disk, dir)) ==> disk == old(disk)
      ensures old(disk.journal.InProgress? && disk.journal.direction != dir) ==> outcome == Failed && disk == old(disk)
    {
      left := budget;
      ghost var d0 := disk;
      if AtRest(setting, d0, dir) { AtRestIsFixed(setting, d0, dir); }
      match disk.journal {
        case Unusable =>
          return Failed;
        case InProgress(direction, _) =>
          if direction != dir {
            return Failed;
          }
        case NoJournal =>
          if PreflightRefuses(setting, disk, dir) {
            return Failed;
          }
          var statuses := StatusesAtStart(setting, disk, dir);
          var alive := WriteJournal(InProgress(dir, statuses));
          if !alive {
            return Crashed;
          }
      }
      JournalWritten(setting, d0, disk, dir);
      SameCost(setting, d0, disk, dir, |setting.operations|);
      outcome := Resume(dir, d0);
      if outcome == Done {
        AtRestIsFixed(setting, disk, dir);
      } else {
        OnwardKeepsOutcome(setting, d0, disk, dir);
        OnwardKeepsConsistent(setting, d0, disk, dir);
      }
    }

    /**
     Any schedule of kills followed by any number of reruns: whenever a run succeeds it leaves
     the very disk that one uninterrupted run leaves.
     */
    method RunManyTimes(dir: Direction, budgets: seq<nat>) returns (outcomes: seq<Outcome>)
      requires setting.Sound() && Shaped(setting, disk) && Steady(setting, disk, dir) && Consistent(setting, disk)
      modifies this
      ensures |outcomes| == |budgets|
      ensures Shaped(setting, disk) && Steady(setting, disk, dir) && Consistent(setting, disk)
      ensures Final(setting, disk, dir) == old(Final(setting, disk, dir))
      ensures old(Blocked(setting, disk, dir)) ==> Done !in outcomes
      ensures !old(Blocked(setting, disk, dir)) ==> Failed !in outcomes
      ensures outcomes != [] && outcomes[|outcomes| - 1] == Done ==> disk == old(Final(setting, disk, dir))
    {
      outcomes := [];
      ghost var d0 := disk;
      while |outcomes| < |budgets|
        invariant |outcomes| <= |budgets| && Ran(setting, d0, disk, dir, outcomes)
      {
        var outcome := RunMigration(dir, budgets[|outcomes|]);
        outcomes := outcomes + [outcome];
      }
    }
  }

  /** What holds after any number of invocations. */
  ghost predicate Ran(setting: Setting, d0: Disk, d: Disk, dir: Direction, outcomes: seq<Outcome>)
    requires Shaped(setting, d0)
  {
    && Shaped(setting, d) && Steady(setting, d, dir) && Consistent(setting, d)
    && Final(setting, d, dir) == Final(setting, d0, dir) && Blocked(setting, d, dir) == Blocked(setting, d0, dir)
    && (if Blocked(setting, d0, dir) then Done !in outcomes else Failed !in outcomes)
    && (outcomes != [] && outcomes[|outcomes| - 1] == Done ==> d == Final(setting, d0, dir))
  }

  lemma TurnIsChange(setting: Setting, d0: Disk, d1: Disk, d: Disk, i: nat, dir: Direction)
    requires Ready(setting, d0, i, dir) && Turn(setting, d0, d1, i, dir) && Turn(setting, d1, d, i, dir)
    ensures d == WithSlot(d1, i, SlotAt(d, i, dir), dir)
  {
  }

  lemma CompletionEndsTurn(setting: Setting, d0: Disk, d3: Disk, i: nat, dir: Direction)
    requires Ready(setting, d0, i, dir) && Turn(setting, d0, d3, i, dir)
    requires SlotAt(d0, i, dir).status == Pending || SlotAt(d0, i, dir).status == Moving
    requires !JobOf(setting, i, dir).Refuses(SlotAt(d0, i, dir))
    requires SlotAt(d3, i, dir) == Slot(Moving, Absent, JobOf(setting, i, dir).PostNode(JobOf(setting, i, dir).Cargo(SlotAt(d0, i, dir))))
    requires JobOf(setting, i, dir).Settled(SlotAt(d3, i, dir).destination)
    ensures TurnDone(setting, d0, WithSlot(d3, i, SlotAt(d3, i, dir).(status := Complete), dir), i, dir)
  {
    var job, s := JobOf(setting, i, dir), SlotAt(d0, i, dir);
    var e := SlotAt(d3, i, dir).(status := Complete);
    var d := WithSlot(d3, i, e, dir);
    assert SlotAt(d, i, dir) == e == job.Finish(s);
    CompleteRests(job, e);
    assert d.pairs == WithSlot(d0, i, e, dir).pairs;
    assert d.journal.statuses == WithSlot(d0, i, e, dir).journal.statuses;
  }

  // ---------------------------------------------------------------- the loop over the operations

  /** The operation has ended where an uninterrupted run takes it. */
  ghost predicate Ended(setting: Setting, d0: Disk, d: Disk, j: nat, dir: Direction)
    requires Shaped(setting, d0) && Shaped(setting, d) && j < |setting.operations|
  {
    var job, s := JobOf(setting, j, dir), SlotAt(d0, j, dir);
    && job.Underway(s, SlotAt(d, j, dir))
    && SlotAt(d, j, dir) == job.Finish(s) && !job.Refuses(s)
    && (job.Consistent(s) ==> Resting(job, job.Finish(s)))
  }

  /** The operations before `i` have ended, the others have not been touched. */
  ghost predicate LoopState(setting: Setting, d0: Disk, d: Disk, i: nat, dir: Direction)
    requires Shaped(setting, d0) && i <= |setting.operations|
  {
    && Shaped(setting, d) && d.journal.InProgress? && d.journal.direction == dir && d.runtime == d0.runtime
    && (forall j | 0 <= j < i :: Ended(setting, d0, d, j, dir))
    && (forall j | i <= j < |setting.operations| :: SlotAt(d, j, dir) == SlotAt(d0, j, dir))
  }

  lemma LoopIsReady(setting: Setting, d0: Disk, d: Disk, i: nat, dir: Direction)
    requires setting.Sound() && Shaped(setting, d0) && Steady(setting, d0, dir)
    requires i < |setting.operations| && LoopState(setting, d0, d, i, dir)
    ensures Ready(setting, d, i, dir)
  {
    assert JobOf(setting, i, dir).Steady(SlotAt(d0, i, dir));
  }

  lemma OtherSlotsSame(setting: Setting, d: Disk, i: nat, s: Slot, j: nat, dir: Direction)
    requires Shaped(setting, d) && d.journal.InProgress? && i < |setting.operations| && j < |setting.operations| && j != i
    ensures Shaped(setting, WithSlot(d, i, s, dir))
    ensures SlotAt(WithSlot(d, i, s, dir), j, dir) == SlotAt(d, j, dir)
  {
  }

  lemma LoopStep(setting: Setting, d0: Disk, d: Disk, d': Disk, i: nat, dir: Direction)
    requires setting.Sound() && Shaped(setting, d0) && Steady(setting, d0, dir)
    requires i < |setting.operations| && LoopState(setting, d0, d, i, dir) && Ready(setting, d, i, dir)
    requires TurnDone(setting, d, d', i, dir)
    ensures LoopState(setting, d0, d', i + 1, dir)
  {
    forall j | 0 <= j < |setting.operations| && j != i ensures SlotAt(d', j, dir) == SlotAt(d, j, dir) {
      OtherSlotsSame(setting, d, i, SlotAt(d', i, dir), j, dir);
    }
    forall j | 0 <= j < i + 1 ensures Ended(setting, d0, d', j, dir) {
      assert j < i ==> Ended(setting, d0, d, j, dir);
    }
  }

  lemma OrderKept(before: seq<Status>, after: seq<Status>, i: nat)
    requires |after| == |before| && i <= |before|
    requires forall j | 0 <= j < i :: after[j] == Complete || after[j] == Skipped
    requires forall j | i < j < |before| :: after[j] == before[j]
    requires i < |before| && (before[i] == Complete || before[i] == Skipped) ==> after[i] == before[i]
    ensures InOrder(before) ==> InOrder(after)
  {
    if k: nat :| Split(before, k) {
      assert Split(after, if k <= i then i else k);
    }
  }

  lemma FinishedStatus(job: Job, s: Slot)
    ensures job.Finish(s).status == Complete || job.Finish(s).status == Skipped
  {
  }

  lemma LoopTurnIsOnward(setting: Setting, d0: Disk, d: Disk, d': Disk, i: nat, dir: Direction)
    requires setting.Sound() && Shaped(setting, d0) && Steady(setting, d0, dir)
    requires d0.journal.InProgress? && d0.journal.direction == dir
    requires i < |setting.operations| && LoopState(setting, d0, d, i, dir) && Ready(setting, d, i, dir)
    requires Turn(setting, d, d', i, dir)
    ensures Onward(setting, d0, d', dir)
    ensures JobOf(setting, i, dir).Refuses(SlotAt(d, i, dir)) ==> SomeRefuses(setting, d0, dir)
  {
    forall j | 0 <= j < |setting.operations| && j != i ensures SlotAt(d', j, dir) == SlotAt(d, j, dir) {
      OtherSlotsSame(setting, d, i, SlotAt(d', i, dir), j, dir);
    }
    forall j | 0 <= j < |setting.operations| ensures JobOf(setting, j, dir).Underway(SlotAt(d0, j, dir), SlotAt(d', j, dir)) {
      if j < i {
        assert Ended(setting, d0, d, j, dir);
      } else if j > i {
        assert JobOf(setting, j, dir).Steady(SlotAt(d0, j, dir));
        SameIsUnderway(JobOf(setting, j, dir), SlotAt(d0, j, dir));
      }
    }
    LoopOrder(setting, d0, d, d', i, dir);
  }

  lemma LoopOrder(setting: Setting, d0: Disk, d: Disk, d': Disk, i: nat, dir: Direction)
    requires Shaped(setting, d0) && d0.journal.InProgress? && i < |setting.operations|
    requires LoopState(setting, d0, d, i, dir) && Ready(setting, d, i, dir) && Turn(setting, d, d', i, dir)
    ensures InOrder(d0.journal.statuses) ==> InOrder(d'.journal.statuses)
  {
    forall j | 0 <= j < i ensures d'.journal.statuses[j] == Complete || d'.journal.statuses[j] == Skipped {
      assert Ended(setting, d0, d, j, dir);
      FinishedStatus(JobOf(setting, j, dir), SlotAt(d0, j, dir));
    }
    forall j | i <= j < |setting.operations| ensures d.journal.statuses[j] == d0.journal.statuses[j] {
      assert SlotAt(d, j, dir) == SlotAt(d0, j, dir);
    }
    OrderKept(d0.journal.statuses, d'.journal.statuses, i);
  }

  lemma LoopIsOnward(setting: Setting, d0: Disk, d: Disk, i: nat, dir: Direction)
    requires Shaped(setting, d0) && d0.journal.InProgress? && d0.journal.direction == dir
    requires i == |setting.operations| && LoopState(setting, d0, d, i, dir)
    ensures Onward(setting, d0, d, dir)
  {
    forall j | 0 <= j < i
      ensures d.journal.statuses[j] == Complete || d.journal.statuses[j] == Skipped
      ensures JobOf(setting, j, dir).Underway(SlotAt(d0, j, dir), SlotAt(d, j, dir))
    {
      assert Ended(setting, d0, d, j, dir);
      FinishedStatus(JobOf(setting, j, dir), SlotAt(d0, j, dir));
    }
    OrderKept(d0.journal.statuses, d.journal.statuses, i);
  }

  // ---------------------------------------------------------------- how long it takes

  /** The steps of the first `n` operations. */
  function TotalCost(setting: Setting, d: Disk, dir: Direction, n: nat): nat
    requires n <= |setting.operations| && |d.pairs| == |setting.operations|
    requires d.journal.InProgress? ==> |d.journal.statuses| == |setting.operations|
  {
    if n == 0 then 0 else TotalCost(setting, d, dir, n - 1) + Cost(SlotAt(d, n - 1, dir))
  }

  /** The first `n` operations took no more steps than they may. */
  ghost predicate Paid(setting: Setting, d: Disk, dir: Direction, n: nat, budget: nat, left: nat)
    requires n <= |setting.operations| && |d.pairs| == |setting.operations|
    requires d.journal.InProgress? ==> |d.journal.statuses| == |setting.operations|
  {
    Within(budget, left, false, TotalCost(setting, d, dir, n))
  }

  lemma PayForTurn(setting: Setting, d: Disk, dir: Direction, i: nat, budget: nat, had: nat, left: nat, killed: bool)
    requires i < |setting.operations| && |d.pairs| == |setting.operations|
    requires d.journal.InProgress? ==> |d.journal.statuses| == |setting.operations|
    requires Paid(setting, d, dir, i, budget, had) && Within(had, left, killed, Cost(SlotAt(d, i, dir)))
    ensures Paid(setting, d, dir, i + 1, budget, left)
    ensures Within(budget, left, killed, TotalCost(setting, d, dir, |setting.operations|))
  {
    CostGrows(setting, d, dir, i + 1, |setting.operations|);
  }

  /** The loop over the operations, with the steps it has taken. */
  ghost predicate Looping(setting: Setting, d0: Disk, d: Disk, i: nat, dir: Direction, budget: nat, left: nat)
    requires Shaped(setting, d0) && i <= |setting.operations|
  {
    LoopState(setting, d0, d, i, dir) && Paid(setting, d0, dir, i, budget, left)
  }

  /** One turn within the loop, however it ends. */
  lemma TurnInLoop(setting: Setting, d0: Disk, d: Disk, d': Disk, i: nat, dir: Direction, budget: nat, had: nat, left: nat, killed: bool)
    requires setting.Sound() && Shaped(setting, d0) && Steady(setting, d0, dir)
    requires d0.journal.InProgress? && d0.journal.direction == dir
    requires i < |setting.operations| && Looping(setting, d0, d, i, dir, budget, had) && Ready(setting, d, i, dir)
    requires Turn(setting, d, d', i, dir) && Within(had, left, killed, Cost(SlotAt(d, i, dir)))
    ensures Onward(setting, d0, d', dir) && Within(budget, left, killed, TotalCost(setting, d0, dir, |setting.operations|))
    ensures JobOf(setting, i, dir).Refuses(SlotAt(d, i, dir)) ==> SomeRefuses(setting, d0, dir)
    ensures TurnDone(setting, d, d', i, dir) ==> Looping(setting, d0, d', i + 1, dir, budget, left)
  {
    assert SlotAt(d, i, dir) == SlotAt(d0, i, dir);
    PayForTurn(setting, d0, dir, i, budget, had, left, killed);
    LoopTurnIsOnward(setting, d0, d, d', i, dir);
    if TurnDone(setting, d, d', i, dir) { LoopStep(setting, d0, d, d', i, dir); }
  }

  /** With this many steps a run is not interrupted. */
  function Enough(setting: Setting, d: Disk, dir: Direction): nat
    requires |d.pairs| == |setting.operations|
    requires d.journal.InProgress? ==> |d.journal.statuses| == |setting.operations|
  {
    TotalCost(setting, d, dir, |setting.operations|) + |d.runtime.Keys| + 3
  }

  lemma {:induction false} CostGrows(setting: Setting, d: Disk, dir: Direction, m: nat, n: nat)
    requires m <= n <= |setting.operations| && |d.pairs| == |setting.operations|
    requires d.journal.InProgress? ==> |d.journal.statuses| == |setting.operations|
    ensures TotalCost(setting, d, dir, m) <= TotalCost(setting, d, dir, n)
  {
    if m < n { CostGrows(setting, d, dir, m, n - 1); }
  }

  lemma {:induction false} SameCost(setting: Setting, d0: Disk, d: Disk, dir: Direction, n: nat)
    requires n <= |setting.operations| && Shaped(setting, d0) && Shaped(setting, d)
    requires forall i | 0 <= i < |setting.operations| :: SlotAt(d, i, dir) == SlotAt(d0, i, dir)
    ensures TotalCost(setting, d, dir, n) == TotalCost(setting, d0, dir, n)
  {
    if n > 0 { SameCost(setting, d0, d, dir, n - 1); }
  }

  // ---------------------------------------------------------------- whole runs

  function StatusesAtStart(setting: Setting, d: Disk, dir: Direction): (statuses: seq<Status>)
    requires |d.pairs| == |setting.operations| && d.journal.NoJournal?
  {
    seq(|setting.operations|, i requires 0 <= i < |setting.operations| => SlotAt(d, i, dir).status)
  }

  lemma JournalWritten(setting: Setting, d0: Disk, d: Disk, dir: Direction)
    requires setting.Sound() && Shaped(setting, d0) && Steady(setting, d0, dir) && Consistent(setting, d0)
    requires
      || (d0.journal.InProgress? && d0.journal.direction == dir && d == d0)
      || (d0.journal.NoJournal? && !PreflightRefuses(setting, d0, dir) && d == d0.(journal := InProgress(dir, StatusesAtStart(setting, d0, dir))))
    ensures Shaped(setting, d) && Steady(setting, d, dir) && Consistent(setting, d) && Onward(setting, d0, d, dir)
    ensures forall i | 0 <= i < |setting.operations| :: SlotAt(d, i, dir) == SlotAt(d0, i, dir)
  {
    forall i | 0 <= i < |setting.operations|
      ensures SlotAt(d, i, dir) == SlotAt(d0, i, dir)
      ensures JobOf(setting, i, dir).Underway(SlotAt(d0, i, dir), SlotAt(d, i, dir))
    {
      assert JobOf(setting, i, dir).Steady(SlotAt(d0, i, dir));
      SameIsUnderway(JobOf(setting, i, dir), SlotAt(d0, i, dir));
    }
    if d0.journal.NoJournal? {
      assert Split(d.journal.statuses, 0);
      forall i | 0 <= i < |setting.operations| ensures JobOf(setting, i, dir).Consistent(SlotAt(d, i, dir)) {
        JobOf(setting, i, dir).PreflightMakesConsistent(Source(d.pairs[i], dir), Destination(d.pairs[i], dir));
      }
    }
  }

  lemma OnwardTransitive(setting: Setting, d0: Disk, d1: Disk, d2: Disk, dir: Direction)
    requires Shaped(setting, d0) && Shaped(setting, d1) && Shaped(setting, d2)
    requires Onward(setting, d0, d1, dir) && Onward(setting, d1, d2, dir)
    ensures Onward(setting, d0, d2, dir)
  {
    forall i | 0 <= i < |setting.operations| ensures JobOf(setting, i, dir).Underway(SlotAt(d0, i, dir), SlotAt(d2, i, dir)) {
      UnderwayTransitive(JobOf(setting, i, dir), SlotAt(d0, i, dir), SlotAt(d1, i, dir), SlotAt(d2, i, dir));
    }
  }

  lemma RuntimeIsOnward(setting: Setting, d1: Disk, d2: Disk, d3: Disk, dir: Direction)
    requires Shaped(setting, d1) && Shaped(setting, d2) && Shaped(setting, d3)
    requires Onward(setting, d1, d2, dir) && d3 == d2.(runtime := d3.runtime)
    requires RuntimeUnderway(setting.runtimeRoot, RuntimeNames(dir), d2.runtime, d3.runtime)
    ensures Onward(setting, d1, d3, dir)
  {
    forall i | 0 <= i < |setting.operations| ensures SlotAt(d3, i, dir) == SlotAt(d2, i, dir) {}
  }

  lemma RuntimeGoneIsOnward(setting: Setting, d0: Disk, d1: Disk, d2: Disk, d3: Disk, dir: Direction)
    requires Shaped(setting, d0) && Shaped(setting, d1) && Shaped(setting, d2) && Shaped(setting, d3) && d0.runtime == d1.runtime == d2.runtime
    requires Onward(setting, d0, d1, dir) && Onward(setting, d1, d2, dir) && d3 == d2.(runtime := d3.runtime)
    requires RuntimeUnderway(setting.runtimeRoot, RuntimeNames(dir), d2.runtime, d3.runtime)
    ensures Onward(setting, d0, d3, dir) && Steady(setting, d3, dir)
    ensures RuntimeRefuses(setting.runtimeRoot, RuntimeNames(dir), d2.runtime) ==> Blocked(setting, d0, dir)
  {
    RuntimeIsOnward(setting, d1, d2, d3, dir);
    OnwardTransitive(setting, d0, d1, d3, dir);
    OnwardKeepsOutcome(setting, d0, d3, dir);
  }

  /** The journal of a consistent disk stays in order and in step with the disk. */
  lemma OnwardKeepsConsistent(setting: Setting, d0: Disk, d: Disk, dir: Direction)
    requires Shaped(setting, d0) && Shaped(setting, d) && Consistent(setting, d0) && Onward(setting, d0, d, dir)
    ensures Consistent(setting, d)
  {
    forall i | 0 <= i < |setting.operations| ensures JobOf(setting, i, dir).Consistent(SlotAt(d, i, dir)) {
      if d0.journal.NoJournal? {
        JobOf(setting, i, dir).PreflightMakesConsistent(Source(d0.pairs[i], dir), Destination(d0.pairs[i], dir));
      }
      assert JobOf(setting, i, dir).Underway(SlotAt(d0, i, dir), SlotAt(d, i, dir));
    }
  }

  lemma EndedIsFinal(setting: Setting, d1: Disk, d3: Disk, dir: Direction, i: nat)
    requires Shaped(setting, d1) && Shaped(setting, d3) && d1.journal.InProgress? && d1.journal.direction == dir && d3.journal.InProgress?
    requires i < |setting.operations| && JobOf(setting, i, dir).Consistent(SlotAt(d1, i, dir))
    requires Ended(setting, d1, d3.(runtime := d1.runtime), i, dir)
    ensures Resting(JobOf(setting, i, dir), SlotAt(d3.(journal := NoJournal), i, dir))
    ensures d3.pairs[i] == Final(setting, d1, dir).pairs[i]
    ensures !JobOf(setting, i, dir).Refuses(SlotAt(d1, i, dir))
  {
    assert SlotAt(d3.(runtime := d1.runtime), i, dir) == SlotAt(d3, i, dir);
  }

  lemma AllDone(setting: Setting, d1: Disk, d3: Disk, dir: Direction)
    requires setting.Sound() && Shaped(setting, d1) && Shaped(setting, d3) && Consistent(setting, d1)
    requires d1.journal.InProgress? && d1.journal.direction == dir
    requires LoopState(setting, d1, d3.(runtime := d1.runtime), |setting.operations|, dir)
    requires !RuntimeRefuses(setting.runtimeRoot, RuntimeNames(dir), d1.runtime)
    requires d3.runtime == RuntimeAfter(setting.runtimeRoot, RuntimeNames(dir), d1.runtime)
    requires RuntimeUnderway(setting.runtimeRoot, RuntimeNames(dir), d1.runtime, d3.runtime)
    ensures var d := d3.(journal := NoJournal);
            d == Final(setting, d1, dir) && AtRest(setting, d, dir) && !Blocked(setting, d1, dir)
  {
    AllEnded(setting, d1, d3, dir);
    assert d3.pairs == Final(setting, d1, dir).pairs;
  }

  lemma AllEnded(setting: Setting, d1: Disk, d3: Disk, dir: Direction)
    requires Shaped(setting, d1) && Shaped(setting, d3) && Consistent(setting, d1)
    requires d1.journal.InProgress? && d1.journal.direction == dir
    requires LoopState(setting, d1, d3.(runtime := d1.runtime), |setting.operations|, dir)
    ensures forall i | 0 <= i < |setting.operations| :: Resting(JobOf(setting, i, dir), SlotAt(d3.(journal := NoJournal), i, dir))
    ensures forall i | 0 <= i < |setting.operations| :: d3.pairs[i] == Final(setting, d1, dir).pairs[i]
    ensures !SomeRefuses(setting, d1, dir)
  {
    forall i | 0 <= i < |setting.operations|
      ensures Resting(JobOf(setting, i, dir), SlotAt(d3.(journal := NoJournal), i, dir))
      ensures d3.pairs[i] == Final(setting, d1, dir).pairs[i]
      ensures !JobOf(setting, i, dir).Refuses(SlotAt(d1, i, dir))
    {
      assert Ended(setting, d1, d3.(runtime := d1.runtime), i, dir);
      EndedIsFinal(setting, d1, d3, dir, i);
    }
  }
}
