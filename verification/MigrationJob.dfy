/** One operation of the migration journal: what it may look like and where it ends up. */
module MigrationJob {
  import opened Basics
  import opened MigrationTree
  import opened MigrationDmg
  import opened MigrationCache
  import opened MigrationPost

  datatype Node = Absent | DirNode(tree: Tree) | FileNode(data: string) | LinkNode | OtherNode

  datatype Kind = DirectoryKind | FileKind

  datatype Status = Pending | Moving | Complete | Skipped

  /** An operation as one run sees it: its recorded status, what it moves from and what it moves to. */
  datatype Slot = Slot(status: Status, source: Node, destination: Node)

  predicate OfKind(node: Node, kind: Kind) {
    match kind
    case DirectoryKind => node.DirNode?
    case FileKind => node.FileNode?
  }

  predicate SafeCache(node: Node) { node.DirNode? ==> DownloadsSafe(node.tree) }

  function Size(node: Node): nat { if node.DirNode? then |node.tree.Keys| else 0 }

  /** More steps than one turn of the operation takes. */
  function Cost(s: Slot): nat { 5 + 7 * (Size(s.source) + Size(s.destination)) }

  datatype Job = Job(kind: Kind, sameDevice: bool, phases: Phases) {
    ghost predicate Sound() { phases.Sound() }

    ghost function PostNode(node: Node): Node {
      if node.DirNode? then DirNode(phases.Post(node.tree)) else node
    }

    function RewrittenNode(node: Node): Node {
      if node.DirNode? then DirNode(RewrittenTree(node.tree, phases.rw)) else node
    }

    /** What is there to be moved, or what has been moved already. */
    function Cargo(s: Slot): Node { if s.source != Absent then s.source else s.destination }

    /** Where an uninterrupted run takes the operation. */
    ghost function Finish(s: Slot): Slot {
      match s.status
      case Complete => s
      case Skipped => s.(destination := RewrittenNode(s.destination))
      case _ => Slot(Complete, Absent, PostNode(Cargo(s)))
    }

    ghost predicate NodeRefuses(node: Node) { node.DirNode? && phases.Refuses(node.tree) }

    ghost predicate NodeCollides(node: Node) { node.DirNode? && Collides(node.tree, phases.rw) }

    /** An uninterrupted run stops at this operation with an error. */
    ghost predicate Refuses(s: Slot) {
      match s.status
      case Complete => false
      case Skipped => NodeCollides(s.destination)
      case _ =>
        || !OfKind(Cargo(s), kind) || NodeRefuses(Cargo(s))
        || (s.source != Absent && (s.destination != Absent || !sameDevice))
    }

    ghost predicate Steady(s: Slot) {
      (s.status == Pending || s.status == Moving) && Cargo(s).DirNode? ==> phases.Steady(Cargo(s).tree)
    }

    /** All phases are behind this node: running them again changes nothing. */
    ghost predicate Settled(node: Node) {
      node.DirNode? ==>
        && Prepared(phases, node.tree)
        && RewrittenTree(node.tree, phases.rw) == node.tree && !Collides(node.tree, phases.rw)
    }

    /** A pending operation has only its source, a complete one only its settled destination, a moving one exactly one of the two. */
    ghost predicate Consistent(s: Slot) {
      match s.status
      case Pending => OfKind(s.source, kind) && s.destination == Absent
      case Moving => OfKind(Cargo(s), kind) && (s.source == Absent || s.destination == Absent)
      case Complete => s.source == Absent && OfKind(s.destination, kind) && Settled(s.destination)
      case Skipped => s.source == Absent && (s.destination == Absent || OfKind(s.destination, kind)) && (phases.normalizes ==> SafeCache(s.destination))
    }

    /** The operation has moved on from `s0` to `s` without any change of where it ends up. */
    ghost predicate Underway(s0: Slot, s: Slot) {
      Steady(s) && Finish(s) == Finish(s0) && (Refuses(s) <==> Refuses(s0)) && (Consistent(s0) ==> Consistent(s))
    }

    // ---------------------------------------------------------------- the preliminary check

    /** The order of the checks decides only which message is shown. */
    predicate PreflightRefuses(source: Node, destination: Node) {
      || source.LinkNode? || destination.LinkNode?
      || (source != Absent && !OfKind(source, kind))
      || (source == Absent && destination != Absent && !OfKind(destination, kind))
      || (phases.normalizes && !(SafeCache(source) && SafeCache(destination)))
      || (source != Absent && destination != Absent)
      || (source != Absent && !sameDevice)
    }

    lemma PreflightMakesConsistent(source: Node, destination: Node)
      requires !PreflightRefuses(source, destination)
      ensures Consistent(Slot(if source == Absent then Skipped else Pending, source, destination))
    {
    }
  }

  lemma SameIsUnderway(job: Job, s: Slot)
    requires job.Steady(s)
    ensures job.Underway(s, s)
  {
  }

  lemma MarkingIsUnderway(job: Job, s: Slot)
    requires job.Steady(s) && (s.status == Pending || s.status == Moving)
    ensures job.Underway(s, s.(status := Moving))
  {
  }

  lemma MoveIsUnderway(job: Job, s: Slot)
    requires job.Steady(s) && s.status == Moving
    requires OfKind(s.source, job.kind) && s.destination == Absent && job.sameDevice
    ensures job.Underway(s, Slot(Moving, Absent, s.source))
  {
  }

  lemma PhasesAreUnderway(job: Job, s: Slot, t: Tree)
    requires job.Sound() && job.Steady(s) && s.status == Moving && s.source == Absent && s.destination.DirNode?
    requires job.phases.Underway(s.destination.tree, t)
    ensures job.Underway(s, s.(destination := DirNode(t)))
  {
  }

  lemma RewritingIsUnderway(job: Job, s: Slot, t: Tree)
    requires job.Sound() && s.status == Skipped && s.destination.DirNode?
    requires Rewriting(s.destination.tree, t, job.phases.rw)
    ensures job.Underway(s, s.(destination := DirNode(t)))
  {
    RewritingKeepsOutcome(s.destination.tree, t, job.phases.rw);
    if job.Consistent(s) && job.phases.normalizes {
      assert DOWNLOADS in t <==> DOWNLOADS in s.destination.tree;
    }
  }

  lemma UnderwayTransitive(job: Job, a: Slot, b: Slot, c: Slot)
    requires job.Underway(a, b) && job.Underway(b, c)
    ensures job.Underway(a, c)
  {
  }

  /** Nothing is left to move, and neither the check nor the rewriting finds anything to do. */
  ghost predicate Resting(job: Job, s: Slot) {
    && s.source == Absent && !job.PreflightRefuses(s.source, s.destination)
    && job.RewrittenNode(s.destination) == s.destination && !job.NodeCollides(s.destination)
  }

  lemma CompleteRests(job: Job, s: Slot)
    requires job.Sound() && s.status == Complete && job.Consistent(s)
    ensures Resting(job, s) && job.Underway(s, s)
  {
  }

  lemma SkippedRests(job: Job, s: Slot)
    requires job.Sound() && s.status == Skipped && !job.Refuses(s)
    ensures job.Underway(s, job.Finish(s)) && !job.Refuses(job.Finish(s))
    ensures job.Consistent(s) ==> Resting(job, job.Finish(s))
  {
    if s.destination.DirNode? {
      var t := RewrittenTree(s.destination.tree, job.phases.rw);
      assert Rewriting(s.destination.tree, t, job.phases.rw);
      RewritingIsUnderway(job, s, t);
      RewrittenIsFixed(s.destination.tree, job.phases.rw);
      assert DOWNLOADS in t <==> DOWNLOADS in s.destination.tree;
    }
  }

  /** A run that finds the operation at rest skips it and leaves it as it is. */
  lemma RestingIsFinished(job: Job, s: Slot)
    requires Resting(job, s) && s.status == Skipped
    ensures job.Finish(s) == s && !job.Refuses(s) && job.Steady(s) && job.Consistent(s)
  {
  }
}
