/** The accessibility snapshot: a bounded breadth-first walk, and the forest it produces. */
module AccessTree {
  import opened Basics

  datatype Bounds = Bounds(x: int, y: int, width: int, height: int)

  /** What is read from one accessible object. */
  datatype Facts = Facts(role: string, name: Option<string>, description: Option<string>, content: Option<string>,
                         bounds: Option<Bounds>, actions: nat, editable: bool, hasValue: bool, childCount: int)

  datatype Node = Node(index: nat, parent: Option<nat>, depth: nat, ref: string, facts: Facts)

  /** Parents come before their children. */
  ghost predicate ParentsEarlier(nodes: seq<Node>) {
    forall i | 0 <= i < |nodes| :: nodes[i].parent.Some? ==> nodes[i].parent.value < i
  }

  /** A forest as `snapshot_tree` lists it: positions as indexes, one level between parent and child. */
  ghost predicate Forest(nodes: seq<Node>) {
    && ParentsEarlier(nodes)
    && forall i | 0 <= i < |nodes| ::
         && nodes[i].index == i
         && nodes[i].depth == if nodes[i].parent.Some? then nodes[nodes[i].parent.value].depth + 1 else 0
  }

  /** Roots rank before everything else, then children in the order of their parents. */
  function Rank(parent: Option<nat>): nat { if parent.Some? then parent.value + 1 else 0 }

  ghost predicate BreadthFirst(nodes: seq<Node>) {
    forall i, j | 0 <= i < j < |nodes| :: Rank(nodes[i].parent) <= Rank(nodes[j].parent)
  }

  /** Breadth-first order lists the levels one after the other. */
  lemma {:induction false} LevelsInOrder(nodes: seq<Node>, i: nat, j: nat)
    requires Forest(nodes) && BreadthFirst(nodes) && i <= j < |nodes|
    ensures nodes[i].depth <= nodes[j].depth
    decreases j
  {
    if i < j && nodes[i].parent.Some? {
      assert Rank(nodes[i].parent) <= Rank(nodes[j].parent);
      LevelsInOrder(nodes, nodes[i].parent.value, nodes[j].parent.value);
    }
  }

  // ---------------------------------------------------------------- the walk

  datatype Entry = Entry(ref: string, depth: nat, parent: Option<nat>)

  /** The desktop may answer differently at every visit, so its answers carry the number of the visit. */
  datatype Desktop = Desktop(opens: (nat, string) -> bool, children: (nat, string) -> seq<string>, facts: (nat, string) -> Facts)

  /** One level below its parent, and not too deep. */
  predicate EntryFits(nodes: seq<Node>, e: Entry, maxDepth: nat) {
    && e.depth <= maxDepth
    && (e.parent.Some? ==> e.parent.value < |nodes|)
    && e.depth == if e.parent.Some? then nodes[e.parent.value].depth + 1 else 0
  }

  ghost predicate QueueFits(nodes: seq<Node>, queue: seq<Entry>, maxDepth: nat) {
    && (forall k | 0 <= k < |queue| :: EntryFits(nodes, queue[k], maxDepth))
    && (forall k, l | 0 <= k < l < |queue| :: Rank(queue[k].parent) <= Rank(queue[l].parent))
    && (forall i, k | 0 <= i < |nodes| && 0 <= k < |queue| :: Rank(nodes[i].parent) <= Rank(queue[k].parent))
  }

  ghost predicate Bounded(nodes: seq<Node>, maxNodes: nat, maxDepth: nat) {
    |nodes| <= maxNodes && forall i | 0 <= i < |nodes| :: nodes[i].depth <= maxDepth
  }

  function ChildEntries(children: seq<string>, depth: nat, parent: nat): seq<Entry> {
    seq(|children|, k requires 0 <= k < |children| => Entry(children[k], depth, Some(parent)))
  }

  /** The entry at the head of the queue becomes the next node. */
  ghost predicate NextNode(nodes: seq<Node>, queue: seq<Entry>, node: Node) {
    queue != [] && node.index == |nodes| && node.parent == queue[0].parent && node.depth == queue[0].depth && node.ref == queue[0].ref
  }

  lemma VisitKeepsForest(nodes: seq<Node>, queue: seq<Entry>, node: Node, maxDepth: nat)
    requires Forest(nodes) && BreadthFirst(nodes) && QueueFits(nodes, queue, maxDepth) && NextNode(nodes, queue, node)
    ensures Forest(nodes + [node]) && BreadthFirst(nodes + [node])
  {
  }

  lemma VisitKeepsFit(nodes: seq<Node>, queue: seq<Entry>, node: Node, children: seq<string>, maxDepth: nat)
    requires Forest(nodes) && BreadthFirst(nodes) && QueueFits(nodes, queue, maxDepth) && NextNode(nodes, queue, node)
    requires node.depth >= maxDepth ==> children == []
    ensures QueueFits(nodes + [node], queue[1..] + ChildEntries(children, node.depth + 1, |nodes|), maxDepth)
  {
    var rest, entries, all := queue[1..], ChildEntries(children, node.depth + 1, |nodes|), nodes + [node];
    var next := rest + entries;
    forall k | 0 <= k < |next|
      ensures next[k] == if k < |rest| then queue[k + 1] else entries[k - |rest|]
      ensures k < |rest| ==> Rank(next[k].parent) <= |nodes|
      ensures k >= |rest| ==> Rank(next[k].parent) == |nodes| + 1
    {
    }
    forall k, l | 0 <= k < l < |next| ensures Rank(next[k].parent) <= Rank(next[l].parent) {}
    forall i, k | 0 <= i < |all| && 0 <= k < |next| ensures Rank(all[i].parent) <= Rank(next[k].parent) {
      assert i < |nodes| ==> Rank(nodes[i].parent) <= |nodes|;
    }
  }

  /** The nodes that the visited entries give, with the children named by each: entries that do not open give none. */
  function Listing(desktop: Desktop, visited: seq<Entry>, maxDepth: nat): (r: (seq<Node>, seq<seq<string>>))
    ensures |r.0| == |r.1|
  {
    if visited == [] then ([], [])
    else
      var (nodes, reported) := Listing(desktop, visited[..|visited| - 1], maxDepth);
      var e := visited[|visited| - 1];
      if desktop.opens(|visited|, e.ref) then
        (nodes + [Node(|nodes|, e.parent, e.depth, e.ref, desktop.facts(|visited|, e.ref))],
         reported + [if e.depth < maxDepth then desktop.children(|visited|, e.ref) else []])
      else (nodes, reported)
  }

  /** The entries in breadth-first order: the roots, then the children of each listed node in turn. */
  function Schedule(roots: seq<string>, nodes: seq<Node>, reported: seq<seq<string>>): seq<Entry>
    requires |nodes| == |reported|
  {
    if nodes == [] then seq(|roots|, k requires 0 <= k < |roots| => Entry(roots[k], 0, None))
    else
      var n := |nodes| - 1;
      Schedule(roots, nodes[..n], reported[..n]) + ChildEntries(reported[n], nodes[n].depth + 1, n)
  }

  /** Everything the walk keeps true. */
  ghost predicate WalkState(roots: seq<string>, desktop: Desktop, visited: seq<Entry>, nodes: seq<Node>, reported: seq<seq<string>>,
                            queue: seq<Entry>, maxNodes: nat, maxDepth: nat) {
    && Forest(nodes) && BreadthFirst(nodes) && Bounded(nodes, maxNodes, maxDepth) && QueueFits(nodes, queue, maxDepth)
    && (nodes, reported) == Listing(desktop, visited, maxDepth)
    && visited + queue == Schedule(roots, nodes, reported)
  }

  lemma RootsFit(roots: seq<string>, queue: seq<Entry>, maxDepth: nat)
    requires queue == seq(|roots|, k requires 0 <= k < |roots| => Entry(roots[k], 0, None))
    ensures QueueFits([], queue, maxDepth)
  {
    forall k | 0 <= k < |queue| ensures EntryFits([], queue[k], maxDepth) {}
  }

  lemma StateAtStart(roots: seq<string>, desktop: Desktop, queue: seq<Entry>, maxNodes: nat, maxDepth: nat)
    requires queue == seq(|roots|, k requires 0 <= k < |roots| => Entry(roots[k], 0, None))
    ensures WalkState(roots, desktop, [], [], [], queue, maxNodes, maxDepth)
  {
    RootsFit(roots, queue, maxDepth);
    assert [] + queue == queue;
  }

  lemma SkipKeepsState(roots: seq<string>, desktop: Desktop, visited: seq<Entry>, nodes: seq<Node>, reported: seq<seq<string>>,
                       queue: seq<Entry>, maxNodes: nat, maxDepth: nat)
    requires WalkState(roots, desktop, visited, nodes, reported, queue, maxNodes, maxDepth) && queue != []
    requires !desktop.opens(|visited| + 1, queue[0].ref)
    ensures WalkState(roots, desktop, visited + [queue[0]], nodes, reported, queue[1..], maxNodes, maxDepth)
  {
    assert (visited + [queue[0]])[..|visited|] == visited;
    assert visited + [queue[0]] + queue[1..] == visited + queue;
  }

  lemma VisitKeepsState(roots: seq<string>, desktop: Desktop, visited: seq<Entry>, nodes: seq<Node>, reported: seq<seq<string>>,
                        queue: seq<Entry>, maxNodes: nat, maxDepth: nat, node: Node, children: seq<string>)
    requires WalkState(roots, desktop, visited, nodes, reported, queue, maxNodes, maxDepth) && queue != [] && |nodes| < maxNodes
    requires desktop.opens(|visited| + 1, queue[0].ref)
    requires node == Node(|nodes|, queue[0].parent, queue[0].depth, queue[0].ref, desktop.facts(|visited| + 1, queue[0].ref))
    requires children == if queue[0].depth < maxDepth then desktop.children(|visited| + 1, queue[0].ref) else []
    ensures WalkState(roots, desktop, visited + [queue[0]], nodes + [node], reported + [children],
                      queue[1..] + ChildEntries(children, node.depth + 1, |nodes|), maxNodes, maxDepth)
  {
    VisitKeepsForest(nodes, queue, node, maxDepth);
    VisitKeepsFit(nodes, queue, node, children, maxDepth);
    VisitIsListed(desktop, visited, nodes, reported, queue[0], maxDepth, node, children);
    VisitKeepsSchedule(roots, visited, nodes, reported, queue, node, children);
  }

  lemma VisitIsListed(desktop: Desktop, visited: seq<Entry>, nodes: seq<Node>, reported: seq<seq<string>>,
                      entry: Entry, maxDepth: nat, node: Node, children: seq<string>)
    requires (nodes, reported) == Listing(desktop, visited, maxDepth) && desktop.opens(|visited| + 1, entry.ref)
    requires node == Node(|nodes|, entry.parent, entry.depth, entry.ref, desktop.facts(|visited| + 1, entry.ref))
    requires children == if entry.depth < maxDepth then desktop.children(|visited| + 1, entry.ref) else []
    ensures (nodes + [node], reported + [children]) == Listing(desktop, visited + [entry], maxDepth)
  {
    assert (visited + [entry])[..|visited|] == visited;
  }

  lemma VisitKeepsSchedule(roots: seq<string>, visited: seq<Entry>, nodes: seq<Node>, reported: seq<seq<string>>,
                           queue: seq<Entry>, node: Node, children: seq<string>)
    requires |nodes| == |reported| && queue != [] && visited + queue == Schedule(roots, nodes, reported)
    ensures (visited + [queue[0]]) + (queue[1..] + ChildEntries(children, node.depth + 1, |nodes|))
         == Schedule(roots, nodes + [node], reported + [children])
  {
    var entries := ChildEntries(children, node.depth + 1, |nodes|);
    assert (nodes + [node])[..|nodes|] == nodes && (reported + [children])[..|nodes|] == reported;
    assert [queue[0]] + queue[1..] == queue;
    assert (visited + [queue[0]]) + (queue[1..] + entries) == (visited + ([queue[0]] + queue[1..])) + entries;
  }

  lemma WalkIsDone(roots: seq<string>, desktop: Desktop, visited: seq<Entry>, nodes: seq<Node>, reported: seq<seq<string>>,
                   queue: seq<Entry>, maxNodes: nat, maxDepth: nat)
    requires WalkState(roots, desktop, visited, nodes, reported, queue, maxNodes, maxDepth) && (queue == [] || |nodes| >= maxNodes)
    ensures Forest(nodes) && BreadthFirst(nodes) && Bounded(nodes, maxNodes, maxDepth)
    ensures (nodes, reported) == Listing(desktop, visited, maxDepth)
    ensures visited <= Schedule(roots, nodes, reported) && (visited == Schedule(roots, nodes, reported) || |nodes| == maxNodes)
  {
    if queue == [] { assert visited + queue == visited; }
  }

  /** One opened object and the children it names, none of them below the depth limit. */
  method ReadNode(desktop: Desktop, visit: nat, entry: Entry, index: nat, maxDepth: nat) returns (node: Node, children: seq<string>)
    ensures node == Node(index, entry.parent, entry.depth, entry.ref, desktop.facts(visit, entry.ref))
    ensures children == if entry.depth < maxDepth then desktop.children(visit, entry.ref) else []
  {
    children := if entry.depth < maxDepth then desktop.children(visit, entry.ref) else [];
    node := Node(index, entry.parent, entry.depth, entry.ref, desktop.facts(visit, entry.ref));
  }

  /**
   The bounded breadth-first walk. Its entries are visited in breadth-first order, all of them
   unless the node limit is reached first, and each that opens is listed.
   */
  method SnapshotTree(roots: seq<string>, desktop: Desktop, maxNodes: nat, maxDepth: nat)
    returns (nodes: seq<Node>, ghost visited: seq<Entry>)
    ensures Forest(nodes) && BreadthFirst(nodes) && Bounded(nodes, maxNodes, maxDepth)
    ensures
      var (listed, reported) := Listing(desktop, visited, maxDepth);
      nodes == listed && visited <= Schedule(roots, nodes, reported) && (visited == Schedule(roots, nodes, reported) || |nodes| == maxNodes)
  {
    nodes, visited := [], [];
    ghost var reported: seq<seq<string>> := [];
    var queue := seq(|roots|, k requires 0 <= k < |roots| => Entry(roots[k], 0, None));
    var visit: nat := 0;
    StateAtStart(roots, desktop, queue, maxNodes, maxDepth);
    while queue != []
      invariant visit == |visited| && WalkState(roots, desktop, visited, nodes, reported, queue, maxNodes, maxDepth)
      decreases maxNodes - |nodes|, |queue|
    {
      var entry := queue[0];
      if |nodes| >= maxNodes {
        break;
      }
      visit := visit + 1;
      if desktop.opens(visit, entry.ref) {
        var node, children := ReadNode(desktop, visit, entry, |nodes|, maxDepth);
        VisitKeepsState(roots, desktop, visited, nodes, reported, queue, maxNodes, maxDepth, node, children);
        queue := queue[1..] + ChildEntries(children, node.depth + 1, |nodes|);
        nodes, reported := nodes + [node], reported + [children];
      } else {
        SkipKeepsState(roots, desktop, visited, nodes, reported, queue, maxNodes, maxDepth);
        queue := queue[1..];
      }
      visited := visited + [entry];
    }
    WalkIsDone(roots, desktop, visited, nodes, reported, queue, maxNodes, maxDepth);
  }
}
