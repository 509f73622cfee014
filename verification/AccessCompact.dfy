/** Compaction of an accessibility snapshot: structural noise goes, the ancestry of the rest stays. */
module AccessCompact {
  import opened Basics
  import opened AccessTree

  // ---------------------------------------------------------------- which nodes are kept

  /** White space as Unicode defines it. */
  predicate IsSpace(c: char) {
    var u := c as int;
    0x09 <= u <= 0x0D || u == 0x20 || u == 0x85 || u == 0xA0 || u == 0x1680 || 0x2000 <= u <= 0x200A
    || u == 0x2028 || u == 0x2029 || u == 0x202F || u == 0x205F || u == 0x3000
  }

  predicate HasText(value: Option<string>) {
    value.Some? && exists i :: 0 <= i < |value.value| && !IsSpace(value.value[i])
  }

  const I32_MIN := -0x8000_0000

  predicate SentinelOrMissing(bounds: Option<Bounds>) {
    bounds.None? || bounds.value.width <= 0 || bounds.value.height <= 0
    || bounds.value.x <= I32_MIN / 2 || bounds.value.y <= I32_MIN / 2
  }

  const LISTED_ROLES: set<string> := {"page tab", "menu item", "menu", "list item", "tree item"}

  predicate ShouldKeep(node: Node) {
    var f := node.facts;
    || node.depth <= 1
    || f.actions > 0 || f.editable || f.hasValue
    || HasText(f.name) || HasText(f.description) || HasText(f.content)
    || (f.role in LISTED_ROLES && !SentinelOrMissing(f.bounds))
  }

  // ---------------------------------------------------------------- what compaction is

  ghost predicate Ancestor(nodes: seq<Node>, a: nat, b: nat)
    requires ParentsEarlier(nodes) && b < |nodes|
    decreases b
  {
    nodes[b].parent.Some? && (nodes[b].parent.value == a || Ancestor(nodes, a, nodes[b].parent.value))
  }

  lemma {:induction false} AncestorIsEarlier(nodes: seq<Node>, a: nat, b: nat)
    requires ParentsEarlier(nodes) && b < |nodes| && Ancestor(nodes, a, b)
    ensures a < b
    decreases b
  {
    var p := nodes[b].parent.value;
    if p != a { AncestorIsEarlier(nodes, a, p); }
  }

  /** How many of the first `i` nodes are kept: the new position of a kept node `i`. */
  function Position(nodes: seq<Node>, i: nat): (k: nat)
    requires i <= |nodes|
    ensures k <= i
  {
    if i == 0 then 0 else Position(nodes, i - 1) + if ShouldKeep(nodes[i - 1]) then 1 else 0
  }

  lemma {:induction false} PositionsGrow(nodes: seq<Node>, i: nat, j: nat)
    requires i < j <= |nodes|
    ensures Position(nodes, i) <= Position(nodes, j)
    ensures ShouldKeep(nodes[i]) ==> Position(nodes, i) < Position(nodes, j)
  {
    if i + 1 < j { PositionsGrow(nodes, i, j - 1); }
  }

  lemma PositionIsInjective(nodes: seq<Node>, i: nat, j: nat)
    requires i < |nodes| && j < |nodes| && ShouldKeep(nodes[i]) && ShouldKeep(nodes[j])
    requires Position(nodes, i) == Position(nodes, j)
    ensures i == j
  {
    if i < j { PositionsGrow(nodes, i, j); } else if j < i { PositionsGrow(nodes, j, i); }
  }

  /** Every new position belongs to a kept node. */
  lemma {:induction false} PositionIsTaken(nodes: seq<Node>, n: nat, k: nat) returns (i: nat)
    requires n <= |nodes| && k < Position(nodes, n)
    ensures i < n && ShouldKeep(nodes[i]) && Position(nodes, i) == k
  {
    if ShouldKeep(nodes[n - 1]) && Position(nodes, n - 1) == k {
      i := n - 1;
    } else {
      i := PositionIsTaken(nodes, n - 1, k);
    }
  }

  /** The first kept node on the way up. */
  function NearestKept(nodes: seq<Node>, i: nat): (r: Option<nat>)
    requires ParentsEarlier(nodes) && i < |nodes|
    ensures r.Some? ==> r.value < i && ShouldKeep(nodes[r.value])
    decreases i
  {
    match nodes[i].parent
    case None => None
    case Some(p) => if ShouldKeep(nodes[p]) then Some(p) else NearestKept(nodes, p)
  }

  function ChildrenOf(nodes: seq<Node>, k: nat): (n: nat) {
    if nodes == [] then 0
    else ChildrenOf(nodes[..|nodes| - 1], k) + if nodes[|nodes| - 1].parent == Some(k) then 1 else 0
  }

  function NewParent(nodes: seq<Node>, i: nat): Option<nat>
    requires ParentsEarlier(nodes) && i < |nodes|
  {
    match NearestKept(nodes, i)
    case None => None
    case Some(p) => Some(Position(nodes, p))
  }

  ghost predicate IsCompaction(nodes: seq<Node>, r: seq<Node>)
    requires ParentsEarlier(nodes)
  {
    && |r| == Position(nodes, |nodes|)
    && forall i | 0 <= i < |nodes| && ShouldKeep(nodes[i]) ::
         && Position(nodes, i) < |r|
         && r[Position(nodes, i)] == CompactedNode(nodes, r, i)
  }

  function CompactedNode(nodes: seq<Node>, r: seq<Node>, i: nat): Node
    requires ParentsEarlier(nodes) && i < |nodes|
  {
    var k := Position(nodes, i);
    nodes[i].(index := k, parent := NewParent(nodes, i), facts := nodes[i].facts.(childCount := ChildrenOf(r, k)))
  }

  // ---------------------------------------------------------------- the algorithm

  method NearestKeptParent(keep: seq<bool>, nodes: seq<Node>, oldIndex: nat) returns (r: Option<nat>)
    requires ParentsEarlier(nodes) && |keep| == |nodes| && oldIndex < |nodes|
    requires forall i | 0 <= i < |nodes| :: keep[i] == ShouldKeep(nodes[i])
    ensures r == NearestKept(nodes, oldIndex)
  {
    var parent := nodes[oldIndex].parent;
    ghost var at: nat := oldIndex;
    while parent.Some?
      invariant at < |nodes| && parent == nodes[at].parent
      invariant NearestKept(nodes, at) == NearestKept(nodes, oldIndex)
      decreases at
    {
      if keep[parent.value] {
        return parent;
      }
      at := parent.value;
      parent := nodes[parent.value].parent;
    }
    return None;
  }

  /** First pass: kept nodes at their new positions, still pointing at old parents. */
  method CollectKept(nodes: seq<Node>, keep: seq<bool>, oldToNew: array<Option<nat>>) returns (compacted: seq<Node>)
    requires ParentsEarlier(nodes) && |keep| == |nodes| == oldToNew.Length
    requires forall i | 0 <= i < |nodes| :: keep[i] == ShouldKeep(nodes[i])
    requires forall i | 0 <= i < |nodes| :: oldToNew[i] == None
    modifies oldToNew
    ensures |compacted| == Position(nodes, |nodes|)
    ensures forall i | 0 <= i < |nodes| :: oldToNew[i] == if ShouldKeep(nodes[i]) then Some(Position(nodes, i)) else None
    ensures forall i | 0 <= i < |nodes| && ShouldKeep(nodes[i]) ::
              Position(nodes, i) < |compacted| && compacted[Position(nodes, i)] == nodes[i].(index := Position(nodes, i), parent := NearestKept(nodes, i))
  {
    compacted := [];
    for oldIndex := 0 to |nodes|
      invariant |compacted| == Position(nodes, oldIndex)
      invariant forall i | 0 <= i < |nodes| :: oldToNew[i] == if i < oldIndex && ShouldKeep(nodes[i]) then Some(Position(nodes, i)) else None
      invariant forall i | 0 <= i < oldIndex && ShouldKeep(nodes[i]) ::
                  Position(nodes, i) < |compacted| && compacted[Position(nodes, i)] == nodes[i].(index := Position(nodes, i), parent := NearestKept(nodes, i))
    {
      if keep[oldIndex] {
        var parent := NearestKeptParent(keep, nodes, oldIndex);
        var index := |compacted|;
        oldToNew[oldIndex] := Some(index);
        compacted := compacted + [nodes[oldIndex].(index := index, parent := parent)];
      }
    }
  }

  /** Second pass: old parents replaced by new ones. */
  method Reparent(collected: seq<Node>, oldToNew: array<Option<nat>>) returns (compacted: seq<Node>)
    requires forall k | 0 <= k < |collected| :: collected[k].parent.Some? ==> collected[k].parent.value < oldToNew.Length
    ensures |compacted| == |collected|
    ensures forall k | 0 <= k < |collected| ::
              compacted[k] == collected[k].(parent := match collected[k].parent case None => None case Some(p) => oldToNew[p])
  {
    compacted := collected;
    for k := 0 to |collected|
      invariant |compacted| == |collected|
      invariant forall j | k <= j < |collected| :: compacted[j] == collected[j]
      invariant forall j | 0 <= j < k ::
                  compacted[j] == collected[j].(parent := match collected[j].parent case None => None case Some(p) => oldToNew[p])
    {
      var parent := match compacted[k].parent case None => None case Some(p) => oldToNew[p];
      compacted := compacted[k := compacted[k].(parent := parent)];
    }
  }

  lemma CountsOneMore(nodes: seq<Node>, j: nat, k: nat)
    requires j < |nodes|
    ensures ChildrenOf(nodes[..j + 1], k) == ChildrenOf(nodes[..j], k) + if nodes[j].parent == Some(k) then 1 else 0
  {
    assert nodes[..j + 1][..j] == nodes[..j];
  }

  /** Third pass: children counted, then written into the nodes. */
  method CountChildren(compacted: seq<Node>) returns (counts: array<nat>)
    requires forall k | 0 <= k < |compacted| :: compacted[k].parent.Some? ==> compacted[k].parent.value < |compacted|
    ensures fresh(counts) && counts.Length == |compacted|
    ensures forall k | 0 <= k < |compacted| :: counts[k] == ChildrenOf(compacted, k)
  {
    counts := new nat[|compacted|](_ => 0);
    for j := 0 to |compacted|
      invariant forall k | 0 <= k < |compacted| :: counts[k] == ChildrenOf(compacted[..j], k)
    {
      forall k | 0 <= k < |compacted|
        ensures ChildrenOf(compacted[..j + 1], k) == ChildrenOf(compacted[..j], k) + if compacted[j].parent == Some(k) then 1 else 0
      {
        CountsOneMore(compacted, j, k);
      }
      if compacted[j].parent.Some? {
        counts[compacted[j].parent.value] := counts[compacted[j].parent.value] + 1;
      }
    }
    assert compacted[..|compacted|] == compacted;
  }

  lemma {:induction false} CountIgnoresFacts(a: seq<Node>, b: seq<Node>, k: nat)
    requires |a| == |b| && forall j | 0 <= j < |a| :: a[j].parent == b[j].parent
    ensures ChildrenOf(a, k) == ChildrenOf(b, k)
  {
    if a != [] { CountIgnoresFacts(a[..|a| - 1], b[..|b| - 1], k); }
  }

  method CompactAccessibilityTree(nodes: seq<Node>) returns (r: seq<Node>)
    requires ParentsEarlier(nodes)
    ensures IsCompaction(nodes, r)
  {
    if nodes == [] {
      return nodes;
    }
    var keep := seq(|nodes|, i requires 0 <= i < |nodes| => ShouldKeep(nodes[i]));
    var oldToNew := new Option<nat>[|nodes|](_ => None);
    var collected := CollectKept(nodes, keep, oldToNew);
    forall k | 0 <= k < |collected| ensures collected[k].parent.Some? ==> collected[k].parent.value < oldToNew.Length {
      var i := PositionIsTaken(nodes, |nodes|, k);
    }
    var compacted := Reparent(collected, oldToNew);
    forall k | 0 <= k < |compacted| ensures compacted[k].parent.Some? ==> compacted[k].parent.value < |compacted| {
      var i := PositionIsTaken(nodes, |nodes|, k);
      if NearestKept(nodes, i).Some? { PositionsGrow(nodes, NearestKept(nodes, i).value, |nodes|); }
    }
    var counts := CountChildren(compacted);
    r := compacted;
    for k := 0 to |compacted|
      invariant |r| == |compacted|
      invariant forall j | 0 <= j < |compacted| ::
                  r[j] == if j < k then compacted[j].(facts := compacted[j].facts.(childCount := counts[j])) else compacted[j]
    {
      r := r[k := r[k].(facts := r[k].facts.(childCount := counts[k]))];
    }
    forall i | 0 <= i < |nodes| && ShouldKeep(nodes[i])
      ensures Position(nodes, i) < |r| && r[Position(nodes, i)] == CompactedNode(nodes, r, i)
    {
      PositionsGrow(nodes, i, |nodes|);
      CountIgnoresFacts(compacted, r, Position(nodes, i));
    }
  }

  // ---------------------------------------------------------------- what it preserves

  lemma CompactionHasParentsEarlier(nodes: seq<Node>, r: seq<Node>)
    requires ParentsEarlier(nodes) && IsCompaction(nodes, r)
    ensures ParentsEarlier(r)
    ensures forall k | 0 <= k < |r| :: r[k].index == k && r[k].facts.childCount == ChildrenOf(r, k) && ShouldKeep(r[k])
  {
    forall k | 0 <= k < |r|
      ensures r[k].parent.Some? ==> r[k].parent.value < k
      ensures r[k].index == k && r[k].facts.childCount == ChildrenOf(r, k) && ShouldKeep(r[k])
    {
      var i := PositionIsTaken(nodes, |nodes|, k);
      assert r[k] == CompactedNode(nodes, r, i);
      if NearestKept(nodes, i).Some? { PositionsGrow(nodes, NearestKept(nodes, i).value, i); }
    }
  }

  /** Going up to the nearest kept node skips no kept ancestor. */
  lemma {:induction false} NearestIsNearest(nodes: seq<Node>, a: nat, b: nat)
    requires ParentsEarlier(nodes) && a < |nodes| && b < |nodes| && ShouldKeep(nodes[a])
    ensures Ancestor(nodes, a, b) <==> NearestKept(nodes, b).Some? && (NearestKept(nodes, b).value == a || Ancestor(nodes, a, NearestKept(nodes, b).value))
    decreases b
  {
    if nodes[b].parent.Some? && !ShouldKeep(nodes[nodes[b].parent.value]) {
      NearestIsNearest(nodes, a, nodes[b].parent.value);
    }
  }

  /** Among kept nodes the ancestors are exactly what they were. */
  lemma {:induction false} AncestryIsKept(nodes: seq<Node>, r: seq<Node>, a: nat, b: nat)
    requires ParentsEarlier(nodes) && IsCompaction(nodes, r) && ParentsEarlier(r)
    requires a < |nodes| && b < |nodes| && ShouldKeep(nodes[a]) && ShouldKeep(nodes[b])
    ensures Position(nodes, b) < |r|
    ensures Ancestor(r, Position(nodes, a), Position(nodes, b)) <==> Ancestor(nodes, a, b)
    decreases b
  {
    NearestIsNearest(nodes, a, b);
    assert r[Position(nodes, b)] == CompactedNode(nodes, r, b);
    if NearestKept(nodes, b).Some? {
      var p := NearestKept(nodes, b).value;
      if Position(nodes, p) == Position(nodes, a) { PositionIsInjective(nodes, p, a); }
      AncestryIsKept(nodes, r, a, p);
    }
  }

  /** The order of the kept nodes is what it was. */
  lemma OrderIsKept(nodes: seq<Node>, i: nat, j: nat)
    requires i < |nodes| && j < |nodes| && ShouldKeep(nodes[i]) && ShouldKeep(nodes[j])
    ensures i < j <==> Position(nodes, i) < Position(nodes, j)
  {
    if i < j { PositionsGrow(nodes, i, j); } else if j < i { PositionsGrow(nodes, j, i); }
  }

  lemma {:induction false} SomethingKeptAbove(nodes: seq<Node>, i: nat)
    requires Forest(nodes) && i < |nodes| && nodes[i].parent.Some?
    ensures NearestKept(nodes, i).Some?
    decreases i
  {
    var p := nodes[i].parent.value;
    if !ShouldKeep(nodes[p]) { SomethingKeptAbove(nodes, p); }
  }

  /** In a snapshot the roots are kept, and they are the only nodes without a parent afterwards. */
  lemma RootsAreKept(nodes: seq<Node>, r: seq<Node>, i: nat)
    requires Forest(nodes) && IsCompaction(nodes, r) && i < |nodes|
    ensures nodes[i].parent.None? ==> ShouldKeep(nodes[i])
    ensures ShouldKeep(nodes[i]) ==> Position(nodes, i) < |r| && (r[Position(nodes, i)].parent.None? <==> nodes[i].parent.None?)
  {
    if ShouldKeep(nodes[i]) {
      assert r[Position(nodes, i)] == CompactedNode(nodes, r, i);
      if nodes[i].parent.Some? { SomethingKeptAbove(nodes, i); }
    }
  }

  lemma {:induction false} AllKeptInPlace(nodes: seq<Node>, i: nat)
    requires i <= |nodes| && forall k | 0 <= k < |nodes| :: ShouldKeep(nodes[k])
    ensures Position(nodes, i) == i
  {
    if i > 0 { AllKeptInPlace(nodes, i - 1); }
  }

  /** The node stays as it is but for its count. */
  ghost predicate Recounted(r: seq<Node>, again: seq<Node>, k: nat)
    requires k < |r| == |again|
  {
    again[k] == r[k].(facts := r[k].facts.(childCount := ChildrenOf(again, k)))
  }

  lemma CompactedAgain(r: seq<Node>, again: seq<Node>, k: nat)
    requires ParentsEarlier(r) && IsCompaction(r, again) && k < |r| == |again|
    requires forall j | 0 <= j < |r| :: ShouldKeep(r[j])
    requires r[k].index == k
    ensures Recounted(r, again, k)
  {
    AllKeptInPlace(r, k);
    assert again[Position(r, k)] == CompactedNode(r, again, k);
    if r[k].parent.Some? { AllKeptInPlace(r, r[k].parent.value); }
  }

  lemma CompactedAllAgain(r: seq<Node>, again: seq<Node>)
    requires ParentsEarlier(r) && IsCompaction(r, again) && |r| == |again|
    requires forall k | 0 <= k < |r| :: r[k].index == k && ShouldKeep(r[k])
    ensures forall k | 0 <= k < |r| :: Recounted(r, again, k)
  {
    forall k | 0 <= k < |r| ensures Recounted(r, again, k) { CompactedAgain(r, again, k); }
  }

  /** A tree all of whose nodes are kept in place with true counts is its own compaction. */
  lemma NothingToCompact(r: seq<Node>, again: seq<Node>)
    requires ParentsEarlier(r) && IsCompaction(r, again)
    requires forall k | 0 <= k < |r| :: r[k].index == k && r[k].facts.childCount == ChildrenOf(r, k) && ShouldKeep(r[k])
    ensures again == r
  {
    SameLength(r, again);
    CompactedAllAgain(r, again);
    CountsDecide(r, again);
  }

  lemma SameLength(r: seq<Node>, again: seq<Node>)
    requires ParentsEarlier(r) && IsCompaction(r, again) && forall k | 0 <= k < |r| :: ShouldKeep(r[k])
    ensures |again| == |r|
  {
    AllKeptInPlace(r, |r|);
  }

  lemma CountsDecide(r: seq<Node>, again: seq<Node>)
    requires |again| == |r|
    requires forall k | 0 <= k < |r| :: r[k].facts.childCount == ChildrenOf(r, k)
    requires forall k | 0 <= k < |r| :: Recounted(r, again, k)
    ensures again == r
  {
    assert forall k | 0 <= k < |r| :: Recounted(r, again, k) ==> again[k].parent == r[k].parent;
    forall k | 0 <= k < |r| ensures again[k] == r[k] {
      assert Recounted(r, again, k);
      CountIgnoresFacts(again, r, k);
    }
  }

  /** Compacting a compacted tree changes nothing. */
  lemma CompactionIsIdempotent(nodes: seq<Node>, r: seq<Node>, again: seq<Node>)
    requires ParentsEarlier(nodes) && IsCompaction(nodes, r)
    requires ParentsEarlier(r) && IsCompaction(r, again)
    ensures again == r
  {
    CompactionHasParentsEarlier(nodes, r);
    NothingToCompact(r, again);
  }
}
