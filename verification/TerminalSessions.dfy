/** Terminal sessions of one terminal application, found by walking the process table upwards. */
module TerminalSessions {
  import opened Basics
  import opened Sorting

  /** `summary` stands for the command name, command line and working directory. */
  datatype Process = Process(pid: nat, ppid: nat, start: nat, ttys: set<string>, summary: string)

  type Table = map<nat, Process>

  const MAX_STEPS := 128

  /** A later process of the same pid replaces an earlier one. */
  function ByPid(processes: seq<Process>): (t: Table)
    ensures forall pid :: pid in t ==> t[pid] in processes && t[pid].pid == pid
    ensures forall p | p in processes :: p.pid in t
  {
    if processes == [] then map[]
    else
      var p := processes[|processes| - 1];
      ByPid(processes[..|processes| - 1])[p.pid := p]
  }

  ghost predicate UniquePids(processes: seq<Process>) {
    forall i, j | 0 <= i < |processes| && 0 <= j < |processes| && processes[i].pid == processes[j].pid :: processes[i] == processes[j]
  }

  // ---------------------------------------------------------------- ancestry

  /** A chain of parents from its first process up to a child of `ancestor`. */
  ghost predicate Chain(t: Table, path: seq<nat>, ancestor: nat) {
    && path != [] && (forall i | 0 <= i < |path| :: path[i] in t)
    && (forall i | 0 <= i < |path| - 1 :: Continues(t, path[i], ancestor) && t[path[i]].ppid == path[i + 1])
    && t[path[|path| - 1]].ppid == ancestor
  }

  /** The walk goes on above this process. */
  predicate Continues(t: Table, pid: nat, ancestor: nat)
    requires pid in t
  {
    t[pid].ppid != ancestor && t[pid].ppid != 0 && t[pid].ppid != pid
  }

  /** How many steps above `pid` the walk meets a child of `ancestor`, within a number of steps. */
  function DepthWithin(t: Table, pid: nat, ancestor: nat, steps: nat): Option<nat>
    decreases steps
  {
    if steps == 0 || pid !in t then None
    else if t[pid].ppid == ancestor then Some(0)
    else if !Continues(t, pid, ancestor) then None
    else match DepthWithin(t, t[pid].ppid, ancestor, steps - 1)
      case None => None
      case Some(d) => Some(d + 1)
  }

  function Depth(t: Table, pid: nat, ancestor: nat): Option<nat> { DepthWithin(t, pid, ancestor, MAX_STEPS) }

  lemma {:induction false} ChainOfDepth(t: Table, pid: nat, ancestor: nat, steps: nat) returns (path: seq<nat>)
    requires DepthWithin(t, pid, ancestor, steps).Some?
    ensures Chain(t, path, ancestor) && path[0] == pid && |path| == DepthWithin(t, pid, ancestor, steps).value + 1 <= steps
    decreases steps
  {
    if t[pid].ppid == ancestor {
      path := [pid];
    } else {
      var rest := ChainOfDepth(t, t[pid].ppid, ancestor, steps - 1);
      path := [pid] + rest;
      forall i | 0 <= i < |path| - 1 ensures Continues(t, path[i], ancestor) && t[path[i]].ppid == path[i + 1] {
        if i > 0 { assert path[i] == rest[i - 1]; }
      }
    }
  }

  lemma {:induction false} DepthOfChain(t: Table, path: seq<nat>, ancestor: nat, steps: nat)
    requires Chain(t, path, ancestor) && |path| <= steps
    ensures DepthWithin(t, path[0], ancestor, steps) == Some(|path| - 1)
    decreases |path|
  {
    if |path| > 1 {
      assert Continues(t, path[0], ancestor);
      forall i | 0 <= i < |path[1..]| - 1
        ensures Continues(t, path[1..][i], ancestor) && t[path[1..][i]].ppid == path[1..][i + 1]
      {
        assert Continues(t, path[i + 1], ancestor);
      }
      DepthOfChain(t, path[1..], ancestor, steps - 1);
    }
  }

  /** The depth is finite exactly when a short enough chain of parents leads to the ancestor, and it is its length. */
  lemma DepthIsChainLength(t: Table, pid: nat, ancestor: nat, d: nat)
    ensures Depth(t, pid, ancestor) == Some(d) <==>
            d < MAX_STEPS && exists path :: Chain(t, path, ancestor) && path[0] == pid && |path| == d + 1
  {
    if Depth(t, pid, ancestor) == Some(d) {
      var path := ChainOfDepth(t, pid, ancestor, MAX_STEPS);
    }
    if d < MAX_STEPS && exists path :: Chain(t, path, ancestor) && path[0] == pid && |path| == d + 1 {
      var path :| Chain(t, path, ancestor) && path[0] == pid && |path| == d + 1;
      DepthOfChain(t, path, ancestor, MAX_STEPS);
    }
  }

  method IsDescendantOf(pid: nat, ancestor: nat, t: Table) returns (r: bool)
    ensures r <==> Depth(t, pid, ancestor).Some?
  {
    var current := pid;
    for step := 0 to MAX_STEPS
      invariant Depth(t, pid, ancestor).Some? <==> DepthWithin(t, current, ancestor, MAX_STEPS - step).Some?
    {
      if current !in t {
        return false;
      }
      if t[current].ppid == ancestor {
        return true;
      }
      if t[current].ppid == 0 || t[current].ppid == current {
        return false;
      }
      current := t[current].ppid;
    }
    return false;
  }

  method ProcessDepth(pid: nat, ancestor: nat, t: Table) returns (r: Option<nat>)
    ensures r == Depth(t, pid, ancestor)
  {
    var current := pid;
    for depth := 0 to MAX_STEPS
      invariant Depth(t, pid, ancestor) ==
                match DepthWithin(t, current, ancestor, MAX_STEPS - depth) case None => None case Some(d) => Some(d + depth)
    {
      if current !in t {
        return None;
      }
      if t[current].ppid == ancestor {
        return Some(depth);
      }
      if t[current].ppid == 0 || t[current].ppid == current {
        return None;
      }
      current := t[current].ppid;
    }
    return None;
  }

  // ---------------------------------------------------------------- sessions

  datatype Session = Session(tty: string, root: Process, active: Option<Process>, count: nat)

  /** Below the terminal, and attached to this line. */
  predicate Attached(p: Process, terminal: nat, t: Table, tty: string) {
    p.pid != terminal && Depth(t, p.pid, terminal).Some? && tty in p.ttys
  }

  function GroupOf(processes: seq<Process>, terminal: nat, t: Table, tty: string): seq<Process> {
    if processes == [] then []
    else
      var n := |processes| - 1;
      var rest := GroupOf(processes[..n], terminal, t, tty);
      if Attached(processes[n], terminal, t, tty) then rest + [processes[n]] else rest
  }

  lemma {:induction false} GroupMembers(processes: seq<Process>, terminal: nat, t: Table, tty: string)
    ensures forall p :: p in GroupOf(processes, terminal, t, tty) <==> p in processes && Attached(p, terminal, t, tty)
  {
    if processes != [] {
      var n := |processes| - 1;
      GroupMembers(processes[..n], terminal, t, tty);
      assert forall p :: p in processes <==> p in processes[..n] || p == processes[n];
    }
  }

  predicate LessEqual3(a: (nat, nat, nat), b: (nat, nat, nat)) {
    a.0 < b.0 || (a.0 == b.0 && (a.1 < b.1 || (a.1 == b.1 && a.2 <= b.2)))
  }

  /** An infinite depth ranks behind every finite one. */
  function DepthKey(p: Process, terminal: nat, t: Table): (nat, nat, nat) {
    (match Depth(t, p.pid, terminal) case Some(d) => d case None => MAX_STEPS, p.start, p.pid)
  }

  function ByDepth(terminal: nat, t: Table): (Process, Process) -> bool {
    (p: Process, q: Process) => LessEqual3(DepthKey(p, terminal, t), DepthKey(q, terminal, t))
  }

  lemma ByDepthIsTotal(terminal: nat, t: Table)
    ensures TotalOrder(ByDepth(terminal, t))
  {
  }

  predicate NoNewer(p: Process, q: Process) { p.start < q.start || (p.start == q.start && p.pid <= q.pid) }

  /** The last of the newest processes. */
  function Newest(xs: seq<Process>): (r: Option<Process>)
    ensures r.None? <==> xs == []
    ensures r.Some? ==> r.value in xs && forall p | p in xs :: NoNewer(p, r.value)
  {
    if xs == [] then None
    else
      var n := |xs| - 1;
      assert forall p | p in xs :: p in xs[..n] || p == xs[n];
      match Newest(xs[..n])
      case None => Some(xs[n])
      case Some(p) => if NoNewer(p, xs[n]) then Some(xs[n]) else Some(p)
  }

  predicate IsLeaf(p: Process, group: seq<Process>) { forall q | q in group :: q.ppid != p.pid }

  function Leaves(xs: seq<Process>, group: seq<Process>): (r: seq<Process>)
    ensures forall p :: p in r <==> p in xs && IsLeaf(p, group)
  {
    if xs == [] then []
    else
      var n := |xs| - 1;
      assert forall p :: p in xs <==> p in xs[..n] || p == xs[n];
      Leaves(xs[..n], group) + if IsLeaf(xs[n], group) then [xs[n]] else []
  }

  function ActiveProcess(group: seq<Process>): Option<Process> {
    var leaf := Newest(Leaves(group, group));
    if leaf.Some? then leaf else Newest(group)
  }

  function SessionFor(tty: string, group: seq<Process>, terminal: nat, t: Table): Session
    requires group != []
  {
    var sorted := StableSort(group, ByDepth(terminal, t));
    Session(tty, sorted[0], ActiveProcess(sorted), |sorted|)
  }

  /** The root of a session is an attached process of least depth, among those the oldest. */
  lemma RootIsShallowest(processes: seq<Process>, terminal: nat, t: Table, tty: string)
    requires GroupOf(processes, terminal, t, tty) != []
    ensures
      var s := SessionFor(tty, GroupOf(processes, terminal, t, tty), terminal, t);
      && s.root in processes && Attached(s.root, terminal, t, tty)
      && s.count == |GroupOf(processes, terminal, t, tty)|
      && forall p | p in processes && Attached(p, terminal, t, tty) :: LessEqual3(DepthKey(s.root, terminal, t), DepthKey(p, terminal, t))
  {
    var group, le := GroupOf(processes, terminal, t, tty), ByDepth(terminal, t);
    var sorted := StableSort(group, le);
    ByDepthIsTotal(terminal, t);
    GroupMembers(processes, terminal, t, tty);
    SortIsSorted(group, le);
    SameElements(group, le);
    assert sorted[0] in sorted;
    forall p | p in processes && Attached(p, terminal, t, tty) ensures LessEqual3(DepthKey(sorted[0], terminal, t), DepthKey(p, terminal, t)) {
      assert p in sorted;
      var i :| 0 <= i < |sorted| && sorted[i] == p;
      if i > 0 { assert le(sorted[0], sorted[i]); }
    }
  }

  lemma {:induction false} MoreStepsSameDepth(t: Table, pid: nat, ancestor: nat, steps: nat)
    requires DepthWithin(t, pid, ancestor, steps).Some?
    ensures DepthWithin(t, pid, ancestor, steps + 1) == DepthWithin(t, pid, ancestor, steps)
    decreases steps
  {
    if t[pid].ppid != ancestor { MoreStepsSameDepth(t, t[pid].ppid, ancestor, steps - 1); }
  }

  /** A child in the same session lies one level deeper. */
  lemma ChildIsDeeper(processes: seq<Process>, terminal: nat, tty: string, p: Process, q: Process)
    requires UniquePids(processes) && p in processes && q in processes && q.ppid == p.pid
    requires Attached(p, terminal, ByPid(processes), tty) && Attached(q, terminal, ByPid(processes), tty)
    ensures Depth(ByPid(processes), q.pid, terminal).value == Depth(ByPid(processes), p.pid, terminal).value + 1
  {
    var t := ByPid(processes);
    assert t[q.pid] == q && t[p.pid] == p;
    MoreStepsSameDepth(t, p.pid, terminal, MAX_STEPS - 1);
  }

  /** Processes with distinct pids always include a leaf, so the fallback of the code is never taken. */
  lemma ActiveIsNewestLeaf(processes: seq<Process>, terminal: nat, tty: string)
    requires UniquePids(processes) && GroupOf(processes, terminal, ByPid(processes), tty) != []
    ensures
      var group := GroupOf(processes, terminal, ByPid(processes), tty);
      var active := SessionFor(tty, group, terminal, ByPid(processes)).active;
      && active.Some? && active.value in group && IsLeaf(active.value, group)
      && forall p | p in group && IsLeaf(p, group) :: NoNewer(p, active.value)
  {
    var t := ByPid(processes);
    var group, le := GroupOf(processes, terminal, t, tty), ByDepth(terminal, t);
    var sorted := StableSort(group, le);
    ByDepthIsTotal(terminal, t);
    GroupMembers(processes, terminal, t, tty);
    SortIsSorted(group, le);
    SameElements(group, le);
    var last := sorted[|sorted| - 1];
    assert last in sorted;
    forall q | q in sorted ensures q.ppid != last.pid {
      var i :| 0 <= i < |sorted| && sorted[i] == q;
      assert i < |sorted| - 1 ==> le(sorted[i], last);
      if q.ppid == last.pid { ChildIsDeeper(processes, terminal, tty, last, q); }
    }
    assert last in Leaves(sorted, sorted);
    forall p ensures IsLeaf(p, sorted) <==> IsLeaf(p, group) {}
  }

  // ---------------------------------------------------------------- collecting the sessions

  /** Strings in the order of their code points. */
  predicate Before(a: string, b: string)
    decreases |a|
  {
    b != "" && (a == "" || a[0] < b[0] || (a[0] == b[0] && Before(a[1..], b[1..])))
  }

  lemma {:induction false} BeforeIsTotal(a: string, b: string)
    ensures Before(a, b) || a == b || Before(b, a)
    ensures !(Before(a, b) && Before(b, a)) && !Before(a, a)
    decreases |a|
  {
    if a != "" && b != "" {
      BeforeIsTotal(a[1..], b[1..]);
      BeforeIsTotal(a[1..], a[1..]);
      assert a == [a[0]] + a[1..] && b == [b[0]] + b[1..];
    } else if a != "" {
      BeforeIsTotal(a[1..], a[1..]);
    }
  }

  lemma {:induction false} BeforeIsTransitive(a: string, b: string, c: string)
    requires Before(a, b) && Before(b, c)
    ensures Before(a, c)
    decreases |a|
  {
    if a != "" && a[0] == b[0] && b[0] == c[0] { BeforeIsTransitive(a[1..], b[1..], c[1..]); }
  }

  predicate IsFirst(tty: string, ttys: set<string>) {
    tty in ttys && forall other | other in ttys :: other == tty || Before(tty, other)
  }

  lemma {:induction false} FirstExists(ttys: set<string>) returns (first: string)
    requires ttys != {}
    ensures IsFirst(first, ttys)
    decreases |ttys|
  {
    var one :| one in ttys;
    if ttys == {one} {
      first := one;
    } else {
      var rest := FirstExists(ttys - {one});
      BeforeIsTotal(one, rest);
      first := if Before(one, rest) then one else rest;
      forall other | other in ttys ensures other == first || Before(first, other) {
        if other != one && other != rest && first == one { BeforeIsTransitive(one, rest, other); }
      }
    }
  }

  lemma FirstIsUnique(a: string, b: string, ttys: set<string>)
    requires IsFirst(a, ttys) && IsFirst(b, ttys)
    ensures a == b
  {
    BeforeIsTotal(a, b);
  }

  function LinesOf(processes: seq<Process>, terminal: nat, t: Table): set<string> {
    set p, tty | p in processes && tty in p.ttys && Attached(p, terminal, t, tty) :: tty
  }

  /** The sessions in the order of their lines. */
  ghost function SessionsIn(ttys: set<string>, processes: seq<Process>, terminal: nat, t: Table): seq<Session>
    requires ttys <= LinesOf(processes, terminal, t)
    decreases |ttys|
  {
    if ttys == {} then []
    else
      assert exists first :: IsFirst(first, ttys) by { var first := FirstExists(ttys); }
      var first :| IsFirst(first, ttys);
      LineHasGroup(processes, terminal, t, first);
      [SessionFor(first, GroupOf(processes, terminal, t, first), terminal, t)] + SessionsIn(ttys - {first}, processes, terminal, t)
  }

  lemma LineHasGroup(processes: seq<Process>, terminal: nat, t: Table, tty: string)
    requires tty in LinesOf(processes, terminal, t)
    ensures GroupOf(processes, terminal, t, tty) != []
  {
    var p :| p in processes && tty in p.ttys && Attached(p, terminal, t, tty);
    GroupMembers(processes, terminal, t, tty);
    assert p in GroupOf(processes, terminal, t, tty);
  }

  ghost function Sessions(processes: seq<Process>, terminal: nat, t: Table): seq<Session> {
    SessionsIn(LinesOf(processes, terminal, t), processes, terminal, t)
  }

  /** Groups of the first `i` processes, and for the lines in `done` also of the next one. */
  ghost predicate Grouped(processes: seq<Process>, i: nat, terminal: nat, t: Table, grouped: map<string, seq<Process>>, done: set<string>)
    requires i <= |processes| && (done != {} ==> i < |processes|)
  {
    forall tty :: GroupAt(grouped, tty) == GroupOf(processes[..if tty in done then i + 1 else i], terminal, t, tty)
                  && (tty in grouped ==> grouped[tty] != [])
  }

  function GroupAt(grouped: map<string, seq<Process>>, tty: string): seq<Process> {
    if tty in grouped then grouped[tty] else []
  }

  lemma GroupStep(processes: seq<Process>, i: nat, terminal: nat, t: Table, tty: string)
    requires i < |processes|
    ensures GroupOf(processes[..i + 1], terminal, t, tty) ==
            GroupOf(processes[..i], terminal, t, tty) + if Attached(processes[i], terminal, t, tty) then [processes[i]] else []
  {
    assert processes[..i + 1][..i] == processes[..i];
  }

  lemma GroupedNext(processes: seq<Process>, i: nat, terminal: nat, t: Table, grouped: map<string, seq<Process>>, done: set<string>)
    requires i < |processes| && Grouped(processes, i, terminal, t, grouped, done)
    requires forall tty | Attached(processes[i], terminal, t, tty) :: tty in done
    ensures Grouped(processes, i + 1, terminal, t, grouped, {})
  {
    forall tty ensures GroupAt(grouped, tty) == GroupOf(processes[..i + 1], terminal, t, tty) {
      GroupStep(processes, i, terminal, t, tty);
    }
  }

  /** Adds one process to the group of each of its lines. */
  method AddToGroups(processes: seq<Process>, i: nat, terminal: nat, t: Table, start: map<string, seq<Process>>)
    returns (grouped: map<string, seq<Process>>)
    requires i < |processes| && Grouped(processes, i, terminal, t, start, {})
    requires processes[i].pid != terminal && Depth(t, processes[i].pid, terminal).Some?
    ensures Grouped(processes, i + 1, terminal, t, grouped, {})
  {
    var process := processes[i];
    grouped := start;
    var todo := process.ttys;
    while todo != {}
      invariant todo <= process.ttys && Grouped(processes, i, terminal, t, grouped, process.ttys - todo)
    {
      var tty :| tty in todo;
      GroupStep(processes, i, terminal, t, tty);
      grouped := grouped[tty := GroupAt(grouped, tty) + [process]];
      todo := todo - {tty};
    }
    GroupedNext(processes, i, terminal, t, grouped, process.ttys);
  }

  lemma LinesAreKeys(processes: seq<Process>, terminal: nat, t: Table, grouped: map<string, seq<Process>>)
    requires Grouped(processes, |processes|, terminal, t, grouped, {})
    ensures grouped.Keys == LinesOf(processes, terminal, t)
    ensures forall tty | tty in grouped :: grouped[tty] == GroupOf(processes, terminal, t, tty) != []
  {
    assert processes[..|processes|] == processes;
    forall tty ensures tty in grouped <==> tty in LinesOf(processes, terminal, t) {
      assert GroupAt(grouped, tty) == GroupOf(processes, terminal, t, tty);
      if tty in LinesOf(processes, terminal, t) { LineHasGroup(processes, terminal, t, tty); }
      GroupMembers(processes, terminal, t, tty);
      if tty in grouped { assert grouped[tty][0] in GroupOf(processes, terminal, t, tty); }
    }
    forall tty | tty in grouped ensures grouped[tty] == GroupOf(processes, terminal, t, tty) != [] {
      assert GroupAt(grouped, tty) == GroupOf(processes, terminal, t, tty);
    }
  }

  lemma SessionsFromFirst(ttys: set<string>, processes: seq<Process>, terminal: nat, t: Table, tty: string)
    requires ttys <= LinesOf(processes, terminal, t) && IsFirst(tty, ttys)
    ensures GroupOf(processes, terminal, t, tty) != []
    ensures SessionsIn(ttys, processes, terminal, t) ==
            [SessionFor(tty, GroupOf(processes, terminal, t, tty), terminal, t)] + SessionsIn(ttys - {tty}, processes, terminal, t)
  {
    LineHasGroup(processes, terminal, t, tty);
    forall other | IsFirst(other, ttys) ensures other == tty { FirstIsUnique(other, tty, ttys); }
  }

  method CollectGroups(terminal: nat, processes: seq<Process>, t: Table) returns (grouped: map<string, seq<Process>>)
    ensures Grouped(processes, |processes|, terminal, t, grouped, {})
  {
    grouped := map[];
    for i := 0 to |processes|
      invariant Grouped(processes, i, terminal, t, grouped, {})
    {
      var below := IsDescendantOf(processes[i].pid, terminal, t);
      if processes[i].pid == terminal || !below {
        GroupedNext(processes, i, terminal, t, grouped, {});
      } else {
        grouped := AddToGroups(processes, i, terminal, t, grouped);
      }
    }
  }

  lemma ListingStep(sessions: seq<Session>, todo: set<string>, processes: seq<Process>, terminal: nat, t: Table, tty: string)
    requires todo <= LinesOf(processes, terminal, t) && IsFirst(tty, todo)
    ensures GroupOf(processes, terminal, t, tty) != []
    ensures
      sessions + SessionsIn(todo, processes, terminal, t) ==
      sessions + [SessionFor(tty, GroupOf(processes, terminal, t, tty), terminal, t)] + SessionsIn(todo - {tty}, processes, terminal, t)
  {
    SessionsFromFirst(todo, processes, terminal, t, tty);
    Regroup(sessions, SessionFor(tty, GroupOf(processes, terminal, t, tty), terminal, t), SessionsIn(todo - {tty}, processes, terminal, t));
  }

  method TerminalSessionsForPid(terminal: nat, processes: seq<Process>, t: Table) returns (sessions: seq<Session>)
    ensures sessions == Sessions(processes, terminal, t)
  {
    var grouped := CollectGroups(terminal, processes, t);
    LinesAreKeys(processes, terminal, t, grouped);
    sessions := [];
    var todo := grouped.Keys;
    while todo != {}
      invariant todo <= grouped.Keys
      invariant sessions + SessionsIn(todo, processes, terminal, t) == Sessions(processes, terminal, t)
    {
      ghost var first := FirstExists(todo);
      var tty :| tty in todo && IsFirst(tty, todo);
      ListingStep(sessions, todo, processes, terminal, t, tty);
      sessions := sessions + [SessionFor(tty, grouped[tty], terminal, t)];
      todo := todo - {tty};
    }
  }

  ghost predicate Ascending(sessions: seq<Session>) {
    forall i, j | 0 <= i < j < |sessions| :: Before(sessions[i].tty, sessions[j].tty)
  }

  ghost predicate SessionOf(s: Session, ttys: set<string>, processes: seq<Process>, terminal: nat, t: Table) {
    && s.tty in ttys && GroupOf(processes, terminal, t, s.tty) != []
    && s == SessionFor(s.tty, GroupOf(processes, terminal, t, s.tty), terminal, t)
  }

  ghost predicate HasLine(sessions: seq<Session>, tty: string) {
    exists i :: 0 <= i < |sessions| && sessions[i].tty == tty
  }

  /** One session for each of the lines, in their order. */
  ghost predicate Covers(sessions: seq<Session>, ttys: set<string>, processes: seq<Process>, terminal: nat, t: Table) {
    && Ascending(sessions)
    && (forall i | 0 <= i < |sessions| :: SessionOf(sessions[i], ttys, processes, terminal, t))
    && (forall tty | tty in ttys :: HasLine(sessions, tty))
  }

  lemma AscendingOneMore(head: Session, rest: seq<Session>)
    requires Ascending(rest) && forall i | 0 <= i < |rest| :: Before(head.tty, rest[i].tty)
    ensures Ascending([head] + rest)
  {
    var all := [head] + rest;
    forall i, j | 0 <= i < j < |all| ensures Before(all[i].tty, all[j].tty) {
      assert all[j] == rest[j - 1];
      if i > 0 { assert all[i] == rest[i - 1]; }
    }
  }

  lemma LinesOneMore(head: Session, rest: seq<Session>, ttys: set<string>)
    requires forall tty | tty in ttys - {head.tty} :: HasLine(rest, tty)
    ensures forall tty | tty in ttys :: HasLine([head] + rest, tty)
  {
    var all := [head] + rest;
    forall tty | tty in ttys ensures HasLine(all, tty) {
      if tty == head.tty {
        assert all[0].tty == tty;
      } else {
        assert tty in ttys - {head.tty} && HasLine(rest, tty);
        var i :| 0 <= i < |rest| && rest[i].tty == tty;
        assert all[i + 1].tty == tty;
      }
    }
  }

  lemma CoversOneMore(head: Session, rest: seq<Session>, ttys: set<string>, processes: seq<Process>, terminal: nat, t: Table)
    requires IsFirst(head.tty, ttys) && Covers(rest, ttys - {head.tty}, processes, terminal, t)
    requires SessionOf(head, ttys, processes, terminal, t)
    ensures Covers([head] + rest, ttys, processes, terminal, t)
  {
    var all := [head] + rest;
    forall i | 0 <= i < |rest| ensures Before(head.tty, rest[i].tty) {
      assert SessionOf(rest[i], ttys - {head.tty}, processes, terminal, t);
    }
    AscendingOneMore(head, rest);
    LinesOneMore(head, rest, ttys);
    forall i | 0 <= i < |all| ensures SessionOf(all[i], ttys, processes, terminal, t) {
      if i > 0 { assert SessionOf(rest[i - 1], ttys - {head.tty}, processes, terminal, t); }
    }
  }

  lemma {:induction false} SessionsCoverLines(ttys: set<string>, processes: seq<Process>, terminal: nat, t: Table)
    requires ttys <= LinesOf(processes, terminal, t)
    ensures Covers(SessionsIn(ttys, processes, terminal, t), ttys, processes, terminal, t)
    decreases |ttys|
  {
    if ttys != {} {
      var first := FirstExists(ttys);
      SessionsFromFirst(ttys, processes, terminal, t, first);
      SessionsCoverLines(ttys - {first}, processes, terminal, t);
      var head := SessionFor(first, GroupOf(processes, terminal, t, first), terminal, t);
      CoversOneMore(head, SessionsIn(ttys - {first}, processes, terminal, t), ttys, processes, terminal, t);
    }
  }
}
