/** Matching the windows of a terminal application to its sessions. */
module TerminalWindows {
  import opened Basics
  import opened Text
  import opened Sorting
  import opened TerminalSessions

  datatype Confidence = High | Heuristic

  datatype Context = Context(tty: string, root: Process, active: Option<Process>, count: nat, confidence: Confidence)

  datatype Window = Window(id: nat, pid: Option<nat>, appId: Option<string>, wmClass: Option<string>, title: Option<string>, terminal: Option<Context>)

  const TERMINAL_NAMES: seq<string> :=
    ["ghostty", "gnome-terminal", "org.gnome.terminal", "ptyxis", "org.gnome.ptyxis", "kgx", "konsole", "kitty", "alacritty", "wezterm", "xterm"]

  predicate Contains(haystack: string, needle: string) {
    needle <= haystack || (haystack != "" && Contains(haystack[1..], needle))
  }

  function Present(parts: seq<Option<string>>): seq<string> {
    if parts == [] then [] else (if parts[0].Some? then [parts[0].value] else []) + Present(parts[1..])
  }

  predicate LooksLikeTerminal(w: Window) {
    var haystack := Lower(Join(Present([w.appId, w.wmClass, w.title]), ' '));
    exists i :: 0 <= i < |TERMINAL_NAMES| && Contains(haystack, TERMINAL_NAMES[i])
  }

  /** The terminal application of each window that looks like a terminal window. */
  function Pids(ws: seq<Window>, looks: Window -> bool): (pids: seq<Option<nat>>)
    ensures |pids| == |ws|
    ensures forall i | 0 <= i < |ws| :: pids[i] == if looks(ws[i]) then ws[i].pid else None
  {
    seq(|ws|, i requires 0 <= i < |ws| => if looks(ws[i]) then ws[i].pid else None)
  }

  // ---------------------------------------------------------------- the specification

  /** Positions of the windows of one terminal application among the first `n`, ascending. */
  function WindowsOf(pids: seq<Option<nat>>, pid: nat, n: nat): seq<nat>
    requires n <= |pids|
  {
    if n == 0 then [] else WindowsOf(pids, pid, n - 1) + if pids[n - 1] == Some(pid) then [n - 1] else []
  }

  lemma {:induction false} WindowsMembers(pids: seq<Option<nat>>, pid: nat, n: nat, i: nat)
    requires n <= |pids|
    ensures i in WindowsOf(pids, pid, n) <==> i < n && pids[i] == Some(pid)
  {
    if n > 0 { WindowsMembers(pids, pid, n - 1, i); }
  }

  ghost predicate Climbing(r: seq<nat>, n: nat) {
    (forall k, l | 0 <= k < l < |r| :: r[k] < r[l]) && (forall k | 0 <= k < |r| :: r[k] < n)
  }

  lemma {:induction false} WindowsAscend(pids: seq<Option<nat>>, pid: nat, n: nat)
    requires n <= |pids|
    ensures Climbing(WindowsOf(pids, pid, n), n)
  {
    if n > 0 {
      WindowsAscend(pids, pid, n - 1);
      ClimbOneMore(WindowsOf(pids, pid, n - 1), n - 1);
    }
  }

  lemma ClimbOneMore(r: seq<nat>, n: nat)
    requires Climbing(r, n)
    ensures Climbing(r, n + 1) && Climbing(r + [n], n + 1) && r + [] == r
  {
  }

  function IdAt(ws: seq<Window>, i: nat): nat { if i < |ws| then ws[i].id else 0 }

  function ById(ws: seq<Window>): (nat, nat) -> bool { (i: nat, j: nat) => IdAt(ws, i) <= IdAt(ws, j) }

  function ByStart(): (Session, Session) -> bool { (a: Session, b: Session) => a.root.start <= b.root.start }

  /** The windows of one terminal application by window id, and its sessions by start of their roots. */
  function OrderedWindows(ws: seq<Window>, pids: seq<Option<nat>>, pid: nat): seq<nat>
    requires |pids| == |ws|
  {
    StableSort(WindowsOf(pids, pid, |ws|), ById(ws))
  }

  ghost function OrderedSessions(processes: seq<Process>, pid: nat): seq<Session> {
    StableSort(Sessions(processes, pid, ByPid(processes)), ByStart())
  }

  function ContextOf(s: Session, alone: bool): Context {
    Context(s.tty, s.root, s.active, s.count, if alone then High else Heuristic)
  }

  /** All windows of one application receive their sessions, or all are left alone. */
  ghost predicate Matched(before: seq<Window>, after: seq<Window>, order: seq<nat>, sessions: seq<Session>)
    requires |before| == |after| && forall k | 0 <= k < |order| :: order[k] < |before|
  {
    forall k | 0 <= k < |order| ::
      after[order[k]] ==
      if sessions != [] && |order| == |sessions| then before[order[k]].(terminal := Some(ContextOf(sessions[k], |order| == 1)))
      else before[order[k]]
  }

  ghost predicate PidMatched(pids: seq<Option<nat>>, before: seq<Window>, after: seq<Window>, processes: seq<Process>, pid: nat)
    requires |pids| == |before| == |after|
  {
    OrderedWindowsInRange(before, pids, pid);
    Matched(before, after, OrderedWindows(before, pids, pid), OrderedSessions(processes, pid))
  }

  lemma OrderedWindowsInRange(ws: seq<Window>, pids: seq<Option<nat>>, pid: nat)
    requires |pids| == |ws|
    ensures forall i: nat :: i in OrderedWindows(ws, pids, pid) <==> i < |ws| && pids[i] == Some(pid)
    ensures forall k | 0 <= k < |OrderedWindows(ws, pids, pid)| :: OrderedWindows(ws, pids, pid)[k] < |ws|
  {
    SameElements(WindowsOf(pids, pid, |ws|), ById(ws));
    forall i: nat ensures i in OrderedWindows(ws, pids, pid) <==> i < |ws| && pids[i] == Some(pid) {
      WindowsMembers(pids, pid, |ws|, i);
    }
    forall k | 0 <= k < |OrderedWindows(ws, pids, pid)| ensures OrderedWindows(ws, pids, pid)[k] < |ws| {
      assert OrderedWindows(ws, pids, pid)[k] in OrderedWindows(ws, pids, pid);
    }
  }

  /** Every terminal application is matched on its own; windows of no application stay as they were. */
  ghost predicate EnrichedAs(pids: seq<Option<nat>>, before: seq<Window>, after: seq<Window>, processes: seq<Process>) {
    && |after| == |before| == |pids|
    && (forall pid: nat :: PidMatched(pids, before, after, processes, pid))
    && (forall i | 0 <= i < |before| && pids[i].None? :: after[i] == before[i])
  }

  ghost predicate Enriched(before: seq<Window>, after: seq<Window>, processes: seq<Process>) {
    EnrichedAs(Pids(before, LooksLikeTerminal), before, after, processes)
  }

  // ---------------------------------------------------------------- the algorithm

  lemma DistinctAfterSort<T(!new)>(xs: seq<T>, le: (T, T) -> bool, i: nat, j: nat)
    requires forall k, l | 0 <= k < l < |xs| :: xs[k] != xs[l]
    requires i < j < |xs|
    ensures StableSort(xs, le)[i] != StableSort(xs, le)[j]
  {
    var r := StableSort(xs, le);
    SortIsPermutation(xs, le);
    if r[i] == r[j] {
      TwiceCounted(r, i, j);
      OnlyOnce(xs, r[i]);
    }
  }

  lemma TwiceCounted<T>(r: seq<T>, i: nat, j: nat)
    requires i < j < |r| && r[i] == r[j]
    ensures multiset(r)[r[i]] >= 2
  {
    var a, b := r[..i + 1], r[i + 1..];
    assert r == a + b;
    assert a[i] in a && b[j - i - 1] in b;
    assert multiset(a)[r[i]] >= 1 && multiset(b)[r[i]] >= 1;
  }

  lemma {:induction false} OnlyOnce<T(!new)>(xs: seq<T>, x: T)
    requires forall k, l | 0 <= k < l < |xs| :: xs[k] != xs[l]
    ensures multiset(xs)[x] <= 1
  {
    if xs != [] {
      assert xs == [xs[0]] + xs[1..];
      OnlyOnce(xs[1..], x);
      assert forall k | 0 <= k < |xs[1..]| :: xs[1..][k] == xs[k + 1] != xs[0];
      assert xs[0] !in xs[1..];
    }
  }

  /** Hands out the sessions, one window after the other. */
  method AssignSessions(windows: array<Window>, order: seq<nat>, sessions: seq<Session>)
    requires sessions != [] && |order| == |sessions|
    requires forall k | 0 <= k < |order| :: order[k] < windows.Length
    requires forall k, l | 0 <= k < l < |order| :: order[k] != order[l]
    modifies windows
    ensures Matched(old(windows[..]), windows[..], order, sessions)
    ensures forall i | 0 <= i < windows.Length && i !in order :: windows[i] == old(windows[i])
  {
    for k := 0 to |order|
      invariant forall l | 0 <= l < k :: windows[order[l]] == old(windows[order[l]]).(terminal := Some(ContextOf(sessions[l], |order| == 1)))
      invariant forall l | k <= l < |order| :: windows[order[l]] == old(windows[order[l]])
      invariant forall i | 0 <= i < windows.Length && i !in order :: windows[i] == old(windows[i])
    {
      windows[order[k]] := windows[order[k]].(terminal := Some(ContextOf(sessions[k], |order| == 1)));
    }
  }

  /** The windows and sessions of one terminal application. */
  method MatchPid(windows: array<Window>, indexes: seq<nat>, pid: nat, processes: seq<Process>, ghost before: seq<Window>, ghost pids: seq<Option<nat>>)
    requires |before| == |pids| == windows.Length && indexes == WindowsOf(pids, pid, |before|)
    requires forall i | 0 <= i < windows.Length :: windows[i] == before[i] || (pids[i].Some? && pids[i] != Some(pid))
    requires forall i | 0 <= i < windows.Length :: windows[i].id == before[i].id
    modifies windows
    ensures PidMatched(pids, before, windows[..], processes, pid)
    ensures forall i | 0 <= i < windows.Length && pids[i] != Some(pid) :: windows[i] == old(windows[i])
    ensures forall i | 0 <= i < windows.Length :: windows[i].id == before[i].id
  {
    OrderedWindowsInRange(before, pids, pid);
    WindowsAscend(pids, pid, |before|);
    var sessions := TerminalSessionsForPid(pid, processes, ByPid(processes));
    if sessions == [] {
      return;
    }
    assert forall i: nat :: IdAt(windows[..], i) == IdAt(before, i);
    SortBySameKeys(indexes, windows[..], before);
    var order := StableSort(indexes, ById(windows[..]));
    sessions := StableSort(sessions, ByStart());
    if |order| != |sessions| {
      return;
    }
    forall k, l | 0 <= k < l < |order| ensures order[k] != order[l] { DistinctAfterSort(indexes, ById(before), k, l); }
    ghost var now := windows[..];
    AssignSessions(windows, order, sessions);
    forall k | 0 <= k < |order| ensures now[order[k]] == before[order[k]] { assert order[k] in order; }
    assert forall i | 0 <= i < windows.Length :: windows[i].id == before[i].id by {
      forall i | 0 <= i < windows.Length ensures windows[i].id == before[i].id {
        if i in order { var k :| 0 <= k < |order| && order[k] == i; }
      }
    }
  }

  lemma {:induction false} InsertBySameKeys(x: nat, xs: seq<nat>, a: seq<Window>, b: seq<Window>)
    requires forall i: nat :: IdAt(a, i) == IdAt(b, i)
    ensures Insert(x, xs, ById(a)) == Insert(x, xs, ById(b))
  {
    if xs != [] { InsertBySameKeys(x, xs[1..], a, b); }
  }

  lemma {:induction false} SortBySameKeys(xs: seq<nat>, a: seq<Window>, b: seq<Window>)
    requires forall i: nat :: IdAt(a, i) == IdAt(b, i)
    ensures StableSort(xs, ById(a)) == StableSort(xs, ById(b))
  {
    if xs != [] {
      SortBySameKeys(xs[1..], a, b);
      InsertBySameKeys(xs[0], StableSort(xs[1..], ById(b)), a, b);
    }
  }

  /** The windows of each application among the first `n`. */
  ghost predicate WindowsGrouped(pids: seq<Option<nat>>, n: nat, byTerminal: map<nat, seq<nat>>)
    requires n <= |pids|
  {
    forall pid: nat :: WindowsOf(pids, pid, n) == if pid in byTerminal then byTerminal[pid] else []
  }

  /** One more position in the list of its application. */
  function Listed(byTerminal: map<nat, seq<nat>>, pid: Option<nat>, index: nat): map<nat, seq<nat>> {
    match pid
    case None => byTerminal
    case Some(p) => byTerminal[p := (if p in byTerminal then byTerminal[p] else []) + [index]]
  }

  lemma ListedIsGrouped(pids: seq<Option<nat>>, n: nat, byTerminal: map<nat, seq<nat>>)
    requires n < |pids| && WindowsGrouped(pids, n, byTerminal)
    ensures WindowsGrouped(pids, n + 1, Listed(byTerminal, pids[n], n))
  {
    var after := Listed(byTerminal, pids[n], n);
    forall pid: nat ensures WindowsOf(pids, pid, n + 1) == if pid in after then after[pid] else [] {
      assert WindowsOf(pids, pid, n) == if pid in byTerminal then byTerminal[pid] else [];
    }
  }

  method GroupWindows(windows: array<Window>, looks: Window -> bool) returns (byTerminal: map<nat, seq<nat>>)
    ensures WindowsGrouped(Pids(windows[..], looks), windows.Length, byTerminal)
  {
    byTerminal := map[];
    ghost var pids := Pids(windows[..], looks);
    for index := 0 to windows.Length
      invariant WindowsGrouped(pids, index, byTerminal)
    {
      ListedIsGrouped(pids, index, byTerminal);
      if looks(windows[index]) {
        byTerminal := Listed(byTerminal, windows[index].pid, index);
      }
    }
  }

  method EnrichTerminalWindows(windows: array<Window>, processes: seq<Process>)
    modifies windows
    ensures Enriched(old(windows[..]), windows[..], processes)
  {
    var byTerminal := GroupWindows(windows, LooksLikeTerminal);
    MatchGroups(windows, byTerminal, processes, Pids(windows[..], LooksLikeTerminal));
  }

  method MatchGroups(windows: array<Window>, byTerminal: map<nat, seq<nat>>, processes: seq<Process>, ghost pids: seq<Option<nat>>)
    requires |pids| == windows.Length && WindowsGrouped(pids, windows.Length, byTerminal)
    modifies windows
    ensures EnrichedAs(pids, old(windows[..]), windows[..], processes)
  {
    ghost var before := windows[..];
    var todo := byTerminal.Keys;
    forall pid: nat | pid !in todo ensures PidMatched(pids, before, before, processes, pid) {
      OrderedWindowsInRange(before, pids, pid);
      assert WindowsOf(pids, pid, |before|) == [];
    }
    while todo != {}
      invariant todo <= byTerminal.Keys
      invariant forall i | 0 <= i < windows.Length :: windows[i].id == before[i].id
      invariant forall i | 0 <= i < windows.Length && (pids[i].None? || pids[i].value in todo) :: windows[i] == before[i]
      invariant forall pid: nat | pid !in todo :: PidMatched(pids, before, windows[..], processes, pid)
    {
      var pid :| pid in todo;
      ghost var now := windows[..];
      assert byTerminal[pid] == WindowsOf(pids, pid, |before|);
      MatchPid(windows, byTerminal[pid], pid, processes, before, pids);
      todo := todo - {pid};
      forall other: nat | other !in todo ensures PidMatched(pids, before, windows[..], processes, other) {
        if other != pid { OthersStayMatched(pids, before, now, windows[..], processes, pid, other); }
      }
    }
  }

  lemma OthersStayMatched(pids: seq<Option<nat>>, before: seq<Window>, now: seq<Window>, after: seq<Window>, processes: seq<Process>, pid: nat, other: nat)
    requires |pids| == |before| == |now| == |after| && other != pid && PidMatched(pids, before, now, processes, other)
    requires forall i | 0 <= i < |before| && pids[i] != Some(pid) :: after[i] == now[i]
    ensures PidMatched(pids, before, after, processes, other)
  {
    OrderedWindowsInRange(before, pids, other);
    var order := OrderedWindows(before, pids, other);
    forall k | 0 <= k < |order| ensures after[order[k]] == now[order[k]] { assert order[k] in order; }
  }

  // ---------------------------------------------------------------- what it means

  /** For each application either every terminal window receives a session or none is touched. */
  lemma AllOrNone(pids: seq<Option<nat>>, before: seq<Window>, after: seq<Window>, processes: seq<Process>, pid: nat)
    requires EnrichedAs(pids, before, after, processes)
    ensures
      || (forall i | 0 <= i < |before| && pids[i] == Some(pid) :: after[i] == before[i])
      || (forall i | 0 <= i < |before| && pids[i] == Some(pid) :: after[i].terminal.Some? && after[i] == before[i].(terminal := after[i].terminal))
  {
    OrderedWindowsInRange(before, pids, pid);
    assert PidMatched(pids, before, after, processes, pid);
    var order := OrderedWindows(before, pids, pid);
    forall i | 0 <= i < |before| && pids[i] == Some(pid) ensures exists k :: 0 <= k < |order| && order[k] == i {
      assert i in order;
    }
  }

  lemma AscendingDistinct(sessions: seq<Session>, a: Session, b: Session)
    requires Ascending(sessions) && a in sessions && b in sessions && a != b
    ensures a.tty != b.tty
  {
    var i :| 0 <= i < |sessions| && sessions[i] == a;
    var j :| 0 <= j < |sessions| && sessions[j] == b;
    BeforeIsTotal(a.tty, b.tty);
    BeforeIsTotal(b.tty, a.tty);
    if i < j { assert Before(sessions[i].tty, sessions[j].tty); } else { assert Before(sessions[j].tty, sessions[i].tty); }
  }

  lemma NoRepeatsWhenAscending(sessions: seq<Session>)
    requires Ascending(sessions)
    ensures forall i, j | 0 <= i < j < |sessions| :: sessions[i] != sessions[j]
  {
    forall i, j | 0 <= i < j < |sessions| ensures sessions[i] != sessions[j] {
      assert Before(sessions[i].tty, sessions[j].tty);
      BeforeIsTotal(sessions[i].tty, sessions[j].tty);
    }
  }

  lemma SessionLinesDistinct(processes: seq<Process>, pid: nat, k: nat, l: nat)
    requires k < l < |OrderedSessions(processes, pid)|
    ensures OrderedSessions(processes, pid)[k].tty != OrderedSessions(processes, pid)[l].tty
  {
    var t := ByPid(processes);
    var sessions := Sessions(processes, pid, t);
    var sorted := OrderedSessions(processes, pid);
    SessionsCoverLines(LinesOf(processes, pid, t), processes, pid, t);
    NoRepeatsWhenAscending(sessions);
    DistinctAfterSort(sessions, ByStart(), k, l);
    SameElements(sessions, ByStart());
    assert sorted[k] in sorted && sorted[l] in sorted;
    AscendingDistinct(sessions, sorted[k], sorted[l]);
  }

  lemma PlacesInOrder(pids: seq<Option<nat>>, before: seq<Window>, processes: seq<Process>, pid: nat, k: nat, l: nat)
    requires |pids| == |before| && k < l < |OrderedWindows(before, pids, pid)| == |OrderedSessions(processes, pid)|
    ensures IdAt(before, OrderedWindows(before, pids, pid)[k]) <= IdAt(before, OrderedWindows(before, pids, pid)[l])
    ensures OrderedSessions(processes, pid)[k].root.start <= OrderedSessions(processes, pid)[l].root.start
  {
    SortIsSorted(WindowsOf(pids, pid, |before|), ById(before));
    SortIsSorted(Sessions(processes, pid, ByPid(processes)), ByStart());
    assert ById(before)(OrderedWindows(before, pids, pid)[k], OrderedWindows(before, pids, pid)[l]);
    assert ByStart()(OrderedSessions(processes, pid)[k], OrderedSessions(processes, pid)[l]);
  }

  lemma PlaceOf(pids: seq<Option<nat>>, before: seq<Window>, after: seq<Window>, processes: seq<Process>, pid: nat, i: nat) returns (k: nat)
    requires EnrichedAs(pids, before, after, processes) && i < |before| && pids[i] == Some(pid) && after[i] != before[i]
    ensures k < |OrderedWindows(before, pids, pid)| == |OrderedSessions(processes, pid)|
    ensures OrderedWindows(before, pids, pid)[k] == i
    ensures after[i].terminal == Some(ContextOf(OrderedSessions(processes, pid)[k], |OrderedWindows(before, pids, pid)| == 1))
  {
    OrderedWindowsInRange(before, pids, pid);
    assert PidMatched(pids, before, after, processes, pid);
    assert i in OrderedWindows(before, pids, pid);
    k :| 0 <= k < |OrderedWindows(before, pids, pid)| && OrderedWindows(before, pids, pid)[k] == i;
  }

  /** Matched windows hold different sessions, and a smaller window id never goes with a later start. */
  lemma MatchingIsOneToOne(pids: seq<Option<nat>>, before: seq<Window>, after: seq<Window>, processes: seq<Process>, pid: nat, i: nat, j: nat)
    requires EnrichedAs(pids, before, after, processes)
    requires i < |before| && j < |before| && i != j
    requires pids[i] == Some(pid) && pids[j] == Some(pid)
    requires after[i] != before[i] && after[j] != before[j]
    ensures after[i].terminal.Some? && after[j].terminal.Some?
    ensures after[i].terminal.value.tty != after[j].terminal.value.tty
    ensures before[i].id < before[j].id ==> after[i].terminal.value.root.start <= after[j].terminal.value.root.start
  {
    var k := PlaceOf(pids, before, after, processes, pid, i);
    var l := PlaceOf(pids, before, after, processes, pid, j);
    if k < l {
      SessionLinesDistinct(processes, pid, k, l);
      PlacesInOrder(pids, before, processes, pid, k, l);
    } else {
      SessionLinesDistinct(processes, pid, l, k);
      PlacesInOrder(pids, before, processes, pid, l, k);
    }
  }
}
