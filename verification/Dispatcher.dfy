/**
 The serialized dispatcher: concurrent tool calls take one lock, revalidate the
 lease, and either dispatch or clear every cached capability.
 */
module Dispatcher {
  import opened Basics
  import opened AuthorizationLease

  type CallId = nat

  /** The capabilities a dispatch may leave cached, in the order a denial clears them. */
  datatype Cache = PointerSession | KeyboardSession | AbsPointer | Nodes | DesktopSize

  const CLEARING := [PointerSession, KeyboardSession, AbsPointer, Nodes, DesktopSize]

  /** How one exchange with the authority ended: a parsed response, or no response at all. */
  datatype Reply = Answered(response: Response) | NoAnswer(denial: Denial)

  datatype Phase =
    | Waiting                 // queued for the dispatch lock
    | Holding                 // lock taken, revalidation under way
    | Validated               // revalidation succeeded, dispatch about to start
    | Dispatching             // the tool runs
    | Clearing(cleared: nat)  // revalidation failed; this many caches cleared so far

  datatype Event = Revalidated(call: CallId, ok: bool) | Dispatched(call: CallId)

  datatype World = World(
    lease: State,
    history: seq<Response>,
    calls: map<CallId, Phase>,
    lock: Option<CallId>,
    cached: set<Cache>,
    log: seq<Event>
  )

  const START := World(INITIAL, [], map[], None, {}, [])

  datatype Action =
    | Arrive(c: CallId)
    | TakeLock(c: CallId)
    | Revalidate(c: CallId, reply: Reply)
    | BeginDispatch(c: CallId)
    | Publish(c: CallId, cache: Cache)
    | ClearNext(c: CallId)
    | Leave(c: CallId)   // a finished or refused call returns, or a suspended one is cancelled

  predicate InPhase(w: World, c: CallId, p: Phase) {
    c in w.calls && w.calls[c] == p
  }

  predicate Enabled(w: World, a: Action) {
    match a
    case Arrive(c) => c !in w.calls
    case TakeLock(c) => InPhase(w, c, Waiting) && w.lock.None?
    case Revalidate(c, _) => InPhase(w, c, Holding)
    case BeginDispatch(c) => InPhase(w, c, Validated)
    case Publish(c, _) => InPhase(w, c, Dispatching)
    case ClearNext(c) => c in w.calls && w.calls[c].Clearing? && w.calls[c].cleared < |CLEARING|
    case Leave(c) => c in w.calls && (w.calls[c].Clearing? ==> w.calls[c].cleared == |CLEARING|)
  }

  function Perform(w: World, a: Action): World
    requires Enabled(w, a)
  {
    match a
    case Arrive(c) => w.(calls := w.calls[c := Waiting])
    case TakeLock(c) => w.(calls := w.calls[c := Holding], lock := Some(c))
    case Revalidate(c, NoAnswer(_)) =>
      w.(calls := w.calls[c := Clearing(0)], log := w.log + [Revalidated(c, false)])
    case Revalidate(c, Answered(r)) =>
      var (lease, verdict) := Step(w.lease, r);
      var ok := verdict == Granted;
      w.(lease := lease, history := w.history + [r],
         calls := w.calls[c := if ok then Validated else Clearing(0)],
         log := w.log + [Revalidated(c, ok)])
    case BeginDispatch(c) =>
      w.(calls := w.calls[c := Dispatching], log := w.log + [Dispatched(c)])
    case Publish(_, cache) => w.(cached := w.cached + {cache})
    case ClearNext(c) =>
      var k := w.calls[c].cleared;
      w.(calls := w.calls[c := Clearing(k + 1)], cached := w.cached - {CLEARING[k]})
    case Leave(c) =>
      w.(calls := w.calls - {c}, lock := if w.lock == Some(c) then None else w.lock)
  }

  /** The outcome of the latest completed revalidation, if there was one. */
  function LastOutcome(log: seq<Event>): Option<bool> {
    if log == [] then None
    else if log[|log| - 1].Revalidated? then Some(log[|log| - 1].ok)
    else LastOutcome(log[..|log| - 1])
  }

  /** Each dispatch comes right after its own successful revalidation. */
  ghost predicate OwnRevalidationPrecedes(log: seq<Event>) {
    forall i | 0 <= i < |log| && log[i].Dispatched? ::
      i > 0 && log[i - 1] == Revalidated(log[i].call, true)
  }

  ghost predicate Fresh(w: World) {
    LastOutcome(w.log) == Some(true) && !w.lease.denied
  }

  ghost predicate OnlyHolderActs(w: World) {
    forall c | c in w.calls :: w.calls[c] != Waiting ==> w.lock == Some(c)
  }

  ghost predicate HolderIsSound(w: World, c: CallId) {
    c in w.calls &&
    match w.calls[c]
    case Waiting => false
    case Holding => w.cached != {} ==> Fresh(w)
    case Validated => Fresh(w) && w.log != [] && w.log[|w.log| - 1] == Revalidated(c, true)
    case Dispatching => Fresh(w) && w.log != [] && w.log[|w.log| - 1] == Dispatched(c)
    case Clearing(k) => k <= |CLEARING| && forall i | 0 <= i < k :: CLEARING[i] !in w.cached
  }

  ghost predicate Safe(w: World) {
    && w.lease == After(w.history)
    && OwnRevalidationPrecedes(w.log)
    && OnlyHolderActs(w)
    && (w.lock.None? ==> w.cached != {} ==> Fresh(w))
    && (w.lock.Some? ==> HolderIsSound(w, w.lock.value))
  }

  lemma AllCachesListed(cached: set<Cache>)
    requires forall i | 0 <= i < |CLEARING| :: CLEARING[i] !in cached
    ensures cached == {}
  {
    forall x: Cache ensures x !in cached {
      match x
      case PointerSession => assert CLEARING[0] == x;
      case KeyboardSession => assert CLEARING[1] == x;
      case AbsPointer => assert CLEARING[2] == x;
      case Nodes => assert CLEARING[3] == x;
      case DesktopSize => assert CLEARING[4] == x;
    }
  }

  /** An answered revalidation leaves the lease undenied when it succeeds. */
  lemma GrantedIsUndenied(w: World, r: Response)
    requires w.lease == After(w.history)
    ensures Step(w.lease, r).0 == After(w.history + [r])
    ensures Step(w.lease, r).1 == Granted ==> !Step(w.lease, r).0.denied
  {
    assert (w.history + [r])[..|w.history|] == w.history;
  }

  lemma RevalidationIsLogged(log: seq<Event>, c: CallId, ok: bool)
    requires OwnRevalidationPrecedes(log)
    ensures OwnRevalidationPrecedes(log + [Revalidated(c, ok)]) && LastOutcome(log + [Revalidated(c, ok)]) == Some(ok)
  {
  }

  lemma RevalidationKeepsSafe(w: World, c: CallId, reply: Reply)
    requires Safe(w) && Enabled(w, Revalidate(c, reply))
    ensures Safe(Perform(w, Revalidate(c, reply)))
  {
    match reply
    case NoAnswer(_) => RevalidationIsLogged(w.log, c, false);
    case Answered(r) =>
      GrantedIsUndenied(w, r);
      RevalidationIsLogged(w.log, c, Step(w.lease, r).1 == Granted);
  }

  lemma ActionKeepsSafe(w: World, a: Action)
    requires Safe(w) && Enabled(w, a)
    ensures Safe(Perform(w, a))
  {
    var w' := Perform(w, a);
    match a
    case Revalidate(c, reply) =>
      RevalidationKeepsSafe(w, c, reply);
    case BeginDispatch(c) =>
      assert w'.log[..|w.log|] == w.log;
    case Leave(c) =>
      if w.calls[c].Clearing? { AllCachesListed(w.cached); }
    case _ =>
  }

  /** A run: any interleaving of actions of any number of calls. */
  ghost predicate IsRun(worlds: seq<World>, actions: seq<Action>) {
    && |worlds| == |actions| + 1
    && worlds[0] == START
    && forall i {:trigger actions[i]} | 0 <= i < |actions| :: Enabled(worlds[i], actions[i]) && worlds[i + 1] == Perform(worlds[i], actions[i])
  }

  lemma {:induction false} RunIsSafe(worlds: seq<World>, actions: seq<Action>, i: nat)
    requires IsRun(worlds, actions) && i < |worlds|
    ensures Safe(worlds[i])
  {
    if i > 0 {
      RunIsSafe(worlds, actions, i - 1);
      ActionKeepsSafe(worlds[i - 1], actions[i - 1]);
    }
  }

  /**
   In every reachable world: each dispatch so far ran directly after its own successful
   revalidation, and while the lock is free a cached capability means that the last
   revalidation succeeded and that no authority response has denied its generation.
   */
  lemma DispatchIsAuthorized(worlds: seq<World>, actions: seq<Action>, i: nat)
    requires IsRun(worlds, actions) && i < |worlds|
    ensures OwnRevalidationPrecedes(worlds[i].log)
    ensures worlds[i].lock.None? && worlds[i].cached != {} ==>
              && LastOutcome(worlds[i].log) == Some(true)
              && !worlds[i].lease.denied
              && !DeniedAt(worlds[i].lease.floor, worlds[i].history)
  {
    RunIsSafe(worlds, actions, i);
    AfterRemembers(worlds[i].history);
  }

  /**
   Two calls never dispatch at the same time, and no revalidation happens between the
   start of a dispatch and its end, whatever the interleaving.
   */
  lemma DispatchesDoNotOverlap(worlds: seq<World>, actions: seq<Action>, i: nat, c: CallId, d: CallId)
    requires IsRun(worlds, actions) && i < |worlds|
    requires InPhase(worlds[i], c, Dispatching) && InPhase(worlds[i], d, Dispatching)
    ensures c == d
    ensures worlds[i].log != [] && worlds[i].log[|worlds[i].log| - 1] == Dispatched(c)
  {
    RunIsSafe(worlds, actions, i);
  }

  /** The object behind the tool calls, one whole call at a time. */
  class Backend {
    const lease: Lease
    var cached: set<Cache>

    ghost predicate Valid()
      reads this, lease
    {
      lease.Valid() && (cached != {} ==> !lease.denied)
    }

    constructor ()
      ensures Valid() && fresh(lease) && cached == {}
    {
      lease := new Lease();
      cached := {};
    }

    method ClearMcpAuthorizedState()
      modifies this`cached
      ensures cached == {}
    {
      for i := 0 to |CLEARING|
        invariant forall k | 0 <= k < i :: CLEARING[k] !in cached
      {
        cached := cached - {CLEARING[i]};
      }
      AllCachesListed(cached);
    }

    method RunMcpAuthorized(reply: Reply, published: set<Cache>) returns (dispatched: bool)
      requires Valid()
      modifies this`cached, lease
      ensures Valid()
      ensures lease.history == old(lease.history) + (if reply.Answered? then [reply.response] else [])
      ensures dispatched <==> reply.Answered? && MayGrant(old(lease.history), reply.response)
      ensures cached == if dispatched then old(cached) + published else {}
    {
      var granted := false;
      if reply.Answered? {
        var verdict := lease.ApplyResponse(reply.response);
        granted := verdict == Granted;
      }
      if !granted {
        ClearMcpAuthorizedState();
        return false;
      }
      cached := cached + published;
      return true;
    }
  }
}
