/**
 The app-server process manager as a state machine: every action is one critical
 section (or one start or stop of a process), and a run is any interleaving of them.
 */
module RuntimeManager {
  import opened Basics
  import opened ProcessTable

  type LeaseId = nat

  /** What a lease value carries: the client and the instance it was taken on. */
  datatype LeaseKey = LeaseKey(client: ClientId, instance: InstanceId)

  /** A thread that can hold a removed process on its way to being stopped. */
  datatype Actor = Ensurer | Reaper | Closer | Connection(id: nat)

  /** Where a process that was ever started is now. */
  datatype Place = Starting | InTable(client: ClientId) | HeldBy(actor: Actor) | Stopped

  /** The holder of the lifecycle lock and how far it has got. */
  datatype Lifecycle =
    | Free
    | Locked(client: ClientId, launch: Launch, restart: bool)
    | Examining(client: ClientId, launch: Launch, restart: bool)
    | Sweeping(client: ClientId, launch: Launch)
    | Admitting(client: ClientId, launch: Launch)
    | Numbering(client: ClientId, launch: Launch)
    | Spawning(client: ClientId, launch: Launch, instance: InstanceId)
    | Awaiting(client: ClientId, launch: Launch, instance: InstanceId)
    | Inserting(client: ClientId, launch: Launch, instance: InstanceId, readyAt: Instant)
    | Signalling | Joining | Taking | Stopping

  /** The cleanup thread. */
  datatype Worker = Absent | Polling | Reaping | Handing

  datatype Control = Control(
    lifecycle: Lifecycle,
    worker: Worker,
    shutdown: bool,
    closed: bool          // a shutdown has returned
  )

  datatype World = World(
    table: Table,
    leases: map<LeaseId, LeaseKey>,   // lease values not yet returned
    places: map<InstanceId, Place>,   // every process ever started
    exited: set<InstanceId>,
    next: InstanceId,
    now: Instant,
    control: Control
  )

  const START := World(map[], map[], map[], {}, 1, 0, Control(Free, Absent, false, false))

  datatype Action =
    | Tick
    | ProcessExits(i: InstanceId)
    | StopHeld(i: InstanceId)
    | BeginEnsure(client: ClientId, launch: Launch, restart: bool)
    | EnsureWorker(started: bool)
    | Examine(seen: Inspection, socketReady: bool)
    | Sweep(observed: set<InstanceId>)
    | Admit(victim: ClientId)
    | Number
    | Spawn(ok: bool)
    | BecomeReady(ok: bool)
    | Insert
    | AcquireLease(id: LeaseId, client: ClientId, seen: Inspection, connection: nat)
    | DropLease(id: LeaseId)
    | Poll
    | Reap(observed: set<InstanceId>, at: Instant)   // the clock is read before the lock is taken
    | Rest
    | BeginShutdown
    | Signal
    | Join
    | TakeAll
    | FinishShutdown

  predicate HoldsAny(w: World, a: Actor) {
    exists i | i in w.places :: w.places[i] == HeldBy(a)
  }

  /** An inspection never reports a running child as exited, nor an exited one as running. */
  predicate Truthful(w: World, c: ClientId, seen: Inspection) {
    c in w.table ==>
      && (seen == Exited ==> w.table[c].instance in w.exited)
      && (seen == Running ==> w.table[c].instance !in w.exited)
  }

  predicate Enabled(w: World, a: Action) {
    var l := w.control.lifecycle;
    match a
    case Tick => true
    case ProcessExits(i) => i in w.places
    case StopHeld(i) => i in w.places && w.places[i].HeldBy?
    case BeginEnsure(_, _, _) => l.Free?
    case EnsureWorker(_) => l.Locked?
    case Examine(seen, _) => l.Examining? && Truthful(w, l.client, seen)
    case Sweep(observed) => l.Sweeping? && !HoldsAny(w, Ensurer) && observed <= w.exited
    case Admit(victim) =>
      && l.Admitting? && !HoldsAny(w, Ensurer)
      && (|w.table| >= MAX_PROCESSES && !AllLeased(w.table) ==> IsVictim(w.table, victim))
    case Number => l.Numbering? && !HoldsAny(w, Ensurer)
    case Spawn(_) => l.Spawning?
    case BecomeReady(_) => l.Awaiting?
    case Insert => l.Inserting?
    case AcquireLease(id, c, seen, _) => id !in w.leases && Truthful(w, c, seen)
    case DropLease(id) => id in w.leases
    case Poll => w.control.worker.Polling?
    case Reap(observed, at) => w.control.worker.Reaping? && observed <= w.exited && at <= w.now
    case Rest => w.control.worker.Handing? && !HoldsAny(w, Reaper)
    case BeginShutdown => l.Free?
    case Signal => l.Signalling?
    case Join => l.Joining? && w.control.worker.Absent?
    case TakeAll => l.Taking?
    case FinishShutdown => l.Stopping? && !HoldsAny(w, Closer)
  }

  function Advance(w: World, l: Lifecycle): World {
    w.(control := w.control.(lifecycle := l))
  }

  function Work(w: World, k: Worker): World {
    w.(control := w.control.(worker := k))
  }

  function Handed(places: map<InstanceId, Place>, clients: set<ClientId>, a: Actor): map<InstanceId, Place> {
    map i | i in places ::
      if places[i].InTable? && places[i].client in clients then HeldBy(a) else places[i]
  }

  /** Takes the processes of these clients out of the table into the hands of one actor. */
  function Remove(w: World, clients: set<ClientId>, a: Actor): World {
    w.(table := w.table - clients, places := Handed(w.places, clients, a))
  }

  function PerformExamine(w: World, seen: Inspection, socketReady: bool): World
    requires w.control.lifecycle.Examining?
  {
    var l := w.control.lifecycle;
    var c := l.client;
    var replaced := Advance(Remove(w, {c}, Ensurer), Sweeping(c, l.launch));
    if c !in w.table then replaced
    else if l.restart || w.table[c].launch != l.launch then replaced
    else if seen == Failed then Advance(w, Free)
    else if seen == Running && socketReady
    then Advance(w.(table := w.table[c := Kept(w.table[c], w.now)]), Free)
    else replaced
  }

  function PerformAcquire(w: World, id: LeaseId, c: ClientId, seen: Inspection, connection: nat): World {
    var (table, result) := Acquire(w.table, c, seen, w.now);
    match result
    case Acquired(instance) => w.(table := table, leases := w.leases[id := LeaseKey(c, instance)])
    case ExitedEarly(_) => Remove(w, {c}, Connection(connection))
    case _ => w
  }

  function PerformAdmit(w: World, victim: ClientId): World
    requires w.control.lifecycle.Admitting?
  {
    var l := w.control.lifecycle;
    if |w.table| < MAX_PROCESSES then Advance(w, Numbering(l.client, l.launch))
    else if AllLeased(w.table) then Advance(w, Free)
    else Advance(Remove(w, {victim}, Ensurer), Numbering(l.client, l.launch))
  }

  function PerformInsert(w: World): World
    requires w.control.lifecycle.Inserting?
  {
    var l := w.control.lifecycle;
    var removed := Remove(w, {l.client}, Ensurer);
    Advance(removed.(table := w.table[l.client := NewProcess(l.instance, l.launch, l.readyAt)],
                     places := removed.places[l.instance := InTable(l.client)]), Free)
  }

  function PerformDrop(w: World, id: LeaseId): World
    requires id in w.leases
  {
    var key := w.leases[id];
    w.(table := Return(w.table, key.client, key.instance, w.now).0, leases := w.leases - {id})
  }

  function Perform(w: World, a: Action): World
    requires Enabled(w, a)
  {
    var l := w.control.lifecycle;
    match a
    case Tick => w.(now := w.now + 1)
    case ProcessExits(i) => w.(exited := w.exited + {i})
    case StopHeld(i) => w.(places := w.places[i := Stopped])
    case BeginEnsure(c, launch, restart) => Advance(w, Locked(c, launch, restart))
    case EnsureWorker(started) =>
      var examining := Advance(w, Examining(l.client, l.launch, l.restart));
      if !w.control.worker.Absent? then examining
      else if w.control.shutdown || !started then Advance(w, Free)
      else Work(examining, Polling)
    case Examine(seen, socketReady) => PerformExamine(w, seen, socketReady)
    case Sweep(observed) =>
      Advance(Remove(w, SeenExited(w.table, observed), Ensurer), Admitting(l.client, l.launch))
    case Admit(victim) => PerformAdmit(w, victim)
    case Number => Advance(w.(next := w.next + 1), Spawning(l.client, l.launch, w.next))
    case Spawn(ok) =>
      if ok then Advance(w.(places := w.places[l.instance := Starting]), Awaiting(l.client, l.launch, l.instance))
      else Advance(w, Free)
    case BecomeReady(ok) =>
      if ok then Advance(w, Inserting(l.client, l.launch, l.instance, w.now))
      else Advance(w.(places := w.places[l.instance := Stopped]), Free)
    case Insert => PerformInsert(w)
    case AcquireLease(id, c, seen, connection) => PerformAcquire(w, id, c, seen, connection)
    case DropLease(id) => PerformDrop(w, id)
    case Poll => Work(w, if w.control.shutdown then Absent else Reaping)
    case Reap(observed, at) => Work(Remove(w, Reapable(w.table, observed, at), Reaper), Handing)
    case Rest => Work(w, Polling)
    case BeginShutdown => Advance(w, Signalling)
    case Signal => Advance(w.(control := w.control.(shutdown := true)), Joining)
    case Join => Advance(w, Taking)
    case TakeAll => Advance(Remove(w, w.table.Keys, Closer), Stopping)
    case FinishShutdown => Advance(w.(control := w.control.(closed := true)), Free)
  }

  // ---------------------------------------------------------------- the invariant

  /** The process that the lifecycle holder has spawned and not yet handed over. */
  function InFlight(l: Lifecycle): Option<InstanceId> {
    match l
    case Awaiting(_, _, i) => Some(i)
    case Inserting(_, _, i, _) => Some(i)
    case _ => None
  }

  /** The table holds exactly the processes placed in it, each under its own client. */
  ghost predicate Placed(t: Table, places: map<InstanceId, Place>, l: Lifecycle, next: InstanceId) {
    && (forall c | c in t :: t[c].instance in places && places[t[c].instance] == InTable(c))
    && (forall i | i in places ::
          && i < next
          && (places[i] == Starting <==> InFlight(l) == Some(i))
          && (places[i].InTable? ==> places[i].client in t && t[places[i].client].instance == i))
    && (InFlight(l).Some? ==> InFlight(l).value in places)
    && (l.Spawning? ==> l.instance < next && l.instance !in places)
  }

  predicate ClientAbsent(l: Lifecycle) {
    l.Sweeping? || l.Admitting? || l.Numbering? || l.Spawning? || l.Awaiting? || l.Inserting?
  }

  predicate RoomReserved(l: Lifecycle) {
    l.Numbering? || l.Spawning? || l.Awaiting? || l.Inserting?
  }

  /** What the lifecycle holder may rely on while it lets go of the table. */
  ghost predicate Guarded(t: Table, l: Lifecycle) {
    && |t| <= MAX_PROCESSES
    && (ClientAbsent(l) ==> l.client !in t)
    && (RoomReserved(l) ==> |t| < MAX_PROCESSES)
  }

  /** The worker never outlives a shutdown and the table never refills after it. */
  ghost predicate Closing(t: Table, k: Control) {
    && (k.lifecycle.Examining? || ClientAbsent(k.lifecycle) ==> !k.shutdown)
    && (k.lifecycle.Joining? || k.lifecycle.Taking? || k.lifecycle.Stopping? ==> k.shutdown)
    && (k.shutdown ==> k.lifecycle.Joining? || k.worker.Absent?)
    && (k.lifecycle.Stopping? ==> t == map[])
    && (k.closed ==> k.shutdown && t == map[])
    && (k.shutdown && !k.lifecycle.Joining? && !k.lifecycle.Taking? ==> t == map[])
  }

  function Holders(leases: map<LeaseId, LeaseKey>, key: LeaseKey): set<LeaseId> {
    set l | l in leases && leases[l] == key
  }

  /** The count of each process is the number of lease values out on it. */
  ghost predicate Counted(t: Table, leases: map<LeaseId, LeaseKey>) {
    forall c | c in t :: t[c].leases == |Holders(leases, LeaseKey(c, t[c].instance))|
  }

  /** Leases name only processes that have already been in the table. */
  ghost predicate Issued(leases: map<LeaseId, LeaseKey>, places: map<InstanceId, Place>) {
    forall l | l in leases :: leases[l].instance in places && places[leases[l].instance] != Starting
  }

  /** Idle processes are exactly the ones with a cleanup deadline. */
  ghost predicate Scheduled(t: Table) {
    forall c | c in t :: t[c].deadline.Some? <==> t[c].leases == 0
  }

  ghost predicate Safe(w: World) {
    && Placed(w.table, w.places, w.control.lifecycle, w.next)
    && Guarded(w.table, w.control.lifecycle)
    && Closing(w.table, w.control)
    && Counted(w.table, w.leases)
    && Issued(w.leases, w.places)
    && Scheduled(w.table)
  }

  // ---------------------------------------------------------------- every action keeps it

  /** Actions of the thread that is inside `ensure` or `restart`. */
  predicate ByEnsurer(a: Action) {
    a.EnsureWorker? || a.Examine? || a.Sweep? || a.Admit? || a.Number? || a.Spawn? || a.BecomeReady? || a.Insert?
  }

  lemma RemovalKeepsPlaced(t: Table, places: map<InstanceId, Place>, l: Lifecycle, next: InstanceId, clients: set<ClientId>, a: Actor)
    requires Placed(t, places, l, next)
    ensures Placed(t - clients, Handed(places, clients, a), l, next)
  {
  }

  lemma UpdateKeepsPlaced(t: Table, places: map<InstanceId, Place>, l: Lifecycle, next: InstanceId, c: ClientId, p: Process)
    requires Placed(t, places, l, next) && c in t && p.instance == t[c].instance
    ensures Placed(t[c := p], places, l, next)
  {
  }

  lemma NewEntryKeepsPlaced(t: Table, places: map<InstanceId, Place>, l: Lifecycle, next: InstanceId, p: Process)
    requires Placed(t, places, l, next) && l.Inserting? && l.client !in t && p.instance == l.instance
    ensures Placed(t[l.client := p], places[l.instance := InTable(l.client)], Free, next)
  {
  }

  lemma InsertKeepsPlaced(w: World)
    requires Enabled(w, Insert)
    requires Placed(w.table, w.places, w.control.lifecycle, w.next)
    requires Guarded(w.table, w.control.lifecycle)
    ensures
      var w' := Perform(w, Insert);
      Placed(w'.table, w'.places, w'.control.lifecycle, w'.next)
  {
    var l := w.control.lifecycle;
    InsertDisplacesNothing(w);
    NewEntryKeepsPlaced(w.table, w.places, l, w.next, NewProcess(l.instance, l.launch, l.readyAt));
    assert Perform(w, Insert) == PerformInsert(w);
  }

  /** The final insertion displaces no entry, so it hands no process to anyone. */
  lemma InsertDisplacesNothing(w: World)
    requires Enabled(w, Insert)
    requires Placed(w.table, w.places, w.control.lifecycle, w.next)
    requires Guarded(w.table, w.control.lifecycle)
    ensures w.control.lifecycle.client !in w.table
    ensures Handed(w.places, {w.control.lifecycle.client}, Ensurer) == w.places
  {
  }

  lemma ExamineKeepsPlaced(w: World, seen: Inspection, socketReady: bool)
    requires w.control.lifecycle.Examining?
    requires Placed(w.table, w.places, w.control.lifecycle, w.next)
    ensures
      var w' := PerformExamine(w, seen, socketReady);
      Placed(w'.table, w'.places, w'.control.lifecycle, w'.next)
  {
    var t, places, l, next := w.table, w.places, w.control.lifecycle, w.next;
    var removed := Remove(w, {l.client}, Ensurer);
    RemovalKeepsPlaced(t, places, l, next, {l.client}, Ensurer);
    PhaseKeepsPlaced(removed.table, removed.places, l, Sweeping(l.client, l.launch), next);
    if l.client in t {
      var kept := t[l.client := Kept(t[l.client], w.now)];
      UpdateKeepsPlaced(t, places, l, next, l.client, Kept(t[l.client], w.now));
      PhaseKeepsPlaced(kept, places, l, Free, next);
      PhaseKeepsPlaced(t, places, l, Free, next);
    }
  }

  lemma PhaseKeepsPlaced(t: Table, places: map<InstanceId, Place>, l: Lifecycle, l': Lifecycle, next: InstanceId)
    requires Placed(t, places, l, next)
    requires InFlight(l).None? && InFlight(l').None? && !l'.Spawning?
    ensures Placed(t, places, l', next)
  {
  }

  lemma NumberedKeepsPlaced(t: Table, places: map<InstanceId, Place>, l: Lifecycle, l': Lifecycle, next: InstanceId)
    requires Placed(t, places, l, next) && l.Numbering? && l'.Spawning? && l'.instance == next
    ensures Placed(t, places, l', next + 1)
  {
  }

  lemma SpawnedKeepsPlaced(t: Table, places: map<InstanceId, Place>, l: Lifecycle, l': Lifecycle, next: InstanceId)
    requires Placed(t, places, l, next) && l.Spawning? && l'.Awaiting? && l'.instance == l.instance
    ensures Placed(t, places[l.instance := Starting], l', next)
  {
  }

  lemma SpawnKeepsPlaced(w: World, a: Action)
    requires (a.Number? || a.Spawn?) && Enabled(w, a)
    requires Placed(w.table, w.places, w.control.lifecycle, w.next)
    ensures
      var w' := Perform(w, a);
      Placed(w'.table, w'.places, w'.control.lifecycle, w'.next)
  {
    var t, places, l, next := w.table, w.places, w.control.lifecycle, w.next;
    if a.Number? {
      NumberedKeepsPlaced(t, places, l, Spawning(l.client, l.launch, next), next);
    } else {
      SpawnedKeepsPlaced(t, places, l, Awaiting(l.client, l.launch, l.instance), next);
      PhaseKeepsPlaced(t, places, l, Free, next);
    }
  }

  lemma ReadyKeepsPlaced(w: World, a: Action)
    requires a.BecomeReady? && Enabled(w, a)
    requires Placed(w.table, w.places, w.control.lifecycle, w.next)
    ensures
      var w' := Perform(w, a);
      Placed(w'.table, w'.places, w'.control.lifecycle, w'.next)
  {
    var l := w.control.lifecycle;
    FlightGoesOn(w.table, w.places, l, Inserting(l.client, l.launch, l.instance, w.now), w.next);
    FlightEnds(w.table, w.places, l, w.next);
  }

  lemma FlightGoesOn(t: Table, places: map<InstanceId, Place>, l: Lifecycle, l': Lifecycle, next: InstanceId)
    requires Placed(t, places, l, next) && InFlight(l).Some? && InFlight(l') == InFlight(l)
    ensures Placed(t, places, l', next)
  {
  }

  lemma FlightEnds(t: Table, places: map<InstanceId, Place>, l: Lifecycle, next: InstanceId)
    requires Placed(t, places, l, next) && l.Awaiting?
    ensures Placed(t, places[l.instance := Stopped], Free, next)
  {
  }

  lemma RoomKeepsPlaced(w: World, a: Action)
    requires (a.Sweep? || a.Admit?) && Enabled(w, a)
    requires Placed(w.table, w.places, w.control.lifecycle, w.next)
    ensures
      var w' := Perform(w, a);
      Placed(w'.table, w'.places, w'.control.lifecycle, w'.next)
  {
    var clients := if a.Sweep? then SeenExited(w.table, a.observed) else {a.victim};
    RemovalKeepsPlaced(w.table, w.places, w.control.lifecycle, w.next, clients, Ensurer);
  }

  lemma EnsurerKeepsPlaced(w: World, a: Action)
    requires Enabled(w, a) && ByEnsurer(a)
    requires Placed(w.table, w.places, w.control.lifecycle, w.next)
    requires Guarded(w.table, w.control.lifecycle)
    ensures
      var w' := Perform(w, a);
      Placed(w'.table, w'.places, w'.control.lifecycle, w'.next)
  {
    match a
    case EnsureWorker(_) =>
    case Examine(seen, socketReady) => ExamineKeepsPlaced(w, seen, socketReady);
    case Sweep(_) => RoomKeepsPlaced(w, a);
    case Admit(_) => RoomKeepsPlaced(w, a);
    case Insert => InsertKeepsPlaced(w);
    case BecomeReady(_) => ReadyKeepsPlaced(w, a);
    case _ => SpawnKeepsPlaced(w, a);
  }

  lemma LeasesKeepPlaced(w: World, a: Action)
    requires (a.AcquireLease? || a.DropLease?) && Enabled(w, a)
    requires Placed(w.table, w.places, w.control.lifecycle, w.next)
    ensures
      var w' := Perform(w, a);
      Placed(w'.table, w'.places, w'.control.lifecycle, w'.next)
  {
    var t, places, l, next := w.table, w.places, w.control.lifecycle, w.next;
    if a.AcquireLease? {
      var c := a.client;
      RemovalKeepsPlaced(t, places, l, next, {c}, Connection(a.connection));
      if c in t { UpdateKeepsPlaced(t, places, l, next, c, Leased(t[c], w.now)); }
    } else {
      var c := w.leases[a.id].client;
      if c in t && t[c].leases > 0 { UpdateKeepsPlaced(t, places, l, next, c, Released(t[c], w.now)); }
    }
  }

  lemma OthersKeepPlaced(w: World, a: Action)
    requires Enabled(w, a) && !ByEnsurer(a)
    requires Placed(w.table, w.places, w.control.lifecycle, w.next)
    ensures
      var w' := Perform(w, a);
      Placed(w'.table, w'.places, w'.control.lifecycle, w'.next)
  {
    var t, places, l, next := w.table, w.places, w.control.lifecycle, w.next;
    match a
    case AcquireLease(_, _, _, _) => LeasesKeepPlaced(w, a);
    case DropLease(_) => LeasesKeepPlaced(w, a);
    case Reap(observed, at) => RemovalKeepsPlaced(t, places, l, next, Reapable(t, observed, at), Reaper);
    case TakeAll => RemovalKeepsPlaced(t, places, l, next, t.Keys, Closer);
    case _ =>
  }

  lemma RemovalKeepsGuarded(t: Table, l: Lifecycle, clients: set<ClientId>)
    requires Guarded(t, l)
    ensures Guarded(t - clients, l)
  {
    RemovalShrinks(t, clients);
  }

  lemma UpdateKeepsGuarded(t: Table, l: Lifecycle, c: ClientId, p: Process)
    requires Guarded(t, l) && c in t
    ensures Guarded(t[c := p], l)
  {
    SizeOfUpdate(t, c, p);
  }

  /** The capacity check leaves room for one more entry, or refuses. */
  lemma AdmitKeepsGuarded(w: World, victim: ClientId)
    requires Enabled(w, Admit(victim))
    requires Guarded(w.table, w.control.lifecycle)
    ensures Guarded(Perform(w, Admit(victim)).table, Perform(w, Admit(victim)).control.lifecycle)
  {
    if victim in w.table { RemovalOfOne(w.table, victim); }
  }

  /** An examination ends with the process touched or left alone, or goes on with the client's entry gone. */
  lemma ExamineChanges(w: World, seen: Inspection, socketReady: bool)
    requires w.control.lifecycle.Examining?
    ensures var w', t, c := PerformExamine(w, seen, socketReady), w.table, w.control.lifecycle.client;
            || (w'.control.lifecycle == Free && (w'.table == t || (c in t && w'.table == t[c := Kept(t[c], w.now)])))
            || (w'.control.lifecycle == Sweeping(c, w.control.lifecycle.launch) && w'.table == t - {c})
  {
  }

  lemma ExamineKeepsGuarded(w: World, seen: Inspection, socketReady: bool)
    requires w.control.lifecycle.Examining? && Guarded(w.table, w.control.lifecycle)
    ensures Guarded(PerformExamine(w, seen, socketReady).table, PerformExamine(w, seen, socketReady).control.lifecycle)
  {
    var w', t, c := PerformExamine(w, seen, socketReady), w.table, w.control.lifecycle.client;
    ExamineChanges(w, seen, socketReady);
    if w'.control.lifecycle.Sweeping? {
      RemovalKeepsGuarded(t, w.control.lifecycle, {c});
    } else if c in t {
      UpdateKeepsGuarded(t, w.control.lifecycle, c, Kept(t[c], w.now));
    }
  }

  lemma InsertKeepsGuarded(w: World)
    requires w.control.lifecycle.Inserting? && Guarded(w.table, w.control.lifecycle)
    ensures Guarded(PerformInsert(w).table, PerformInsert(w).control.lifecycle)
  {
    var l := w.control.lifecycle;
    SizeOfUpdate(w.table, l.client, NewProcess(l.instance, l.launch, l.readyAt));
  }

  lemma EnsurerKeepsGuarded(w: World, a: Action)
    requires Enabled(w, a) && ByEnsurer(a)
    requires Guarded(w.table, w.control.lifecycle)
    ensures Guarded(Perform(w, a).table, Perform(w, a).control.lifecycle)
  {
    match a
    case Examine(seen, socketReady) => ExamineKeepsGuarded(w, seen, socketReady);
    case Sweep(observed) => RemovalKeepsGuarded(w.table, w.control.lifecycle, SeenExited(w.table, observed));
    case Admit(victim) => AdmitKeepsGuarded(w, victim);
    case Insert => InsertKeepsGuarded(w);
    case _ => StepKeepsGuarded(w, a);
  }

  lemma StepKeepsGuarded(w: World, a: Action)
    requires Enabled(w, a) && (a.EnsureWorker? || a.Number? || a.Spawn? || a.BecomeReady?)
    requires Guarded(w.table, w.control.lifecycle)
    ensures Guarded(Perform(w, a).table, Perform(w, a).control.lifecycle)
  {
    QuietKeepsTable(w, a);
    if a.EnsureWorker? || a.Number? { EarlyStepKeepsClient(w, a); } else { LateStepKeepsClient(w, a); }
  }

  /** A client in hand stays in hand, and so does the room reserved for it. */
  ghost predicate HeldOn(l: Lifecycle, l': Lifecycle) {
    && (ClientAbsent(l') ==> ClientAbsent(l) && l'.client == l.client)
    && (RoomReserved(l') ==> RoomReserved(l))
  }

  lemma EarlyStepKeepsClient(w: World, a: Action)
    requires Enabled(w, a) && (a.EnsureWorker? || a.Number?)
    ensures HeldOn(w.control.lifecycle, Perform(w, a).control.lifecycle)
  {
  }

  lemma LateStepKeepsClient(w: World, a: Action)
    requires Enabled(w, a) && (a.Spawn? || a.BecomeReady?)
    ensures HeldOn(w.control.lifecycle, Perform(w, a).control.lifecycle)
  {
  }

  /** An acquisition leaves the table alone, removes the client's process or leases it once more. */
  lemma AcquireChanges(w: World, id: LeaseId, c: ClientId, seen: Inspection, connection: nat)
    ensures var w' := PerformAcquire(w, id, c, seen, connection);
            && w'.control == w.control
            && (w'.table == w.table || w'.table == w.table - {c} || (c in w.table && w'.table == w.table[c := Leased(w.table[c], w.now)]))
  {
  }

  lemma AcquireKeepsGuarded(w: World, id: LeaseId, c: ClientId, seen: Inspection, connection: nat)
    requires Guarded(w.table, w.control.lifecycle)
    ensures var w' := PerformAcquire(w, id, c, seen, connection);
            w'.control == w.control && Guarded(w'.table, w'.control.lifecycle)
  {
    AcquireChanges(w, id, c, seen, connection);
    RemovalKeepsGuarded(w.table, w.control.lifecycle, {c});
    if c in w.table { UpdateKeepsGuarded(w.table, w.control.lifecycle, c, Leased(w.table[c], w.now)); }
  }

  lemma LeasesKeepGuarded(w: World, a: Action)
    requires Enabled(w, a) && (a.AcquireLease? || a.DropLease?)
    requires Guarded(w.table, w.control.lifecycle)
    ensures Guarded(Perform(w, a).table, Perform(w, a).control.lifecycle)
  {
    match a
    case AcquireLease(id, c, seen, connection) => AcquireKeepsGuarded(w, id, c, seen, connection);
    case DropLease(id) =>
      var c := w.leases[id].client;
      if c in w.table && w.table[c].leases > 0 { UpdateKeepsGuarded(w.table, w.control.lifecycle, c, Released(w.table[c], w.now)); }
  }

  lemma RemovalsKeepGuarded(w: World, a: Action)
    requires Enabled(w, a) && (a.Reap? || a.TakeAll?)
    requires Guarded(w.table, w.control.lifecycle)
    ensures Guarded(Perform(w, a).table, Perform(w, a).control.lifecycle)
  {
    var clients := if a.Reap? then Reapable(w.table, a.observed, a.at) else w.table.Keys;
    RemovalKeepsGuarded(w.table, w.control.lifecycle, clients);
  }

  lemma OthersKeepGuarded(w: World, a: Action)
    requires Enabled(w, a) && !ByEnsurer(a)
    requires Guarded(w.table, w.control.lifecycle)
    ensures Guarded(Perform(w, a).table, Perform(w, a).control.lifecycle)
  {
    match a
    case AcquireLease(_, _, _, _) => LeasesKeepGuarded(w, a);
    case DropLease(_) => LeasesKeepGuarded(w, a);
    case Reap(_, _) => RemovalsKeepGuarded(w, a);
    case TakeAll => RemovalsKeepGuarded(w, a);
    case _ =>
  }

  lemma KeepsClosing(w: World, a: Action)
    requires Enabled(w, a)
    requires Closing(w.table, w.control)
    ensures Closing(Perform(w, a).table, Perform(w, a).control)
  {
    if ByEnsurer(a) {
      EnsurerKeepsClosing(w, a);
    } else if a.TakeAll? {
      assert w.table - w.table.Keys == map[];
    }
  }

  lemma ExamineKeepsClosing(w: World, seen: Inspection, socketReady: bool)
    requires w.control.lifecycle.Examining? && Closing(w.table, w.control)
    ensures Closing(PerformExamine(w, seen, socketReady).table, PerformExamine(w, seen, socketReady).control)
  {
  }

  lemma AdmitKeepsClosing(w: World, victim: ClientId)
    requires w.control.lifecycle.Admitting? && Closing(w.table, w.control)
    ensures Closing(PerformAdmit(w, victim).table, PerformAdmit(w, victim).control)
  {
  }

  lemma InsertKeepsClosing(w: World)
    requires w.control.lifecycle.Inserting? && Closing(w.table, w.control)
    ensures Closing(PerformInsert(w).table, PerformInsert(w).control)
  {
  }

  lemma EnsurerKeepsClosing(w: World, a: Action)
    requires Enabled(w, a) && ByEnsurer(a)
    requires Closing(w.table, w.control)
    ensures Closing(Perform(w, a).table, Perform(w, a).control)
  {
    match a
    case Examine(seen, socketReady) => ExamineKeepsClosing(w, seen, socketReady);
    case Admit(victim) => AdmitKeepsClosing(w, victim);
    case Insert => InsertKeepsClosing(w);
    case _ =>
  }

  lemma KeepsScheduled(w: World, a: Action)
    requires Enabled(w, a)
    requires Scheduled(w.table)
    ensures Scheduled(Perform(w, a).table)
  {
    if ByEnsurer(a) {
      EnsurerKeepsScheduled(w, a);
    } else if a.AcquireLease? {
      AcquireChanges(w, a.id, a.client, a.seen, a.connection);
    } else if a.DropLease? {
      DropKeepsScheduled(w, a.id);
    }
  }

  lemma DropKeepsScheduled(w: World, id: LeaseId)
    requires id in w.leases && Scheduled(w.table)
    ensures Scheduled(PerformDrop(w, id).table)
  {
  }

  lemma EnsurerKeepsScheduled(w: World, a: Action)
    requires Enabled(w, a) && ByEnsurer(a)
    requires Scheduled(w.table)
    ensures Scheduled(Perform(w, a).table)
  {
    match a
    case Examine(seen, socketReady) => ExamineKeepsScheduled(w, seen, socketReady);
    case _ =>
  }

  lemma ExamineKeepsScheduled(w: World, seen: Inspection, socketReady: bool)
    requires w.control.lifecycle.Examining? && Scheduled(w.table)
    ensures Scheduled(PerformExamine(w, seen, socketReady).table)
  {
  }

  lemma KeepsIssued(w: World, a: Action)
    requires Enabled(w, a)
    requires Placed(w.table, w.places, w.control.lifecycle, w.next)
    requires Issued(w.leases, w.places)
    ensures Issued(Perform(w, a).leases, Perform(w, a).places)
  {
    if ByEnsurer(a) { EnsurerKeepsIssued(w, a); }
  }

  lemma HandedKeepsIssued(leases: map<LeaseId, LeaseKey>, places: map<InstanceId, Place>, clients: set<ClientId>, a: Actor)
    requires Issued(leases, places)
    ensures Issued(leases, Handed(places, clients, a))
  {
  }

  lemma PlacedAgainKeepsIssued(leases: map<LeaseId, LeaseKey>, places: map<InstanceId, Place>, i: InstanceId, p: Place)
    requires Issued(leases, places) && (p == Starting ==> i !in places)
    ensures Issued(leases, places[i := p])
  {
  }

  lemma EnsurerKeepsIssued(w: World, a: Action)
    requires Enabled(w, a) && ByEnsurer(a)
    requires Placed(w.table, w.places, w.control.lifecycle, w.next)
    requires Issued(w.leases, w.places)
    ensures Issued(Perform(w, a).leases, Perform(w, a).places)
  {
    var l := w.control.lifecycle;
    match a
    case Examine(_, _) => HandedKeepsIssued(w.leases, w.places, {l.client}, Ensurer);
    case Sweep(observed) => HandedKeepsIssued(w.leases, w.places, SeenExited(w.table, observed), Ensurer);
    case Admit(victim) => HandedKeepsIssued(w.leases, w.places, {victim}, Ensurer);
    case Spawn(_) => PlacedAgainKeepsIssued(w.leases, w.places, l.instance, Starting);
    case BecomeReady(_) => PlacedAgainKeepsIssued(w.leases, w.places, l.instance, Stopped);
    case Insert =>
      HandedKeepsIssued(w.leases, w.places, {l.client}, Ensurer);
      PlacedAgainKeepsIssued(w.leases, Handed(w.places, {l.client}, Ensurer), l.instance, InTable(l.client));
    case _ =>
  }

  lemma HoldersOfNew(leases: map<LeaseId, LeaseKey>, id: LeaseId, key: LeaseKey, other: LeaseKey)
    requires id !in leases
    ensures |Holders(leases[id := key], other)| == |Holders(leases, other)| + (if other == key then 1 else 0)
  {
    var after := Holders(leases[id := key], other);
    if other == key {
      assert after == Holders(leases, other) + {id};
    } else {
      assert after == Holders(leases, other);
    }
  }

  lemma HoldersOfDropped(leases: map<LeaseId, LeaseKey>, id: LeaseId, other: LeaseKey)
    requires id in leases
    ensures |Holders(leases, other)| == |Holders(leases - {id}, other)| + (if other == leases[id] then 1 else 0)
  {
    assert (leases - {id})[id := leases[id]] == leases;
    HoldersOfNew(leases - {id}, id, leases[id], other);
  }

  lemma AcquireKeepsCounted(t: Table, leases: map<LeaseId, LeaseKey>, id: LeaseId, c: ClientId, now: Instant)
    requires Counted(t, leases) && c in t && id !in leases
    ensures Counted(t[c := Leased(t[c], now)], leases[id := LeaseKey(c, t[c].instance)])
  {
    var key := LeaseKey(c, t[c].instance);
    forall d | d in t
      ensures |Holders(leases[id := key], LeaseKey(d, t[d].instance))|
           == |Holders(leases, LeaseKey(d, t[d].instance))| + (if d == c then 1 else 0)
    {
      HoldersOfNew(leases, id, key, LeaseKey(d, t[d].instance));
    }
  }

  lemma DropKeepsCounted(t: Table, leases: map<LeaseId, LeaseKey>, id: LeaseId, now: Instant)
    requires Counted(t, leases) && id in leases
    ensures
      var key := leases[id];
      && !Return(t, key.client, key.instance, now).1.Underflow?
      && Counted(Return(t, key.client, key.instance, now).0, leases - {id})
  {
    var key := leases[id];
    assert id in Holders(leases, key);
    forall d | d in t
      ensures |Holders(leases, LeaseKey(d, t[d].instance))|
           == |Holders(leases - {id}, LeaseKey(d, t[d].instance))| + (if LeaseKey(d, t[d].instance) == key then 1 else 0)
    {
      HoldersOfDropped(leases, id, LeaseKey(d, t[d].instance));
    }
  }

  lemma InsertKeepsCounted(t: Table, leases: map<LeaseId, LeaseKey>, c: ClientId, p: Process)
    requires Counted(t, leases) && p.leases == 0
    requires forall l | l in leases :: leases[l].instance != p.instance
    ensures Counted(t[c := p], leases)
  {
    assert Holders(leases, LeaseKey(c, p.instance)) == {};
  }

  lemma RemovalKeepsCounted(t: Table, leases: map<LeaseId, LeaseKey>, clients: set<ClientId>)
    requires Counted(t, leases)
    ensures Counted(t - clients, leases)
  {
  }

  lemma AcquisitionKeepsCounted(w: World, id: LeaseId, c: ClientId, seen: Inspection, connection: nat)
    requires Counted(w.table, w.leases) && id !in w.leases
    ensures Counted(PerformAcquire(w, id, c, seen, connection).table, PerformAcquire(w, id, c, seen, connection).leases)
  {
    RemovalKeepsCounted(w.table, w.leases, {c});
    if c in w.table { AcquireKeepsCounted(w.table, w.leases, id, c, w.now); }
  }

  lemma ExamineKeepsCounted(w: World, seen: Inspection, socketReady: bool)
    requires w.control.lifecycle.Examining? && Counted(w.table, w.leases)
    ensures Counted(PerformExamine(w, seen, socketReady).table, PerformExamine(w, seen, socketReady).leases)
  {
    RemovalKeepsCounted(w.table, w.leases, {w.control.lifecycle.client});
  }

  lemma EnsurerKeepsCounted(w: World, a: Action)
    requires Enabled(w, a) && ByEnsurer(a)
    requires Placed(w.table, w.places, w.control.lifecycle, w.next)
    requires Counted(w.table, w.leases) && Issued(w.leases, w.places)
    ensures Counted(Perform(w, a).table, Perform(w, a).leases)
  {
    var l := w.control.lifecycle;
    match a
    case Examine(seen, socketReady) => ExamineKeepsCounted(w, seen, socketReady);
    case Sweep(observed) => RemovalKeepsCounted(w.table, w.leases, SeenExited(w.table, observed));
    case Admit(victim) => RemovalKeepsCounted(w.table, w.leases, {victim});
    case Insert => InsertKeepsCounted(w.table, w.leases, l.client, NewProcess(l.instance, l.launch, l.readyAt));
    case _ =>
  }

  lemma KeepsCounted(w: World, a: Action)
    requires Enabled(w, a)
    requires Placed(w.table, w.places, w.control.lifecycle, w.next)
    requires Counted(w.table, w.leases) && Issued(w.leases, w.places)
    ensures Counted(Perform(w, a).table, Perform(w, a).leases)
  {
    if ByEnsurer(a) {
      EnsurerKeepsCounted(w, a);
    } else if a.AcquireLease? {
      AcquisitionKeepsCounted(w, a.id, a.client, a.seen, a.connection);
    } else if a.DropLease? {
      DropKeepsCounted(w.table, w.leases, a.id, w.now);
    }
  }

  lemma ActionIsSafe(w: World, a: Action)
    requires Safe(w) && Enabled(w, a)
    ensures Safe(Perform(w, a))
  {
    if ByEnsurer(a) {
      EnsurerKeepsPlaced(w, a);
      EnsurerKeepsGuarded(w, a);
    } else {
      OthersKeepPlaced(w, a);
      OthersKeepGuarded(w, a);
    }
    KeepsClosing(w, a);
    KeepsScheduled(w, a);
    KeepsIssued(w, a);
    KeepsCounted(w, a);
  }

  // ---------------------------------------------------------------- what it means for whole runs

  /** A run: any interleaving of the actions of all threads. */
  ghost predicate IsRun(worlds: seq<World>, actions: seq<Action>) {
    && |worlds| == |actions| + 1
    && worlds[0] == START
    && forall i {:trigger actions[i]} | 0 <= i < |actions| :: Enabled(worlds[i], actions[i]) && worlds[i + 1] == Perform(worlds[i], actions[i])
  }

  lemma StartIsSafe()
    ensures Safe(START)
  {
  }

  lemma {:induction false} RunIsSafe(worlds: seq<World>, actions: seq<Action>, i: nat)
    requires IsRun(worlds, actions) && i < |worlds|
    ensures Safe(worlds[i])
  {
    if i == 0 {
      StartIsSafe();
    } else {
      RunIsSafe(worlds, actions, i - 1);
      ActionIsSafe(worlds[i - 1], actions[i - 1]);
    }
  }

  /**
   In every reachable world: counts are exact, deadlines mark idle processes, the table
   holds at most 16 entries and exactly the processes placed in it, one client each.
   */
  lemma ReachableWorldIsConsistent(worlds: seq<World>, actions: seq<Action>, i: nat, c: ClientId)
    requires IsRun(worlds, actions) && i < |worlds|
    ensures |worlds[i].table| <= 16
    ensures c in worlds[i].table ==>
              var p := worlds[i].table[c];
              && p.leases == |set l | l in worlds[i].leases && worlds[i].leases[l] == LeaseKey(c, p.instance)|
              && (p.deadline.Some? <==> p.leases == 0)
              && p.instance in worlds[i].places && worlds[i].places[p.instance] == InTable(c)
  {
    RunIsSafe(worlds, actions, i);
    if c in worlds[i].table {
      var key := LeaseKey(c, worlds[i].table[c].instance);
      assert Holders(worlds[i].leases, key) == set l | l in worlds[i].leases && worlds[i].leases[l] == key;
    }
  }

  /** Dropping a lease never underflows, and touches no process but the one it was taken on. */
  lemma DropTouchesOnlyItsOwn(worlds: seq<World>, actions: seq<Action>, i: nat, c: ClientId)
    requires IsRun(worlds, actions) && i < |actions| && actions[i].DropLease?
    requires c in worlds[i].table
    ensures
      var key := worlds[i].leases[actions[i].id];
      && !Return(worlds[i].table, key.client, key.instance, worlds[i].now).1.Underflow?
      && c in worlds[i + 1].table
      && (LeaseKey(c, worlds[i].table[c].instance) != key ==> worlds[i + 1].table[c] == worlds[i].table[c])
      && (LeaseKey(c, worlds[i].table[c].instance) == key ==> worlds[i + 1].table[c].leases == worlds[i].table[c].leases - 1)
  {
    RunIsSafe(worlds, actions, i);
    DropKeepsCounted(worlds[i].table, worlds[i].leases, actions[i].id, worlds[i].now);
  }

  /** The insertion that ends a start finds its client absent and room for one entry. */
  lemma InsertionNeverDisplaces(worlds: seq<World>, actions: seq<Action>, i: nat)
    requires IsRun(worlds, actions) && i < |actions| && actions[i].Insert?
    ensures worlds[i].control.lifecycle.client !in worlds[i].table && |worlds[i].table| < 16
    ensures forall k | k in worlds[i].places && worlds[i].places[k] != Starting :: worlds[i + 1].places[k] == worlds[i].places[k]
  {
    RunIsSafe(worlds, actions, i);
    InsertDisplacesNothing(worlds[i]);
  }

  /** The only moves a process can make from one place to the next. */
  predicate LegalMove(p: Place, q: Place) {
    || p == q
    || (p.Starting? && (q.InTable? || q.Stopped?))
    || (p.InTable? && q.HeldBy?)
    || (p.HeldBy? && q.Stopped?)
  }

  /** No process is ever lost: it stays known, moves only forward, and is stopped once. */
  lemma ProcessesMoveForward(worlds: seq<World>, actions: seq<Action>, i: nat, k: InstanceId)
    requires IsRun(worlds, actions) && i < |actions| && k in worlds[i].places
    ensures k in worlds[i + 1].places && LegalMove(worlds[i].places[k], worlds[i + 1].places[k])
  {
    RunIsSafe(worlds, actions, i);
    MovesAreLegal(worlds[i], actions[i], k);
  }

  lemma MovesAreLegal(w: World, a: Action, k: InstanceId)
    requires Enabled(w, a) && k in w.places
    requires Placed(w.table, w.places, w.control.lifecycle, w.next)
    requires Guarded(w.table, w.control.lifecycle)
    ensures k in Perform(w, a).places && LegalMove(w.places[k], Perform(w, a).places[k])
  {
    if ByEnsurer(a) { EnsurerMovesAreLegal(w, a, k); }
  }

  lemma EnsurerMovesAreLegal(w: World, a: Action, k: InstanceId)
    requires Enabled(w, a) && ByEnsurer(a) && k in w.places
    requires Placed(w.table, w.places, w.control.lifecycle, w.next)
    requires Guarded(w.table, w.control.lifecycle)
    ensures k in Perform(w, a).places && LegalMove(w.places[k], Perform(w, a).places[k])
  {
    if a.Insert? {
      InsertDisplacesNothing(w);
    } else if a.Examine? || a.Sweep? || a.Admit? {
      RemovalMovesAreLegal(w, a, k);
    }
  }

  lemma RemovalMovesAreLegal(w: World, a: Action, k: InstanceId)
    requires Enabled(w, a) && (a.Examine? || a.Sweep? || a.Admit?) && k in w.places
    ensures k in Perform(w, a).places && LegalMove(w.places[k], Perform(w, a).places[k])
  {
  }

  /** The reasons for which a process may leave the table. */
  ghost predicate MayLeave(w: World, a: Action, c: ClientId)
    requires Enabled(w, a)
  {
    c in w.table &&
    var p := w.table[c];
    match a
    case Examine(_, _) => c == w.control.lifecycle.client
    case Sweep(_) => p.instance in w.exited
    case Admit(_) => |w.table| >= MAX_PROCESSES && IsVictim(w.table, c)
    case AcquireLease(_, _, _, _) => p.instance in w.exited
    case Reap(_, _) => p.instance in w.exited || (p.leases == 0 && p.deadline.Some? && p.deadline.value <= w.now)
    case TakeAll => true
    case _ => false
  }

  lemma AcquireRemovesExited(w: World, id: LeaseId, c: ClientId, seen: Inspection, connection: nat, d: ClientId)
    requires Truthful(w, c, seen) && d in w.table
    ensures d !in PerformAcquire(w, id, c, seen, connection).table ==> w.table[d].instance in w.exited
    ensures d in PerformAcquire(w, id, c, seen, connection).table ==> PerformAcquire(w, id, c, seen, connection).table[d].instance == w.table[d].instance
  {
  }

  lemma DropRemovesNothing(w: World, id: LeaseId, d: ClientId)
    requires id in w.leases && d in w.table
    ensures d in PerformDrop(w, id).table && PerformDrop(w, id).table[d].instance == w.table[d].instance
  {
  }

  lemma LeasesRemoveWithReason(w: World, a: Action, c: ClientId)
    requires Enabled(w, a) && (a.AcquireLease? || a.DropLease?)
    requires c in w.table
    requires c in Perform(w, a).table ==> Perform(w, a).table[c].instance != w.table[c].instance
    ensures MayLeave(w, a, c)
  {
    if a.AcquireLease? {
      AcquireRemovesExited(w, a.id, a.client, a.seen, a.connection, c);
    } else {
      DropRemovesNothing(w, a.id, c);
    }
  }

  lemma RemovalsAreJustified(w: World, a: Action, c: ClientId)
    requires Safe(w) && Enabled(w, a)
    requires c in w.table
    requires c in Perform(w, a).table ==> Perform(w, a).table[c].instance != w.table[c].instance
    ensures MayLeave(w, a, c)
  {
    if ByEnsurer(a) {
      EnsurerRemovesWithReason(w, a, c);
    } else if a.AcquireLease? || a.DropLease? {
      LeasesRemoveWithReason(w, a, c);
    } else {
      OthersRemoveWithReason(w, a, c);
    }
  }

  lemma OthersRemoveWithReason(w: World, a: Action, c: ClientId)
    requires Enabled(w, a) && !ByEnsurer(a) && !a.AcquireLease? && !a.DropLease?
    requires c in w.table
    requires c in Perform(w, a).table ==> Perform(w, a).table[c].instance != w.table[c].instance
    ensures MayLeave(w, a, c)
  {
  }

  lemma ExamineTouchesOwnClient(w: World, seen: Inspection, socketReady: bool, c: ClientId)
    requires w.control.lifecycle.Examining? && c in w.table && c != w.control.lifecycle.client
    ensures c in PerformExamine(w, seen, socketReady).table && PerformExamine(w, seen, socketReady).table[c] == w.table[c]
  {
  }

  lemma AdmitTouchesVictim(w: World, victim: ClientId, c: ClientId)
    requires w.control.lifecycle.Admitting? && c in w.table
    ensures c !in PerformAdmit(w, victim).table ==> |w.table| >= MAX_PROCESSES && !AllLeased(w.table) && c == victim
    ensures c in PerformAdmit(w, victim).table ==> PerformAdmit(w, victim).table[c] == w.table[c]
  {
  }

  lemma QuietKeepsTable(w: World, a: Action)
    requires Enabled(w, a) && (a.EnsureWorker? || a.Number? || a.Spawn? || a.BecomeReady?)
    ensures Perform(w, a).table == w.table
  {
  }

  lemma EnsurerRemovesWithReason(w: World, a: Action, c: ClientId)
    requires Placed(w.table, w.places, w.control.lifecycle, w.next) && Guarded(w.table, w.control.lifecycle)
    requires Enabled(w, a) && ByEnsurer(a)
    requires c in w.table
    requires c in Perform(w, a).table ==> Perform(w, a).table[c].instance != w.table[c].instance
    ensures MayLeave(w, a, c)
  {
    match a
    case Examine(seen, socketReady) =>
      if c != w.control.lifecycle.client { ExamineTouchesOwnClient(w, seen, socketReady, c); }
    case Admit(victim) => AdmitTouchesVictim(w, victim, c);
    case Insert => InsertDisplacesNothing(w);
    case Sweep(_) =>
    case _ => QuietKeepsTable(w, a);
  }

  /**
   A reconnected process is safe: while a lease on it is out and it has not exited, only a
   restart of its own client or a shutdown can take it from the table.
   */
  lemma LeasedProcessStays(worlds: seq<World>, actions: seq<Action>, i: nat, id: LeaseId)
    requires IsRun(worlds, actions) && i < |actions| && id in worlds[i].leases
    requires
      var key := worlds[i].leases[id];
      && key.client in worlds[i].table && worlds[i].table[key.client].instance == key.instance
      && key.instance !in worlds[i].exited
      && !actions[i].TakeAll?
      && (actions[i].Examine? ==> worlds[i].control.lifecycle.client != key.client)
    ensures
      var key := worlds[i].leases[id];
      key.client in worlds[i + 1].table && worlds[i + 1].table[key.client].instance == key.instance
  {
    RunIsSafe(worlds, actions, i);
    var w, a, key := worlds[i], actions[i], worlds[i].leases[id];
    assert id in Holders(w.leases, key);
    if !(key.client in worlds[i + 1].table && worlds[i + 1].table[key.client].instance == key.instance) {
      RemovalsAreJustified(w, a, key.client);
    }
  }

  lemma ClosedStays(w: World, a: Action)
    requires Enabled(w, a)
    ensures w.control.closed ==> Perform(w, a).control.closed
  {
  }

  lemma {:induction false} ClosedForever(worlds: seq<World>, actions: seq<Action>, i: nat, j: nat)
    requires IsRun(worlds, actions) && i <= j < |worlds|
    requires worlds[i].control.closed
    ensures worlds[j].control.closed
  {
    if i < j {
      ClosedForever(worlds, actions, i, j - 1);
      ClosedStays(worlds[j - 1], actions[j - 1]);
    }
  }

  /** Once a shutdown has returned the table is empty in every later world. */
  lemma ShutdownIsFinal(worlds: seq<World>, actions: seq<Action>, i: nat, j: nat)
    requires IsRun(worlds, actions) && i <= j < |worlds|
    requires worlds[i].control.closed
    ensures worlds[j].table == map[]
  {
    ClosedForever(worlds, actions, i, j);
    RunIsSafe(worlds, actions, j);
  }
}
