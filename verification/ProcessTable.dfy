/**
 The mutex-guarded table of app-server processes: what each critical section does
 to it, as functions on the table value and as methods that update it in place.
 */
module ProcessTable {
  import opened Basics

  type ClientId = string
  type InstanceId = nat
  type Instant = nat   // milliseconds on a clock that never runs backwards

  const MAX_PROCESSES := 16
  const MAX_LEASES := U64_LIMIT - 1
  const DISCONNECTED_GRACE := 2_000
  const UNCONNECTED_TIMEOUT := 15_000

  /** What a caller asked for: the entry and proxy endpoint a process was started with. */
  datatype Launch = Launch(entryId: string, proxyHost: string, proxyPort: nat)

  datatype Process = Process(
    instance: InstanceId,
    launch: Launch,
    leases: nat,
    deadline: Option<Instant>,
    lastTouched: Instant
  )

  type Table = map<ClientId, Process>

  /** What inspecting a child without reaping it reported. */
  datatype Inspection = Running | Exited | Failed

  lemma RemovalShrinks(t: Table, clients: set<ClientId>)
    ensures |t - clients| <= |t|
  {
    assert (t - clients).Keys == t.Keys - clients;
    assert t.Keys == (t.Keys - clients) + (t.Keys * clients);
  }

  lemma RemovalOfOne(t: Table, c: ClientId)
    requires c in t
    ensures |t - {c}| == |t| - 1
  {
    assert (t - {c}).Keys == t.Keys - {c};
  }

  lemma SizeOfUpdate(t: Table, c: ClientId, p: Process)
    ensures |t[c := p]| == |t| + (if c in t then 0 else 1)
  {
    assert t[c := p].Keys == t.Keys + {c};
  }

  function NewProcess(instance: InstanceId, launch: Launch, now: Instant): Process {
    Process(instance, launch, 0, Some(now + UNCONNECTED_TIMEOUT), now)
  }

  /** Reuse by `ensure`: touched, and given a new connection deadline while idle. */
  function Kept(p: Process, now: Instant): Process {
    p.(lastTouched := now,
       deadline := if p.leases == 0 then Some(now + UNCONNECTED_TIMEOUT) else p.deadline)
  }

  function Leased(p: Process, now: Instant): Process {
    p.(leases := p.leases + 1, deadline := None, lastTouched := now)
  }

  function Released(p: Process, now: Instant): Process
    requires p.leases > 0
  {
    p.(leases := p.leases - 1, lastTouched := now,
       deadline := if p.leases == 1 then Some(now + DISCONNECTED_GRACE) else p.deadline)
  }

  predicate Expired(p: Process, now: Instant) {
    p.leases == 0 && p.deadline.Some? && p.deadline.value <= now
  }

  /** Clients whose process was seen to have exited. */
  function SeenExited(t: Table, seen: set<InstanceId>): set<ClientId> {
    set c | c in t && t[c].instance in seen
  }

  function Reapable(t: Table, seen: set<InstanceId>, now: Instant): set<ClientId> {
    set c | c in t && (t[c].instance in seen || Expired(t[c], now))
  }

  /** The eviction victim: idle, and touched no later than any other idle process. */
  predicate IsVictim(t: Table, c: ClientId) {
    && c in t && t[c].leases == 0
    && forall d | d in t && t[d].leases == 0 :: t[c].lastTouched <= t[d].lastTouched
  }

  predicate AllLeased(t: Table) {
    forall d | d in t :: t[d].leases > 0
  }

  datatype Acquisition = Acquired(instance: InstanceId) | NotRunning | InspectionError | ExitedEarly(removed: Process) | TooMany

  /** One lease request against the table. */
  function Acquire(t: Table, c: ClientId, seen: Inspection, now: Instant): (Table, Acquisition) {
    if c !in t then (t, NotRunning)
    else match seen
      case Failed => (t, InspectionError)
      case Exited => (t - {c}, ExitedEarly(t[c]))
      case Running =>
        if t[c].leases >= MAX_LEASES then (t, TooMany)
        else (t[c := Leased(t[c], now)], Acquired(t[c].instance))
  }

  datatype Release = Gone | Foreign | Underflow | Done

  /** One lease returned to the table. */
  function Return(t: Table, c: ClientId, instance: InstanceId, now: Instant): (Table, Release) {
    if c !in t then (t, Gone)
    else if t[c].instance != instance then (t, Foreign)
    else if t[c].leases == 0 then (t, Underflow)
    else (t[c := Released(t[c], now)], Done)
  }

  /** Every client but one has the process it had, or still none. */
  ghost predicate OthersKept(before: Table, after: Table, c: ClientId) {
    forall d | d != c :: (d in after <==> d in before) && (d in before ==> after[d] == before[d])
  }

  /** The table object; each method is one critical section of its mutex. */
  class ProcessMap {
    var processes: Table

    constructor ()
      ensures processes == map[]
    {
      processes := map[];
    }

    /**
     A running process gets one lease more and loses its deadline; one that has exited is taken
     out of the table and handed to the caller; in every other case nothing changes.
     */
    method AcquireProcessLease(c: ClientId, seen: Inspection, now: Instant) returns (result: Acquisition)
      modifies this
      ensures result.NotRunning? <==> c !in old(processes)
      ensures c in old(processes) ==>
        && (result.InspectionError? <==> seen.Failed?)
        && (result.ExitedEarly? <==> seen.Exited?)
        && (result.TooMany? <==> seen.Running? && old(processes)[c].leases >= MAX_LEASES)
      ensures result.Acquired? ==>
        && c in processes && c in old(processes) && result.instance == processes[c].instance
        && processes[c].instance == old(processes)[c].instance && processes[c].launch == old(processes)[c].launch
        && processes[c].leases == old(processes)[c].leases + 1 && processes[c].leases <= MAX_LEASES
        && processes[c].deadline.None? && processes[c].lastTouched == now
      ensures result.ExitedEarly? ==> c !in processes && c in old(processes) && result.removed == old(processes)[c]
      ensures !result.Acquired? && !result.ExitedEarly? ==> processes == old(processes)
      ensures OthersKept(old(processes), processes, c)
      ensures (processes, result) == Acquire(old(processes), c, seen, now)
    {
      if c !in processes {
        return NotRunning;
      }
      var process := processes[c];
      if seen == Failed {
        return InspectionError;
      }
      if seen == Exited {
        processes := processes - {c};
        return ExitedEarly(process);
      }
      if process.leases >= MAX_LEASES {
        return TooMany;
      }
      process := process.(leases := process.leases + 1);
      process := process.(deadline := None);
      process := process.(lastTouched := now);
      processes := processes[c := process];
      return Acquired(process.instance);
    }

    /**
     A process of this very instance loses one lease, and with its last one gets a deadline; a
     process that is gone, of another instance or without leases is left alone.
     */
    method ReleaseProcessLease(c: ClientId, instance: InstanceId, now: Instant) returns (result: Release)
      modifies this
      ensures result.Gone? <==> c !in old(processes)
      ensures result.Foreign? <==> c in old(processes) && old(processes)[c].instance != instance
      ensures result.Underflow? <==> c in old(processes) && old(processes)[c].instance == instance && old(processes)[c].leases == 0
      ensures result.Done? ==>
        && c in processes && c in old(processes) && processes[c].instance == instance
        && processes[c].leases + 1 == old(processes)[c].leases && processes[c].lastTouched == now
        && processes[c].launch == old(processes)[c].launch
        && processes[c].deadline == (if processes[c].leases == 0 then Some(now + DISCONNECTED_GRACE) else old(processes)[c].deadline)
      ensures !result.Done? ==> processes == old(processes)
      ensures OthersKept(old(processes), processes, c)
      ensures (processes, result) == Return(old(processes), c, instance, now)
    {
      if c !in processes {
        return Gone;
      }
      var process := processes[c];
      if process.instance != instance {
        return Foreign;
      }
      if process.leases == 0 {
        return Underflow;
      }
      process := process.(leases := process.leases - 1);
      process := process.(lastTouched := now);
      if process.leases == 0 {
        process := process.(deadline := Some(now + DISCONNECTED_GRACE));
      }
      processes := processes[c := process];
      return Done;
    }

    /** Collects the marked clients first and removes them one by one afterwards. */
    method RemoveAll(marked: set<ClientId>) returns (removed: seq<Process>)
      requires marked <= processes.Keys
      modifies this
      ensures processes == old(processes) - marked
      ensures forall p :: p in removed <==> exists c :: c in marked && old(processes)[c] == p
      ensures |removed| == |marked|
    {
      var todo := marked;
      removed := [];
      while todo != {}
        invariant todo <= marked
        invariant processes == old(processes) - (marked - todo)
        invariant forall p :: p in removed <==> exists c :: c in marked - todo && old(processes)[c] == p
        invariant |removed| == |marked| - |todo|
      {
        var c :| c in todo;
        assert c in processes;
        var before, rest := removed, todo - {c};
        removed := removed + [processes[c]];
        processes := processes - {c};
        assert marked - rest == (marked - todo) + {c};
        todo := rest;
      }
      assert marked - {} == marked;
    }

    method ReapIdleProcesses(seen: set<InstanceId>, now: Instant) returns (removed: seq<Process>)
      modifies this
      ensures processes == old(processes) - Reapable(old(processes), seen, now)
      ensures forall p :: p in removed ==> p.instance in seen || (p.leases == 0 && p.deadline.Some? && p.deadline.value <= now)
      ensures |removed| == |Reapable(old(processes), seen, now)|
    {
      var expired: set<ClientId> := {};
      var todo := processes.Keys;
      while todo != {}
        invariant todo <= processes.Keys
        invariant expired == set c | c in processes && c !in todo && (processes[c].instance in seen || Expired(processes[c], now))
      {
        var c :| c in todo;
        if processes[c].instance in seen || Expired(processes[c], now) {
          expired := expired + {c};
        }
        todo := todo - {c};
      }
      assert expired == Reapable(processes, seen, now);
      removed := RemoveAll(expired);
    }

    /** A full table gives up its least recently touched idle process, or refuses. */
    method MakeRoom() returns (evicted: Option<Process>, ok: bool)
      modifies this
      ensures |old(processes)| < MAX_PROCESSES ==> ok && evicted.None? && processes == old(processes)
      ensures |old(processes)| >= MAX_PROCESSES && AllLeased(old(processes)) ==> !ok && evicted.None? && processes == old(processes)
      ensures |old(processes)| >= MAX_PROCESSES && !AllLeased(old(processes)) ==>
                ok && evicted.Some? &&
                exists c :: IsVictim(old(processes), c) && evicted.value == old(processes)[c] && processes == old(processes) - {c}
    {
      if |processes| < MAX_PROCESSES {
        return None, true;
      }
      var best: Option<ClientId> := None;
      var todo := processes.Keys;
      while todo != {}
        invariant todo <= processes.Keys
        invariant best.None? ==> forall d | d in processes && d !in todo :: processes[d].leases > 0
        invariant best.Some? ==>
          && best.value in processes && processes[best.value].leases == 0
          && forall d | d in processes && d !in todo && processes[d].leases == 0 ::
               processes[best.value].lastTouched <= processes[d].lastTouched
      {
        var c :| c in todo;
        if processes[c].leases == 0 {
          if best.None? || processes[c].lastTouched < processes[best.value].lastTouched {
            best := Some(c);
          }
        }
        todo := todo - {c};
      }
      if best.None? {
        return None, false;
      }
      assert IsVictim(processes, best.value);
      evicted := Some(processes[best.value]);
      processes := processes - {best.value};
      return evicted, true;
    }
  }
}
