/**
 The authorization lease: three mutable fields that must behave as if the whole
 history of authority responses had been kept.
 */
module AuthorizationLease {
  import opened Basics

  /** A generation that the response parser can produce: a nonzero `u64`. */
  type Generation = g: int | 1 <= g < U64_LIMIT witness 1

  type Token = seq<Byte>

  datatype Denial = Unavailable | Invalid | TimedOut | Denied | Stale

  datatype Response =
    | Allow(generation: Generation, token: Token)
    | Deny(generation: Generation)

  datatype Verdict = Granted | Refused(denial: Denial)

  /** The fields of the lease, as a value. */
  datatype State = State(floor: nat, observed: Option<Token>, denied: bool)

  const INITIAL := State(0, None, false)

  function Step(s: State, r: Response): (State, Verdict) {
    match r
    case Allow(generation, token) =>
      if generation < s.floor then (s, Refused(Stale))
      else if generation == s.floor && s.floor != 0 then
        if !s.denied && s.observed == Some(token) then (s, Granted)
        else (s, Refused(Stale))
      else (State(generation, Some(token), false), Granted)
    case Deny(generation) =>
      if generation < s.floor then (s, Refused(Stale))
      else (State(generation, None, true), Refused(Denied))
  }

  /** The state after a whole history of responses, oldest first. */
  function After(history: seq<Response>): State {
    if history == [] then INITIAL
    else Step(After(history[..|history| - 1]), history[|history| - 1]).0
  }

  // ---------------------------------------------------------------- history rule

  ghost predicate AtLeastAll(g: int, history: seq<Response>) {
    forall i | 0 <= i < |history| :: history[i].generation <= g
  }

  /** `m` is the largest generation in the history, or 0 when there is none. */
  ghost predicate IsMaximum(m: nat, history: seq<Response>) {
    && AtLeastAll(m, history)
    && (m == 0 <==> history == [])
    && (history != [] ==> exists i :: 0 <= i < |history| && history[i].generation == m)
  }

  ghost predicate DeniedAt(g: int, history: seq<Response>) {
    exists i :: 0 <= i < |history| && history[i].Deny? && history[i].generation == g
  }

  ghost predicate AllowedAt(g: int, history: seq<Response>) {
    exists i :: 0 <= i < |history| && history[i].Allow? && history[i].generation == g
  }

  /** The earliest Allow that carried generation `g` carried this token. */
  ghost predicate FirstTokenAt(g: int, token: Token, history: seq<Response>) {
    exists i ::
      && 0 <= i < |history|
      && history[i].Allow? && history[i].generation == g && history[i].token == token
      && forall j | 0 <= j < i :: !(history[j].Allow? && history[j].generation == g)
  }

  /** The rule over the whole history that decides one more response. */
  ghost predicate MayGrant(history: seq<Response>, r: Response) {
    && r.Allow?
    && AtLeastAll(r.generation, history)
    && !DeniedAt(r.generation, history)
    && (AllowedAt(r.generation, history) ==> FirstTokenAt(r.generation, r.token, history))
  }

  /** What the three fields remember of a history. */
  ghost predicate Remembers(s: State, history: seq<Response>) {
    && IsMaximum(s.floor, history)
    && (s.denied <==> DeniedAt(s.floor, history))
    && (s.observed.Some? <==> history != [] && !s.denied)
    && (s.observed.Some? ==> FirstTokenAt(s.floor, s.observed.value, history))
  }

  lemma FirstTokenIsUnique(g: int, t0: Token, t1: Token, history: seq<Response>)
    requires FirstTokenAt(g, t0, history) && FirstTokenAt(g, t1, history)
    ensures t0 == t1
  {
    var i :| 0 <= i < |history| && history[i].Allow? && history[i].generation == g && history[i].token == t0
          && forall j | 0 <= j < i :: !(history[j].Allow? && history[j].generation == g);
    var k :| 0 <= k < |history| && history[k].Allow? && history[k].generation == g && history[k].token == t1
          && forall j | 0 <= j < k :: !(history[j].Allow? && history[j].generation == g);
    assert !(i < k) && !(k < i);
  }

  /** One response keeps the memory faithful, and its verdict follows the history rule. */
  lemma StepRemembers(s: State, history: seq<Response>, r: Response)
    requires Remembers(s, history)
    ensures Remembers(Step(s, r).0, history + [r])
    ensures Step(s, r).1 == Granted <==> MayGrant(history, r)
    ensures r.Deny? ==> Step(s, r).1 == Refused(if AtLeastAll(r.generation, history) then Denied else Stale)
    ensures r.Allow? && !MayGrant(history, r) ==> Step(s, r).1 == Refused(Stale)
  {
    var h' := history + [r];
    var g := r.generation;
    assert h'[|history|] == r;
    assert forall i | 0 <= i < |history| :: h'[i] == history[i];
    assert AtLeastAll(g, history) <==> s.floor <= g;
    assert DeniedAt(s.floor, h') <==> DeniedAt(s.floor, history) || (r.Deny? && g == s.floor);
    if s.floor < g {
      assert !DeniedAt(g, history) && !AllowedAt(g, history);
      assert FirstTokenAt(g, if r.Allow? then r.token else [], h') <==> r.Allow?;
    }
    if s.observed.Some? {
      var i :| 0 <= i < |history| && history[i].Allow? && history[i].generation == s.floor && history[i].token == s.observed.value
            && forall j | 0 <= j < i :: !(history[j].Allow? && history[j].generation == s.floor);
      assert h'[i] == history[i];
      assert FirstTokenAt(s.floor, s.observed.value, h');
      if r.Allow? && g == s.floor && FirstTokenAt(g, r.token, history) {
        FirstTokenIsUnique(g, r.token, s.observed.value, history);
      }
    }
  }

  /** After any sequence of responses the fields remember exactly what the rule needs. */
  lemma {:induction false} AfterRemembers(history: seq<Response>)
    ensures Remembers(After(history), history)
  {
    if history != [] {
      var init, r := history[..|history| - 1], history[|history| - 1];
      AfterRemembers(init);
      StepRemembers(After(init), init, r);
      assert init + [r] == history;
    }
  }

  /** The refinement: the mutable lease grants exactly what the history rule grants. */
  lemma LeaseRefinesHistoryRule(history: seq<Response>, r: Response)
    ensures Step(After(history), r).1 == Granted <==> MayGrant(history, r)
    ensures IsMaximum(After(history).floor, history)
    ensures After(history).denied <==> DeniedAt(After(history).floor, history)
  {
    AfterRemembers(history);
    StepRemembers(After(history), history, r);
  }

  /** Floor and denial do not depend on the order in which responses arrived. */
  lemma ArrivalOrderIrrelevant(h0: seq<Response>, h1: seq<Response>)
    requires multiset(h0) == multiset(h1)
    ensures After(h0).floor == After(h1).floor
    ensures After(h0).denied == After(h1).denied
  {
    AfterRemembers(h0);
    AfterRemembers(h1);
    forall i | 0 <= i < |h0| ensures h0[i] in h1 { assert h0[i] in multiset(h0); }
    forall i | 0 <= i < |h1| ensures h1[i] in h0 { assert h1[i] in multiset(h1); }
    assert After(h0).floor == After(h1).floor;
  }

  /** Once a generation has been denied no later history can grant it again. */
  lemma RevocationIsPermanent(history: seq<Response>, later: seq<Response>, g: Generation, token: Token)
    requires DeniedAt(g, history)
    ensures Step(After(history + later), Allow(g, token)).1 == Refused(Stale)
  {
    var i :| 0 <= i < |history| && history[i].Deny? && history[i].generation == g;
    assert (history + later)[i] == history[i];
    AfterRemembers(history + later);
    StepRemembers(After(history + later), history + later, Allow(g, token));
  }

  /** The lease object shared by all calls, with the history it answers for. */
  class Lease {
    var generationFloor: nat
    var observedToken: Option<Token>
    var denied: bool
    ghost var history: seq<Response>

    ghost predicate Valid()
      reads this
    {
      State(generationFloor, observedToken, denied) == After(history)
    }

    constructor ()
      ensures Valid() && history == []
    {
      generationFloor, observedToken, denied := 0, None, false;
      history := [];
    }

    method ApplyResponse(response: Response) returns (verdict: Verdict)
      requires Valid()
      modifies this
      ensures Valid() && history == old(history) + [response]
      ensures verdict == Granted <==> MayGrant(old(history), response)
      ensures verdict == Granted ==> !denied && generationFloor == response.generation
    {
      ghost var before := history;
      history := history + [response];
      assert history[..|history| - 1] == before;
      LeaseRefinesHistoryRule(before, response);
      match response
      case Allow(generation, token) =>
        if generation < generationFloor {
          return Refused(Stale);
        }
        if generation == generationFloor && generationFloor != 0 {
          if !denied && observedToken == Some(token) {
            return Granted;
          }
          return Refused(Stale);
        }
        generationFloor := generation;
        observedToken := Some(token);
        denied := false;
        return Granted;
      case Deny(generation) =>
        if generation < generationFloor {
          return Refused(Stale);
        }
        generationFloor := generation;
        observedToken := None;
        denied := true;
        return Refused(Denied);
    }
  }
}
