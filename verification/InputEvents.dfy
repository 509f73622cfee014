/**
 Key chords, text and drags sent as single events, each of which may fail. Every key or
 button that went down is let go again, whatever fails in between.
 */
module InputEvents {
  import opened Basics

  datatype Action = Press | Release | Motion

  /** One notify call: what was asked for and whether it succeeded. */
  datatype Event = Event(action: Action, code: int, ok: bool)

  /** The keys that went down and have not had a release attempted since, newest last. */
  function Owed(trace: seq<Event>): seq<int> {
    if trace == [] then [] else OwedAfter(Owed(trace[..|trace| - 1]), trace[|trace| - 1])
  }

  /** A release counts only for the newest key: anything else leaves the key owed. */
  function OwedAfter(owed: seq<int>, e: Event): seq<int> {
    match e.action
    case Press => if e.ok then owed + [e.code] else owed
    case Release => if owed != [] && owed[|owed| - 1] == e.code then owed[..|owed| - 1] else owed
    case Motion => owed
  }

  ghost predicate AllOk(trace: seq<Event>) { forall e | e in trace :: e.ok }

  lemma OwedStep(trace: seq<Event>, e: Event)
    ensures Owed(trace + [e]) == OwedAfter(Owed(trace), e)
  {
    assert (trace + [e])[..|trace|] == trace;
  }

  /** Release attempts of this key. */
  function Releases(trace: seq<Event>, code: int): nat {
    if trace == [] then 0
    else Releases(trace[..|trace| - 1], code) + if trace[|trace| - 1].action == Release && trace[|trace| - 1].code == code then 1 else 0
  }

  /** Successful presses of this key. */
  function Presses(trace: seq<Event>, code: int): nat {
    if trace == [] then 0
    else Presses(trace[..|trace| - 1], code) + if trace[|trace| - 1] == Event(Press, code, true) then 1 else 0
  }

  function CountIn(owed: seq<int>, code: int): nat {
    if owed == [] then 0 else CountIn(owed[..|owed| - 1], code) + if owed[|owed| - 1] == code then 1 else 0
  }

  lemma BalanceStep(owed: seq<int>, e: Event, code: int)
    ensures
      CountIn(OwedAfter(owed, e), code) + (if e.action == Release && e.code == code then 1 else 0) >=
      CountIn(owed, code) + (if e == Event(Press, code, true) then 1 else 0)
  {
    if e.action == Press && e.ok { assert (owed + [e.code])[..|owed|] == owed; }
  }

  /** What is owed in the end is at least what was owed before, plus the presses, minus the release attempts since. */
  lemma {:induction false} OwedBalance(before: seq<Event>, since: seq<Event>, code: int)
    ensures CountIn(Owed(before + since), code) + Releases(since, code) >= CountIn(Owed(before), code) + Presses(since, code)
    decreases |since|
  {
    if since == [] {
      assert before + since == before;
    } else {
      var init, e := since[..|since| - 1], since[|since| - 1];
      OwedBalance(before, init, code);
      OwedStep(before + init, e);
      assert before + since == before + init + [e];
      BalanceStep(Owed(before + init), e, code);
    }
  }

  /** With nothing owed in the end, the successful presses of a key since any moment have as many release attempts since. */
  lemma NothingOwedMeansReleased(before: seq<Event>, since: seq<Event>, code: int)
    requires Owed(before + since) == []
    ensures Releases(since, code) >= Presses(since, code)
    ensures since != [] && since[0] == Event(Press, code, true) ==> Releases(since[1..], code) >= 1
  {
    OwedBalance(before, since, code);
    if since != [] && since[0] == Event(Press, code, true) {
      assert before + since == before + [since[0]] + since[1..];
      OwedBalance(before + [since[0]], since[1..], code);
      OwedStep(before, since[0]);
      assert (Owed(before) + [code])[..|Owed(before)|] == Owed(before);
    }
  }

  function Pressing(keys: seq<int>): seq<Event> {
    if keys == [] then [] else Pressing(keys[..|keys| - 1]) + [Event(Press, keys[|keys| - 1], true)]
  }

  /** Successful releases of these keys, newest first. */
  function Releasing(keys: seq<int>): seq<Event> {
    if keys == [] then [] else [Event(Release, keys[|keys| - 1], true)] + Releasing(keys[..|keys| - 1])
  }

  function Typing(keys: seq<int>): seq<Event> {
    if keys == [] then []
    else Typing(keys[..|keys| - 1]) + [Event(Press, keys[|keys| - 1], true)] + [Event(Release, keys[|keys| - 1], true)]
  }

  lemma PressingStep(keys: seq<int>, i: nat)
    requires i < |keys|
    ensures Pressing(keys[..i + 1]) == Pressing(keys[..i]) + [Event(Press, keys[i], true)]
    ensures Typing(keys[..i + 1]) == Typing(keys[..i]) + [Event(Press, keys[i], true)] + [Event(Release, keys[i], true)]
    ensures Releasing(keys[..i + 1]) == [Event(Release, keys[i], true)] + Releasing(keys[..i])
  {
    assert keys[..i + 1][..i] == keys[..i];
  }

  /** The remote end: it answers each event with success or failure, in whatever pattern. */
  class Portal {
    const answers: nat -> bool
    var log: seq<Event>

    constructor (answers: nat -> bool)
      ensures this.answers == answers && log == []
    {
      this.answers, log := answers, [];
    }

    method Notify(action: Action, code: int) returns (ok: bool)
      modifies this
      ensures log == old(log) + [Event(action, code, ok)] && ok == answers(|old(log)|)
    {
      ok := answers(|log|);
      log := log + [Event(action, code, ok)];
    }

    /** Lets go of everything still pressed, newest first, whether or not the attempts succeed. */
    method ReleasePressed(pressed: seq<int>, ghost start: seq<Event>, ghost trace: seq<Event>) returns (ghost all: seq<Event>)
      requires log == start + trace && Owed(trace) <= pressed
      modifies this
      ensures log == start + all && trace <= all && Owed(all) == []
    {
      var rest := pressed;
      all := trace;
      while rest != []
        invariant log == start + all && trace <= all && Owed(all) <= rest
        decreases |rest|
      {
        var key := rest[|rest| - 1];
        rest := rest[..|rest| - 1];
        var ok := Notify(Release, key);
        all := Extend(start, all, Event(Release, key, ok));
      }
    }

    /** The way down of a chord. */
    method PressModifiers(modifiers: seq<int>, ghost start: seq<Event>) returns (ok: bool, ghost trace: seq<Event>)
      requires log == start
      modifies this
      ensures log == start + trace && (ok <==> AllOk(trace))
      ensures if ok then trace == Pressing(modifiers) && Owed(trace) == modifiers else Owed(trace) == []
    {
      var pressed: seq<int> := [];
      trace := [];
      for i := 0 to |modifiers|
        invariant log == start + trace && pressed == modifiers[..i] && trace == Pressing(pressed) && Owed(trace) == pressed && AllOk(trace)
      {
        ok := Notify(Press, modifiers[i]);
        trace := Extend(start, trace, Event(Press, modifiers[i], ok));
        if !ok {
          trace := ReleasePressed(pressed, start, trace);
          return;
        }
        PressingStep(modifiers, i);
        pressed := pressed + [modifiers[i]];
      }
      assert modifiers[..|modifiers|] == modifiers;
      ok := true;
    }

    /** Presses the modifiers in order and the key, then releases the key and the modifiers newest first. */
    method PressKeycodeChord(modifiers: seq<int>, keycode: int) returns (ok: bool, ghost trace: seq<Event>)
      modifies this
      ensures log == old(log) + trace && Owed(trace) == [] && (ok <==> AllOk(trace))
      ensures ok ==> trace == Pressing(modifiers + [keycode]) + Releasing(modifiers + [keycode])
    {
      ghost var start := log;
      ok, trace := PressModifiers(modifiers, start);
      if !ok {
        return;
      }
      ok := Notify(Press, keycode);
      trace := Extend(start, trace, Event(Press, keycode, ok));
      if !ok {
        trace := ReleasePressed(modifiers, start, trace);
        return;
      }
      ok := Notify(Release, keycode);
      trace := Extend(start, trace, Event(Release, keycode, ok));
      if !ok {
        trace := ReleasePressed(modifiers + [keycode], start, trace);
        return;
      }
      ok, trace := ReleaseModifiers(modifiers, start, trace);
      if ok { ChordTrace(modifiers, keycode); }
    }

    /** The way back of a chord. */
    method ReleaseModifiers(modifiers: seq<int>, ghost start: seq<Event>, ghost before: seq<Event>) returns (ok: bool, ghost trace: seq<Event>)
      requires log == start + before && Owed(before) == modifiers && AllOk(before)
      modifies this
      ensures log == start + trace && Owed(trace) == [] && (ok <==> AllOk(trace))
      ensures ok ==> trace == before + Releasing(modifiers)
    {
      var pressed := modifiers;
      trace := before;
      while pressed != []
        invariant pressed <= modifiers && log == start + trace && Owed(trace) == pressed && AllOk(trace)
        invariant trace + Releasing(pressed) == before + Releasing(modifiers)
        decreases |pressed|
      {
        var modifier := pressed[|pressed| - 1];
        ok := Notify(Release, modifier);
        ghost var done := trace;
        trace := Extend(start, trace, Event(Release, modifier, ok));
        if !ok {
          trace := ReleasePressed(pressed, start, trace);
          return;
        }
        Regroup(done, Event(Release, modifier, true), Releasing(pressed[..|pressed| - 1]));
        pressed := pressed[..|pressed| - 1];
      }
      assert trace + [] == trace;
      ok := true;
    }

    /** Presses and releases one key; a release that failed is attempted once more. */
    method TypeKey(keysym: int, ghost start: seq<Event>, ghost before: seq<Event>) returns (ok: bool, ghost trace: seq<Event>)
      requires log == start + before && Owed(before) == [] && AllOk(before)
      modifies this
      ensures log == start + trace && Owed(trace) == [] && (ok <==> AllOk(trace))
      ensures ok ==> trace == before + [Event(Press, keysym, true)] + [Event(Release, keysym, true)]
    {
      ok := Notify(Press, keysym);
      trace := Extend(start, before, Event(Press, keysym, ok));
      if !ok {
        return;
      }
      ok := Notify(Release, keysym);
      trace := Extend(start, trace, Event(Release, keysym, ok));
      if !ok { trace := ReleasePressed([keysym], start, trace); }
    }

    /** One key after the other; the first failed event ends the run. */
    method TypeTextWithKeysyms(keysyms: seq<int>) returns (ok: bool, ghost trace: seq<Event>)
      modifies this
      ensures log == old(log) + trace && Owed(trace) == [] && (ok <==> AllOk(trace))
      ensures ok ==> trace == Typing(keysyms)
    {
      ghost var start := log;
      trace := [];
      for i := 0 to |keysyms|
        invariant log == start + trace && trace == Typing(keysyms[..i]) && Owed(trace) == [] && AllOk(trace)
      {
        PressingStep(keysyms, i);
        ok, trace := TypeKey(keysyms[i], start, trace);
        if !ok {
          return;
        }
      }
      assert keysyms[..|keysyms|] == keysyms;
      ok := true;
    }

    /** Moves to the start of a drag and presses the button. */
    method StartDrag(from: int, ghost start: seq<Event>) returns (ok: bool, ghost trace: seq<Event>)
      requires log == start
      modifies this
      ensures log == start + trace && (ok <==> AllOk(trace))
      ensures if ok then trace == [] + [Event(Motion, from, true)] + [Event(Press, LEFT_BUTTON, true)] && Owed(trace) == [LEFT_BUTTON] else Owed(trace) == []
    {
      ok := Notify(Motion, from);
      trace := Extend(start, [], Event(Motion, from, ok));
      if !ok {
        return;
      }
      ok := Notify(Press, LEFT_BUTTON);
      trace := Extend(start, trace, Event(Press, LEFT_BUTTON, ok));
    }

    /** A drag from one mapped point to another; a point may lie on no stream. The button is let go whatever happens to the motion. */
    method Drag(from: Option<int>, to: Option<int>) returns (ok: bool, ghost trace: seq<Event>)
      modifies this
      ensures log == old(log) + trace && Owed(trace) == []
      ensures ok <==> from.Some? && to.Some? && AllOk(trace)
      ensures ok ==> trace == DragTrace(from.value, to.value)
    {
      if from.None? {
        return false, [];
      }
      ghost var start := log;
      ok, trace := StartDrag(from.value, start);
      if ok {
        ok, trace := FinishDrag(to, start, trace);
      }
    }

    method FinishDrag(to: Option<int>, ghost start: seq<Event>, ghost before: seq<Event>) returns (ok: bool, ghost trace: seq<Event>)
      requires log == start + before && Owed(before) == [LEFT_BUTTON] && AllOk(before)
      modifies this
      ensures log == start + trace && Owed(trace) == []
      ensures ok <==> to.Some? && AllOk(trace)
      ensures ok ==> trace == before + [Event(Motion, to.value, true)] + [Event(Release, LEFT_BUTTON, true)]
    {
      trace := before;
      var moved := false;
      if to.Some? {
        moved := Notify(Motion, to.value);
        trace := Extend(start, trace, Event(Motion, to.value, moved));
      }
      var released := Notify(Release, LEFT_BUTTON);
      trace := Extend(start, trace, Event(Release, LEFT_BUTTON, released));
      ok := moved && released;
    }
  }

  lemma ChordTrace(modifiers: seq<int>, keycode: int)
    ensures Pressing(modifiers) + [Event(Press, keycode, true)] + [Event(Release, keycode, true)] + Releasing(modifiers) ==
            Pressing(modifiers + [keycode]) + Releasing(modifiers + [keycode])
  {
    var keys := modifiers + [keycode];
    PressingStep(keys, |modifiers|);
    assert keys[..|modifiers|] == modifiers && keys[..|modifiers| + 1] == keys;
    Regroup(Pressing(keys), Event(Release, keycode, true), Releasing(modifiers));
  }

  const LEFT_BUTTON := 0x110

  function DragTrace(from: int, to: int): seq<Event> {
    [] + [Event(Motion, from, true)] + [Event(Press, LEFT_BUTTON, true)] + [Event(Motion, to, true)] + [Event(Release, LEFT_BUTTON, true)]
  }

  /** The trace with one more event, and what that changes. */
  ghost function Extend(start: seq<Event>, trace: seq<Event>, e: Event): (r: seq<Event>)
    ensures r == trace + [e] && start + r == start + trace + [e] && Owed(r) == OwedAfter(Owed(trace), e)
    ensures AllOk(r) <==> AllOk(trace) && e.ok
  {
    OwedStep(trace, e);
    assert start + (trace + [e]) == start + trace + [e];
    assert e in trace + [e];
    assert forall x | x in trace :: x in trace + [e];
    trace + [e]
  }

}
