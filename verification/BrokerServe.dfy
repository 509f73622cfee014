/** The session loop: frames are handled one by one until the first rejected request. */
module BrokerServe {
  import opened Basics
  import opened BrokerWire
  import opened BrokerDecoder
  import opened BrokerReplace

  type Responses = seq<Result<Reply>>

  /** The bytes that went out with the latest unspent token of this id, if there is one. */
  function Unspent(responses: Responses, id: Bytes): Option<Bytes> {
    if responses == [] then None
    else
      var last := responses[|responses| - 1];
      if last.Ok? && last.value.Handed? && last.value.operationId == id then Some(last.value.bytes)
      else if last == Ok(Replaced(id)) then None
      else Unspent(responses[..|responses| - 1], id)
  }

  /** A token is spent by one success: a second one needs a new read in between. */
  lemma {:induction false} SuccessNeedsFreshRead(responses: Responses, id: Bytes, j: nat)
    requires j < |responses| && responses[j] == Ok(Replaced(id))
    requires Unspent(responses, id).Some?
    ensures exists i :: j < i < |responses| && responses[i].Ok? && responses[i].value.Handed? && responses[i].value.operationId == id
  {
    var n := |responses| - 1;
    var last := responses[n];
    if !(last.Ok? && last.value.Handed? && last.value.operationId == id) {
      SuccessNeedsFreshRead(responses[..n], id, j);
    }
  }

  /** A replace frame whose whole swap ran, taking out of the target the bytes in `handed`. */
  ghost predicate SwappedOut(frame: Bytes, id: Bytes, trace: seq<Event>, handed: Bytes) {
    && Decode(frame).Ok? && Decode(frame).value.Replace?
    && var request := Decode(frame).value;
    && request.operationId == id && request.path != []
    && exists displaced: Node ::
         && trace == SwapTrace(Joined(TemporaryPath(request.path, id)), Joined(request.path), request.replacement, displaced)
         && Holds(displaced, handed)
  }

  /** A replace frame that got some way through its swap, taking out of the target no other bytes than those in `handed`. */
  ghost predicate Attempted(frame: Bytes, id: Bytes, trace: seq<Event>, handed: Bytes) {
    && Decode(frame).Ok? && Decode(frame).value.Replace?
    && var request := Decode(frame).value;
    && request.operationId == id && request.path != []
    && Abandoned(trace, Joined(TemporaryPath(request.path, id)), Joined(request.path), request.replacement, handed)
  }

  /** What one response in a session promises, given its frame and the responses before it. */
  ghost predicate Justified(before: Responses, frame: Bytes, response: Result<Reply>, trace: seq<Event>) {
    && (response.Ok? && response.value.Replaced? ==>
          && Unspent(before, response.value.operationId).Some?
          && SwappedOut(frame, response.value.operationId, trace, Unspent(before, response.value.operationId).value))
    && (trace != [] ==> exists id :: Unspent(before, id).Some? && Attempted(frame, id, trace, Unspent(before, id).value))
  }

  ghost predicate AllJustified(frames: seq<Bytes>, responses: Responses, traces: seq<seq<Event>>)
    requires |responses| == |traces| <= |frames|
  {
    forall j | 0 <= j < |responses| :: Justified(responses[..j], frames[j], responses[j], traces[j])
  }

  lemma AppendJustified(frames: seq<Bytes>, responses: Responses, traces: seq<seq<Event>>, r: Result<Reply>, trace: seq<Event>)
    requires |responses| == |traces| < |frames|
    requires AllJustified(frames, responses, traces)
    requires Justified(responses, frames[|responses|], r, trace)
    ensures AllJustified(frames, responses + [r], traces + [trace])
  {
    var n := |responses|;
    forall j | 0 <= j <= n
      ensures Justified((responses + [r])[..j], frames[j], (responses + [r])[j], (traces + [trace])[j])
    {
      assert (responses + [r])[..j] == responses[..j];
      if j == n { assert responses[..n] == responses; }
    }
  }

  /** One handled frame; `candidates`, `inode` and `partial` are what chance and the kernel supply. */
  method Handle(broker: Broker, frame: Bytes, candidates: seq<Bytes>, inode: nat, partial: Node)
    returns (r: Result<Reply>, ghost trace: seq<Event>)
    requires broker.Valid()
    modifies broker, broker.fs
    ensures broker.Valid()
    ensures broker.fs.log == old(broker.fs.log) + trace
    ensures Decode(frame).Err? ==> r.Err? && trace == []
    ensures r.Ok? && r.value.Handed? ==> broker.handed == old(broker.handed)[r.value.operationId := r.value.bytes]
    ensures r.Ok? && r.value.Replaced? ==>
      var id := r.value.operationId;
      && id in old(broker.handed) && broker.handed == old(broker.handed) - {id}
      && SwappedOut(frame, id, trace, old(broker.handed)[id])
    ensures r.Ok? && r.value.Listed? ==> broker.handed == old(broker.handed)
    ensures trace != [] ==> exists id | id in old(broker.handed) :: Attempted(frame, id, trace, old(broker.handed)[id])
  {
    trace := [];
    var fault := broker.fs.OthersAct();   // root verification
    if fault.Some? { return Err(Integrity), trace; }
    var request := DecodeRequest(frame);
    if request.Err? { return Err(request.code), trace; }
    EncodeAfterDecode(frame);
    match request.value
    case List(_, _) =>
      fault := broker.fs.OthersAct();
      r := if fault.Some? then Err(fault.value) else Ok(Listed);
    case Read(_, path) =>
      r := broker.ReadTarget(path, candidates);
    case Replace(_, path, id, replacement) =>
      r, trace := broker.ReplaceTarget(path, id, replacement, inode, partial);
      assert trace != [] ==> id in old(broker.handed) && Attempted(frame, id, trace, old(broker.handed)[id]);
    if r.Ok? {
      fault := broker.fs.OthersAct();
      if fault.Some? { return Err(Integrity), trace; }
    }
  }

  /** The broker holds exactly what the responses so far have handed out and not spent. */
  ghost predicate HeldAsSent(handed: map<Bytes, Bytes>, responses: Responses) {
    forall id | id in handed :: Unspent(responses, id) == Some(handed[id])
  }

  lemma SentOnce(handed: map<Bytes, Bytes>, handed': map<Bytes, Bytes>, responses: Responses, r: Reply)
    requires HeldAsSent(handed, responses)
    requires r.Handed? ==> handed' == handed[r.operationId := r.bytes]
    requires r.Replaced? ==> handed' == handed - {r.operationId}
    requires r.Listed? ==> handed' == handed
    ensures HeldAsSent(handed', responses + [Ok(r)])
  {
    assert (responses + [Ok(r)])[..|responses|] == responses;
  }

  /**
   The session. Every response but the last is a success, so no frame is handled after the
   first error; each successful replace swapped out exactly the bytes of the latest unspent
   read with its token, and one that failed got no further than its swap could with those.
   */
  method Serve(broker: Broker, frames: seq<Bytes>, candidates: seq<seq<Bytes>>, inodes: seq<nat>, partial: Node)
    returns (responses: Responses, ghost traces: seq<seq<Event>>)
    requires broker.Valid() && broker.tokens == map[]
    requires |candidates| == |inodes| == |frames|
    modifies broker, broker.fs
    ensures |responses| == |traces| <= |frames|
    ensures forall j | 0 <= j < |responses| - 1 :: responses[j].Ok?
    ensures |responses| < |frames| ==> responses != [] && responses[|responses| - 1].Err?
    ensures AllJustified(frames, responses, traces)
  {
    responses, traces := [], [];
    for i := 0 to |frames|
      invariant broker.Valid() && |responses| == |traces| == i
      invariant forall j | 0 <= j < i :: responses[j].Ok?
      invariant HeldAsSent(broker.handed, responses)
      invariant AllJustified(frames, responses, traces)
    {
      ghost var handed := broker.handed;
      var r: Result<Reply>;
      ghost var trace: seq<Event>;
      r, trace := Handle(broker, frames[i], candidates[i], inodes[i], partial);
      AppendJustified(frames, responses, traces, r, trace);
      if r.Ok? { SentOnce(handed, broker.handed, responses, r.value); }
      responses := responses + [r];
      traces := traces + [trace];
      if r.Err? {
        return;
      }
    }
  }
}
