/**
  The queue of resource load requests of one client: a request per stage, at most one of them sent and not yet
  acknowledged, and listeners that are told when a stage is loaded.
 */
module ResourceLoading {
  import opened Wrappers
  import opened Codec

  datatype Stage = Connect | Auth | Lobby

  datatype RequestState = Enqueued(json: string) | Sent | Finished

  /** A one-shot channel, named by the stage it was made for and its number among those. */
  datatype Listener = Listener(stage: Stage, number: nat)

  datatype LoadRequest = LoadRequest(id: nat, stage: Stage, state: RequestState, listeners: seq<Listener>)

  /** The packet that asks the client to load the resources of a request. */
  datatype RegisterResources = RegisterResources(callbackId: nat, json: string)

  /** `outbox`, `issued` and `signalled` record the packets sent, the channels made per stage and the signals given. */
  datatype Loader = Loader(
    requests: seq<LoadRequest>,
    requestId: nat,
    requestPending: bool,
    outbox: seq<RegisterResources>,
    issued: map<Stage, nat>,
    signalled: seq<Listener>)

  datatype LoadError = ResourcesUnavailable | InvalidCallbackId | NotSentYet | AlreadyCompleted

  /** What a caller waits on: nothing any more, or a channel. */
  datatype LoadFuture = AlreadyLoaded | Listening(listener: Listener)

  function Fresh(): Loader {
    Loader([], 0, false, [], map[], [])
  }

  // ---------------------------------------------------------------- the operations as functions

  /** The first request that meets a condition, or the number of requests if there is none. */
  function Find(rs: seq<LoadRequest>, p: LoadRequest -> bool): (i: nat)
    ensures i <= |rs| && (i < |rs| ==> p(rs[i]))
    ensures forall j :: 0 <= j < i ==> !p(rs[j])
  {
    if rs == [] || p(rs[0]) then 0 else 1 + Find(rs[1..], p)
  }

  function FindStage(rs: seq<LoadRequest>, stage: Stage): (i: nat)
    ensures i <= |rs| && (i < |rs| ==> rs[i].stage == stage)
    ensures forall j :: 0 <= j < i ==> rs[j].stage != stage
  {
    var p := (r: LoadRequest) => r.stage == stage;
    assert forall r: LoadRequest :: p(r) <==> r.stage == stage;
    Find(rs, p)
  }

  function FindId(rs: seq<LoadRequest>, id: nat): (i: nat)
    ensures i <= |rs| && (i < |rs| ==> rs[i].id == id)
    ensures forall j :: 0 <= j < i ==> rs[j].id != id
  {
    var p := (r: LoadRequest) => r.id == id;
    assert forall r: LoadRequest :: p(r) <==> r.id == id;
    Find(rs, p)
  }

  function FindEnqueued(rs: seq<LoadRequest>): (i: nat)
    ensures i <= |rs| && (i < |rs| ==> rs[i].state.Enqueued?)
    ensures forall j :: 0 <= j < i ==> !rs[j].state.Enqueued?
  {
    var p := (r: LoadRequest) => r.state.Enqueued?;
    assert forall r: LoadRequest :: p(r) <==> r.state.Enqueued?;
    Find(rs, p)
  }

  function IssuedFor(l: Loader, stage: Stage): nat {
    if stage in l.issued then l.issued[stage] else 0
  }

  function TrySendNext(l: Loader): (l': Loader)
    ensures |l'.requests| == |l.requests|
  {
    var i := FindEnqueued(l.requests);
    if l.requestPending || i == |l.requests| then l
    else
      var r := l.requests[i];
      l.(requests := l.requests[i := r.(state := Sent)],
         requestPending := true,
         outbox := l.outbox + [RegisterResources(r.id, r.state.json)])
  }

  function EnqueueRequest(l: Loader, stage: Stage, json: string): (l': Loader)
    ensures |l'.requests| == |l.requests| + 1
  {
    TrySendNext(l.(requestId := l.requestId + 1,
                   requests := l.requests + [LoadRequest(l.requestId + 1, stage, Enqueued(json), [])]))
  }

  /** `json` are the resources of the stage as the server has them now, or nothing if they cannot be had. */
  function Await(l: Loader, stage: Stage, json: Option<string>): (Loader, Result<LoadFuture, LoadError>) {
    var i := FindStage(l.requests, stage);
    if i == |l.requests| then
      if json.None? then (l, Err(ResourcesUnavailable))
      else
        var l' := EnqueueRequest(l, stage, json.value);
        Listen(l', |l'.requests| - 1)
    else Listen(l, i)
  }

  function Listen(l: Loader, i: nat): (Loader, Result<LoadFuture, LoadError>)
    requires i < |l.requests|
  {
    if l.requests[i].state.Finished? then (l, Ok(AlreadyLoaded))
    else
      var r := l.requests[i];
      var listener := Listener(r.stage, IssuedFor(l, r.stage));
      (l.(requests := l.requests[i := r.(listeners := r.listeners + [listener])],
          issued := l.issued[r.stage := listener.number + 1]),
       Ok(Listening(listener)))
  }

  /** The client acknowledges a callback id; the packet carries it as a signed word. */
  function Acknowledge(l: Loader, callbackId: int): (Loader, Option<LoadError>)
    requires IsI32(callbackId)
  {
    var id := if callbackId < 0 then callbackId + U32_LIMIT else callbackId;
    var i := FindId(l.requests, id);
    if i == |l.requests| then (l, Some(InvalidCallbackId))
    else
      var r := l.requests[i];
      match r.state
      case Enqueued(_) => (l, Some(NotSentYet))
      case Finished => (l, Some(AlreadyCompleted))
      case Sent =>
        (TrySendNext(l.(requests := l.requests[i := r.(state := Finished, listeners := [])],
                        signalled := l.signalled + r.listeners,
                        requestPending := false)), None)
  }

  // ---------------------------------------------------------------- the running component

  class ClientResources {
    var requests: seq<LoadRequest>
    var requestId: nat
    var requestPending: bool
    var outbox: seq<RegisterResources>
    var issued: map<Stage, nat>
    var signalled: seq<Listener>

    ghost function State(): Loader
      reads this
    {
      Loader(requests, requestId, requestPending, outbox, issued, signalled)
    }

    constructor ()
      ensures State() == Fresh()
    {
      requests, requestId, requestPending := [], 0, false;
      outbox, issued, signalled := [], map[], [];
    }

    method AwaitResourcesLoaded(stage: Stage, json: Option<string>) returns (r: Result<LoadFuture, LoadError>)
      modifies this
      ensures (State(), r) == Await(old(State()), stage, json)
    {
      hide EnqueueRequest, Listen;
      var i := FindStage(requests, stage);
      if i == |requests| {
        if json.None? {
          return Err(ResourcesUnavailable);
        }
        EnqueueLoadRequest(stage, json.value);
        i := |requests| - 1;
      }
      r := ListenTo(i);
    }

    method ListenTo(i: nat) returns (r: Result<LoadFuture, LoadError>)
      requires i < |requests|
      modifies this`requests, this`issued
      ensures (State(), r) == Listen(old(State()), i)
    {
      var request := requests[i];
      if request.state.Finished? {
        return Ok(AlreadyLoaded);
      }
      var number := if request.stage in issued then issued[request.stage] else 0;
      issued := issued[request.stage := number + 1];
      var listener := Listener(request.stage, number);
      requests := requests[i := request.(listeners := request.listeners + [listener])];
      return Ok(Listening(listener));
    }

    method EnqueueLoadRequest(stage: Stage, json: string)
      modifies this
      ensures State() == EnqueueRequest(old(State()), stage, json)
      ensures |requests| > 0
    {
      requestId := requestId + 1;
      requests := requests + [LoadRequest(requestId, stage, Enqueued(json), [])];
      TrySendNextLoadRequest();
    }

    method TrySendNextLoadRequest()
      modifies this
      ensures State() == TrySendNext(old(State()))
      ensures |requests| == |old(requests)|
    {
      if requestPending {
        return;
      }
      var i := FindEnqueued(requests);
      if i == |requests| {
        return;
      }
      var request := requests[i];
      requests := requests[i := request.(state := Sent)];
      requestPending := true;
      outbox := outbox + [RegisterResources(request.id, request.state.json)];
    }

    method OnResourcesRegistered(callbackId: int) returns (failure: Option<LoadError>)
      requires IsI32(callbackId)
      modifies this
      ensures (State(), failure) == Acknowledge(old(State()), callbackId)
    {
      var id := if callbackId < 0 then callbackId + U32_LIMIT else callbackId;
      var i := FindId(requests, id);
      if i == |requests| {
        return Some(InvalidCallbackId);
      }
      var request := requests[i];
      match request.state {
        case Enqueued(_) => return Some(NotSentYet);
        case Finished => return Some(AlreadyCompleted);
        case Sent => requests := requests[i := request.(state := Finished)];
      }
      requests := requests[i := requests[i].(listeners := [])];
      var k := 0;
      while k < |request.listeners|
        invariant k <= |request.listeners|
        invariant State() == old(State()).(requests := requests, signalled := old(signalled) + request.listeners[..k])
        invariant requests == old(requests)[i := request.(state := Finished, listeners := [])]
      {
        signalled := signalled + [request.listeners[k]];
        k := k + 1;
      }
      assert request.listeners[..k] == request.listeners;
      requestPending := false;
      TrySendNextLoadRequest();
      return None;
    }
  }
}
