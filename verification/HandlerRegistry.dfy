/**
  The packet handlers of a client session. Handlers may register and remove handlers while they are being called;
  the registry cannot change its map then, and queues those updates until the pass is over.
 */
module HandlerRegistry {
  import opened Codec

  /** A handler is known by name; what it does when it is called is up to the pass that calls it. */
  datatype Handler = Handler(name: nat)

  datatype Update = Unregister(id: nat) | Register(id: nat, handler: Handler)

  /** What a handler asks of the registry while it runs. */
  datatype Request = Add(handler: Handler) | Remove(id: nat)

  /** How a call ends: the handler stays, it is done (only polling can say so), or it fails and ends the pass. */
  datatype Outcome = Stays | Done | Fails

  datatype Reaction = Reaction(requests: seq<Request>, outcome: Outcome)

  datatype Registry = Registry(handlers: map<nat, Handler>, index: nat, pending: seq<Update>)

  // ---------------------------------------------------------------- ascending ids

  lemma {:induction false} LeastExists(s: set<nat>, x: nat)
    requires x in s
    ensures exists m :: m in s && forall k :: k in s ==> m <= k
    decreases x
  {
    if exists k :: k in s && k < x {
      var k :| k in s && k < x;
      LeastExists(s, k);
    }
  }

  ghost function Least(s: set<nat>): (m: nat)
    requires s != {}
    ensures m in s && forall k :: k in s ==> m <= k
  {
    var x :| x in s;
    LeastExists(s, x);
    var m :| m in s && forall k :: k in s ==> m <= k;
    m
  }

  /** The order in which the map is walked. */
  ghost function Ascending(s: set<nat>): (ids: seq<nat>)
    ensures forall k :: k in ids <==> k in s
    decreases |s|
  {
    if s == {} then [] else [Least(s)] + Ascending(s - {Least(s)})
  }

  lemma AscendingUnfolds(s: set<nat>)
    requires s != {}
    ensures Ascending(s) == [Least(s)] + Ascending(s - {Least(s)})
  {
  }

  lemma LeastIsLess(s: set<nat>)
    requires s != {}
    ensures forall k :: k in Ascending(s - {Least(s)}) ==> Least(s) < k
  {
    hide Least;
  }

  lemma NoIds()
    ensures Ascending({}) == []
  {
  }

  /** Every id once, in strictly ascending order. */
  lemma {:induction false} AscendingAscends(s: set<nat>)
    ensures |Ascending(s)| == |s|
    ensures forall i, j :: 0 <= i < j < |Ascending(s)| ==> Ascending(s)[i] < Ascending(s)[j]
    decreases |s|
  {
    hide Ascending, Least;
    if s == {} {
      NoIds();
    } else {
      var m := Least(s);
      var rest := s - {m};
      AscendingAscends(rest);
      AscendingUnfolds(s);
      LeastIsLess(s);
      SmallerInFront(m, Ascending(rest));
    }
  }

  lemma SmallerInFront(m: nat, tail: seq<nat>)
    requires forall k :: k in tail ==> m < k
    requires forall i, j :: 0 <= i < j < |tail| ==> tail[i] < tail[j]
    ensures forall i, j :: 0 <= i < j < |[m] + tail| ==> ([m] + tail)[i] < ([m] + tail)[j]
  {
    forall j | 0 <= j < |tail|
      ensures m < tail[j]
    {
      assert tail[j] in tail;
    }
  }

  // ---------------------------------------------------------------- updates

  /** Ids come from a 32-bit counter. */
  function NextId(index: nat): nat {
    (index + 1) % U32_LIMIT
  }

  function ApplyUpdate(handlers: map<nat, Handler>, u: Update): map<nat, Handler> {
    match u
    case Register(id, handler) => handlers[id := handler]
    case Unregister(id) => handlers - {id}
  }

  function ApplyUpdates(handlers: map<nat, Handler>, us: seq<Update>): map<nat, Handler> {
    if us == [] then handlers
    else ApplyUpdate(ApplyUpdates(handlers, us[..|us| - 1]), us[|us| - 1])
  }

  /** A request made during a pass becomes a queued update; registering takes an id at once. */
  function Queue(r: Registry, q: Request): Registry {
    match q
    case Add(handler) => r.(index := NextId(r.index), pending := r.pending + [Register(NextId(r.index), handler)])
    case Remove(id) => r.(pending := r.pending + [Unregister(id)])
  }

  function QueueAll(r: Registry, qs: seq<Request>): Registry {
    if qs == [] then r else Queue(QueueAll(r, qs[..|qs| - 1]), qs[|qs| - 1])
  }

  /** The same request outside a pass changes the map at once. */
  function Perform(r: Registry, q: Request): Registry {
    match q
    case Add(handler) => r.(index := NextId(r.index), handlers := r.handlers[NextId(r.index) := handler])
    case Remove(id) => r.(handlers := r.handlers - {id})
  }

  function PerformAll(r: Registry, qs: seq<Request>): Registry {
    if qs == [] then r else Perform(PerformAll(r, qs[..|qs| - 1]), qs[|qs| - 1])
  }

  function Commit(r: Registry): Registry {
    Registry(ApplyUpdates(r.handlers, r.pending), r.index, [])
  }

  // ---------------------------------------------------------------- passes

  /** The handlers that are called, in order, and whether the pass reaches its end. */
  datatype Pass = Pass(called: seq<nat>, requests: seq<Request>, completed: bool)

  /** The requests of one call; a handler that is done is removed by the registry itself. */
  function Asked(id: nat, reaction: Reaction): seq<Request> {
    reaction.requests + (if reaction.outcome.Done? then [Remove(id)] else [])
  }

  function RunPass(ids: seq<nat>, react: nat -> Reaction): Pass {
    if ids == [] then Pass([], [], true)
    else
      var asked := Asked(ids[0], react(ids[0]));
      if react(ids[0]).outcome.Fails? then Pass([ids[0]], asked, false)
      else
        var rest := RunPass(ids[1..], react);
        Pass([ids[0]] + rest.called, asked + rest.requests, rest.completed)
  }

  /** A completed pass commits; a failed one returns at once and leaves the queue as it is. */
  ghost function AfterPass(r: Registry, react: nat -> Reaction): Registry {
    var pass := RunPass(Ascending(r.handlers.Keys), react);
    var queued := QueueAll(r, pass.requests);
    if pass.completed then Commit(queued) else queued
  }

  // ---------------------------------------------------------------- the running registry

  class PacketHandlerRegistry {
    var handlers: map<nat, Handler>
    var handlerIndex: nat
    var pending: seq<Update>

    /** The map is borrowed while a pass walks it. */
    var borrowed: bool

    /** The ids of the handlers that were called. */
    var calls: seq<nat>

    ghost function State(): Registry
      reads this
    {
      Registry(handlers, handlerIndex, pending)
    }

    constructor ()
      ensures State() == Registry(map[], 0, []) && !borrowed && calls == []
    {
      handlers, handlerIndex, pending, borrowed, calls := map[], 0, [], false, [];
    }

    method RegisterHandler(handler: Handler) returns (id: nat)
      modifies this`handlers, this`handlerIndex, this`pending
      ensures id == NextId(old(handlerIndex)) == handlerIndex
      ensures !borrowed ==> handlers == old(handlers)[id := handler] && pending == old(pending)
      ensures borrowed ==> handlers == old(handlers) && pending == old(pending) + [Register(id, handler)]
      ensures State() == if borrowed then Queue(old(State()), Add(handler)) else Perform(old(State()), Add(handler))
    {
      id := (1 + handlerIndex) % U32_LIMIT;
      handlerIndex := (handlerIndex + 1) % U32_LIMIT;
      if !borrowed {
        handlers := handlers[id := handler];
      } else {
        pending := pending + [Register(id, handler)];
      }
    }

    method RemoveHandler(id: nat)
      modifies this`handlers, this`pending
      ensures !borrowed ==> handlers == old(handlers) - {id} && pending == old(pending)
      ensures borrowed ==> handlers == old(handlers) && pending == old(pending) + [Unregister(id)]
      ensures State() == if borrowed then Queue(old(State()), Remove(id)) else Perform(old(State()), Remove(id))
    {
      if !borrowed {
        handlers := handlers - {id};
      } else {
        pending := pending + [Unregister(id)];
      }
    }

    /** The call of one handler: its requests come back to the registry while the map is borrowed. */
    method Call(id: nat, reaction: Reaction)
      requires borrowed
      modifies this`handlers, this`handlerIndex, this`pending, this`calls
      ensures State() == QueueAll(old(State()), Asked(id, reaction)) && calls == old(calls) + [id]
    {
      calls := calls + [id];
      var qs := reaction.requests;
      for i := 0 to |qs|
        invariant State() == QueueAll(old(State()), qs[..i]) && calls == old(calls) + [id]
      {
        assert qs[..i + 1][..i] == qs[..i];
        match qs[i] {
          case Add(handler) => var _ := RegisterHandler(handler);
          case Remove(removed) => RemoveHandler(removed);
        }
      }
      assert qs[..|qs|] == qs && qs + [] == qs;
      if reaction.outcome.Done? {
        QueueAllAppends(old(State()), qs, [Remove(id)]);
        QueueOne(State(), Remove(id));
        RemoveHandler(id);
      }
    }

    /** Handling a packet and polling walk the map alike; only polling has handlers that are done. */
    method Walk(react: nat -> Reaction) returns (completed: bool)
      requires !borrowed
      modifies this
      ensures !borrowed
      ensures State() == AfterPass(old(State()), react)
      ensures var pass := RunPass(Ascending(old(handlers).Keys), react);
              completed == pass.completed && calls == old(calls) + pass.called
    {
      hide RunPass, Ascending, Asked, QueueAll;
      borrowed := true;
      ghost var start, pass := State(), RunPass(Ascending(handlers.Keys), react);
      ghost var asked: seq<Request>, called: seq<nat> := [], [];
      NothingQueued(start);
      var rest := handlers.Keys;
      while rest != {}
        invariant borrowed && State() == QueueAll(start, asked) && calls == old(calls) + called
        invariant Precedes(called, asked, RunPass(Ascending(rest), react), pass)
        decreases |rest|
      {
        ghost var least := Least(rest);
        assert least in rest && forall k :: k in rest ==> least <= k;
        var id: nat :| id in rest && forall k :: k in rest ==> id <= k;
        PassStep(called, asked, rest, id, react, pass);
        var reaction := react(id);
        QueueAllAppends(start, asked, Asked(id, reaction));
        Call(id, reaction);
        asked, called := asked + Asked(id, reaction), called + [id];
        if reaction.outcome.Fails? {
          borrowed := false;
          return false;
        }
        rest := rest - {id};
      }
      PassEnds(react);
      assert called + [] == called && asked + [] == asked;
      borrowed := false;
      CommitPostHandleUpdates();
      return true;
    }

    method CommitPostHandleUpdates()
      requires !borrowed
      modifies this`handlers, this`pending
      ensures State() == Commit(old(State()))
    {
      if pending == [] {
        return;
      }
      var updates := pending;
      pending := [];
      for i := 0 to |updates|
        invariant handlers == ApplyUpdates(old(handlers), updates[..i]) && pending == []
      {
        assert updates[..i + 1][..i] == updates[..i];
        match updates[i] {
          case Register(id, handler) => handlers := handlers[id := handler];
          case Unregister(id) => handlers := handlers - {id};
        }
      }
      assert updates[..|updates|] == updates;
    }
  }

  /** `called` and `asked` are what happened so far of `whole`, and `rest` is what remains. */
  ghost predicate Precedes(called: seq<nat>, asked: seq<Request>, rest: Pass, whole: Pass) {
    whole.called == called + rest.called && whole.requests == asked + rest.requests && whole.completed == rest.completed
  }

  lemma PassStep(called: seq<nat>, asked: seq<Request>, rest: set<nat>, id: nat, react: nat -> Reaction, whole: Pass)
    requires id in rest && forall k :: k in rest ==> id <= k
    requires Precedes(called, asked, RunPass(Ascending(rest), react), whole)
    ensures if react(id).outcome.Fails? then whole == Pass(called + [id], asked + Asked(id, react(id)), false)
            else Precedes(called + [id], asked + Asked(id, react(id)), RunPass(Ascending(rest - {id}), react), whole)
  {
    hide Asked;
    AscendingHead(rest, id);
    hide Ascending;
    var tail := RunPass(Ascending(rest - {id}), react);
    Regroup(called, [id], tail.called);
    Regroup(asked, Asked(id, react(id)), tail.requests);
  }

  lemma Regroup<T>(a: seq<T>, b: seq<T>, c: seq<T>)
    ensures a + (b + c) == a + b + c
  {
  }

  lemma AscendingHead(rest: set<nat>, id: nat)
    requires id in rest && forall k :: k in rest ==> id <= k
    ensures Ascending(rest) != [] && Ascending(rest)[0] == id && Ascending(rest)[1..] == Ascending(rest - {id})
  {
    assert Least(rest) == id;
  }

  lemma PassEnds(react: nat -> Reaction)
    ensures RunPass(Ascending({}), react) == Pass([], [], true)
  {
  }

  lemma NothingQueued(r: Registry)
    ensures QueueAll(r, []) == r
  {
  }

  lemma {:induction false} QueueAllAppends(r: Registry, a: seq<Request>, b: seq<Request>)
    ensures QueueAll(r, a + b) == QueueAll(QueueAll(r, a), b)
  {
    if b == [] {
      assert a + b == a;
    } else {
      QueueAllAppends(r, a, b[..|b| - 1]);
      assert (a + b)[..|a + b| - 1] == a + b[..|b| - 1];
    }
  }

  lemma QueueOne(r: Registry, q: Request)
    ensures QueueAll(r, [q]) == Queue(r, q)
  {
    assert [q][..0] == [];
  }
}
