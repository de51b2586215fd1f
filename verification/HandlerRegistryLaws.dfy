/** What a pass over the packet handlers delivers and leaves behind. */
module HandlerRegistryLaws {
  import opened Codec
  import opened HandlerRegistry

  // ---------------------------------------------------------------- delivery

  lemma {:induction false} CompletedPassCallsAll(ids: seq<nat>, react: nat -> Reaction)
    ensures RunPass(ids, react).called <= ids
    ensures RunPass(ids, react).completed <==> forall id :: id in ids ==> !react(id).outcome.Fails?
    ensures RunPass(ids, react).completed ==> RunPass(ids, react).called == ids
    ensures !RunPass(ids, react).completed ==> EndsAtFailure(RunPass(ids, react).called, react)
  {
    hide Asked;
    if ids != [] {
      HeadOrTail(ids);
      if !react(ids[0]).outcome.Fails? {
        CompletedPassCallsAll(ids[1..], react);
        var rest := RunPass(ids[1..], react).called;
        assert forall i :: 0 <= i < |rest| ==> ([ids[0]] + rest)[i + 1] == rest[i];
      }
    }
  }

  /** The last handler that was called fails, and none before it. */
  predicate EndsAtFailure(called: seq<nat>, react: nat -> Reaction) {
    && called != [] && react(called[|called| - 1]).outcome.Fails?
    && forall i :: 0 <= i < |called| - 1 ==> !react(called[i]).outcome.Fails?
  }

  lemma HeadOrTail(ids: seq<nat>)
    requires ids != []
    ensures ids == [ids[0]] + ids[1..]
    ensures forall id :: id in ids <==> id == ids[0] || id in ids[1..]
  {
  }

  /**
    A pass calls handlers that were registered when it started, in ascending id order and none twice, and calls
    every one of them exactly when none fails; the first that fails is the last one called.
   */
  lemma PassDelivers(r: Registry, react: nat -> Reaction)
    ensures var pass := RunPass(Ascending(r.handlers.Keys), react);
            && (forall i, j :: 0 <= i < j < |pass.called| ==> pass.called[i] < pass.called[j])
            && (forall id :: id in pass.called ==> id in r.handlers)
            && (pass.completed <==> forall id :: id in r.handlers ==> !react(id).outcome.Fails?)
            && (pass.completed ==> forall id :: id in r.handlers ==> id in pass.called)
            && (!pass.completed ==> EndsAtFailure(pass.called, react))
  {
    var ids := Ascending(r.handlers.Keys);
    AscendingAscends(r.handlers.Keys);
    hide Ascending, RunPass;
    CompletedPassCallsAll(ids, react);
    FrontAscends(RunPass(ids, react).called, ids);
  }

  lemma FrontAscends(front: seq<nat>, ids: seq<nat>)
    requires front <= ids && forall i, j :: 0 <= i < j < |ids| ==> ids[i] < ids[j]
    ensures forall i, j :: 0 <= i < j < |front| ==> front[i] < front[j]
    ensures forall id :: id in front ==> id in ids
  {
    assert forall i :: 0 <= i < |front| ==> front[i] == ids[i];
  }

  // ---------------------------------------------------------------- deferred and immediate updates

  lemma QueueThenCommit(r: Registry, q: Request)
    ensures Commit(Queue(r, q)) == Perform(Commit(r), q)
  {
    var u := Queue(r, q).pending[|r.pending|];
    assert Queue(r, q).pending == r.pending + [u];
    assert (r.pending + [u])[..|r.pending|] == r.pending;
  }

  /**
    Queueing the requests of a pass and committing them at its end is the same as committing what was left over
    from before and then performing every request in the order it was made.
   */
  lemma {:induction false} DeferredIsImmediate(r: Registry, qs: seq<Request>)
    ensures Commit(QueueAll(r, qs)) == PerformAll(Commit(r), qs)
  {
    if qs != [] {
      DeferredIsImmediate(r, qs[..|qs| - 1]);
      QueueThenCommit(QueueAll(r, qs[..|qs| - 1]), qs[|qs| - 1]);
    }
  }

  lemma CommitTwice(r: Registry)
    ensures Commit(Commit(r)) == Commit(r)
  {
  }

  /** A pass, completed or failed, leaves a registry that a commit makes into what performing its requests would. */
  lemma PassPerforms(r: Registry, react: nat -> Reaction)
    ensures var asked := RunPass(Ascending(r.handlers.Keys), react).requests;
            Commit(AfterPass(r, react)) == PerformAll(Commit(r), asked)
  {
    hide RunPass, QueueAll, PerformAll, Ascending, Commit;
    var asked := RunPass(Ascending(r.handlers.Keys), react).requests;
    DeferredIsImmediate(r, asked);
    CommitTwice(QueueAll(r, asked));
  }

  ghost predicate Completes(r: Registry, react: nat -> Reaction) {
    RunPass(Ascending(r.handlers.Keys), react).completed
  }

  /** The registry after several passes, completed or failed. */
  ghost function AfterPasses(r: Registry, passes: seq<nat -> Reaction>): Registry {
    if passes == [] then r else AfterPass(AfterPasses(r, passes[..|passes| - 1]), passes[|passes| - 1])
  }

  /** Everything asked for during them, in order. */
  ghost function AskedBy(r: Registry, passes: seq<nat -> Reaction>): seq<Request> {
    if passes == [] then []
    else
      var before := AfterPasses(r, passes[..|passes| - 1]);
      AskedBy(r, passes[..|passes| - 1]) + RunPass(Ascending(before.handlers.Keys), passes[|passes| - 1]).requests
  }

  lemma {:induction false} PerformAllAppends(r: Registry, a: seq<Request>, b: seq<Request>)
    ensures PerformAll(r, a + b) == PerformAll(PerformAll(r, a), b)
  {
    if b == [] {
      assert a + b == a;
    } else {
      PerformAllAppends(r, a, b[..|b| - 1]);
      assert (a + b)[..|a + b| - 1] == a + b[..|b| - 1];
    }
  }

  /** Over any passes, whichever of them fail: nothing asked for is lost, doubled or reordered. */
  lemma {:induction false} PassesPerform(r: Registry, passes: seq<nat -> Reaction>)
    ensures Commit(AfterPasses(r, passes)) == PerformAll(Commit(r), AskedBy(r, passes))
  {
    hide RunPass, Ascending, Commit, AfterPass;
    if passes != [] {
      var init, last := passes[..|passes| - 1], passes[|passes| - 1];
      var before := AfterPasses(r, init);
      PassesPerform(r, init);
      PassPerforms(before, last);
      PerformAllAppends(Commit(r), AskedBy(r, init), RunPass(Ascending(before.handlers.Keys), last).requests);
    }
  }

  /** So a completed pass, started with nothing left over, acts on the map it started with. */
  lemma CompletedPassPerforms(r: Registry, react: nat -> Reaction)
    requires r.pending == [] && forall id :: id in r.handlers ==> !react(id).outcome.Fails?
    ensures AfterPass(r, react) == PerformAll(r, RunPass(Ascending(r.handlers.Keys), react).requests)
  {
    PassDelivers(r, react);
    DeferredIsImmediate(r, RunPass(Ascending(r.handlers.Keys), react).requests);
    assert Commit(r) == r;
  }

  lemma {:induction false} QueueingLeavesHandlers(r: Registry, qs: seq<Request>)
    ensures QueueAll(r, qs).handlers == r.handlers && r.pending <= QueueAll(r, qs).pending
  {
    if qs != [] {
      QueueingLeavesHandlers(r, qs[..|qs| - 1]);
    }
  }

  /** A failed pass changes no handler; what was asked for waits for a later pass that completes. */
  lemma FailedPassOnlyQueues(r: Registry, react: nat -> Reaction)
    requires exists id :: id in r.handlers && react(id).outcome.Fails?
    ensures AfterPass(r, react).handlers == r.handlers && r.pending <= AfterPass(r, react).pending
  {
    PassDelivers(r, react);
    QueueingLeavesHandlers(r, RunPass(Ascending(r.handlers.Keys), react).requests);
  }

  // ---------------------------------------------------------------- left-over updates

  /** What a failed pass asked for is done by the next pass that completes, before what that pass asks for. */
  lemma LateRequestsComeFirst(r: Registry, first: nat -> Reaction, second: nat -> Reaction)
    requires r.pending == []
    requires exists id :: id in r.handlers && first(id).outcome.Fails?
    requires forall id :: id in r.handlers ==> !second(id).outcome.Fails?
    ensures var ids := Ascending(r.handlers.Keys);
            AfterPass(AfterPass(r, first), second)
            == PerformAll(r, RunPass(ids, first).requests + RunPass(ids, second).requests)
  {
    hide RunPass, QueueAll, PerformAll, Ascending;
    var ids := Ascending(r.handlers.Keys);
    var early, late := RunPass(ids, first).requests, RunPass(ids, second).requests;
    PassDelivers(r, first);
    PassDelivers(r, second);
    QueueingLeavesHandlers(r, early);
    QueueAllAppends(r, early, late);
    DeferredIsImmediate(r, early + late);
  }

  /** What the queue says last about an id: present, absent, or nothing. */
  datatype Verdict = Present(handler: Handler) | Absent | Silent

  function LastWord(us: seq<Update>, id: nat): Verdict {
    if us == [] then Silent
    else
      match us[|us| - 1]
      case Register(other, handler) => if other == id then Present(handler) else LastWord(us[..|us| - 1], id)
      case Unregister(other) => if other == id then Absent else LastWord(us[..|us| - 1], id)
  }

  lemma {:induction false} CommitFollowsLastWord(m: map<nat, Handler>, us: seq<Update>, id: nat)
    ensures var m' := ApplyUpdates(m, us);
            match LastWord(us, id)
            case Present(handler) => id in m' && m'[id] == handler
            case Absent => id !in m'
            case Silent => (id in m' <==> id in m) && (id in m ==> m'[id] == m[id])
  {
    if us != [] {
      CommitFollowsLastWord(m, us[..|us| - 1], id);
    }
  }

  /** How many ids a list of requests takes. */
  function Adds(qs: seq<Request>): nat {
    if qs == [] then 0 else (if qs[0].Add? then 1 else 0) + Adds(qs[1..])
  }

  lemma {:induction false} AddsAppend(a: seq<Request>, b: seq<Request>)
    ensures Adds(a + b) == Adds(a) + Adds(b)
  {
    if a == [] {
      assert a + b == b;
    } else {
      AddsAppend(a[1..], b);
      assert (a + b)[1..] == a[1..] + b;
    }
  }

  lemma AddsOfLast(qs: seq<Request>)
    requires qs != []
    ensures Adds(qs) == Adds(qs[..|qs| - 1]) + (if qs[|qs| - 1].Add? then 1 else 0)
  {
    var last := [qs[|qs| - 1]];
    AddsAppend(qs[..|qs| - 1], last);
    assert qs == qs[..|qs| - 1] + last && last[1..] == [];
  }

  /** An id that was handed out before is never registered again, so it is there exactly if nobody removes it. */
  lemma {:induction false} PerformingOnlyRemoves(r: Registry, qs: seq<Request>, id: nat)
    requires id <= r.index && r.index + Adds(qs) < U32_LIMIT
    ensures PerformAll(r, qs).index == r.index + Adds(qs)
    ensures id in PerformAll(r, qs).handlers <==> id in r.handlers && Remove(id) !in qs
    ensures id in PerformAll(r, qs).handlers ==> PerformAll(r, qs).handlers[id] == r.handlers[id]
  {
    if qs != [] {
      AddsOfLast(qs);
      PerformingOnlyRemoves(r, qs[..|qs| - 1], id);
    }
  }

  lemma CommittedRemoval(r: Registry, id: nat)
    ensures Commit(Perform(r, Remove(id))).index == r.index
    ensures id in Commit(Perform(r, Remove(id))).handlers <==> LastWord(r.pending, id).Present?
  {
    CommitFollowsLastWord(Perform(r, Remove(id)).handlers, r.pending, id);
  }

  lemma CompletedMeansCommitted(r: Registry, react: nat -> Reaction)
    requires Completes(r, react)
    ensures Commit(AfterPass(r, react)) == AfterPass(r, react)
  {
    CommitTwice(QueueAll(r, RunPass(Ascending(r.handlers.Keys), react).requests));
  }

  /**
    Removing a handler between passes takes effect at once. Whether it lasts shows at the next commits: over any
    passes, failed or completed, the last of which completes, the handler stays away exactly when the queue at the
    time of the removal did not register it, or one of the passes asks for its removal again.
   */
  lemma RemovalLastsIff(r: Registry, id: nat, passes: seq<nat -> Reaction>)
    requires id <= r.index && passes != []
    requires var removed := Perform(r, Remove(id));
             && r.index + Adds(AskedBy(removed, passes)) < U32_LIMIT
             && Completes(AfterPasses(removed, passes[..|passes| - 1]), passes[|passes| - 1])
    ensures var removed := Perform(r, Remove(id));
            && id !in removed.handlers
            && (id !in AfterPasses(removed, passes).handlers <==>
                  !LastWord(r.pending, id).Present? || Remove(id) in AskedBy(removed, passes))
  {
    hide AfterPass, RunPass, Ascending, PerformAll, Commit, Completes;
    var removed := Perform(r, Remove(id));
    PassesPerform(removed, passes);
    CompletedMeansCommitted(AfterPasses(removed, passes[..|passes| - 1]), passes[|passes| - 1]);
    CommittedRemoval(r, id);
    PerformingOnlyRemoves(Commit(removed), AskedBy(removed, passes), id);
  }

  /** Handlers that register another one and fail, and handlers that ask for nothing. */
  function Failing(): nat -> Reaction {
    id => Reaction([Add(Handler(7))], Fails)
  }

  function Calm(): nat -> Reaction {
    id => Reaction([], Stays)
  }

  /** It can happen: a handler registered during a failed pass, removed after it, is back after the next pass. */
  lemma RemovalCanBeUndone()
    ensures var failed := AfterPass(Registry(map[1 := Handler(0)], 1, []), Failing());
            var removed := Perform(failed, Remove(2));
            2 !in removed.handlers && 2 in AfterPass(removed, Calm()).handlers
  {
    hide AfterPass, AskedBy, Completes, Calm, Failing;
    FailureQueues();
    var failed := AfterPass(Registry(map[1 := Handler(0)], 1, []), Failing());
    var removed := Perform(failed, Remove(2));
    CalmPass(removed);
    assert [Calm()][..0] == [];
    RemovalLastsIff(failed, 2, [Calm()]);
  }

  lemma FailureQueues()
    ensures var start := Registry(map[1 := Handler(0)], 1, []);
            AfterPass(start, Failing()) == Registry(start.handlers, 2, [Register(2, Handler(7))])
  {
    var start := Registry(map[1 := Handler(0)], 1, []);
    assert start.handlers.Keys == {1};
    var ids := Ascending({1});
    AscendingAscends({1});
    assert ids == [ids[0]] && ids[0] in {1};
    hide Ascending;
    var asked := [Add(Handler(7))];
    assert Asked(1, Failing()(1)) == asked;
    assert RunPass(ids, Failing()) == Pass([1], asked, false);
    assert asked[..0] == [];
  }

  lemma CalmPass(r: Registry)
    ensures Completes(r, Calm()) && AskedBy(r, [Calm()]) == []
  {
    hide Ascending;
    CalmPassAsksNothing(Ascending(r.handlers.Keys), Calm());
    assert [Calm()][..0] == [];
  }

  lemma {:induction false} CalmPassAsksNothing(ids: seq<nat>, react: nat -> Reaction)
    requires forall id :: react(id) == Reaction([], Stays)
    ensures RunPass(ids, react).requests == [] && RunPass(ids, react).completed
  {
    if ids != [] {
      CalmPassAsksNothing(ids[1..], react);
    }
  }

  // ---------------------------------------------------------------- what a pass does, by what the handlers do

  /** What handlers ask for, one after the other; of one that is done the removal comes last. */
  function AskedByAll(called: seq<nat>, react: nat -> Reaction): seq<Request> {
    if called == [] then []
    else
      var last := called[|called| - 1];
      AskedByAll(called[..|called| - 1], react) + react(last).requests +
      (if react(last).outcome.Done? then [Remove(last)] else [])
  }

  /** The requests of one handler, in these terms. */
  function AskedLast(id: nat, react: nat -> Reaction): seq<Request> {
    react(id).requests + (if react(id).outcome.Done? then [Remove(id)] else [])
  }

  lemma AskedByAllUnfolds(called: seq<nat>, react: nat -> Reaction)
    requires called != []
    ensures AskedByAll(called, react) == AskedByAll(called[..|called| - 1], react) + AskedLast(called[|called| - 1], react)
  {
    var id := called[|called| - 1];
    Regroup(AskedByAll(called[..|called| - 1], react), react(id).requests,
            if react(id).outcome.Done? then [Remove(id)] else []);
  }

  lemma {:induction false} AskedByAllJoins(a: seq<nat>, b: seq<nat>, react: nat -> Reaction)
    ensures AskedByAll(a + b, react) == AskedByAll(a, react) + AskedByAll(b, react)
  {
    if b == [] {
      assert a + b == a;
    } else {
      AskedByAllJoins(a, b[..|b| - 1], react);
      assert (a + b)[..|a + b| - 1] == a + b[..|b| - 1] && (a + b)[|a + b| - 1] == b[|b| - 1];
      AskedByAllUnfolds(a + b, react);
      AskedByAllUnfolds(b, react);
      hide AskedByAll, AskedLast;
      Regroup(AskedByAll(a, react), AskedByAll(b[..|b| - 1], react), AskedLast(b[|b| - 1], react));
    }
  }

  lemma AskedByOne(id: nat, react: nat -> Reaction)
    ensures AskedByAll([id], react) == Asked(id, react(id))
  {
    assert [id][..0] == [];
  }

  /** The requests of a pass are those of the handlers it called, each once and in order. */
  lemma {:induction false} PassAsksInOrder(ids: seq<nat>, react: nat -> Reaction)
    ensures RunPass(ids, react).requests == AskedByAll(RunPass(ids, react).called, react)
  {
    if ids != [] {
      hide Asked, AskedByAll;
      AskedByOne(ids[0], react);
      if !react(ids[0]).outcome.Fails? {
        PassAsksInOrder(ids[1..], react);
        AskedByAllJoins([ids[0]], RunPass(ids[1..], react).called, react);
      }
    } else {
      assert RunPass(ids, react).called == [];
    }
  }

  /** What is asked for during a pass, by any handler it calls; one that is done is removed. */
  lemma {:induction false} AskedInPass(ids: seq<nat>, react: nat -> Reaction, q: Request)
    ensures q in RunPass(ids, react).requests <==>
              exists id :: id in RunPass(ids, react).called
                           && (q in react(id).requests || (react(id).outcome.Done? && q == Remove(id)))
  {
    if ids != [] {
      var first := ids[0];
      assert q in Asked(first, react(first)) <==>
               q in react(first).requests || (react(first).outcome.Done? && q == Remove(first));
      hide Asked;
      AskedInPass(ids[1..], react, q);
      assert first in RunPass(ids, react).called;
      if !react(first).outcome.Fails? {
        var rest := RunPass(ids[1..], react);
        assert forall id :: id in RunPass(ids, react).called <==> id == first || id in rest.called;
      }
    }
  }

  /**
    After a completed pass that started with nothing left over, a handler is still there, as it was, exactly when it
    is not done and no handler that was there asked for its removal.
   */
  lemma HandlerStaysIff(r: Registry, react: nat -> Reaction, id: nat)
    requires r.pending == [] && id in r.handlers && id <= r.index
    requires forall other :: other in r.handlers ==> !react(other).outcome.Fails?
    requires r.index + Adds(RunPass(Ascending(r.handlers.Keys), react).requests) < U32_LIMIT
    ensures var after := AfterPass(r, react);
            && (id in after.handlers <==>
                  !react(id).outcome.Done? && forall other :: other in r.handlers ==> Remove(id) !in react(other).requests)
            && (id in after.handlers ==> after.handlers[id] == r.handlers[id])
  {
    hide AfterPass, RunPass, Ascending, PerformAll;
    var ids := Ascending(r.handlers.Keys);
    var asked := RunPass(ids, react).requests;
    CompletedPassPerforms(r, react);
    PerformingOnlyRemoves(r, asked, id);
    PassDelivers(r, react);
    AskedInPass(ids, react, Remove(id));
  }

  lemma PerformOne(r: Registry, q: Request)
    ensures PerformAll(r, [q]) == Perform(r, q)
  {
    assert [q][..0] == [];
  }

  /** A handler that is registered gets the next id, and is there in the end exactly if nobody removes it later. */
  lemma NewHandlerStaysIff(r: Registry, before: seq<Request>, handler: Handler, later: seq<Request>)
    requires r.index + Adds(before) + 1 + Adds(later) < U32_LIMIT
    ensures var id := r.index + Adds(before) + 1;
            var after := PerformAll(r, before + [Add(handler)] + later);
            && (id in after.handlers <==> Remove(id) !in later)
            && (id in after.handlers ==> after.handlers[id] == handler)
  {
    hide PerformAll, Adds;
    PerformAllAppends(r, before + [Add(handler)], later);
    PerformAllAppends(r, before, [Add(handler)]);
    PerformingOnlyRemoves(r, before, 0);
    var earlier := PerformAll(r, before);
    PerformOne(earlier, Add(handler));
    var there := Perform(earlier, Add(handler));
    PerformingOnlyRemoves(there, later, there.index);
  }

  // ---------------------------------------------------------------- ids

  /** Every id in use or queued was handed out by the counter, and none is queued twice or both used and queued. */
  predicate IdsHandedOut(r: Registry) {
    && (forall id :: id in r.handlers ==> 1 <= id <= r.index)
    && (forall i :: 0 <= i < |r.pending| && r.pending[i].Register? ==> 1 <= r.pending[i].id <= r.index)
    && (forall i, j :: 0 <= i < j < |r.pending| && r.pending[i].Register? && r.pending[j].Register? ==>
          r.pending[i].id != r.pending[j].id)
    && (forall i :: 0 <= i < |r.pending| && r.pending[i].Register? ==> r.pending[i].id !in r.handlers)
  }

  /** Until the 32-bit counter wraps, a new id is in use nowhere, so registering never displaces a handler. */
  lemma RequestsKeepIds(r: Registry, q: Request)
    requires IdsHandedOut(r) && (q.Add? ==> r.index + 1 < U32_LIMIT)
    ensures IdsHandedOut(Queue(r, q)) && IdsHandedOut(Perform(r, q))
    ensures Queue(r, q).index == Perform(r, q).index == r.index + (if q.Add? then 1 else 0)
  {
    hide IdsHandedOut;
    QueueKeepsIds(r, q);
    PerformKeepsIds(r, q);
  }

  lemma QueueKeepsIds(r: Registry, q: Request)
    requires IdsHandedOut(r) && (q.Add? ==> r.index + 1 < U32_LIMIT)
    ensures IdsHandedOut(Queue(r, q))
  {
    var last := |r.pending|;
    var pending := Queue(r, q).pending;
    assert forall i :: 0 <= i < last ==> pending[i] == r.pending[i];
    assert |pending| == last + 1;
  }

  lemma PerformKeepsIds(r: Registry, q: Request)
    requires IdsHandedOut(r) && (q.Add? ==> r.index + 1 < U32_LIMIT)
    ensures IdsHandedOut(Perform(r, q))
  {
  }

  lemma {:induction false} QueueingKeepsIds(r: Registry, qs: seq<Request>)
    requires IdsHandedOut(r) && r.index + Adds(qs) < U32_LIMIT
    ensures IdsHandedOut(QueueAll(r, qs)) && QueueAll(r, qs).index == r.index + Adds(qs)
  {
    hide IdsHandedOut;
    if qs != [] {
      AddsOfLast(qs);
      QueueingKeepsIds(r, qs[..|qs| - 1]);
      RequestsKeepIds(QueueAll(r, qs[..|qs| - 1]), qs[|qs| - 1]);
    }
  }

  /** No handler of `m` has the id of a registration still queued from position `n` on. */
  ghost predicate Unmet(m: map<nat, Handler>, r: Registry, n: nat) {
    && (forall id :: id in m ==> 1 <= id <= r.index)
    && (forall i :: n <= i < |r.pending| && r.pending[i].Register? ==> r.pending[i].id !in m)
  }

  lemma UpdateKeepsUnmet(m: map<nat, Handler>, r: Registry, n: nat)
    requires IdsHandedOut(r) && n < |r.pending| && Unmet(m, r, n)
    ensures Unmet(ApplyUpdate(m, r.pending[n]), r, n + 1)
  {
    var u := r.pending[n];
    var after := ApplyUpdate(m, u);
    forall id | id in after
      ensures 1 <= id <= r.index
    {
      assert id in m || (u.Register? && id == u.id);
    }
    forall i | n + 1 <= i < |r.pending| && r.pending[i].Register?
      ensures r.pending[i].id !in after
    {
      assert r.pending[i].id !in m;
      assert u.Register? ==> r.pending[n].id != r.pending[i].id;
    }
  }

  lemma {:induction false} CommittingKeepsIds(r: Registry, n: nat)
    requires IdsHandedOut(r) && n <= |r.pending|
    ensures Unmet(ApplyUpdates(r.handlers, r.pending[..n]), r, n)
  {
    hide IdsHandedOut;
    if n == 0 {
      NothingCommitted(r);
    } else {
      hide Unmet;
      CommittingKeepsIds(r, n - 1);
      var us := r.pending[..n];
      assert us[..n - 1] == r.pending[..n - 1];
      UpdateKeepsUnmet(ApplyUpdates(r.handlers, us[..n - 1]), r, n - 1);
    }
  }

  lemma NothingCommitted(r: Registry)
    requires IdsHandedOut(r)
    ensures Unmet(ApplyUpdates(r.handlers, r.pending[..0]), r, 0)
  {
  }

  /** The same over a whole pass, completed or not. */
  lemma PassKeepsIds(r: Registry, react: nat -> Reaction)
    requires IdsHandedOut(r)
    requires r.index + Adds(RunPass(Ascending(r.handlers.Keys), react).requests) < U32_LIMIT
    ensures IdsHandedOut(AfterPass(r, react))
    ensures AfterPass(r, react).index == r.index + Adds(RunPass(Ascending(r.handlers.Keys), react).requests)
  {
    var qs := RunPass(Ascending(r.handlers.Keys), react).requests;
    QueueingKeepsIds(r, qs);
    var queued := QueueAll(r, qs);
    CommittingKeepsIds(queued, |queued.pending|);
    assert queued.pending[..|queued.pending|] == queued.pending;
  }

  /** What the owner of the registry can do between passes. */
  datatype Act = Asks(request: Request) | Walks(react: nat -> Reaction)

  ghost function Step(r: Registry, act: Act): Registry {
    match act
    case Asks(q) => Perform(r, q)
    case Walks(react) => AfterPass(r, react)
  }

  /** What is asked of the registry in one act, by its owner or by the handlers it calls. */
  ghost function AskedIn(r: Registry, act: Act): seq<Request> {
    match act
    case Asks(q) => [q]
    case Walks(react) => RunPass(Ascending(r.handlers.Keys), react).requests
  }

  ghost function After(r: Registry, acts: seq<Act>): Registry
    decreases |acts|
  {
    if acts == [] then r else After(Step(r, acts[0]), acts[1..])
  }

  /** The ids that registering returns, in order, when these requests are made of a counter at `index`. */
  function Returned(index: nat, qs: seq<Request>): seq<nat>
    decreases |qs|
  {
    if qs == [] then []
    else if qs[0].Add? then [NextId(index)] + Returned(NextId(index), qs[1..])
    else Returned(index, qs[1..])
  }

  /** The ids returned over a whole run. */
  ghost function Issued(r: Registry, acts: seq<Act>): seq<nat>
    decreases |acts|
  {
    if acts == [] then []
    else Returned(r.index, AskedIn(r, acts[0])) + Issued(Step(r, acts[0]), acts[1..])
  }

  /** No registration of the run takes the counter past its last value. */
  ghost predicate NeverWraps(r: Registry, acts: seq<Act>)
    decreases |acts|
  {
    acts == [] || (r.index + Adds(AskedIn(r, acts[0])) < U32_LIMIT && NeverWraps(Step(r, acts[0]), acts[1..]))
  }

  predicate CountUp(ids: seq<nat>, index: nat) {
    forall i :: 0 <= i < |ids| ==> ids[i] == index + 1 + i
  }

  lemma {:induction false} ReturnedCountUp(index: nat, qs: seq<Request>)
    requires index + Adds(qs) < U32_LIMIT
    ensures |Returned(index, qs)| == Adds(qs) && CountUp(Returned(index, qs), index)
    decreases |qs|
  {
    if qs != [] {
      ReturnedCountUp(if qs[0].Add? then index + 1 else index, qs[1..]);
    }
  }

  lemma QueueRegisters(r: Registry, q: Request)
    ensures RegisteredIds(Queue(r, q).pending) == RegisteredIds(r.pending) + (if q.Add? then [NextId(r.index)] else [])
  {
    var pending := Queue(r, q).pending;
    assert pending[..|pending| - 1] == r.pending;
  }

  /** The registrations a pass queues carry the ids that were returned for them. */
  lemma {:induction false} QueuedAsReturned(r: Registry, qs: seq<Request>)
    ensures RegisteredIds(QueueAll(r, qs).pending) == RegisteredIds(r.pending) + Returned(r.index, qs)
    ensures Latest(QueueAll(r, qs).index, r.index, Returned(r.index, qs))
  {
    hide RegisteredIds, Returned;
    if qs == [] {
      NothingReturned(r.index);
    } else {
      var init, last := qs[..|qs| - 1], qs[|qs| - 1];
      QueuedAsReturned(r, init);
      ReturnedAppends(r.index, init, last);
      QueueRegisters(QueueAll(r, init), last);
      assert init + [last] == qs;
    }
  }

  lemma NothingReturned(index: nat)
    ensures Returned(index, []) == []
  {
  }

  /** The counter is at the id returned last. */
  predicate Latest(index: nat, before: nat, returned: seq<nat>) {
    index == if returned == [] then before else returned[|returned| - 1]
  }

  lemma {:induction false} ReturnedAppends(index: nat, qs: seq<Request>, q: Request)
    ensures var ids := Returned(index, qs);
            var now := if ids == [] then index else ids[|ids| - 1];
            Returned(index, qs + [q]) == ids + (if q.Add? then [NextId(now)] else [])
    decreases |qs|
  {
    if qs == [] {
      assert qs + [q] == [q] && [q][1..] == [];
      NothingReturned(index);
    } else {
      ReturnedAppends(if qs[0].Add? then NextId(index) else index, qs[1..], q);
      assert (qs + [q])[1..] == qs[1..] + [q];
    }
  }

  function RegisteredIds(us: seq<Update>): seq<nat> {
    if us == [] then []
    else RegisteredIds(us[..|us| - 1]) + (if us[|us| - 1].Register? then [us[|us| - 1].id] else [])
  }

  /**
    Over every run the ids returned are consecutive numbers above the counter at its start: none is returned twice,
    and none that was returned before the run, whether its handler is still there or not. The next one is neither in
    the map nor in the queue, so no registration displaces another.
   */
  lemma {:induction false} IdsAreNeverReused(r: Registry, acts: seq<Act>)
    requires IdsHandedOut(r) && NeverWraps(r, acts)
    ensures var last := After(r, acts);
            && IdsHandedOut(last)
            && last.index == r.index + |Issued(r, acts)|
            && (forall i :: 0 <= i < |Issued(r, acts)| ==> Issued(r, acts)[i] == r.index + 1 + i)
            && (last.index + 1 < U32_LIMIT ==>
                  && NextId(last.index) == last.index + 1
                  && NextId(last.index) !in last.handlers
                  && forall i :: 0 <= i < |last.pending| && last.pending[i].Register? ==>
                       last.pending[i].id != NextId(last.index))
    decreases |acts|
  {
    hide AfterPass, Perform, IdsHandedOut, Returned, RunPass, Ascending, Step, AskedIn;
    if acts == [] {
      if r.index + 1 < U32_LIMIT {
        NextIdIsNew(r);
      }
    } else {
      StepKeepsIds(r, acts[0]);
      ReturnedCountUp(r.index, AskedIn(r, acts[0]));
      IdsAreNeverReused(Step(r, acts[0]), acts[1..]);
    }
  }

  lemma StepKeepsIds(r: Registry, act: Act)
    requires IdsHandedOut(r) && r.index + Adds(AskedIn(r, act)) < U32_LIMIT
    ensures IdsHandedOut(Step(r, act)) && Step(r, act).index == r.index + Adds(AskedIn(r, act))
  {
    hide AfterPass, Perform, IdsHandedOut, RunPass;
    match act
    case Asks(q) =>
      assert [q][1..] == [];
      RequestsKeepIds(r, q);
    case Walks(react) => PassKeepsIds(r, react);
  }

  lemma NextIdIsNew(r: Registry)
    requires IdsHandedOut(r) && r.index + 1 < U32_LIMIT
    ensures NextId(r.index) == r.index + 1 && NextId(r.index) !in r.handlers
    ensures forall i :: 0 <= i < |r.pending| && r.pending[i].Register? ==> r.pending[i].id != NextId(r.index)
  {
  }
}
