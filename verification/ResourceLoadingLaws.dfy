/** What every run of the resource queue keeps, and when its listeners are told. */
module ResourceLoadingLaws {
  import opened Wrappers
  import opened Codec
  import opened ResourceLoading

  datatype Op = Awaits(stage: Stage, json: Option<string>) | Acknowledges(callbackId: int)

  predicate IsOp(op: Op) {
    op.Acknowledges? ==> IsI32(op.callbackId)
  }

  function Step(l: Loader, op: Op): Loader
    requires IsOp(op)
  {
    match op
    case Awaits(stage, json) => Await(l, stage, json).0
    case Acknowledges(id) => Acknowledge(l, id).0
  }

  function After(l: Loader, ops: seq<Op>): Loader
    requires forall op :: op in ops ==> IsOp(op)
    decreases |ops|
  {
    if ops == [] then l else After(Step(l, ops[0]), ops[1..])
  }

  // ---------------------------------------------------------------- the shape of the queue

  /** The state of request `i` when the first `done` requests are finished. */
  predicate StateAt(r: LoadRequest, i: nat, done: nat) {
    if i < done then r.state.Finished?
    else if i == done then r.state.Sent?
    else r.state.Enqueued?
  }

  /**
    Finished requests, then at most one that was sent, then requests that wait; ids count from one; no two requests
    are for the same stage; and exactly the requests that do not wait have been sent, in order.
   */
  predicate Shape(l: Loader, done: nat) {
    && done <= |l.requests|
    && l.requestId == |l.requests|
    && (l.requestPending <==> done < |l.requests|)
    && (forall i :: 0 <= i < |l.requests| ==> l.requests[i].id == i + 1 && StateAt(l.requests[i], i, done))
    && (forall i, j :: 0 <= i < j < |l.requests| ==> l.requests[i].stage != l.requests[j].stage)
    && |l.outbox| == (if l.requestPending then done + 1 else done)
    && (forall i :: 0 <= i < |l.outbox| ==> l.outbox[i].callbackId == i + 1)
  }

  /** While the queue is being changed nothing is pending, and the first request that waits has number `done`. */
  predicate Unsent(l: Loader, done: nat) {
    && done <= |l.requests| && !l.requestPending && l.requestId == |l.requests|
    && (forall i :: 0 <= i < |l.requests| ==>
          l.requests[i].id == i + 1 && if i < done then l.requests[i].state.Finished? else l.requests[i].state.Enqueued?)
    && (forall i, j :: 0 <= i < j < |l.requests| ==> l.requests[i].stage != l.requests[j].stage)
    && |l.outbox| == done
    && (forall i :: 0 <= i < |l.outbox| ==> l.outbox[i].callbackId == i + 1)
  }

  lemma SendingRestoresShape(l: Loader, done: nat)
    requires Unsent(l, done)
    ensures Shape(TrySendNext(l), done)
  {
    if done < |l.requests| {
      assert l.requests[done].state.Enqueued?;
      assert FindEnqueued(l.requests) == done;
    }
  }

  lemma ListeningKeepsShape(l: Loader, done: nat, i: nat)
    requires Shape(l, done) && i < |l.requests|
    ensures Shape(Listen(l, i).0, done)
  {
  }

  lemma EnqueueingKeepsShape(l: Loader, done: nat, stage: Stage, json: string)
    requires Shape(l, done) && forall i :: 0 <= i < |l.requests| ==> l.requests[i].stage != stage
    ensures Shape(EnqueueRequest(l, stage, json), done)
  {
    hide FindStage, FindId, FindEnqueued;
    var l' := l.(requestId := l.requestId + 1, requests := l.requests + [LoadRequest(l.requestId + 1, stage, Enqueued(json), [])]);
    if l.requestPending {
      assert TrySendNext(l') == l';
    } else {
      SendingRestoresShape(l', done);
    }
  }

  lemma AwaitKeepsShape(l: Loader, done: nat, stage: Stage, json: Option<string>)
    requires Shape(l, done)
    ensures Shape(Await(l, stage, json).0, done)
  {
    hide Shape, TrySendNext, EnqueueRequest, Listen;
    var i := FindStage(l.requests, stage);
    if i < |l.requests| {
      ListeningKeepsShape(l, done, i);
    } else if json.Some? {
      EnqueueingKeepsShape(l, done, stage, json.value);
      var l' := EnqueueRequest(l, stage, json.value);
      ListeningKeepsShape(l', done, |l'.requests| - 1);
    }
  }

  /**
    An acknowledgement is accepted exactly when it names the one request that is sent, which it finishes; any other,
    early, repeated or invented, changes nothing.
   */
  lemma AcknowledgeKeepsShape(l: Loader, done: nat, callbackId: int) returns (done': nat)
    requires Shape(l, done) && IsI32(callbackId)
    ensures var (l', failure) := Acknowledge(l, callbackId);
            && Shape(l', done')
            && (failure.None? <==> done < |l.requests| && callbackId == done + 1)
            && (failure.None? ==> done' == done + 1 && |l'.requests| == |l.requests|)
            && (failure.Some? ==> l' == l && done' == done)
            && (failure == Some(InvalidCallbackId) <==> !(1 <= callbackId <= |l.requests|))
            && (failure == Some(AlreadyCompleted) <==> 1 <= callbackId <= done)
  {
    hide FindStage, FindId, FindEnqueued;
    AtMostThree(l, done);
    done' := done;
    if 1 <= callbackId <= |l.requests| {
      assert l.requests[callbackId - 1].id == callbackId;
      assert FindId(l.requests, callbackId) == callbackId - 1;
      if callbackId == done + 1 {
        done' := done + 1;
        var r := l.requests[done];
        SendingRestoresShape(l.(requests := l.requests[done := r.(state := Finished, listeners := [])],
          signalled := l.signalled + r.listeners, requestPending := false), done');
      }
    }
  }

  lemma {:induction false} AtMostThree(l: Loader, done: nat)
    requires Shape(l, done)
    ensures |l.requests| <= 3
  {
    var rs := l.requests;
    if |rs| > 3 {
      ThreeStages(rs[0].stage, rs[1].stage, rs[2].stage, rs[3].stage);
    }
  }

  lemma ThreeStages(a: Stage, b: Stage, c: Stage, d: Stage)
    ensures a == b || a == c || a == d || b == c || b == d || c == d
  {
  }

  lemma StepKeepsShape(l: Loader, done: nat, op: Op) returns (done': nat)
    requires Shape(l, done) && IsOp(op)
    ensures Shape(Step(l, op), done') && done <= done'
  {
    hide Shape, Await, Acknowledge;
    done' := done;
    match op
    case Awaits(stage, json) => AwaitKeepsShape(l, done, stage, json);
    case Acknowledges(callbackId) =>
      done' := AcknowledgeKeepsShape(l, done, callbackId);
  }

  lemma {:induction false} RunKeepsShape(l: Loader, done: nat, ops: seq<Op>) returns (done': nat)
    requires Shape(l, done) && forall op :: op in ops ==> IsOp(op)
    ensures Shape(After(l, ops), done') && done <= done'
    decreases |ops|
  {
    done' := done;
    if ops != [] {
      done' := StepKeepsShape(l, done, ops[0]);
      done' := RunKeepsShape(Step(l, ops[0]), done', ops[1..]);
    }
  }

  /** From a fresh queue, whatever is awaited and acknowledged; and there are never more than three requests. */
  lemma EveryRunHasShape(ops: seq<Op>) returns (done: nat)
    requires forall op :: op in ops ==> IsOp(op)
    ensures Shape(After(Fresh(), ops), done)
    ensures |After(Fresh(), ops).requests| <= 3
  {
    done := RunKeepsShape(Fresh(), 0, ops);
    AtMostThree(After(Fresh(), ops), done);
  }

  /** The packet `last` asks for the resources a request of `l` holds. */
  predicate Holds(l: Loader, last: RegisterResources) {
    exists i :: 0 <= i < |l.requests| && l.requests[i].id == last.callbackId && l.requests[i].state == Enqueued(last.json)
  }

  lemma SendingSendsWhatIsHeld(l: Loader)
    ensures var sent := TrySendNext(l).outbox;
            sent == l.outbox || (|sent| == |l.outbox| + 1 && l.outbox < sent && Holds(l, sent[|l.outbox|]))
  {
    var i := FindEnqueued(l.requests);
    if !l.requestPending && i < |l.requests| {
      assert l.requests[i].state == Enqueued(TrySendNext(l).outbox[|l.outbox|].json);
    }
  }

  /** An operation sends at most one packet, with the resources its request was enqueued with. */
  lemma SentAsEnqueued(l: Loader, op: Op)
    requires IsOp(op)
    ensures var sent := Step(l, op).outbox;
            sent == l.outbox ||
            (|sent| == |l.outbox| + 1 && l.outbox < sent &&
             (Holds(l, sent[|l.outbox|]) ||
              (op.Awaits? && op.json.Some? && sent[|l.outbox|] == RegisterResources(l.requestId + 1, op.json.value))))
  {
    hide FindStage, FindId, FindEnqueued, TrySendNext;
    match op
    case Awaits(stage, json) =>
      if json.Some? {
        var l' := l.(requestId := l.requestId + 1,
                     requests := l.requests + [LoadRequest(l.requestId + 1, stage, Enqueued(json.value), [])]);
        SendingSendsWhatIsHeld(l');
        if TrySendNext(l').outbox != l.outbox && !Holds(l, TrySendNext(l').outbox[|l.outbox|]) {
          var last := TrySendNext(l').outbox[|l.outbox|];
          var i :| 0 <= i < |l'.requests| && l'.requests[i].id == last.callbackId && l'.requests[i].state == Enqueued(last.json);
          assert i == |l.requests|;
        }
      }
    case Acknowledges(callbackId) =>
      var id := if callbackId < 0 then callbackId + U32_LIMIT else callbackId;
      var i := FindId(l.requests, id);
      if i < |l.requests| && l.requests[i].state.Sent? {
        var r := l.requests[i];
        var l' := l.(requests := l.requests[i := r.(state := Finished, listeners := [])],
                     signalled := l.signalled + r.listeners, requestPending := false);
        SendingSendsWhatIsHeld(l');
        if TrySendNext(l').outbox != l.outbox {
          var last := TrySendNext(l').outbox[|l.outbox|];
          var j :| 0 <= j < |l'.requests| && l'.requests[j].id == last.callbackId && l'.requests[j].state == Enqueued(last.json);
          assert l.requests[j] == l'.requests[j];
        }
      }
  }

  datatype Wanted = Wanted(stage: Stage, json: string)

  /** What a run asks for: each stage once, with the resources it had when it was first awaited successfully. */
  function WantedBy(ops: seq<Op>): seq<Wanted> {
    if ops == [] then []
    else
      var before, op := WantedBy(ops[..|ops| - 1]), ops[|ops| - 1];
      if op.Awaits? && op.json.Some? && (forall w :: w in before ==> w.stage != op.stage)
      then before + [Wanted(op.stage, op.json.value)] else before
  }

  /** Every request is for what was wanted: it still holds it, or it was sent, under its number. */
  predicate Fulfils(l: Loader, wanted: seq<Wanted>) {
    && |l.requests| == |wanted| == l.requestId
    && (forall i :: 0 <= i < |wanted| ==>
          && l.requests[i].stage == wanted[i].stage && l.requests[i].id == i + 1
          && (l.requests[i].state.Enqueued? ==> i >= |l.outbox| && l.requests[i].state.json == wanted[i].json)
          && (i >= |l.outbox| ==> l.requests[i].state.Enqueued?))
    && |l.outbox| <= |wanted|
    && (forall i :: 0 <= i < |l.outbox| ==> l.outbox[i] == RegisterResources(i + 1, wanted[i].json))
  }

  lemma SendingFulfils(l: Loader, wanted: seq<Wanted>)
    requires Fulfils(l, wanted)
    ensures Fulfils(TrySendNext(l), wanted)
  {
    hide Find;
    var i := FindEnqueued(l.requests);
    if |l.outbox| < |l.requests| {
      assert l.requests[|l.outbox|].state.Enqueued?;
      assert i == |l.outbox|;
    }
  }

  lemma ListeningFulfils(l: Loader, wanted: seq<Wanted>, i: nat)
    requires Fulfils(l, wanted) && i < |l.requests|
    ensures Fulfils(Listen(l, i).0, wanted)
  {
  }

  lemma EnqueueingFulfils(l: Loader, wanted: seq<Wanted>, stage: Stage, json: string)
    requires Fulfils(l, wanted)
    ensures Fulfils(EnqueueRequest(l, stage, json), wanted + [Wanted(stage, json)])
  {
    hide TrySendNext;
    SendingFulfils(l.(requestId := l.requestId + 1,
                      requests := l.requests + [LoadRequest(l.requestId + 1, stage, Enqueued(json), [])]),
                   wanted + [Wanted(stage, json)]);
  }

  lemma WantedIsRequested(l: Loader, wanted: seq<Wanted>, stage: Stage)
    requires Fulfils(l, wanted)
    ensures FindStage(l.requests, stage) == |l.requests| <==> forall w :: w in wanted ==> w.stage != stage
  {
    var i := FindStage(l.requests, stage);
    if i < |l.requests| {
      assert wanted[i] in wanted;
    }
  }

  lemma AwaitFulfils(l: Loader, wanted: seq<Wanted>, stage: Stage, json: Option<string>)
    requires Fulfils(l, wanted)
    ensures var isNew := forall w :: w in wanted ==> w.stage != stage;
            Fulfils(Await(l, stage, json).0,
                    if json.Some? && isNew then wanted + [Wanted(stage, json.value)] else wanted)
  {
    hide FindStage, Fulfils, EnqueueRequest, Listen;
    WantedIsRequested(l, wanted, stage);
    var i := FindStage(l.requests, stage);
    if i < |l.requests| {
      ListeningFulfils(l, wanted, i);
    } else if json.Some? {
      EnqueueingFulfils(l, wanted, stage, json.value);
      var l' := EnqueueRequest(l, stage, json.value);
      ListeningFulfils(l', wanted + [Wanted(stage, json.value)], |l'.requests| - 1);
    }
  }

  lemma FinishingFulfils(l: Loader, wanted: seq<Wanted>, i: nat)
    requires Fulfils(l, wanted) && i < |l.requests| && l.requests[i].state.Sent?
    ensures var r := l.requests[i];
            Fulfils(l.(requests := l.requests[i := r.(state := Finished, listeners := [])],
                       signalled := l.signalled + r.listeners, requestPending := false), wanted)
  {
  }

  lemma AcknowledgeFulfils(l: Loader, wanted: seq<Wanted>, callbackId: int)
    requires Fulfils(l, wanted) && IsI32(callbackId)
    ensures Fulfils(Acknowledge(l, callbackId).0, wanted)
  {
    hide FindId, Fulfils, TrySendNext;
    var id := if callbackId < 0 then callbackId + U32_LIMIT else callbackId;
    var i := FindId(l.requests, id);
    if i < |l.requests| && l.requests[i].state.Sent? {
      var r := l.requests[i];
      FinishingFulfils(l, wanted, i);
      SendingFulfils(l.(requests := l.requests[i := r.(state := Finished, listeners := [])],
                        signalled := l.signalled + r.listeners, requestPending := false), wanted);
    }
  }

  lemma StepFulfils(l: Loader, ops: seq<Op>)
    requires ops != [] && IsOp(ops[|ops| - 1]) && Fulfils(l, WantedBy(ops[..|ops| - 1]))
    ensures Fulfils(Step(l, ops[|ops| - 1]), WantedBy(ops))
  {
    hide Fulfils, Await, Acknowledge;
    var wanted := WantedBy(ops[..|ops| - 1]);
    match ops[|ops| - 1]
    case Awaits(stage, json) => AwaitFulfils(l, wanted, stage, json);
    case Acknowledges(callbackId) => AcknowledgeFulfils(l, wanted, callbackId);
  }

  lemma {:induction false} RunFulfils(ops: seq<Op>)
    requires forall op :: op in ops ==> IsOp(op)
    ensures Fulfils(AfterAll(ops), WantedBy(ops))
  {
    hide Step;
    if ops != [] {
      RunFulfils(ops[..|ops| - 1]);
      StepFulfils(AfterAll(ops[..|ops| - 1]), ops);
    }
  }

  /** The state after a run from a fresh queue. */
  function AfterAll(ops: seq<Op>): Loader
    requires forall op :: op in ops ==> IsOp(op)
  {
    if ops == [] then Fresh() else Step(AfterAll(ops[..|ops| - 1]), ops[|ops| - 1])
  }

  lemma {:induction false} AfterThenStep(l: Loader, ops: seq<Op>)
    requires ops != [] && forall op :: op in ops ==> IsOp(op)
    ensures After(l, ops) == Step(After(l, ops[..|ops| - 1]), ops[|ops| - 1])
    decreases |ops|
  {
    hide Step;
    if |ops| > 1 {
      AfterThenStep(Step(l, ops[0]), ops[1..]);
      assert ops[1..][..|ops| - 2] == ops[..|ops| - 1][1..];
    }
  }

  lemma {:induction false} AfterAllIsAfter(ops: seq<Op>)
    requires forall op :: op in ops ==> IsOp(op)
    ensures AfterAll(ops) == After(Fresh(), ops)
  {
    hide Step;
    if ops != [] {
      AfterAllIsAfter(ops[..|ops| - 1]);
      AfterThenStep(Fresh(), ops);
    }
  }

  /** Over every run: what is sent is what was wanted, stage by stage, in the order it was first awaited. */
  lemma SentAsWanted(ops: seq<Op>)
    requires forall op :: op in ops ==> IsOp(op)
    ensures Fulfils(After(Fresh(), ops), WantedBy(ops))
  {
    RunFulfils(ops);
    AfterAllIsAfter(ops);
  }

  /** Acknowledging the ids in order, as a client does that loads what it is told to, finishes every request. */
  lemma {:induction false} AcknowledgementsFinishAll(l: Loader, done: nat) returns (ops: seq<Op>)
    requires Shape(l, done)
    ensures forall op :: op in ops ==> IsOp(op) && op.Acknowledges?
    ensures |ops| == |l.requests| - done
    ensures Shape(After(l, ops), |l.requests|) && |After(l, ops).requests| == |l.requests|
    decreases |l.requests| - done
  {
    hide Acknowledge;
    ops := [];
    if done < |l.requests| {
      var op := Acknowledges(done + 1);
      AtMostThree(l, done);
      var done' := AcknowledgeKeepsShape(l, done, op.callbackId);
      var rest := AcknowledgementsFinishAll(Step(l, op), done');
      ops := [op] + rest;
      assert ops[1..] == rest;
    }
  }

  // ---------------------------------------------------------------- listeners

  /** The signals given so far to listeners of one stage. */
  function Given(signalled: seq<Listener>, stage: Stage): seq<Listener> {
    if signalled == [] then []
    else
      var init, last := signalled[..|signalled| - 1], signalled[|signalled| - 1];
      if last.stage == stage then Given(init, stage) + [last] else Given(init, stage)
  }

  /** All channels made for a stage. */
  function Channels(stage: Stage, count: nat): seq<Listener> {
    seq(count, i requires 0 <= i < count => Listener(stage, i))
  }

  /** The listeners of one request: all still waiting, or all told, once each and in order. */
  predicate RequestAccounted(l: Loader, r: LoadRequest) {
    var channels := Channels(r.stage, IssuedFor(l, r.stage));
    if r.state.Finished? then r.listeners == [] && Given(l.signalled, r.stage) == channels
    else r.listeners == channels && Given(l.signalled, r.stage) == []
  }

  predicate Requested(l: Loader, stage: Stage) {
    exists i :: 0 <= i < |l.requests| && l.requests[i].stage == stage
  }

  predicate Accounted(l: Loader) {
    && (forall i :: 0 <= i < |l.requests| ==> RequestAccounted(l, l.requests[i]))
    && (forall stage :: !Requested(l, stage) ==> IssuedFor(l, stage) == 0 && Given(l.signalled, stage) == [])
  }

  lemma {:induction false} GivenAppends(a: seq<Listener>, b: seq<Listener>, stage: Stage)
    requires forall x, y :: x in b && y in b ==> x.stage == y.stage
    ensures Given(a + b, stage) == Given(a, stage) + (if b != [] && b[0].stage == stage then b else [])
  {
    if b == [] {
      assert a + b == a;
    } else {
      var init, last := b[..|b| - 1], b[|b| - 1];
      assert (a + b)[..|a + b| - 1] == a + init;
      GivenAppends(a, init, stage);
      assert b == init + [last];
    }
  }

  /** The same stages were asked for, and each has its listeners, its finish and its signals as before. */
  predicate SameAccounts(l: Loader, l': Loader) {
    && |l.requests| == |l'.requests| && l.issued == l'.issued && l.signalled == l'.signalled
    && forall i :: 0 <= i < |l.requests| ==>
         && l.requests[i].stage == l'.requests[i].stage && l.requests[i].listeners == l'.requests[i].listeners
         && (l.requests[i].state.Finished? <==> l'.requests[i].state.Finished?)
  }

  lemma KeepsRequested(l: Loader, l': Loader)
    requires |l.requests| <= |l'.requests|
    requires forall i :: 0 <= i < |l.requests| ==> l.requests[i].stage == l'.requests[i].stage
    ensures forall stage :: Requested(l, stage) ==> Requested(l', stage)
  {
    forall stage | Requested(l, stage)
      ensures Requested(l', stage)
    {
      var i :| 0 <= i < |l.requests| && l.requests[i].stage == stage;
      assert l'.requests[i].stage == stage;
    }
  }

  lemma SameAccountsStayAccounted(l: Loader, l': Loader)
    requires SameAccounts(l, l') && Accounted(l)
    ensures Accounted(l')
  {
    KeepsRequested(l, l');
  }

  lemma SendingKeepsAccounts(l: Loader)
    requires Accounted(l)
    ensures Accounted(TrySendNext(l))
  {
    SameAccountsStayAccounted(l, TrySendNext(l));
  }

  lemma NewRequestIsAccounted(l: Loader, l': Loader, r: LoadRequest)
    requires Accounted(l) && !Requested(l, r.stage) && r.state.Enqueued? && r.listeners == []
    requires l' == l.(requests := l.requests + [r], requestId := l'.requestId)
    ensures Accounted(l')
  {
    KeepsRequested(l, l');
    assert l'.requests[|l.requests|] == r;
    forall i | 0 <= i < |l'.requests|
      ensures RequestAccounted(l', l'.requests[i])
    {
      if i < |l.requests| {
        assert RequestAccounted(l, l.requests[i]);
      }
    }
  }

  lemma EnqueueingKeepsAccounts(l: Loader, stage: Stage, json: string)
    requires Accounted(l) && !Requested(l, stage)
    ensures Accounted(EnqueueRequest(l, stage, json))
  {
    hide Accounted, TrySendNext;
    var r := LoadRequest(l.requestId + 1, stage, Enqueued(json), []);
    var l' := l.(requestId := l.requestId + 1, requests := l.requests + [r]);
    NewRequestIsAccounted(l, l', r);
    SendingKeepsAccounts(l');
  }

  /** A new channel joins the listeners of its stage. */
  lemma ListeningKeepsAccounts(l: Loader, i: nat, done: nat)
    requires Accounted(l) && Shape(l, done) && i < |l.requests|
    ensures Accounted(Listen(l, i).0)
    ensures match Listen(l, i).1
            case Ok(AlreadyLoaded) => l.requests[i].state.Finished?
            case Ok(Listening(x)) => !l.requests[i].state.Finished? && x in Listen(l, i).0.requests[i].listeners
            case Err(_) => false
  {
    var (l', _) := Listen(l, i);
    var r := l.requests[i];
    if !r.state.Finished? {
      var n := IssuedFor(l, r.stage);
      assert Channels(r.stage, n + 1) == Channels(r.stage, n) + [Listener(r.stage, n)];
      KeepsRequested(l, l');
      forall j | 0 <= j < |l'.requests|
        ensures RequestAccounted(l', l'.requests[j])
      {
        assert RequestAccounted(l, l.requests[j]);
        if j != i {
          assert l.requests[j].stage != r.stage;
        }
      }
    }
  }

  /** Finishing a request tells all its listeners and no others. */
  lemma FinishingKeepsAccounts(l: Loader, i: nat, done: nat)
    requires Accounted(l) && Shape(l, done) && i < |l.requests| && !l.requests[i].state.Finished?
    ensures var r := l.requests[i];
            Accounted(l.(requests := l.requests[i := r.(state := Finished, listeners := [])],
                         signalled := l.signalled + r.listeners, requestPending := false))
  {
    var r := l.requests[i];
    var l' := l.(requests := l.requests[i := r.(state := Finished, listeners := [])],
                 signalled := l.signalled + r.listeners, requestPending := false);
    assert RequestAccounted(l, r);
    forall stage
      ensures Given(l'.signalled, stage) == Given(l.signalled, stage) + (if stage == r.stage then r.listeners else [])
    {
      GivenAppends(l.signalled, r.listeners, stage);
      assert Given(l.signalled, stage) + [] == Given(l.signalled, stage);
    }
    KeepsRequested(l, l');
    assert l'.requests[i].stage == r.stage && Requested(l', r.stage);
    forall j | 0 <= j < |l'.requests|
      ensures RequestAccounted(l', l'.requests[j])
    {
      assert RequestAccounted(l, l.requests[j]);
      if j != i {
        assert l.requests[j].stage != r.stage;
        assert Given(l.signalled, l.requests[j].stage) + [] == Given(l.signalled, l.requests[j].stage);
      }
    }
    forall s | !Requested(l', s)
      ensures IssuedFor(l', s) == 0 && Given(l'.signalled, s) == []
    {
      assert Given(l.signalled, s) + [] == Given(l.signalled, s);
    }
  }

  lemma StepKeepsAccounts(l: Loader, done: nat, op: Op)
    requires Accounted(l) && Shape(l, done) && IsOp(op)
    ensures Accounted(Step(l, op))
  {
    hide Accounted, Shape, TrySendNext, EnqueueRequest, Listen;
    match op
    case Awaits(stage, json) =>
      var i := FindStage(l.requests, stage);
      if i < |l.requests| {
        ListeningKeepsAccounts(l, i, done);
      } else if json.Some? {
        var l' := EnqueueRequest(l, stage, json.value);
        EnqueueingKeepsAccounts(l, stage, json.value);
        EnqueueingKeepsShape(l, done, stage, json.value);
        ListeningKeepsAccounts(l', |l'.requests| - 1, done);
      }
    case Acknowledges(callbackId) =>
      var id := if callbackId < 0 then callbackId + U32_LIMIT else callbackId;
      var i := FindId(l.requests, id);
      if i < |l.requests| && l.requests[i].state.Sent? {
        var r := l.requests[i];
        FinishingKeepsAccounts(l, i, done);
        SendingKeepsAccounts(l.(requests := l.requests[i := r.(state := Finished, listeners := [])],
                                signalled := l.signalled + r.listeners, requestPending := false));
      }
  }

  lemma {:induction false} RunKeepsAccounts(l: Loader, done: nat, ops: seq<Op>)
    requires Accounted(l) && Shape(l, done) && forall op :: op in ops ==> IsOp(op)
    ensures Accounted(After(l, ops))
    decreases |ops|
  {
    hide Accounted, Shape, Step;
    if ops != [] {
      StepKeepsAccounts(l, done, ops[0]);
      var done' := StepKeepsShape(l, done, ops[0]);
      RunKeepsAccounts(Step(l, ops[0]), done', ops[1..]);
    }
  }

  /** Some request of this stage is finished. */
  predicate Loaded(l: Loader, stage: Stage) {
    exists i :: 0 <= i < |l.requests| && l.requests[i].stage == stage && l.requests[i].state.Finished?
  }

  /** An unfinished request of the listener's stage holds it. */
  predicate WaitsFor(l: Loader, x: Listener) {
    exists i :: 0 <= i < |l.requests| && l.requests[i].stage == x.stage && !l.requests[i].state.Finished?
                && x in l.requests[i].listeners
  }

  /**
    The answer to waiting for a stage: ready exactly if the stage is loaded; an error, with nothing changed, exactly
    if it was never requested and its resources cannot be had; otherwise a new channel of that very stage, which an
    unfinished request of the stage holds from then on.
   */
  lemma AwaitAnswersIff(l: Loader, done: nat, stage: Stage, json: Option<string>)
    requires Shape(l, done) && Accounted(l)
    ensures var (l', answer) := Await(l, stage, json);
            && (answer == Ok(AlreadyLoaded) <==> Loaded(l, stage))
            && (answer.Err? <==> !Requested(l, stage) && json.None?)
            && (answer.Err? ==> answer.error == ResourcesUnavailable && l' == l)
            && (answer.Ok? && answer.value.Listening? ==>
                  answer.value.listener == Listener(stage, IssuedFor(l, stage)) && WaitsFor(l', answer.value.listener))
  {
    hide Listen, EnqueueRequest, FindStage, WaitsFor;
    StageIsKnown(l, done, stage);
    var i := FindStage(l.requests, stage);
    if i < |l.requests| {
      ListenAnswers(l, i);
    } else if json.Some? {
      EnqueuedIsLast(l, stage, json.value);
      var l' := EnqueueRequest(l, stage, json.value);
      ListenAnswers(l', |l'.requests| - 1);
    }
  }

  lemma StageIsKnown(l: Loader, done: nat, stage: Stage)
    requires Shape(l, done)
    ensures var i := FindStage(l.requests, stage);
            && (i < |l.requests| <==> Requested(l, stage))
            && (Loaded(l, stage) <==> i < |l.requests| && l.requests[i].state.Finished?)
  {
    var i := FindStage(l.requests, stage);
    if Loaded(l, stage) {
      var j :| 0 <= j < |l.requests| && l.requests[j].stage == stage && l.requests[j].state.Finished?;
      assert i == j;
    }
  }

  lemma ListenAnswers(l: Loader, i: nat)
    requires i < |l.requests|
    ensures var (l', answer) := Listen(l, i);
            var r := l.requests[i];
            if r.state.Finished? then answer == Ok(AlreadyLoaded)
            else answer == Ok(Listening(Listener(r.stage, IssuedFor(l, r.stage)))) && WaitsFor(l', answer.value.listener)
  {
    var (l', answer) := Listen(l, i);
    if answer != Ok(AlreadyLoaded) {
      assert l'.requests[i].stage == l.requests[i].stage && answer.value.listener in l'.requests[i].listeners;
    }
  }

  lemma EnqueuedIsLast(l: Loader, stage: Stage, json: string)
    ensures var l' := EnqueueRequest(l, stage, json);
            && |l'.requests| == |l.requests| + 1 && l'.issued == l.issued
            && l'.requests[|l.requests|].stage == stage && !l'.requests[|l.requests|].state.Finished?
            && IssuedFor(l', stage) == IssuedFor(l, stage)
  {
  }

  /**
    Over every run: the signals given for a stage are all the channels ever made for it, once each and in order, if
    its request is finished, and none if it is not, when they all still wait in it.
   */
  lemma ListenersAreToldExactlyOnce(ops: seq<Op>, stage: Stage)
    requires forall op :: op in ops ==> IsOp(op)
    ensures var l := After(Fresh(), ops);
            var i := FindStage(l.requests, stage);
            var channels := Channels(stage, IssuedFor(l, stage));
            if i == |l.requests| then channels == [] && Given(l.signalled, stage) == []
            else if l.requests[i].state.Finished? then
              Given(l.signalled, stage) == channels && l.requests[i].listeners == []
            else Given(l.signalled, stage) == [] && l.requests[i].listeners == channels
  {
    hide Shape, Given;
    NothingIsAccounted();
    assert Shape(Fresh(), 0) by { FreshHasShape(); }
    RunKeepsAccounts(Fresh(), 0, ops);
    var l := After(Fresh(), ops);
    var i := FindStage(l.requests, stage);
    if i == |l.requests| {
      assert !Requested(l, stage);
    } else {
      assert RequestAccounted(l, l.requests[i]);
    }
  }

  lemma NothingIsAccounted()
    ensures Accounted(Fresh())
  {
  }

  lemma FreshHasShape()
    ensures Shape(Fresh(), 0)
  {
  }
}
