/** No task is lost, run twice or reordered, whatever callbacks enqueue. */
module TaskExecutorLaws {
  import opened TaskExecutor

  // ---------------------------------------------------------------- conservation

  /** How often an id occurs among some tasks and everything they will ever spawn. */
  function CountOne(t: Task, id: nat): nat {
    (if t.id == id then 1 else 0) + Count(t.spawns, id)
  }

  function Count(ts: seq<Task>, id: nat): nat {
    if ts == [] then 0 else CountOne(ts[0], id) + Count(ts[1..], id)
  }

  function Occurs(ids: seq<nat>, id: nat): nat {
    if ids == [] then 0 else (if ids[0] == id then 1 else 0) + Occurs(ids[1..], id)
  }

  lemma {:induction false} CountAppends(a: seq<Task>, b: seq<Task>, id: nat)
    ensures Count(a + b, id) == Count(a, id) + Count(b, id)
  {
    if a == [] {
      assert a + b == b;
    } else {
      CountAppends(a[1..], b, id);
      assert (a + b)[1..] == a[1..] + b;
    }
  }

  lemma {:induction false} OccursAppends(a: seq<nat>, b: seq<nat>, id: nat)
    ensures Occurs(a + b, id) == Occurs(a, id) + Occurs(b, id)
  {
    if a == [] {
      assert a + b == b;
    } else {
      OccursAppends(a[1..], b, id);
      assert (a + b)[1..] == a[1..] + b;
    }
  }

  lemma {:induction false} OccursIff(ids: seq<nat>, id: nat)
    ensures Occurs(ids, id) > 0 <==> id in ids
  {
    if ids != [] {
      OccursIff(ids[1..], id);
    }
  }

  lemma {:induction false} WalkConserves(ts: seq<Task>, id: nat)
    ensures var w := WalkAll(ts);
            Count(ts, id) == Occurs(w.done, id) + Count(w.kept, id) + Count(w.spawned, id)
  {
    if ts != [] {
      var one, rest := WalkOne(ts[0]), WalkAll(ts[1..]);
      WalkConserves(ts[1..], id);
      CountAppends(one.kept, rest.kept, id);
      CountAppends(one.spawned, rest.spawned, id);
      OccursAppends(one.done, rest.done, id);
      WalkOneConserves(ts[0], id);
    }
  }

  lemma WalkOneConserves(t: Task, id: nat)
    ensures var w := WalkOne(t);
            CountOne(t, id) == Occurs(w.done, id) + Count(w.kept, id) + Count(w.spawned, id)
  {
    if t.delay > 0 {
      assert WalkOne(t).kept[1..] == [];
    } else {
      assert WalkOne(t).done[1..] == [];
    }
  }

  /**
    A poll neither loses nor repeats work: every task, present or yet to be spawned, is afterwards either among the
    tasks that stay (or their descendants) or in the list of completed ones, as often as it was there before.
   */
  lemma {:induction false} PollConserves(ts: seq<Task>, id: nat)
    ensures Count(ts, id) == Occurs(PollAll(ts).done, id) + Count(PollAll(ts).kept, id)
    decreases SizeAll(ts)
  {
    var w := WalkAll(ts);
    WalkConserves(ts, id);
    if w.spawned != [] {
      WalkShrinks(ts);
      SpawningNeedsTasks(ts);
      PollConserves(w.kept + w.spawned, id);
      CountAppends(w.kept, w.spawned, id);
      OccursAppends(w.done, PollAll(w.kept + w.spawned).done, id);
    }
  }

  /** Tasks with distinct identities: no id occurs twice among them and their descendants. */
  ghost predicate Distinct(ts: seq<Task>) {
    forall id :: Count(ts, id) <= 1
  }

  /** Each callback runs at most once, and never for a task that stays. */
  lemma CallbacksRunAtMostOnce(ts: seq<Task>)
    requires Distinct(ts)
    ensures var p := PollAll(ts);
            && (forall id :: Occurs(p.done, id) <= 1)
            && (forall id :: id in p.done ==> Count(p.kept, id) == 0)
            && Distinct(p.kept)
  {
    hide PollAll;
    var p := PollAll(ts);
    forall id: nat
      ensures Occurs(p.done, id) <= 1 && (id in p.done ==> Count(p.kept, id) == 0) && Count(p.kept, id) <= 1
    {
      PollConserves(ts, id);
      OccursIff(p.done, id);
      assert Count(ts, id) <= 1;
    }
  }

  // ---------------------------------------------------------------- order

  function Without(ids: seq<nat>, gone: seq<nat>): seq<nat> {
    if ids == [] then []
    else (if ids[0] in gone then [] else [ids[0]]) + Without(ids[1..], gone)
  }

  lemma WithoutHead(ids: seq<nat>, gone: seq<nat>)
    requires ids != []
    ensures Without(ids, gone) == (if ids[0] in gone then [] else [ids[0]]) + Without(ids[1..], gone)
  {
  }

  lemma {:induction false} WithoutAppends(a: seq<nat>, b: seq<nat>, gone: seq<nat>)
    ensures Without(a + b, gone) == Without(a, gone) + Without(b, gone)
  {
    if a == [] {
      assert a + b == b;
    } else {
      WithoutAppends(a[1..], b, gone);
      WithoutHead(a, gone);
      WithoutHead(a + b, gone);
      hide Without;
      assert (a + b)[1..] == a[1..] + b;
      Associates(if a[0] in gone then [] else [a[0]], Without(a[1..], gone), Without(b, gone));
    }
  }

  /** Only the ids that occur in both lists matter. */
  lemma {:induction false} WithoutSame(ids: seq<nat>, gone: seq<nat>, gone': seq<nat>)
    requires forall id :: id in ids ==> (id in gone <==> id in gone')
    ensures Without(ids, gone) == Without(ids, gone')
  {
    if ids != [] {
      WithoutSame(ids[1..], gone, gone');
    }
  }

  lemma {:induction false} WithoutTwice(ids: seq<nat>, a: seq<nat>, b: seq<nat>)
    ensures Without(Without(ids, a), b) == Without(ids, a + b)
  {
    if ids != [] {
      WithoutTwice(ids[1..], a, b);
      var head := if ids[0] in a then [] else [ids[0]];
      WithoutAppends(head, Without(ids[1..], a), b);
      if ids[0] !in a {
        assert head[1..] == [];
      }
    }
  }

  lemma {:induction false} WithoutNone(ids: seq<nat>, gone: seq<nat>)
    requires forall id :: id in ids ==> id !in gone
    ensures Without(ids, gone) == ids
  {
    if ids != [] {
      WithoutNone(ids[1..], gone);
      assert ids == [ids[0]] + ids[1..];
    }
  }

  lemma {:induction false} IdsAreCounted(ts: seq<Task>, id: nat)
    ensures id in Ids(ts) ==> Count(ts, id) > 0
  {
    if ts != [] {
      assert Ids(ts) == [ts[0].id] + Ids(ts[1..]);
      IdsAreCounted(ts[1..], id);
    }
  }

  /** After one walk, the tasks that stay are those that were there and are not done, in the same order. */
  lemma {:induction false} WalkKeepsOrder(ts: seq<Task>)
    requires Distinct(ts)
    ensures Ids(WalkAll(ts).kept) == Without(Ids(ts), WalkAll(ts).done)
  {
    if ts != [] {
      var t, rest := ts[0], WalkAll(ts[1..]);
      TailIsDistinct(ts);
      WalkKeepsOrder(ts[1..]);
      IdsAppend(WalkOne(t).kept, rest.kept);
      HeadIsElsewhere(ts);
      WithoutSame(Ids(ts[1..]), rest.done, WalkAll(ts).done);
      assert Ids(ts)[1..] == Ids(ts[1..]);
    }
  }

  lemma TailIsDistinct(ts: seq<Task>)
    requires ts != [] && Distinct(ts)
    ensures Distinct(ts[1..])
  {
    forall id: nat
      ensures Count(ts[1..], id) <= 1
    {
      assert Count(ts, id) <= 1;
    }
  }

  /** The first task's id belongs neither to a later task nor to anything that completes with them. */
  lemma HeadIsElsewhere(ts: seq<Task>)
    requires ts != [] && Distinct(ts)
    ensures ts[0].id !in Ids(ts[1..]) && ts[0].id !in WalkAll(ts[1..]).done
  {
    var id := ts[0].id;
    assert Count(ts, id) <= 1;
    IdsAreCounted(ts[1..], id);
    WalkConserves(ts[1..], id);
    OccursIff(WalkAll(ts[1..]).done, id);
  }

  /** What is enqueued during a poll are descendants of the tasks that were there. */
  lemma {:induction false} EnqueuedAreCounted(ts: seq<Task>, id: nat)
    ensures id in PollAll(ts).enqueued ==> Count(WalkAll(ts).spawned, id) + Count(WalkAll(ts).kept, id) > 0
    decreases SizeAll(ts)
  {
    var w := WalkAll(ts);
    if w.spawned != [] {
      WalkShrinks(ts);
      SpawningNeedsTasks(ts);
      var next := w.kept + w.spawned;
      EnqueuedAreCounted(next, id);
      WalkConserves(next, id);
      CountAppends(w.kept, w.spawned, id);
      IdsAreCounted(w.spawned, id);
    }
  }

  /**
    The tasks that stay after a poll are the tasks that were enqueued before it or during it and have not completed,
    in the order in which they were enqueued.
   */
  lemma {:induction false} PollKeepsOrder(ts: seq<Task>)
    requires Distinct(ts)
    ensures Ids(PollAll(ts).kept) == Without(Ids(ts) + PollAll(ts).enqueued, PollAll(ts).done)
    decreases SizeAll(ts)
  {
    var w := WalkAll(ts);
    WalkKeepsOrder(ts);
    if w.spawned == [] {
      assert Ids(ts) + [] == Ids(ts);
    } else {
      WalkShrinks(ts);
      SpawningNeedsTasks(ts);
      NextIsDistinct(ts);
      var p := PollAll(w.kept + w.spawned);
      PollKeepsOrder(w.kept + w.spawned);
      IdsAppend(w.kept, w.spawned);
      OrderComposes(ts, w, p);
    }
  }

  lemma NextIsDistinct(ts: seq<Task>)
    requires Distinct(ts)
    ensures Distinct(WalkAll(ts).kept + WalkAll(ts).spawned)
  {
    var w := WalkAll(ts);
    forall id: nat
      ensures Count(w.kept + w.spawned, id) <= 1
    {
      WalkConserves(ts, id);
      CountAppends(w.kept, w.spawned, id);
      assert Count(ts, id) <= 1;
    }
  }

  lemma OrderComposes(ts: seq<Task>, w: Walk, p: Polled)
    requires Distinct(ts) && w == WalkAll(ts) && w.spawned != [] && p == PollAll(w.kept + w.spawned)
    requires Ids(w.kept) == Without(Ids(ts), w.done)
    ensures Without(Ids(w.kept) + Ids(w.spawned) + p.enqueued, p.done)
         == Without(Ids(ts) + (Ids(w.spawned) + p.enqueued), w.done + p.done)
  {
    var later := Ids(w.spawned) + p.enqueued;
    forall id | id in later
      ensures id !in w.done
    {
      WalkConserves(ts, id);
      OccursIff(w.done, id);
      IdsAreCounted(w.spawned, id);
      EnqueuedAreCounted(ts, id);
      assert p.enqueued == PollAll(ts).enqueued[|Ids(w.spawned)|..];
      assert Count(ts, id) <= 1;
    }
    assert Ids(w.kept) + Ids(w.spawned) + p.enqueued == Ids(w.kept) + later;
    WithoutAppends(Ids(w.kept), later, p.done);
    WithoutTwice(Ids(ts), w.done, p.done);
    WithoutAppends(Ids(ts), later, w.done + p.done);
    WithoutSame(later, p.done, w.done + p.done);
  }

  // ---------------------------------------------------------------- one walk, from the other end

  /** The tasks that answer with pending, the ids of the others, and what their callbacks enqueue. */
  function StillPending(ts: seq<Task>): seq<Task> {
    if ts == [] then []
    else
      var t := ts[|ts| - 1];
      StillPending(ts[..|ts| - 1]) + (if t.delay > 0 then [Task(t.id, t.delay - 1, t.spawns)] else [])
  }

  function ReadyIds(ts: seq<Task>): seq<nat> {
    if ts == [] then [] else ReadyIds(ts[..|ts| - 1]) + (if ts[|ts| - 1].delay == 0 then [ts[|ts| - 1].id] else [])
  }

  function ReadySpawns(ts: seq<Task>): seq<Task> {
    if ts == [] then [] else ReadySpawns(ts[..|ts| - 1]) + (if ts[|ts| - 1].delay == 0 then ts[|ts| - 1].spawns else [])
  }

  lemma {:induction false} WalkAppends(ts: seq<Task>, t: Task)
    ensures WalkAll(ts + [t]) == Join(WalkAll(ts), WalkOne(t))
  {
    if ts == [] {
      assert ts + [t] == [t] && [t][1..] == [];
      JoinNothing([t]);
      assert WalkAll([t]) == Join(WalkOne(t), Walk([], [], []));
      var w := WalkOne(t);
      assert w.kept + [] == w.kept && w.spawned + [] == w.spawned && w.done + [] == w.done;
      assert [] + w.kept == w.kept && [] + w.spawned == w.spawned && [] + w.done == w.done;
    } else {
      WalkAppends(ts[1..], t);
      assert (ts + [t])[1..] == ts[1..] + [t];
      var head, rest, last := WalkOne(ts[0]), WalkAll(ts[1..]), WalkOne(t);
      Associates(head.kept, rest.kept, last.kept);
      Associates(head.spawned, rest.spawned, last.spawned);
      Associates(head.done, rest.done, last.done);
    }
  }

  /** A walk completes exactly the ready tasks, keeps the others one poll nearer, and enqueues in callback order. */
  lemma {:induction false} WalkCompletesTheReady(ts: seq<Task>)
    ensures WalkAll(ts) == Walk(StillPending(ts), ReadySpawns(ts), ReadyIds(ts))
  {
    if ts != [] {
      WalkCompletesTheReady(ts[..|ts| - 1]);
      WalkAppends(ts[..|ts| - 1], ts[|ts| - 1]);
      assert ts[..|ts| - 1] + [ts[|ts| - 1]] == ts;
    }
  }

  // ---------------------------------------------------------------- balance

  lemma {:induction false} WalkBalances(ts: seq<Task>, id: nat)
    ensures Occurs(Ids(ts), id) == Occurs(WalkAll(ts).done, id) + Occurs(Ids(WalkAll(ts).kept), id)
  {
    if ts != [] {
      var w, rest := WalkOne(ts[0]), WalkAll(ts[1..]);
      WalkBalances(ts[1..], id);
      assert Ids(ts) == [ts[0].id] + Ids(ts[1..]);
      OccursAppends([ts[0].id], Ids(ts[1..]), id);
      OccursAppends(w.done, rest.done, id);
      IdsAppend(w.kept, rest.kept);
      OccursAppends(Ids(w.kept), Ids(rest.kept), id);
      assert Ids(w.kept) + w.done == [ts[0].id];
    }
  }

  /** Whatever was there or was enqueued meanwhile has completed or stays, and nothing else did. */
  lemma {:induction false} PollBalances(ts: seq<Task>, id: nat)
    ensures var p := PollAll(ts);
            Occurs(Ids(ts) + p.enqueued, id) == Occurs(p.done, id) + Occurs(Ids(p.kept), id)
    decreases SizeAll(ts)
  {
    var w := WalkAll(ts);
    WalkBalances(ts, id);
    OccursAppends(Ids(ts), PollAll(ts).enqueued, id);
    if w.spawned != [] {
      WalkShrinks(ts);
      SpawningNeedsTasks(ts);
      var p := PollAll(w.kept + w.spawned);
      PollBalances(w.kept + w.spawned, id);
      IdsAppend(w.kept, w.spawned);
      OccursAppends(Ids(w.kept) + Ids(w.spawned), p.enqueued, id);
      OccursAppends(Ids(w.kept), Ids(w.spawned), id);
      OccursAppends(Ids(w.spawned), p.enqueued, id);
      OccursAppends(w.done, p.done, id);
    }
  }

  // ---------------------------------------------------------------- whole runs

  /** What the owner of an executor does with it. Enqueueing during a poll is what callbacks do. */
  datatype Op = Enqueues(task: Task) | Polls

  /**
    An executor with the tasks its owner handed in (`given`), the ids of everything ever enqueued, by the owner or by
    a callback (`log`), and the ids of everything whose callback ran (`completed`), all in order.
   */
  datatype Executor = Executor(tasks: seq<Task>, log: seq<nat>, completed: seq<nat>, given: seq<Task>)

  function Step(e: Executor, op: Op): Executor {
    match op
    case Enqueues(t) => e.(tasks := e.tasks + [t], log := e.log + [t.id], given := e.given + [t])
    case Polls =>
      var p := PollAll(e.tasks);
      e.(tasks := p.kept, log := e.log + p.enqueued, completed := e.completed + p.done)
  }

  function After(e: Executor, ops: seq<Op>): Executor {
    if ops == [] then e else Step(After(e, ops[..|ops| - 1]), ops[|ops| - 1])
  }

  function NewExecutor(): Executor {
    Executor([], [], [], [])
  }

  /** The tasks held are those that were enqueued and have not completed, in enqueue order. */
  predicate InOrder(e: Executor) {
    Ids(e.tasks) == Without(e.log, e.completed)
  }

  /** Every task that was handed in, and every descendant of one, has completed or is still held. */
  predicate Conserved(e: Executor, id: nat) {
    Count(e.given, id) == Occurs(e.completed, id) + Count(e.tasks, id)
  }

  /** Everything enqueued has completed or is held, and nothing completes that was not enqueued. */
  predicate Balanced(e: Executor, id: nat) {
    Occurs(e.log, id) == Occurs(e.completed, id) + Occurs(Ids(e.tasks), id)
  }

  lemma StepConserves(e: Executor, op: Op, id: nat)
    requires Conserved(e, id)
    ensures Conserved(Step(e, op), id)
  {
    hide PollAll;
    match op
    case Enqueues(t) =>
      CountAppends(e.given, [t], id);
      CountAppends(e.tasks, [t], id);
    case Polls =>
      PollConserves(e.tasks, id);
      OccursAppends(e.completed, PollAll(e.tasks).done, id);
  }

  lemma StepBalances(e: Executor, op: Op, id: nat)
    requires Balanced(e, id)
    ensures Balanced(Step(e, op), id)
  {
    hide PollAll;
    match op
    case Enqueues(t) =>
      IdsAppend(e.tasks, [t]);
      OccursAppends(e.log, [t.id], id);
      OccursAppends(Ids(e.tasks), [t.id], id);
      assert Ids([t]) == [t.id];
    case Polls =>
      var p := PollAll(e.tasks);
      PollBalances(e.tasks, id);
      OccursAppends(e.log, p.enqueued, id);
      OccursAppends(Ids(e.tasks), p.enqueued, id);
      OccursAppends(e.completed, p.done, id);
  }

  lemma EnqueueingKeepsOrder(e: Executor, t: Task)
    requires InOrder(e) && Conserved(e, t.id) && Distinct(e.given + [t])
    ensures InOrder(Step(e, Enqueues(t)))
  {
    IdsAppend(e.tasks, [t]);
    assert Count(e.given + [t], t.id) <= 1;
    CountAppends(e.given, [t], t.id);
    OccursIff(e.completed, t.id);
    WithoutAppends(e.log, [t.id], e.completed);
    WithoutNone([t.id], e.completed);
  }

  lemma PollingKeepsOrder(e: Executor)
    requires InOrder(e) && Distinct(e.given) && forall id :: Conserved(e, id)
    ensures InOrder(Step(e, Polls))
  {
    hide PollAll;
    var p := PollAll(e.tasks);
    forall id: nat
      ensures Count(e.tasks, id) <= 1
    {
      assert Conserved(e, id) && Count(e.given, id) <= 1;
    }
    forall id | id in p.enqueued
      ensures id !in e.completed
    {
      EnqueuedAreCounted(e.tasks, id);
      WalkConserves(e.tasks, id);
      OccursIff(e.completed, id);
      assert Conserved(e, id) && Count(e.given, id) <= 1;
    }
    PollKeepsOrder(e.tasks);
    WithoutAppends(Ids(e.tasks), p.enqueued, p.done);
    WithoutTwice(e.log, e.completed, p.done);
    WithoutAppends(e.log, p.enqueued, e.completed + p.done);
    WithoutSame(p.enqueued, p.done, e.completed + p.done);
  }

  lemma {:induction false} EarlierIsDistinct(e: Executor, ops: seq<Op>)
    requires ops != [] && Distinct(After(e, ops).given)
    ensures Distinct(After(e, ops[..|ops| - 1]).given)
  {
    var before := After(e, ops[..|ops| - 1]).given;
    forall id: nat
      ensures Count(before, id) <= 1
    {
      assert Count(After(e, ops).given, id) <= 1;
      match ops[|ops| - 1] {
        case Enqueues(t) => CountAppends(before, [t], id);
        case Polls =>
      }
    }
  }

  /** Over any run of enqueues and polls no task and no descendant of one is lost, and none completes unasked. */
  lemma {:induction false} RunConserves(ops: seq<Op>, id: nat)
    ensures Conserved(After(NewExecutor(), ops), id) && Balanced(After(NewExecutor(), ops), id)
  {
    hide Step;
    if ops != [] {
      var before := After(NewExecutor(), ops[..|ops| - 1]);
      RunConserves(ops[..|ops| - 1], id);
      StepConserves(before, ops[|ops| - 1], id);
      StepBalances(before, ops[|ops| - 1], id);
    }
  }

  /**
    Over any run on distinct tasks: what is held is what was enqueued and has not completed, in enqueue order, and
    each callback has run at most once, and not at all for what is held.
   */
  lemma {:induction false} RunKeepsOrder(ops: seq<Op>)
    requires Distinct(After(NewExecutor(), ops).given)
    ensures var e := After(NewExecutor(), ops);
            && InOrder(e)
            && (forall id :: Occurs(e.completed, id) + Count(e.tasks, id) <= 1)
  {
    hide Step;
    var e := After(NewExecutor(), ops);
    if ops != [] {
      var before := After(NewExecutor(), ops[..|ops| - 1]);
      EarlierIsDistinct(NewExecutor(), ops);
      RunKeepsOrder(ops[..|ops| - 1]);
      StepKeepsOrder(before, ops[|ops| - 1], ops[..|ops| - 1]);
    }
    forall id: nat
      ensures Occurs(e.completed, id) + Count(e.tasks, id) <= 1
    {
      RunConserves(ops, id);
      assert Count(e.given, id) <= 1;
    }
  }

  lemma StepKeepsOrder(e: Executor, op: Op, ops: seq<Op>)
    requires e == After(NewExecutor(), ops) && InOrder(e)
    requires Distinct(e.given) && Distinct(Step(e, op).given)
    ensures InOrder(Step(e, op))
  {
    hide PollAll;
    forall id: nat
      ensures Conserved(e, id)
    {
      RunConserves(ops, id);
    }
    match op
    case Enqueues(t) => EnqueueingKeepsOrder(e, t);
    case Polls => PollingKeepsOrder(e);
  }

  // ---------------------------------------------------------------- prompt polling

  /** `t` is one of these tasks or of their descendants. */
  predicate Inside(t: Task, ts: seq<Task>) {
    ts != [] && (ts[0] == t || Inside(t, ts[0].spawns) || Inside(t, ts[1..]))
  }

  lemma {:induction false} InsideAppends(t: Task, a: seq<Task>, b: seq<Task>)
    ensures Inside(t, a + b) <==> Inside(t, a) || Inside(t, b)
  {
    if a == [] {
      assert a + b == b;
    } else {
      InsideAppends(t, a[1..], b);
      assert (a + b)[1..] == a[1..] + b;
    }
  }

  lemma {:induction false} AmongIsInside(t: Task, ts: seq<Task>)
    requires t in ts
    ensures Inside(t, ts)
  {
    if t != ts[0] {
      AmongIsInside(t, ts[1..]);
    }
  }

  /** The task before it was polled once more. */
  function Before(t: Task): Task {
    t.(delay := t.delay + 1)
  }

  /** A walk takes one unit of delay from each task it keeps, leaves its descendants alone, and enqueues children. */
  lemma {:induction false} WalkPollsEach(t: Task, ts: seq<Task>)
    ensures t in WalkAll(ts).kept ==> Before(t) in ts
    ensures Inside(t, WalkAll(ts).kept) ==> Inside(t, ts) || Before(t) in ts
    ensures Inside(t, WalkAll(ts).spawned) ==> Inside(t, ts)
  {
    if ts != [] {
      var w, rest := WalkOne(ts[0]), WalkAll(ts[1..]);
      WalkPollsEach(t, ts[1..]);
      InsideAppends(t, w.kept, rest.kept);
      InsideAppends(t, w.spawned, rest.spawned);
      if ts[0].delay > 0 {
        assert w.kept[1..] == [];
      }
    }
  }

  /** `t` was polled: it was among these tasks or their descendants with a greater delay. */
  ghost predicate WasPolled(t: Task, ts: seq<Task>) {
    exists d: nat :: t.delay < d && Inside(t.(delay := d), ts)
  }

  lemma WalkedWasPolled(t: Task, ts: seq<Task>)
    requires Before(t) in ts
    ensures WasPolled(t, ts)
  {
    AmongIsInside(Before(t), ts);
    assert Inside(t.(delay := t.delay + 1), ts);
  }

  /**
    Every task that is still there after a poll was polled in it at least once, including those that callbacks
    enqueued meanwhile; so no task that was ready is left.
   */
  lemma {:induction false} EveryTaskIsPolled(t: Task, ts: seq<Task>)
    requires t in PollAll(ts).kept
    ensures WasPolled(t, ts)
    decreases SizeAll(ts)
  {
    hide WalkAll;
    var w := WalkAll(ts);
    if w.spawned == [] {
      WalkPollsEach(t, ts);
      WalkedWasPolled(t, ts);
    } else {
      WalkShrinks(ts);
      SpawningNeedsTasks(ts);
      EveryTaskIsPolled(t, w.kept + w.spawned);
      PolledEarlier(t, ts);
    }
  }

  lemma PolledEarlier(t: Task, ts: seq<Task>)
    requires WasPolled(t, WalkAll(ts).kept + WalkAll(ts).spawned)
    ensures WasPolled(t, ts)
  {
    hide WalkAll, Inside;
    var w := WalkAll(ts);
    var d: nat :| t.delay < d && Inside(t.(delay := d), w.kept + w.spawned);
    var t' := t.(delay := d);
    InsideAppends(t', w.kept, w.spawned);
    WalkPollsEach(t', ts);
    if Before(t') in ts {
      AmongIsInside(Before(t'), ts);
      assert t.(delay := d + 1) == Before(t');
    }
  }

  /** Everything in the forest completes at its first poll. */
  predicate Immediate(ts: seq<Task>) {
    ts == [] || (ts[0].delay == 0 && Immediate(ts[0].spawns) && Immediate(ts[1..]))
  }

  lemma {:induction false} ImmediateInside(t: Task, ts: seq<Task>)
    requires Immediate(ts) && Inside(t, ts)
    ensures t.delay == 0
  {
    if t != ts[0] {
      if Inside(t, ts[0].spawns) {
        ImmediateInside(t, ts[0].spawns);
      } else {
        ImmediateInside(t, ts[1..]);
      }
    }
  }

  /** In particular, if all work is ready it is finished before the poll returns, to the last descendant. */
  lemma ReadyWorkFinishes(ts: seq<Task>)
    requires Immediate(ts)
    ensures PollAll(ts).kept == []
  {
    hide PollAll, Immediate, Inside;
    var kept := PollAll(ts).kept;
    if kept != [] {
      EveryTaskIsPolled(kept[0], ts);
      var d: nat :| kept[0].delay < d && Inside(kept[0].(delay := d), ts);
      ImmediateInside(kept[0].(delay := d), ts);
    }
  }
}
