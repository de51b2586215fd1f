/**
  The executor of a client's asynchronous work. Callbacks run while the task list is being walked, so what they
  enqueue goes to a second list, and the walk is repeated until nothing new was enqueued.
 */
module TaskExecutor {
  /** A task that answers `delay` polls with pending; its callback then enqueues `spawns`. */
  datatype Task = Task(id: nat, delay: nat, spawns: seq<Task>)

  // ---------------------------------------------------------------- measures

  function Size(t: Task): nat {
    1 + t.delay + SizeAll(t.spawns)
  }

  function SizeAll(ts: seq<Task>): nat {
    if ts == [] then 0 else Size(ts[0]) + SizeAll(ts[1..])
  }

  lemma {:induction false} SizeAllAppends(a: seq<Task>, b: seq<Task>)
    ensures SizeAll(a + b) == SizeAll(a) + SizeAll(b)
  {
    if a == [] {
      assert a + b == b;
    } else {
      SizeAllAppends(a[1..], b);
      assert (a + b)[1..] == a[1..] + b;
    }
  }

  // ---------------------------------------------------------------- polling as a function

  /** One walk over the list: the tasks that stay, what callbacks enqueued, and the tasks that completed. */
  datatype Walk = Walk(kept: seq<Task>, spawned: seq<Task>, done: seq<nat>)

  function WalkOne(t: Task): Walk {
    if t.delay > 0 then Walk([t.(delay := t.delay - 1)], [], []) else Walk([], t.spawns, [t.id])
  }

  function Join(a: Walk, b: Walk): Walk {
    Walk(a.kept + b.kept, a.spawned + b.spawned, a.done + b.done)
  }

  function WalkAll(ts: seq<Task>): Walk {
    if ts == [] then Walk([], [], []) else Join(WalkOne(ts[0]), WalkAll(ts[1..]))
  }

  lemma {:induction false} WalkShrinks(ts: seq<Task>)
    ensures SizeAll(WalkAll(ts).kept + WalkAll(ts).spawned) + |ts| == SizeAll(ts)
  {
    if ts != [] {
      var t, rest := ts[0], WalkAll(ts[1..]);
      WalkShrinks(ts[1..]);
      SizeAllAppends(rest.kept, rest.spawned);
      SizeAllAppends(WalkOne(t).kept, rest.kept);
      SizeAllAppends(WalkOne(t).spawned, rest.spawned);
      SizeAllAppends(WalkAll(ts).kept, WalkAll(ts).spawned);
      if t.delay > 0 {
        assert WalkOne(t).kept[1..] == [];
      }
    }
  }

  /** A whole poll: what stays, what completed, and the ids of everything enqueued meanwhile, all in order. */
  datatype Polled = Polled(kept: seq<Task>, done: seq<nat>, enqueued: seq<nat>)

  function Ids(ts: seq<Task>): seq<nat> {
    seq(|ts|, i requires 0 <= i < |ts| => ts[i].id)
  }

  function PollAll(ts: seq<Task>): Polled
    decreases SizeAll(ts)
  {
    var w := WalkAll(ts);
    if w.spawned == [] then Polled(w.kept, w.done, [])
    else
      WalkShrinks(ts);
      SpawningNeedsTasks(ts);
      var next := PollAll(w.kept + w.spawned);
      Polled(next.kept, w.done + next.done, Ids(w.spawned) + next.enqueued)
  }

  lemma SpawningNeedsTasks(ts: seq<Task>)
    ensures WalkAll(ts).spawned != [] ==> ts != []
  {
  }

  // ---------------------------------------------------------------- the running executor

  class Tasks {
    var tasks: seq<Task>
    var newTasks: seq<Task>

    /** The list is borrowed while it is walked. */
    var borrowed: bool

    /** The tasks whose callback ran, and everything that was enqueued. */
    var completed: seq<nat>
    var log: seq<nat>

    constructor ()
      ensures tasks == [] && newTasks == [] && !borrowed && completed == [] && log == []
    {
      tasks, newTasks, borrowed, completed, log := [], [], false, [], [];
    }

    method Enqueue(t: Task)
      modifies this`tasks, this`newTasks, this`log
      ensures log == old(log) + [t.id]
      ensures !borrowed ==> tasks == old(tasks) + [t] && newTasks == old(newTasks)
      ensures borrowed ==> tasks == old(tasks) && newTasks == old(newTasks) + [t]
    {
      log := log + [t.id];
      if !borrowed {
        tasks := tasks + [t];
      } else {
        newTasks := newTasks + [t];
      }
    }

    /** Polls one task of the walk; a completed one runs its callback and is dropped. */
    method PollTask(t: Task) returns (keep: bool, t': Task)
      requires borrowed
      modifies this`tasks, this`newTasks, this`completed, this`log
      ensures tasks == old(tasks)
      ensures var w := WalkOne(t);
              && w.kept == (if keep then [t'] else [])
              && newTasks == old(newTasks) + w.spawned
              && completed == old(completed) + w.done
              && log == old(log) + Ids(w.spawned)
      ensures keep <==> t.delay > 0
      ensures keep ==> t' == Task(t.id, t.delay - 1, t.spawns) && newTasks == old(newTasks) && completed == old(completed)
      ensures !keep ==> newTasks == old(newTasks) + t.spawns && completed == old(completed) + [t.id]
    {
      if t.delay > 0 {
        return true, t.(delay := t.delay - 1);
      }
      for i := 0 to |t.spawns|
        invariant tasks == old(tasks) && completed == old(completed)
        invariant newTasks == old(newTasks) + t.spawns[..i]
        invariant log == old(log) + Ids(t.spawns)[..i]
      {
        Enqueue(t.spawns[i]);
      }
      completed := completed + [t.id];
      return false, t;
    }

    /** One walk: tasks that are done are taken out of the list. */
    method RetainPending()
      requires !borrowed && newTasks == []
      modifies this
      ensures !borrowed
      ensures var w := WalkAll(old(tasks));
              && tasks == w.kept && newTasks == w.spawned
              && completed == old(completed) + w.done && log == old(log) + Ids(w.spawned)
    {
      hide WalkAll, WalkOne;
      borrowed := true;
      var kept: seq<Task> := [];
      ghost var done := Walk([], [], []);
      JoinNothing(tasks);
      for i := 0 to |tasks|
        invariant borrowed && tasks == old(tasks)
        invariant Join(done, WalkAll(tasks[i..])) == WalkAll(tasks)
        invariant kept == done.kept && newTasks == done.spawned
        invariant completed == old(completed) + done.done && log == old(log) + Ids(done.spawned)
      {
        var keep, t := PollTask(tasks[i]);
        if keep {
          kept := kept + [t];
        }
        assert tasks[i..][0] == tasks[i] && tasks[i..][1..] == tasks[i + 1..];
        JoinStep(done, tasks[i..]);
        IdsAppend(done.spawned, WalkOne(tasks[i]).spawned);
        done := Join(done, WalkOne(tasks[i]));
      }
      WalkNothing(done);
      tasks := kept;
      borrowed := false;
    }

    method Poll()
      requires !borrowed && newTasks == []
      modifies this
      ensures !borrowed && newTasks == []
      ensures var p := PollAll(old(tasks));
              && tasks == p.kept
              && completed == old(completed) + p.done && log == old(log) + p.enqueued
    {
      hide PollAll, WalkAll, SizeAll;
      ghost var polled, done, enqueued := PollAll(tasks), [], [];
      while true
        invariant !borrowed && newTasks == []
        invariant completed == old(completed) + done && log == old(log) + enqueued
        invariant Continues(polled, done, enqueued, PollAll(tasks))
        decreases SizeAll(tasks)
      {
        ghost var before := tasks;
        WalkShrinks(tasks);
        SpawningNeedsTasks(tasks);
        RetainPending();
        PollStep(polled, done, enqueued, before);
        done := done + WalkAll(before).done;
        if newTasks == [] {
          return;
        }
        enqueued := enqueued + Ids(newTasks);
        tasks := tasks + newTasks;
        newTasks := [];
      }
    }
  }

  ghost predicate Continues(whole: Polled, done: seq<nat>, enqueued: seq<nat>, rest: Polled) {
    whole.kept == rest.kept && whole.done == done + rest.done && whole.enqueued == enqueued + rest.enqueued
  }

  lemma PollStep(whole: Polled, done: seq<nat>, enqueued: seq<nat>, ts: seq<Task>)
    requires Continues(whole, done, enqueued, PollAll(ts))
    ensures var w := WalkAll(ts);
            if w.spawned == [] then whole == Polled(w.kept, done + w.done, enqueued)
            else Continues(whole, done + w.done, enqueued + Ids(w.spawned), PollAll(w.kept + w.spawned))
  {
    hide WalkAll;
    var w := WalkAll(ts);
    if w.spawned != [] {
      var next := PollAll(w.kept + w.spawned);
      assert done + (w.done + next.done) == done + w.done + next.done;
      assert enqueued + (Ids(w.spawned) + next.enqueued) == enqueued + Ids(w.spawned) + next.enqueued;
    }
  }

  lemma JoinStep(done: Walk, ts: seq<Task>)
    requires ts != []
    ensures Join(done, WalkAll(ts)) == Join(Join(done, WalkOne(ts[0])), WalkAll(ts[1..]))
  {
    hide WalkOne;
    var a, b := WalkOne(ts[0]), WalkAll(ts[1..]);
    Associates(done.kept, a.kept, b.kept);
    Associates(done.spawned, a.spawned, b.spawned);
    Associates(done.done, a.done, b.done);
  }

  lemma Associates<T>(a: seq<T>, b: seq<T>, c: seq<T>)
    ensures a + (b + c) == a + b + c
  {
  }

  lemma JoinNothing(ts: seq<Task>)
    ensures Join(Walk([], [], []), WalkAll(ts)) == WalkAll(ts)
  {
    var w := WalkAll(ts);
    assert [] + w.kept == w.kept && [] + w.spawned == w.spawned && [] + w.done == w.done;
  }

  lemma WalkNothing(w: Walk)
    ensures Join(w, WalkAll([])) == w
  {
  }

  lemma IdsAppend(a: seq<Task>, b: seq<Task>)
    ensures Ids(a + b) == Ids(a) + Ids(b)
  {
  }
}
