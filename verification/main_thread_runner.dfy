/** The owner-thread task scheduler `MainThreadRunner`, as a pure transition
    system.  Threads are abstract ids, tasks are opaque tokens, and running a
    task (or joining a child thread) appends an event to `trace`.  The mutex
    only serialises these transitions, so it does not appear. */
module Scheduler {

  type ThreadId = nat
  type Task = nat

  /** What the owner thread did, in order. */
  datatype Event =
    | Ran(task: Task)          // a scheduled task ran (queued or inline)
    | Repeated(task: Task)     // a repeating task ran at the top of a loop iteration
    | Joined(child: ThreadId)  // a child thread was joined after the loop

  datatype Runner = Runner(
    owner: ThreadId,           // the thread that constructed the runner
    pending: seq<Task>,        // scheduledTasks, front first
    repeating: seq<Task>,      // continuousTasks, in registration order
    children: seq<ThreadId>,   // childThreads, in registration order
    isRunning: bool,
    trace: seq<Event>)

  /** The constructor, run on (and so owned by) `owner`. */
  function Create(owner: ThreadId): (r: Runner)
    ensures r.owner == owner && !r.isRunning
    ensures r.pending == [] && r.repeating == [] && r.children == [] && r.trace == []
  {
    Runner(owner, [], [], [], false, [])
  }

  // ---------------------------------------------------------------------
  // Event sequences
  // ---------------------------------------------------------------------

  function Runs(ts: seq<Task>): (es: seq<Event>)
    ensures |es| == |ts|
    ensures forall i :: 0 <= i < |ts| ==> es[i] == Ran(ts[i])
  {
    if ts == [] then [] else [Ran(ts[0])] + Runs(ts[1..])
  }

  function Repeats(ts: seq<Task>): (es: seq<Event>)
    ensures |es| == |ts|
    ensures forall i :: 0 <= i < |ts| ==> es[i] == Repeated(ts[i])
  {
    if ts == [] then [] else [Repeated(ts[0])] + Repeats(ts[1..])
  }

  function Joins(cs: seq<ThreadId>): (es: seq<Event>)
    ensures |es| == |cs|
    ensures forall i :: 0 <= i < |cs| ==> es[i] == Joined(cs[i])
  {
    if cs == [] then [] else [Joined(cs[0])] + Joins(cs[1..])
  }

  /** The scheduled tasks that ran, in the order they ran. */
  function Queued(es: seq<Event>): seq<Task>
  {
    if es == [] then [] else QueuedOne(es[0]) + Queued(es[1..])
  }

  function QueuedOne(e: Event): seq<Task>
  {
    if e.Ran? then [e.task] else []
  }

  lemma {:induction false} QueuedAppend(a: seq<Event>, b: seq<Event>)
    ensures Queued(a + b) == Queued(a) + Queued(b)
  {
    if a == [] {
      assert a + b == b;
    } else {
      var ab := a + b;
      assert ab[0] == a[0];
      assert ab[1..] == a[1..] + b;
      QueuedAppend(a[1..], b);
      calc {
        Queued(ab);
        QueuedOne(a[0]) + Queued(a[1..] + b);
        QueuedOne(a[0]) + (Queued(a[1..]) + Queued(b));
        (QueuedOne(a[0]) + Queued(a[1..])) + Queued(b);
      }
    }
  }

  lemma {:induction false} QueuedOfRuns(ts: seq<Task>)
    ensures Queued(Runs(ts)) == ts
  {
    if ts != [] {
      assert Runs(ts)[1..] == Runs(ts[1..]);
      QueuedOfRuns(ts[1..]);
    }
  }

  lemma {:induction false} QueuedOfRepeats(ts: seq<Task>)
    ensures Queued(Repeats(ts)) == []
  {
    if ts != [] {
      assert Repeats(ts)[1..] == Repeats(ts[1..]);
      QueuedOfRepeats(ts[1..]);
    }
  }

  lemma {:induction false} QueuedOfJoins(cs: seq<ThreadId>)
    ensures Queued(Joins(cs)) == []
  {
    if cs != [] {
      assert Joins(cs)[1..] == Joins(cs[1..]);
      QueuedOfJoins(cs[1..]);
    }
  }

  // ---------------------------------------------------------------------
  // Operations callable from any thread
  // ---------------------------------------------------------------------

  /** `schedule`: from another thread the task joins the back of the queue
      and does not run; from the owner thread it runs at once and the queue
      is left alone. */
  function Schedule(r: Runner, caller: ThreadId, task: Task): (r': Runner)
    ensures caller != r.owner ==> r'.pending == r.pending + [task] && r'.trace == r.trace
    ensures caller == r.owner ==> r'.pending == r.pending && r'.trace == r.trace + [Ran(task)]
    ensures r'.owner == r.owner && r'.repeating == r.repeating
    ensures r'.children == r.children && r'.isRunning == r.isRunning
  {
    if caller != r.owner then r.(pending := r.pending + [task])
    else r.(trace := r.trace + [Ran(task)])
  }

  /** `addRepeating`: refused once the loop is running. */
  function AddRepeating(r: Runner, task: Task): (r': Runner)
    ensures r.isRunning ==> r' == r
    ensures !r.isRunning ==> r'.repeating == r.repeating + [task] && r' == r.(repeating := r'.repeating)
  {
    if r.isRunning then r else r.(repeating := r.repeating + [task])
  }

  /** `addChild`: the thread is remembered, to be joined after the loop. */
  function AddChild(r: Runner, child: ThreadId): (r': Runner)
    ensures r'.children == r.children + [child]
    ensures r' == r.(children := r'.children)
  {
    r.(children := r.children + [child])
  }

  /** `stop`: clears `isRunning`; queued work is not discarded. */
  function Stop(r: Runner): (r': Runner)
    ensures !r'.isRunning
    ensures r' == r.(isRunning := false)
    ensures r'.pending == r.pending
  {
    r.(isRunning := false)
  }

  // ---------------------------------------------------------------------
  // The loop of `start`
  // ---------------------------------------------------------------------

  /** One pass of the loop body, stated as the reference: every repeating
      task once in registration order, then every queued task in FIFO
      order, leaving the queue empty. */
  function Iterate(r: Runner): Runner
  {
    r.(pending := [], trace := r.trace + Repeats(r.repeating) + Runs(r.pending))
  }

  lemma {:induction false} RepeatsSnoc(ts: seq<Task>, i: nat)
    requires i < |ts|
    ensures Repeats(ts[..i + 1]) == Repeats(ts[..i]) + [Repeated(ts[i])]
  {
  }

  /** The pass over `continuousTasks`: each repeating task runs once, in
      registration order. */
  method RunRepeating(trace0: seq<Event>, repeating: seq<Task>) returns (trace: seq<Event>)
    ensures trace == trace0 + Repeats(repeating)
  {
    trace := trace0;
    var i := 0;
    while i < |repeating|
      invariant 0 <= i <= |repeating|
      invariant trace == trace0 + Repeats(repeating[..i])
    {
      RepeatsSnoc(repeating, i);
      trace := trace + [Repeated(repeating[i])];
      i := i + 1;
    }
    assert repeating[..i] == repeating;
  }

  /** The queue moved element by element into a local copy, front first,
      leaving it empty. */
  method MoveQueue(pending: seq<Task>) returns (copy: seq<Task>, queue: seq<Task>)
    ensures copy == pending && queue == []
  {
    queue := pending;
    copy := [];
    while queue != []
      invariant copy + queue == pending
      decreases |queue|
    {
      copy := copy + [queue[0]];
      queue := queue[1..];
    }
  }

  /** The copy run front to back. */
  method RunCopy(trace0: seq<Event>, copy0: seq<Task>) returns (trace: seq<Event>)
    ensures trace == trace0 + Runs(copy0)
  {
    trace := trace0;
    var copy := copy0;
    var done: seq<Task> := [];
    while copy != []
      invariant done + copy == copy0
      invariant trace == trace0 + Runs(done)
      decreases |copy|
    {
      RunsSnoc(done, copy[0]);
      trace := trace + [Ran(copy[0])];
      done := done + [copy[0]];
      copy := copy[1..];
    }
  }

  /** The loop body as the source writes it: a pass over `continuousTasks`;
      if the queue is empty, on to the next iteration; otherwise the queue
      is moved into a local copy, and the copy is run front to back. */
  method RunIteration(r: Runner) returns (r': Runner)
    ensures r' == Iterate(r)
    ensures r'.pending == []
    ensures r'.trace == r.trace + Repeats(r.repeating) + Runs(r.pending)
  {
    var trace := RunRepeating(r.trace, r.repeating);
    if r.pending == [] {
      assert Runs(r.pending) == [];
      r' := r.(trace := trace);
      return;
    }
    var copy, queue := MoveQueue(r.pending);
    trace := RunCopy(trace, copy);
    r' := r.(pending := queue, trace := trace);
  }

  lemma {:induction false} RunsSnoc(ts: seq<Task>, t: Task)
    ensures Runs(ts + [t]) == Runs(ts) + [Ran(t)]
  {
  }

  /** What another thread may do between two iterations of the loop. */
  datatype Action =
    | ScheduleFrom(caller: ThreadId, task: Task)
    | StopRequest
    | AddChildThread(child: ThreadId)
    | AddRepeatingTask(task: Task)

  function Perform(r: Runner, a: Action): Runner
  {
    match a
    case ScheduleFrom(caller, task) => Schedule(r, caller, task)
    case StopRequest => Stop(r)
    case AddChildThread(child) => AddChild(r, child)
    case AddRepeatingTask(task) => AddRepeating(r, task)
  }

  /** Actions applied in order; the owner and the children seen so far are
      kept. */
  function PerformAll(r: Runner, acts: seq<Action>): (r': Runner)
    ensures r'.owner == r.owner
    ensures r.children <= r'.children
    ensures r.trace <= r'.trace
    decreases |acts|
  {
    if acts == [] then r else PerformAll(Perform(r, acts[0]), acts[1..])
  }

  /** No action schedules from the owner thread (the other threads' view). */
  predicate ForeignSchedules(acts: seq<Action>, owner: ThreadId)
  {
    forall i :: 0 <= i < |acts| && acts[i].ScheduleFrom? ==> acts[i].caller != owner
  }

  /** The tasks a batch of actions schedules, in order. */
  function Submitted(acts: seq<Action>): seq<Task>
  {
    if acts == [] then [] else SubmittedOne(acts[0]) + Submitted(acts[1..])
  }

  function SubmittedOne(a: Action): seq<Task>
  {
    if a.ScheduleFrom? then [a.task] else []
  }

  lemma PerformQueues(r: Runner, a: Action)
    requires a.ScheduleFrom? ==> a.caller != r.owner
    ensures Perform(r, a).pending == r.pending + SubmittedOne(a)
    ensures Perform(r, a).trace == r.trace
    ensures Perform(r, a).owner == r.owner
  {
  }

  /** Scheduling from other threads only appends to the queue, in order,
      and runs nothing. */
  lemma {:induction false} PerformAllQueues(r: Runner, acts: seq<Action>)
    requires ForeignSchedules(acts, r.owner)
    ensures PerformAll(r, acts).pending == r.pending + Submitted(acts)
    ensures PerformAll(r, acts).trace == r.trace
    decreases |acts|
  {
    if acts == [] {
      assert Submitted(acts) == [];
    } else {
      var r1 := Perform(r, acts[0]);
      assert acts[0].ScheduleFrom? ==> acts[0].caller != r.owner;
      PerformQueues(r, acts[0]);
      assert ForeignSchedules(acts[1..], r1.owner) by {
        forall i | 0 <= i < |acts[1..]| && acts[1..][i].ScheduleFrom?
          ensures acts[1..][i].caller != r1.owner
        {
          assert acts[1..][i] == acts[i + 1];
        }
      }
      PerformAllQueues(r1, acts[1..]);
      assert PerformAll(r, acts) == PerformAll(r1, acts[1..]);
      assert Submitted(acts) == SubmittedOne(acts[0]) + Submitted(acts[1..]);
      assert r.pending + Submitted(acts) == (r.pending + SubmittedOne(acts[0])) + Submitted(acts[1..]);
    }
  }

  /** The loop condition of `start`: running, or work still queued. */
  predicate ShouldLoop(r: Runner)
  {
    r.isRunning || r.pending != []
  }

  /** After the loop, every child is joined in registration order. */
  function JoinChildren(r: Runner): (r': Runner)
    ensures r'.trace == r.trace + Joins(r.children)
    ensures r' == r.(trace := r'.trace)
  {
    r.(trace := r.trace + Joins(r.children))
  }

  /** The trace ends by joining every child the runner holds. */
  predicate JoinedAll(r: Runner)
  {
    |r.children| <= |r.trace| && r.trace[|r.trace| - |r.children|..] == Joins(r.children)
  }

  datatype Status = Refused | Finished | StillRunning

  datatype Outcome = Outcome(status: Status, runner: Runner, iterations: nat)

  /** The `while` loop of `start`, driven by `script`: batch i holds what the
      other threads do during iteration i.  The loop exits only when
      `isRunning` is false and the queue is empty; it then joins every child.
      If the script ends first, the loop is reported as still running. */
  function Loop(r: Runner, script: seq<seq<Action>>): (o: Outcome)
    ensures o.status != Refused
    ensures o.iterations <= |script|
    ensures o.runner.owner == r.owner
    ensures r.children <= o.runner.children
    ensures r.trace <= o.runner.trace
    ensures o.status == Finished ==>
      !o.runner.isRunning && o.runner.pending == [] && JoinedAll(o.runner)
    ensures o.status == StillRunning ==> ShouldLoop(o.runner)
    decreases |script|
  {
    if !ShouldLoop(r) then Outcome(Finished, JoinChildren(r), 0)
    else if script == [] then Outcome(StillRunning, r, 0)
    else
      var o := Loop(PerformAll(Iterate(r), script[0]), script[1..]);
      o.(iterations := o.iterations + 1)
  }

  /** `start`: refused from any thread but the owner, with nothing changed;
      otherwise it sets `isRunning` and runs the loop. */
  function Start(r: Runner, caller: ThreadId, script: seq<seq<Action>>): (o: Outcome)
    ensures caller != r.owner ==> o == Outcome(Refused, r, 0)
    ensures caller == r.owner ==> o.status != Refused && (script == [] ==> o.status == StillRunning)
    ensures o.status == Finished ==>
      !o.runner.isRunning && o.runner.pending == [] && JoinedAll(o.runner) && r.children <= o.runner.children
  {
    if caller != r.owner then Outcome(Refused, r, 0)
    else Loop(r.(isRunning := true), script)
  }

  function SubmittedAll(script: seq<seq<Action>>): seq<Task>
  {
    if script == [] then [] else Submitted(script[0]) + SubmittedAll(script[1..])
  }

  predicate ForeignScript(script: seq<seq<Action>>, owner: ThreadId)
  {
    forall i :: 0 <= i < |script| ==> ForeignSchedules(script[i], owner)
  }

  /** One iteration moves the whole queue, in order, onto the run record. */
  lemma IterateRunsQueue(r: Runner)
    ensures Queued(Iterate(r).trace) == Queued(r.trace) + r.pending
    ensures Iterate(r).pending == []
  {
    var a, b, c := r.trace, Repeats(r.repeating), Runs(r.pending);
    assert Iterate(r).trace == a + b + c;
    QueuedAppend(a + b, c);
    QueuedAppend(a, b);
    QueuedOfRepeats(r.repeating);
    QueuedOfRuns(r.pending);
    assert Queued(a + b) == Queued(a);
  }

  lemma SubmittedAllCons(script: seq<seq<Action>>, n: nat)
    requires 0 < |script| && n < |script|
    ensures SubmittedAll(script[..n + 1]) == Submitted(script[0]) + SubmittedAll(script[1..][..n])
  {
    var pre := script[..n + 1];
    assert pre[0] == script[0];
    assert pre[1..] == script[1..][..n];
  }

  lemma ForeignScriptTail(script: seq<seq<Action>>, owner: ThreadId)
    requires ForeignScript(script, owner) && script != []
    ensures ForeignScript(script[1..], owner) && ForeignSchedules(script[0], owner)
  {
    forall i | 0 <= i < |script[1..]| ensures ForeignSchedules(script[1..][i], owner) {
      assert script[1..][i] == script[i + 1];
    }
  }

  /** No scheduled task is lost or reordered: over the iterations the loop
      performs, the tasks that ran are exactly those queued at the start
      followed by those the other threads scheduled, in FIFO order, and
      whatever has not run yet is still queued behind them. */
  lemma {:induction false} LoopRunsQueueInOrder(r: Runner, script: seq<seq<Action>>)
    requires ForeignScript(script, r.owner)
    ensures var o := Loop(r, script);
      Queued(o.runner.trace) + o.runner.pending
        == Queued(r.trace) + r.pending + SubmittedAll(script[..o.iterations])
    decreases |script|
  {
    if !ShouldLoop(r) {
      QueuedAppend(r.trace, Joins(r.children));
      QueuedOfJoins(r.children);
      assert script[..0] == [];
    } else if script == [] {
    } else {
      var r1 := Iterate(r);
      IterateRunsQueue(r);
      ForeignScriptTail(script, r.owner);
      var r2 := PerformAll(r1, script[0]);
      PerformAllQueues(r1, script[0]);
      LoopRunsQueueInOrder(r2, script[1..]);
      var o' := Loop(r2, script[1..]);
      SubmittedAllCons(script, o'.iterations);
    }
  }

  /** Once the loop has finished, every task queued before it, and every
      task other threads scheduled while it ran, has run in FIFO order. */
  lemma FinishedLoopRanEverything(r: Runner, script: seq<seq<Action>>)
    requires ForeignScript(script, r.owner)
    requires Loop(r, script).status == Finished
    ensures var o := Loop(r, script);
      Queued(o.runner.trace) == Queued(r.trace) + r.pending + SubmittedAll(script[..o.iterations])
  {
    LoopRunsQueueInOrder(r, script);
  }

  /** `stop` does not drop queued work: the next loop test still enters the
      body, which drains the queue, and the one after that exits. */
  lemma StopDrainsQueueThenExits(r: Runner)
    ensures var o := Loop(Stop(r), [[]]);
      && o.status == Finished
      && Queued(o.runner.trace) == Queued(r.trace) + r.pending
      && r.trace <= o.runner.trace
  {
    var s := Stop(r);
    var script: seq<seq<Action>> := [[]];
    assert ForeignScript(script, s.owner);
    LoopRunsQueueInOrder(s, script);
    var o := Loop(s, script);
    if r.pending != [] {
      var s1 := Iterate(s);
      assert PerformAll(s1, script[0]) == s1;
      assert !ShouldLoop(s1);
      assert Loop(s1, script[1..]).status == Finished;
      assert o.iterations == 1;
      assert script[..1] == script;
      assert SubmittedAll(script) == [] by {
        assert script[0] == [] && script[1..] == [];
        assert Submitted(script[0]) == [];
      }
      assert SubmittedAll(script[..o.iterations]) == [];
      assert o.runner.pending == [];
      assert Queued(o.runner.trace) + o.runner.pending == Queued(o.runner.trace);
    } else {
      assert o.iterations == 0;
      assert script[..0] == [];
      assert SubmittedAll(script[..o.iterations]) == [];
      assert o.runner.pending == [];
      assert Queued(o.runner.trace) + o.runner.pending == Queued(o.runner.trace);
      assert Queued(s.trace) + s.pending == Queued(r.trace) + r.pending;
    }
  }
}
