/** The task executor and its worker pool (fabric/fabric-cli/executor) as a
    transition system. One client submits a list of tasks and then stops the
    executor; the dispatcher and the workers run beside it. A step is one
    channel operation, wait-group operation or task completion. */
module Executor {

  /** A task, by a handle; the same task may be submitted more than once. */
  type Task = nat

  datatype ClientState =
    | Submitting                 // about to call Submit, or Stop when nothing is left
    | Sending(task: Task)        // wg.Add done, blocked on the task channel
    | AwaitQueue                 // Stop: waiting for the dispatcher to purge its queue
    | Terminating                // Stop: sending on the terminating channel
    | AwaitTasks                 // Pool.Stop(true): waiting for the tasks
    | Taking(stopped: nat)       // Pool.Stop: taking the next available worker
    | Stopping(w: nat, stopped: nat)  // Worker.Stop: sending on the done channel
    | AwaitWorkers               // Pool.Stop: waiting for the workers
    | Returned

  datatype DispatcherState =
    | Idle                       // at the select
    | GotTask(task: Task)        // Pool.Submit called
    | Waiting(task: Task)        // taskWg.Add done, waiting for a worker
    | Handing(task: Task, w: nat)  // sending on the worker's task channel
    | Purged                     // task handed over, wg.Done to come
    | Ended

  datatype WorkerState =
    | Starting                   // about to announce that it is ready
    | Ready                      // announced, at its select
    | Busy(task: Task)           // invoking
    | Completing                 // task returned, taskWg.Done to come
    | Leaving                    // told to stop, wg.Done to come
    | Stopped

  datatype State = State(
    capacity: nat,               // of the task channel
    wait: bool,                  // the argument of Stop
    toSubmit: seq<Task>,
    client: ClientState,
    queue: seq<Task>,            // the task channel
    dispatcher: DispatcherState,
    available: seq<nat>,         // the channel of available workers
    workers: seq<WorkerState>,
    wg: int, taskWg: int, poolWg: int,  // the three wait groups
    // observed
    submitted: seq<Task>,        // accepted by Submit, in order
    handed: seq<Task>,           // handed to a worker that starts it, in order
    completed: multiset<Task>
  )

  /** Start has run: the workers and the dispatcher are going. */
  function Init(capacity: nat, concurrency: nat, wait: bool, tasks: seq<Task>): State {
    State(capacity, wait, tasks, Submitting, [], Idle, [], seq(concurrency, _ => Starting),
          0, 0, concurrency, [], [], multiset{})
  }

  datatype Action =
    | ClientAdd                  // Submit: wg.Add(1)
    | ClientSend                 // Submit: the task enters the channel's buffer
    | ClientHandoff              // Submit: the waiting dispatcher takes it directly
    | ClientStop                 // Stop called, state set
    | ClientPurged               // wg.Wait returns
    | ClientTerminate            // terminating <- true meets the dispatcher's select
    | ClientTasksDone            // taskWg.Wait returns, or is not called
    | ClientTake                 // a worker is taken from the available channel
    | ClientStopWorker           // w.done <- true meets the worker's select
    | ClientLoopEnd              // all workers told to stop
    | ClientReturn               // wg.Wait of the pool returns
    | DispatchReceive            // task := <-e.tasks
    | DispatchAdd                // taskWg.Add(1)
    | DispatchTake               // w := <-p.availableWorker
    | DispatchHand               // w.task <- task meets the worker's select
    | DispatchDone               // e.wg.Done()
    | WorkerReady(w: nat)        // p.availableWorker <- w
    | WorkerFinish(w: nat)       // the task returns
    | WorkerDone(w: nat)         // taskWg.Done()
    | WorkerStopped(w: nat)      // wg.Done() of the pool

  predicate Enabled(s: State, a: Action) {
    match a
    case ClientAdd => s.client.Submitting? && s.toSubmit != []
    case ClientSend => s.client.Sending? && |s.queue| < s.capacity
    case ClientHandoff => s.client.Sending? && s.dispatcher.Idle? && s.queue == []
    case ClientStop => s.client.Submitting? && s.toSubmit == []
    case ClientPurged => s.client.AwaitQueue? && s.wg == 0
    case ClientTerminate => s.client.Terminating? && s.dispatcher.Idle?
    case ClientTasksDone => s.client.AwaitTasks? && (s.wait ==> s.taskWg == 0)
    case ClientTake => s.client.Taking? && s.client.stopped < |s.workers| && s.available != []
    case ClientStopWorker => s.client.Stopping? && s.client.w < |s.workers| && s.workers[s.client.w].Ready?
    case ClientLoopEnd => s.client.Taking? && s.client.stopped >= |s.workers|
    case ClientReturn => s.client.AwaitWorkers? && s.poolWg == 0
    case DispatchReceive => s.dispatcher.Idle? && s.queue != []
    case DispatchAdd => s.dispatcher.GotTask?
    case DispatchTake => s.dispatcher.Waiting? && s.available != []
    case DispatchHand => s.dispatcher.Handing? && s.dispatcher.w < |s.workers| && s.workers[s.dispatcher.w].Ready?
    case DispatchDone => s.dispatcher.Purged?
    case WorkerReady(w) => w < |s.workers| && s.workers[w].Starting? && |s.available| < |s.workers|
    case WorkerFinish(w) => w < |s.workers| && s.workers[w].Busy?
    case WorkerDone(w) => w < |s.workers| && s.workers[w].Completing?
    case WorkerStopped(w) => w < |s.workers| && s.workers[w].Leaving?
  }

  function Apply(s: State, a: Action): State
    requires Enabled(s, a)
  {
    match a
    case ClientAdd =>
      s.(client := Sending(s.toSubmit[0]), toSubmit := s.toSubmit[1..], wg := s.wg + 1,
         submitted := s.submitted + [s.toSubmit[0]])
    case ClientSend => s.(client := Submitting, queue := s.queue + [s.client.task])
    case ClientHandoff => s.(client := Submitting, dispatcher := GotTask(s.client.task))
    case ClientStop => s.(client := AwaitQueue)
    case ClientPurged => s.(client := Terminating)
    case ClientTerminate => s.(client := AwaitTasks, dispatcher := Ended)
    case ClientTasksDone => s.(client := Taking(0))
    case ClientTake => s.(client := Stopping(s.available[0], s.client.stopped), available := s.available[1..])
    case ClientStopWorker =>
      s.(client := Taking(s.client.stopped + 1), workers := s.workers[s.client.w := Leaving])
    case ClientLoopEnd => s.(client := AwaitWorkers)
    case ClientReturn => s.(client := Returned)
    case DispatchReceive => s.(dispatcher := GotTask(s.queue[0]), queue := s.queue[1..])
    case DispatchAdd => s.(dispatcher := Waiting(s.dispatcher.task), taskWg := s.taskWg + 1)
    case DispatchTake => s.(dispatcher := Handing(s.dispatcher.task, s.available[0]), available := s.available[1..])
    case DispatchHand =>
      s.(dispatcher := Purged, workers := s.workers[s.dispatcher.w := Busy(s.dispatcher.task)],
         handed := s.handed + [s.dispatcher.task])
    case DispatchDone => s.(dispatcher := Idle, wg := s.wg - 1)
    case WorkerReady(w) => s.(workers := s.workers[w := Ready], available := s.available + [w])
    case WorkerFinish(w) =>
      s.(workers := s.workers[w := Completing], completed := s.completed + multiset{s.workers[w].task})
    case WorkerDone(w) => s.(workers := s.workers[w := Starting], taskWg := s.taskWg - 1)
    case WorkerStopped(w) => s.(workers := s.workers[w := Stopped], poolWg := s.poolWg - 1)
  }

  // ---------- Runs ----------

  /** A run is a list of actions, each enabled where it is taken. */
  predicate IsRun(s: State, run: seq<Action>)
    decreases |run|
  {
    run == [] || (Enabled(s, run[0]) && IsRun(Apply(s, run[0]), run[1..]))
  }

  function After(s: State, run: seq<Action>): State
    requires IsRun(s, run)
    decreases |run|
  {
    if run == [] then s else After(Apply(s, run[0]), run[1..])
  }

  // ---------- Counting over the workers ----------

  /** What a worker holds on the task wait group. */
  function Running(x: WorkerState): nat {
    if x.Busy? || x.Completing? then 1 else 0
  }

  function Alive(x: WorkerState): nat {
    if x.Stopped? then 0 else 1
  }

  function Told(x: WorkerState): nat {
    if x.Leaving? || x.Stopped? then 1 else 0
  }

  /** Steps a worker can still take on its own before it waits or has stopped. */
  function Fuel(x: WorkerState): nat {
    match x
    case Busy(_) => 3
    case Completing => 2
    case Starting => 1
    case Leaving => 1
    case Ready => 0
    case Stopped => 0
  }

  function Count(f: WorkerState -> nat, ws: seq<WorkerState>): nat {
    if ws == [] then 0 else f(ws[0]) + Count(f, ws[1..])
  }

  function TaskOf(x: WorkerState): multiset<Task> {
    if x.Busy? then multiset{x.task} else multiset{}
  }

  function BusyTasks(ws: seq<WorkerState>): multiset<Task> {
    if ws == [] then multiset{} else TaskOf(ws[0]) + BusyTasks(ws[1..])
  }

  lemma {:induction false} CountUpdate(f: WorkerState -> nat, ws: seq<WorkerState>, w: nat, x: WorkerState)
    requires w < |ws|
    ensures Count(f, ws[w := x]) == Count(f, ws) - f(ws[w]) + f(x)
  {
    if w > 0 {
      CountUpdate(f, ws[1..], w - 1, x);
      assert ws[w := x][1..] == ws[1..][w - 1 := x];
    } else {
      assert ws[0 := x][1..] == ws[1..];
    }
  }

  lemma {:induction false} BusyUpdate(ws: seq<WorkerState>, w: nat, x: WorkerState)
    requires w < |ws|
    ensures BusyTasks(ws[w := x]) + TaskOf(ws[w]) == BusyTasks(ws) + TaskOf(x)
  {
    hide TaskOf;
    if w > 0 {
      BusyUpdate(ws[1..], w - 1, x);
      assert ws[w := x][1..] == ws[1..][w - 1 := x];
      Regroup(TaskOf(ws[0]), BusyTasks(ws[w := x][1..]), TaskOf(ws[w]), BusyTasks(ws[1..]), TaskOf(x));
    } else {
      assert ws[0 := x][1..] == ws[1..];
    }
  }

  lemma Regroup(h: multiset<Task>, a: multiset<Task>, b: multiset<Task>, c: multiset<Task>, d: multiset<Task>)
    requires a + b == c + d
    ensures h + a + b == h + c + d
  {
    assert h + a + b == h + (a + b) && h + c + d == h + (c + d);
  }

  lemma {:induction false} CountAll(f: WorkerState -> nat, ws: seq<WorkerState>, n: nat)
    requires forall w :: 0 <= w < |ws| ==> f(ws[w]) == n
    ensures Count(f, ws) == n * |ws|
  {
    if ws != [] { CountAll(f, ws[1..], n); }
  }

  lemma {:induction false} CountZero(f: WorkerState -> nat, ws: seq<WorkerState>)
    requires Count(f, ws) == 0
    ensures forall w :: 0 <= w < |ws| ==> f(ws[w]) == 0
  {
    if ws != [] {
      CountZero(f, ws[1..]);
      forall w | 0 <= w < |ws| ensures f(ws[w]) == 0 {
        if w > 0 { assert ws[w] == ws[1..][w - 1]; }
      }
    }
  }

  lemma {:induction false} NothingBusy(ws: seq<WorkerState>)
    requires forall w :: 0 <= w < |ws| ==> !ws[w].Busy?
    ensures BusyTasks(ws) == multiset{}
  {
    if ws != [] { NothingBusy(ws[1..]); }
  }

  // ---------- Invariants ----------

  function InHand(d: DispatcherState): seq<Task> {
    if d.GotTask? || d.Waiting? || d.Handing? then [d.task] else []
  }

  function InSend(c: ClientState): seq<Task> {
    if c.Sending? then [c.task] else []
  }

  /** First in, first out: what was accepted is what was handed over, then what
      the dispatcher holds, then the queue, then what the client is sending. */
  ghost predicate Fifo(s: State, tasks: seq<Task>) {
    && s.submitted == s.handed + InHand(s.dispatcher) + s.queue + InSend(s.client)
    && s.submitted + s.toSubmit == tasks
    && |s.queue| <= s.capacity
  }

  ghost predicate Groups(s: State) {
    && s.wg == |s.queue| + |InSend(s.client)| + (if s.dispatcher.Idle? || s.dispatcher.Ended? then 0 else 1)
    && s.taskWg == (if s.dispatcher.Waiting? || s.dispatcher.Handing? then 1 else 0) + Count(Running, s.workers)
    && s.poolWg == Count(Alive, s.workers)
  }

  /** Every task handed over is being invoked or has completed, and only once. */
  ghost predicate Conserved(s: State) {
    multiset(s.handed) == s.completed + BusyTasks(s.workers)
  }

  /** The dispatcher has ended exactly when the client is in Pool.Stop. */
  ghost predicate Phases(s: State) {
    && (s.dispatcher.Ended? <==> s.client.AwaitTasks? || s.client.Taking? || s.client.Stopping?
                                 || s.client.AwaitWorkers? || s.client.Returned?)
    && (s.client.Submitting? || s.client.Sending? || s.toSubmit == [])
    && (s.client.Terminating? ==> s.wg == 0)
    && (s.dispatcher.Ended? ==> s.queue == [])
  }

  /** As many workers were told to stop as the client has counted. */
  ghost predicate Stops(s: State) {
    match s.client
    case Taking(k) => Count(Told, s.workers) == k <= |s.workers|
    case Stopping(_, k) => Count(Told, s.workers) == k < |s.workers|
    case AwaitWorkers => Count(Told, s.workers) == |s.workers|
    case Returned => Count(Told, s.workers) == |s.workers| && s.poolWg == 0
    case _ => Count(Told, s.workers) == 0
  }

  /** The worker the dispatcher or the stopping client holds, -1 for none. */
  function HeldByDispatcher(d: DispatcherState): int {
    if d.Handing? then d.w else -1
  }

  function HeldByClient(c: ClientState): int {
    if c.Stopping? then c.w else -1
  }

  predicate IsReady(ws: seq<WorkerState>, w: int) {
    0 <= w < |ws| && ws[w].Ready?
  }

  /** A ready worker is in exactly one place: once in the available channel, or
      held by the dispatcher, or held by the stopping client; and only ready
      workers are there. */
  ghost predicate Placed(av: seq<nat>, ws: seq<WorkerState>, d: int, c: int) {
    && (forall i, j :: 0 <= i < j < |av| ==> av[i] != av[j])
    && (forall w :: w in av ==> IsReady(ws, w) && w != d && w != c)
    && (d != -1 ==> IsReady(ws, d) && c == -1)
    && (c != -1 ==> IsReady(ws, c))
    && (forall w :: IsReady(ws, w) ==> w in av || w == d || w == c)
  }

  ghost predicate Places(s: State) {
    Placed(s.available, s.workers, HeldByDispatcher(s.dispatcher), HeldByClient(s.client))
  }

  ghost predicate Inv(s: State, tasks: seq<Task>) {
    Fifo(s, tasks) && Groups(s) && Conserved(s) && Phases(s) && Stops(s) && Places(s)
  }

  lemma InitInv(capacity: nat, concurrency: nat, wait: bool, tasks: seq<Task>)
    ensures Inv(Init(capacity, concurrency, wait, tasks), tasks)
  {
    var s := Init(capacity, concurrency, wait, tasks);
    CountAll(Running, s.workers, 0);
    CountAll(Alive, s.workers, 1);
    CountAll(Told, s.workers, 0);
    NothingBusy(s.workers);
    hide Count, BusyTasks;
    assert s.submitted + s.toSubmit == tasks && s.available == [] && forall w :: !IsReady(s.workers, w);
  }

  lemma StepKeepsFifo(s: State, a: Action, tasks: seq<Task>)
    requires Enabled(s, a) && Fifo(s, tasks)
    ensures Fifo(Apply(s, a), tasks)
  {
    if a.ClientAdd? {
      assert s.toSubmit == [s.toSubmit[0]] + s.toSubmit[1..];
    } else if a.ClientSend? || a.ClientHandoff? {
      SendKeepsFifo(s, a, tasks);
    } else if a.DispatchReceive? || a.DispatchHand? {
      DispatchKeepsFifo(s, a, tasks);
    } else {
      var t := Apply(s, a);
      assert InHand(t.dispatcher) == InHand(s.dispatcher) && InSend(t.client) == InSend(s.client);
      hide InHand, InSend;
    }
  }

  lemma SendKeepsFifo(s: State, a: Action, tasks: seq<Task>)
    requires Enabled(s, a) && Fifo(s, tasks) && (a.ClientSend? || a.ClientHandoff?)
    ensures Fifo(Apply(s, a), tasks)
  {
    var t, x := Apply(s, a), [s.client.task];
    if a.ClientSend? {
      var front := s.handed + InHand(s.dispatcher);
      assert front + s.queue + x == front + (s.queue + x) + [];
    } else {
      assert s.handed + [] + [] + x == s.handed + x + [] + [];
    }
  }

  lemma DispatchKeepsFifo(s: State, a: Action, tasks: seq<Task>)
    requires Enabled(s, a) && Fifo(s, tasks) && (a.DispatchReceive? || a.DispatchHand?)
    ensures Fifo(Apply(s, a), tasks)
  {
    var t, x := Apply(s, a), InSend(s.client);
    if a.DispatchReceive? {
      assert s.queue == [s.queue[0]] + s.queue[1..];
      assert s.handed + [] + s.queue + x == s.handed + [s.queue[0]] + s.queue[1..] + x;
    } else {
      var y := [s.dispatcher.task];
      assert s.handed + y + s.queue + x == (s.handed + y) + [] + s.queue + x;
    }
  }

  /** The worker an action changes, if any, and its next state. */
  function Touched(s: State, a: Action): (r: (nat, WorkerState))
    requires Enabled(s, a) && s.workers != []
    ensures r.0 < |s.workers|
    ensures Apply(s, a).workers == s.workers[r.0 := r.1]
  {
    match a
    case ClientStopWorker => (s.client.w, Leaving)
    case DispatchHand => (s.dispatcher.w, Busy(s.dispatcher.task))
    case WorkerReady(w) => (w, Ready)
    case WorkerFinish(w) => (w, Completing)
    case WorkerDone(w) => (w, Starting)
    case WorkerStopped(w) => (w, WorkerState.Stopped)
    case _ => (0, s.workers[0])
  }

  /** How an action changes the counts over the workers. */
  lemma Counts(s: State, a: Action, f: WorkerState -> nat)
    requires Enabled(s, a)
    ensures s.workers == [] ==> Apply(s, a).workers == []
    ensures s.workers != [] ==>
      var (w, x) := Touched(s, a);
      Count(f, Apply(s, a).workers) == Count(f, s.workers) - f(s.workers[w]) + f(x)
  {
    if s.workers != [] {
      var (w, x) := Touched(s, a);
      CountUpdate(f, s.workers, w, x);
    }
  }

  lemma StepKeepsGroups(s: State, a: Action)
    requires Enabled(s, a) && Groups(s)
    ensures Groups(Apply(s, a))
  {
    hide Groups, Enabled, Apply;
    if IsClientAction(a) { ClientStepKeepsGroups(s, a); } else { OtherStepKeepsGroups(s, a); }
  }

  lemma ClientStepKeepsGroups(s: State, a: Action)
    requires Enabled(s, a) && Groups(s) && IsClientAction(a)
    ensures Groups(Apply(s, a))
  {
    Counts(s, a, Running);
    Counts(s, a, Alive);
    hide Count;
  }

  lemma OtherStepKeepsGroups(s: State, a: Action)
    requires Enabled(s, a) && Groups(s) && !IsClientAction(a)
    ensures Groups(Apply(s, a))
  {
    Counts(s, a, Running);
    Counts(s, a, Alive);
    hide Count;
  }

  lemma StepKeepsConserved(s: State, a: Action)
    requires Enabled(s, a) && Conserved(s)
    ensures Conserved(Apply(s, a))
  {
    HandedBag(s, a);
    if s.workers != [] {
      var (w, x) := Touched(s, a);
      BusyUpdate(s.workers, w, x);
      TouchedTasks(s, a);
      Balance(multiset(s.handed), s.completed, BusyTasks(s.workers),
              BusyTasks(Apply(s, a).workers), TaskOf(s.workers[w]), TaskOf(x));
      hide BusyTasks, TaskOf, Touched, Enabled;
    }
  }

  /** Which tasks an action starts and which it ends. */
  lemma TouchedTasks(s: State, a: Action)
    requires Enabled(s, a) && s.workers != []
    ensures var (w, x) := Touched(s, a);
            var before, after := TaskOf(s.workers[w]), TaskOf(x);
            if a.DispatchHand? then before == multiset{} && after == multiset{s.dispatcher.task}
            else if a.WorkerFinish? then before == multiset{s.workers[w].task} && after == multiset{}
            else before == after
    ensures a.WorkerFinish? ==> Apply(s, a).completed == s.completed + TaskOf(s.workers[Touched(s, a).0])
    ensures !a.WorkerFinish? ==> Apply(s, a).completed == s.completed
  {
  }

  /** What stays balanced when busy tasks b lose x and gain y. */
  lemma Balance(h: multiset<Task>, c: multiset<Task>, b: multiset<Task>, b': multiset<Task>,
                x: multiset<Task>, y: multiset<Task>)
    requires h == c + b && b' + x == b + y
    ensures x == y ==> b' == b
    ensures x == multiset{} ==> h + y == c + b'
    ensures y == multiset{} ==> h == c + x + b'
  {
    if x == multiset{} { assert b' == b + y && c + (b + y) == c + b + y; }
    if y == multiset{} { assert b == b' + x && c + (b' + x) == c + x + b'; }
    if x == y { assert forall t :: b'[t] + x[t] == (b' + x)[t] == (b + y)[t] == b[t] + y[t]; }
  }

  lemma HandedBag(s: State, a: Action)
    requires Enabled(s, a)
    ensures multiset(Apply(s, a).handed) ==
              multiset(s.handed) + (if a.DispatchHand? then multiset{s.dispatcher.task} else multiset{})
  {
  }

  lemma StepKeepsPhases(s: State, a: Action)
    requires Enabled(s, a) && Phases(s) && Groups(s)
    ensures Phases(Apply(s, a))
  {
    hide Count;
  }

  lemma StepKeepsStops(s: State, a: Action)
    requires Enabled(s, a) && Stops(s) && Phases(s) && Groups(s)
    ensures Stops(Apply(s, a))
  {
    hide Stops, Phases, Groups, Enabled, Apply;
    if IsClientAction(a) { ClientStepKeepsStops(s, a); } else { OtherStepKeepsStops(s, a); }
  }

  lemma ClientStepKeepsStops(s: State, a: Action)
    requires Enabled(s, a) && Stops(s) && Phases(s) && IsClientAction(a)
    ensures Stops(Apply(s, a))
  {
    Counts(s, a, Told);
    hide Count, Phases;
  }

  lemma OtherStepKeepsStops(s: State, a: Action)
    requires Enabled(s, a) && Stops(s) && Phases(s) && Groups(s) && !IsClientAction(a)
    ensures Stops(Apply(s, a))
  {
    Counts(s, a, Told);
    if s.client.Returned? { CountZero(Alive, s.workers); }
    hide Count;
  }

  lemma PlacedTake(av: seq<nat>, ws: seq<WorkerState>, byDispatcher: bool)
    requires Placed(av, ws, -1, -1) && av != []
    ensures Placed(av[1..], ws, if byDispatcher then av[0] else -1, if byDispatcher then -1 else av[0])
  {
    assert forall w :: w in av <==> w == av[0] || w in av[1..];
  }

  lemma PlacedRelease(av: seq<nat>, ws: seq<WorkerState>, d: int, c: int, w: nat, x: WorkerState)
    requires Placed(av, ws, d, c) && w < |ws| && (w == d || w == c) && !x.Ready?
    ensures Placed(av, ws[w := x], -1, -1)
  {
    forall u | IsReady(ws[w := x], u) ensures u in av {
      assert IsReady(ws, u);
    }
  }

  lemma PlacedAnnounce(av: seq<nat>, ws: seq<WorkerState>, d: int, c: int, w: nat)
    requires Placed(av, ws, d, c) && w < |ws| && !ws[w].Ready?
    ensures Placed(av + [w], ws[w := Ready], d, c)
  {
    assert !IsReady(ws, w) && w !in av;
    forall u | IsReady(ws[w := Ready], u) ensures u in av + [w] || u == d || u == c {
      if u == w { assert (av + [w])[|av|] == w; } else { assert IsReady(ws, u); }
    }
    forall u | u in av + [w] ensures IsReady(ws[w := Ready], u) && u != d && u != c {
      if u != w { assert u in av && IsReady(ws, u); }
    }
  }

  lemma PlacedElsewhere(av: seq<nat>, ws: seq<WorkerState>, d: int, c: int, w: nat, x: WorkerState)
    requires Placed(av, ws, d, c) && w < |ws| && !ws[w].Ready? && !x.Ready?
    ensures Placed(av, ws[w := x], d, c)
  {
    assert forall u :: IsReady(ws[w := x], u) <==> IsReady(ws, u);
  }

  lemma StepKeepsPlaces(s: State, a: Action)
    requires Enabled(s, a) && Places(s) && Phases(s)
    ensures Places(Apply(s, a))
  {
    hide Placed;
    var d, c := HeldByDispatcher(s.dispatcher), HeldByClient(s.client);
    match a
    case ClientTake => PlacedTake(s.available, s.workers, false);
    case DispatchTake => PlacedTake(s.available, s.workers, true);
    case ClientStopWorker => PlacedRelease(s.available, s.workers, d, c, s.client.w, Leaving);
    case DispatchHand => PlacedRelease(s.available, s.workers, d, c, s.dispatcher.w, Busy(s.dispatcher.task));
    case WorkerReady(w) => PlacedAnnounce(s.available, s.workers, d, c, w);
    case WorkerFinish(w) => PlacedElsewhere(s.available, s.workers, d, c, w, Completing);
    case WorkerDone(w) => PlacedElsewhere(s.available, s.workers, d, c, w, Starting);
    case WorkerStopped(w) => PlacedElsewhere(s.available, s.workers, d, c, w, WorkerState.Stopped);
    case _ =>
  }

  /** Every step keeps the invariant. */
  lemma StepKeepsInv(s: State, a: Action, tasks: seq<Task>)
    requires Enabled(s, a) && Inv(s, tasks)
    ensures Inv(Apply(s, a), tasks)
  {
    StepKeepsFifo(s, a, tasks);
    StepKeepsGroups(s, a);
    StepKeepsConserved(s, a);
    StepKeepsPhases(s, a);
    StepKeepsStops(s, a);
    StepKeepsPlaces(s, a);
  }

  /** Every run from the start keeps the invariant. */
  lemma {:induction false} RunKeepsInv(s: State, run: seq<Action>, tasks: seq<Task>)
    requires IsRun(s, run) && Inv(s, tasks)
    ensures Inv(After(s, run), tasks)
    decreases |run|
  {
    hide Inv, Enabled, Apply;
    if run != [] {
      StepKeepsInv(s, run[0], tasks);
      RunKeepsInv(Apply(s, run[0]), run[1..], tasks);
    }
  }

  // ---------- Progress ----------

  function ClientWeight(c: ClientState, n: nat): int {
    match c
    case Submitting => 4 * n + 7
    case Sending(_) => 4 * n + 16
    case AwaitQueue => 4 * n + 6
    case Terminating => 4 * n + 5
    case AwaitTasks => 4 * n + 4
    case Taking(k) => 4 * (n - k) + 3
    case Stopping(_, k) => 4 * (n - k) + 2
    case AwaitWorkers => 1
    case Returned => 0
  }

  function DispatcherWeight(d: DispatcherState): nat {
    match d
    case GotTask(_) => 7
    case Waiting(_) => 6
    case Handing(_, _) => 5
    case Purged => 1
    case _ => 0
  }

  /** A bound on the steps left. */
  function Measure(s: State): int {
    10 * |s.toSubmit| + 8 * |s.queue| + Count(Fuel, s.workers)
    + ClientWeight(s.client, |s.workers|) + DispatcherWeight(s.dispatcher)
  }

  predicate IsClientAction(a: Action) {
    a.ClientAdd? || a.ClientSend? || a.ClientHandoff? || a.ClientStop? || a.ClientPurged? || a.ClientTerminate?
    || a.ClientTasksDone? || a.ClientTake? || a.ClientStopWorker? || a.ClientLoopEnd? || a.ClientReturn?
  }

  lemma ClientStepDecreases(s: State, a: Action)
    requires Enabled(s, a) && Stops(s) && IsClientAction(a)
    ensures Measure(Apply(s, a)) < Measure(s)
  {
    Counts(s, a, Fuel);
    hide Count;
  }

  lemma OtherStepDecreases(s: State, a: Action)
    requires Enabled(s, a) && !IsClientAction(a)
    ensures Measure(Apply(s, a)) < Measure(s)
  {
    Counts(s, a, Fuel);
    hide Count, ClientWeight;
  }

  lemma StepDecreasesMeasure(s: State, a: Action)
    requires Enabled(s, a) && Stops(s)
    ensures Measure(Apply(s, a)) < Measure(s)
  {
    hide Measure, Enabled, Apply;
    if IsClientAction(a) { ClientStepDecreases(s, a); } else { OtherStepDecreases(s, a); }
  }

  lemma MeasureNonnegative(s: State)
    requires Stops(s)
    ensures Measure(s) >= 0
  {
    hide Count;
  }

  /** No run is longer than the measure of its first state. */
  lemma {:induction false} RunsAreBounded(s: State, run: seq<Action>, tasks: seq<Task>)
    requires IsRun(s, run) && Inv(s, tasks)
    ensures |run| <= Measure(s)
    decreases |run|
  {
    hide Enabled, Apply, Measure, Fifo, Groups, Conserved, Phases, Places;
    if run == [] {
      MeasureNonnegative(s);
    } else {
      StepKeepsInv(s, run[0], tasks);
      StepDecreasesMeasure(s, run[0]);
      RunsAreBounded(Apply(s, run[0]), run[1..], tasks);
    }
  }

  /** The available channel is never full when a worker announces itself: the
      READY send does not block. */
  lemma ReadySendNeverBlocks(s: State, tasks: seq<Task>, w: nat)
    requires Inv(s, tasks) && w < |s.workers| && s.workers[w].Starting?
    ensures Enabled(s, WorkerReady(w))
  {
    assert w !in s.available by { assert !IsReady(s.workers, w); }
    forall i | 0 <= i < |s.available| ensures s.available[i] < |s.workers| {
      assert s.available[i] in s.available;
    }
    Pigeonhole(s.available, |s.workers|, w);
  }

  lemma Pigeonhole(av: seq<nat>, n: nat, w: nat)
    requires w < n && w !in av
    requires forall i :: 0 <= i < |av| ==> av[i] < n
    requires forall i, j :: 0 <= i < j < |av| ==> av[i] != av[j]
    ensures |av| < n
  {
    var held := Members(av);
    assert held <= Numbers(n) && w in Numbers(n) && w !in held;
    SmallerSet(held, Numbers(n));
  }

  ghost function Numbers(n: nat): (s: set<nat>)
    ensures |s| == n && forall x: nat :: x in s <==> x < n
  {
    if n == 0 then {} else Numbers(n - 1) + {n - 1}
  }

  ghost function Members(av: seq<nat>): (s: set<nat>)
    requires forall i, j :: 0 <= i < j < |av| ==> av[i] != av[j]
    ensures |s| == |av| && forall x :: x in s <==> x in av
  {
    if av == [] then {}
    else
      var n := |av| - 1;
      assert av[n] !in av[..n] && av == av[..n] + [av[n]];
      Members(av[..n]) + {av[n]}
  }

  lemma {:induction false} SmallerSet(s: set<nat>, t: set<nat>)
    requires s < t
    ensures |s| < |t|
  {
    if s == {} {
      assert |t| > 0;
    } else {
      var x :| x in s;
      SmallerSet(s - {x}, t - {x});
    }
  }

  /** Some worker can move on its own. */
  predicate Moves(x: WorkerState) {
    x.Starting? || x.Busy? || x.Completing? || x.Leaving?
  }

  lemma MovingWorkerIsEnabled(s: State, tasks: seq<Task>, w: nat) returns (a: Action)
    requires Inv(s, tasks) && w < |s.workers| && Moves(s.workers[w])
    ensures Enabled(s, a)
  {
    match s.workers[w]
    case Starting =>
      ReadySendNeverBlocks(s, tasks, w);
      a := WorkerReady(w);
    case Busy(_) => a := WorkerFinish(w);
    case Completing => a := WorkerDone(w);
    case Leaving => a := WorkerStopped(w);
  }

  lemma {:induction false} SomeNotTold(ws: seq<WorkerState>) returns (w: nat)
    requires Count(Told, ws) < |ws|
    ensures w < |ws| && Told(ws[w]) == 0
  {
    if Told(ws[0]) == 0 {
      w := 0;
    } else {
      var v := SomeNotTold(ws[1..]);
      w := v + 1;
    }
  }

  lemma {:induction false} AllTold(ws: seq<WorkerState>)
    requires Count(Told, ws) == |ws|
    ensures forall w :: 0 <= w < |ws| ==> Told(ws[w]) == 1
    ensures Count(Told, ws) <= |ws|
  {
    if ws != [] {
      ToldAtMost(ws[1..]);
      AllTold(ws[1..]);
      forall w | 0 <= w < |ws| ensures Told(ws[w]) == 1 {
        if w > 0 { assert ws[w] == ws[1..][w - 1]; }
      }
    }
  }

  lemma {:induction false} ToldAtMost(ws: seq<WorkerState>)
    ensures Count(Told, ws) <= |ws|
  {
    if ws != [] { ToldAtMost(ws[1..]); }
  }

  /** With all workers waiting or stopped, a worker not told to stop is at hand. */
  lemma WaitingWorkerAvailable(s: State, tasks: seq<Task>)
    requires Inv(s, tasks) && HeldByDispatcher(s.dispatcher) == -1 && HeldByClient(s.client) == -1
    requires forall w :: 0 <= w < |s.workers| ==> !Moves(s.workers[w])
    requires Count(Told, s.workers) < |s.workers|
    ensures s.available != []
  {
    var w := SomeNotTold(s.workers);
    assert IsReady(s.workers, w);
  }

  /** In every reachable state before the return of Stop some step is enabled, if
      there is at least one worker, or nothing to do. */
  lemma Progress(s: State, tasks: seq<Task>) returns (a: Action)
    requires Inv(s, tasks) && (s.workers != [] || tasks == []) && !s.client.Returned?
    ensures Enabled(s, a)
  {
    if w: nat :| w < |s.workers| && Moves(s.workers[w]) {
      a := MovingWorkerIsEnabled(s, tasks, w);
    } else if s.dispatcher.Idle? || s.dispatcher.Ended? {
      a := ClientProgress(s, tasks);
    } else {
      a := DispatcherProgress(s, tasks);
    }
  }

  lemma DispatcherProgress(s: State, tasks: seq<Task>) returns (a: Action)
    requires Inv(s, tasks) && (s.workers != [] || tasks == []) && !s.dispatcher.Idle? && !s.dispatcher.Ended?
    requires forall w :: 0 <= w < |s.workers| ==> !Moves(s.workers[w])
    ensures Enabled(s, a)
  {
    hide Count;
    match s.dispatcher
    case GotTask(_) => a := DispatchAdd;
    case Waiting(t) =>
      assert t in s.submitted + s.toSubmit by { assert t in InHand(s.dispatcher); }
      WaitingWorkerAvailable(s, tasks);
      a := DispatchTake;
    case Handing(_, _) => a := DispatchHand;
    case Purged => a := DispatchDone;
  }

  lemma ClientProgress(s: State, tasks: seq<Task>) returns (a: Action)
    requires Inv(s, tasks) && !s.client.Returned? && (s.dispatcher.Idle? || s.dispatcher.Ended?)
    requires forall w :: 0 <= w < |s.workers| ==> !Moves(s.workers[w])
    ensures Enabled(s, a)
  {
    if s.dispatcher.Idle? && s.queue != [] {
      a := DispatchReceive;
    } else {
      match s.client
      case Submitting => a := if s.toSubmit == [] then ClientStop else ClientAdd;
      case Sending(_) => a := ClientHandoff;
      case AwaitQueue => a := ClientPurged;
      case Terminating => a := ClientTerminate;
      case AwaitTasks =>
        CountAll(Running, s.workers, 0);
        a := ClientTasksDone;
      case Taking(k) =>
        if k < |s.workers| {
          WaitingWorkerAvailable(s, tasks);
          a := ClientTake;
        } else {
          a := ClientLoopEnd;
        }
      case Stopping(_, _) => a := ClientStopWorker;
      case AwaitWorkers =>
        AllTold(s.workers);
        CountAll(Alive, s.workers, 0);
        a := ClientReturn;
    }
  }

  // ---------- Shutdown ----------

  /** When Stop has returned, with or without waiting, every accepted task was
      handed over in the order of acceptance and has completed exactly once, and
      all workers and the dispatcher have stopped. */
  lemma ReturnedMeansDone(s: State, tasks: seq<Task>)
    requires Inv(s, tasks) && s.client.Returned?
    ensures s.handed == s.submitted == tasks && s.completed == multiset(tasks)
    ensures s.dispatcher.Ended? && s.queue == [] && forall w :: 0 <= w < |s.workers| ==> s.workers[w].Stopped?
  {
    CountZero(Alive, s.workers);
    NothingBusy(s.workers);
    assert s.handed + InHand(s.dispatcher) + s.queue + InSend(s.client) == s.handed;
    assert s.submitted + s.toSubmit == s.submitted;
  }

  /** The main result. Every run is bounded by a number known beforehand. When Stop
      has returned no step is left and every task has completed once. A run that
      cannot be continued has returned from Stop if and only if there was a worker
      or no task; without workers no run with a task ever returns. */
  lemma EveryRunShutsDownIff(capacity: nat, concurrency: nat, wait: bool, tasks: seq<Task>, run: seq<Action>)
    requires IsRun(Init(capacity, concurrency, wait, tasks), run)
    ensures |run| <= 10 * |tasks| + 5 * concurrency + 7
    ensures var s := After(Init(capacity, concurrency, wait, tasks), run);
            s.client.Returned? <==> (forall a :: !Enabled(s, a)) && (concurrency > 0 || tasks == [])
    ensures var s := After(Init(capacity, concurrency, wait, tasks), run);
            s.client.Returned? ==>
              && s.handed == s.submitted == tasks && s.completed == multiset(tasks)
              && s.dispatcher.Ended? && forall w :: 0 <= w < |s.workers| ==> s.workers[w].Stopped?
  {
    var s0 := Init(capacity, concurrency, wait, tasks);
    InitInv(capacity, concurrency, wait, tasks);
    RunKeepsInv(s0, run, tasks);
    RunsAreBounded(s0, run, tasks);
    CountAll(Fuel, s0.workers, 1);
    var s := After(s0, run);
    RunKeepsWorkers(s0, run);
    hide IsRun, After;
    if s.client.Returned? {
      ReturnedMeansDone(s, tasks);
      NothingEnabled(s, tasks);
      if concurrency == 0 { NothingHanded(s0, run); }
    } else if concurrency > 0 || tasks == [] {
      var a := Progress(s, tasks);
    }
  }

  lemma NothingEnabled(s: State, tasks: seq<Task>)
    requires Inv(s, tasks) && s.client.Returned?
    ensures forall a :: !Enabled(s, a)
  {
    ReturnedMeansDone(s, tasks);
  }

  lemma {:induction false} RunKeepsWorkers(s: State, run: seq<Action>)
    requires IsRun(s, run)
    ensures |After(s, run).workers| == |s.workers|
    decreases |run|
  {
    if run != [] { RunKeepsWorkers(Apply(s, run[0]), run[1..]); }
  }

  /** In every reachable state the tasks handed over are a prefix of those
      accepted, each is being invoked or completed, and no more are being invoked
      than there are workers. */
  lemma HandedInOrder(capacity: nat, concurrency: nat, wait: bool, tasks: seq<Task>, run: seq<Action>)
    requires IsRun(Init(capacity, concurrency, wait, tasks), run)
    ensures var s := After(Init(capacity, concurrency, wait, tasks), run);
            && s.handed <= s.submitted <= tasks
            && multiset(s.handed) == s.completed + BusyTasks(s.workers)
            && |BusyTasks(s.workers)| <= concurrency
  {
    var s0 := Init(capacity, concurrency, wait, tasks);
    InitInv(capacity, concurrency, wait, tasks);
    RunKeepsInv(s0, run, tasks);
    RunKeepsWorkers(s0, run);
    BusyAtMost(After(s0, run).workers);
  }

  lemma {:induction false} BusyAtMost(ws: seq<WorkerState>)
    ensures |BusyTasks(ws)| <= |ws|
  {
    if ws != [] { BusyAtMost(ws[1..]); }
  }

  /** Without workers nothing is ever handed over. */
  lemma {:induction false} NothingHanded(s: State, run: seq<Action>)
    requires IsRun(s, run) && s.workers == []
    ensures After(s, run).handed == s.handed
    decreases |run|
  {
    if run != [] { NothingHanded(Apply(s, run[0]), run[1..]); }
  }

  /** Without workers and with something to do the run of every client ends in a
      deadlock, never in a return: what was accepted first is still waiting. */
  lemma NoWorkersDeadlock(capacity: nat, wait: bool, tasks: seq<Task>, run: seq<Action>)
    requires tasks != [] && IsRun(Init(capacity, 0, wait, tasks), run)
    ensures var s := After(Init(capacity, 0, wait, tasks), run);
            && !s.client.Returned? && s.handed == [] && s.completed == multiset{}
            && ((forall a :: !Enabled(s, a)) ==>
                  s.dispatcher == Waiting(tasks[0]) && (s.client.Sending? || s.client.AwaitQueue?))
  {
    var s0 := Init(capacity, 0, wait, tasks);
    EveryRunShutsDownIff(capacity, 0, wait, tasks, run);
    HandedInOrder(capacity, 0, wait, tasks, run);
    NothingHanded(s0, run);
    InitInv(capacity, 0, wait, tasks);
    RunKeepsInv(s0, run, tasks);
    RunKeepsWorkers(s0, run);
    var s := After(s0, run);
    hide IsRun, After, Init;
    if forall a :: !Enabled(s, a) {
      StuckWithoutWorkers(s, tasks);
    }
  }

  lemma StuckWithoutWorkers(s: State, tasks: seq<Task>)
    requires Inv(s, tasks) && tasks != [] && s.workers == [] && s.handed == [] && !s.client.Returned?
    requires forall a :: !Enabled(s, a)
    ensures s.dispatcher == Waiting(tasks[0]) && (s.client.Sending? || s.client.AwaitQueue?)
  {
    hide Enabled, Conserved;
    Stuck(s);
    assert s.submitted + s.toSubmit == tasks;
    assert s.submitted == InHand(s.dispatcher) + s.queue + InSend(s.client) by { assert [] + InHand(s.dispatcher) == InHand(s.dispatcher); }
  }

  /** The steps that must be disabled in a stuck state. */
  lemma Stuck(s: State)
    requires forall a :: !Enabled(s, a)
    ensures !s.client.Submitting? && !s.dispatcher.GotTask? && !s.dispatcher.Purged?
    ensures !(s.dispatcher.Idle? && s.queue != []) && !(s.client.Sending? && s.dispatcher.Idle? && s.queue == [])
    ensures !(s.client.AwaitQueue? && s.wg == 0) && !(s.client.Terminating? && s.dispatcher.Idle?)
  {
    assert !Enabled(s, ClientAdd) && !Enabled(s, ClientStop) && !Enabled(s, DispatchAdd) && !Enabled(s, DispatchDone);
    assert !Enabled(s, DispatchReceive) && !Enabled(s, ClientHandoff) && !Enabled(s, ClientPurged) && !Enabled(s, ClientTerminate);
  }
}
