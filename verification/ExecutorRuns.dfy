/** What waiting changes when the executor stops, and runs that show what it does not
    exclude (fabric/fabric-cli/executor). */
module ExecutorRuns {
  import opened Executor

  // ---------- Stopping with and without waiting ----------

  /** The client has begun to stop the workers. */
  predicate StopsWorkers(c: ClientState) {
    c.Taking? || c.Stopping? || c.AwaitWorkers? || c.Returned?
  }

  /** A client that waits has seen all tasks done by then. */
  ghost predicate Waited(s: State) {
    s.wait && StopsWorkers(s.client) ==> s.taskWg == 0
  }

  lemma StepKeepsWaited(s: State, a: Action)
    requires Enabled(s, a) && Waited(s) && Groups(s) && Phases(s)
    ensures Waited(Apply(s, a)) && Apply(s, a).wait == s.wait
  {
    if s.taskWg == 0 && s.dispatcher.Ended? { CountZero(Running, s.workers); }
    hide Count;
  }

  lemma {:induction false} RunKeepsWaited(s: State, run: seq<Action>, tasks: seq<Task>)
    requires IsRun(s, run) && Inv(s, tasks) && Waited(s)
    ensures Waited(After(s, run)) && After(s, run).wait == s.wait
    decreases |run|
  {
    hide Enabled, Apply, Waited, Fifo, Groups, Conserved, Phases, Stops, Places;
    if run != [] {
      StepKeepsWaited(s, run[0]);
      StepKeepsInv(s, run[0], tasks);
      RunKeepsWaited(Apply(s, run[0]), run[1..], tasks);
    }
  }

  /** Stop with waiting tells no worker to stop before every task has completed. */
  lemma WaitingStopsNobodyEarly(capacity: nat, concurrency: nat, tasks: seq<Task>, run: seq<Action>)
    requires IsRun(Init(capacity, concurrency, true, tasks), run)
    ensures var s := After(Init(capacity, concurrency, true, tasks), run);
            StopsWorkers(s.client) || Count(Told, s.workers) > 0 ==>
              s.completed == multiset(tasks) && s.handed == tasks && forall w :: 0 <= w < |s.workers| ==> !s.workers[w].Busy?
  {
    var s0 := Init(capacity, concurrency, true, tasks);
    InitInv(capacity, concurrency, true, tasks);
    RunKeepsInv(s0, run, tasks);
    RunKeepsWaited(s0, run, tasks);
    var s := After(s0, run);
    hide IsRun, After, Count;
    if StopsWorkers(s.client) {
      CountZero(Running, s.workers);
      NothingBusy(s.workers);
      assert s.handed + InHand(s.dispatcher) + s.queue + InSend(s.client) == s.handed;
      assert s.submitted + s.toSubmit == s.submitted;
    }
  }

  // ---------- Runs that exist ----------

  ghost predicate Reaches(s: State, t: State) {
    exists run :: IsRun(s, run) && After(s, run) == t
  }

  lemma ReachesItself(s: State)
    ensures Reaches(s, s)
  {
    assert IsRun(s, []) && After(s, []) == s;
  }

  lemma ReachesBy(s: State, a: Action, t: State)
    requires Enabled(s, a) && Reaches(Apply(s, a), t)
    ensures Reaches(s, t)
  {
    hide Enabled, Apply;
    var run :| IsRun(Apply(s, a), run) && After(Apply(s, a), run) == t;
    assert ([a] + run)[1..] == run && ([a] + run)[0] == a;
    assert IsRun(s, [a] + run) && After(s, [a] + run) == t;
  }

  lemma ReachesFurther(s: State, t: State, a: Action)
    requires Reaches(s, t) && Enabled(t, a)
    ensures Reaches(s, Apply(t, a))
  {
    hide Enabled, Apply;
    var run :| IsRun(s, run) && After(s, run) == t;
    RunThen(s, run, a);
    assert IsRun(s, run + [a]) && After(s, run + [a]) == Apply(t, a);
  }

  lemma {:induction false} RunThen(s: State, run: seq<Action>, a: Action)
    requires IsRun(s, run) && Enabled(After(s, run), a)
    ensures IsRun(s, run + [a]) && After(s, run + [a]) == Apply(After(s, run), a)
    decreases |run|
  {
    hide Enabled, Apply;
    if run == [] {
      assert run + [a] == [a] && [a][1..] == [];
    } else {
      assert (run + [a])[0] == run[0] && (run + [a])[1..] == run[1..] + [a];
      RunThen(Apply(s, run[0]), run[1..], a);
    }
  }

  /** The first n tasks have been submitted and nobody has taken any. */
  function Queued(s: State, n: nat): State
    requires n <= |s.toSubmit|
  {
    s.(toSubmit := s.toSubmit[n..], queue := s.toSubmit[..n], wg := n, submitted := s.toSubmit[..n])
  }

  /** Submit does not block while the task channel has room: it can be filled to its
      capacity, and by the invariant no further. */
  lemma {:induction false} ChannelFills(capacity: nat, concurrency: nat, wait: bool, tasks: seq<Task>, n: nat)
    requires n <= |tasks| && n <= capacity
    ensures var s := Init(capacity, concurrency, wait, tasks); Reaches(s, Queued(s, n))
  {
    hide Reaches;
    var s := Init(capacity, concurrency, wait, tasks);
    if n == 0 {
      assert Queued(s, 0) == s;
      ReachesItself(s);
    } else {
      var t := Queued(s, n - 1);
      ChannelFills(capacity, concurrency, wait, tasks, n - 1);
      var t1 := Apply(t, ClientAdd);
      ReachesFurther(s, t, ClientAdd);
      ReachesFurther(s, t1, ClientSend);
      assert tasks[..n] == tasks[..n - 1] + [tasks[n - 1]] && tasks[n - 1..][1..] == tasks[n..];
      assert Apply(t1, ClientSend) == Queued(s, n);
    }
  }

  /** The only worker has been handed the only task. */
  function HandedOver(capacity: nat, task: Task): State {
    State(capacity, false, [], Submitting, [], Purged, [], [Busy(task)], 1, 1, 1, [task], [task], multiset{})
  }

  /** The only task waits for the only worker. */
  function WaitingForWorker(capacity: nat, task: Task): State {
    State(capacity, false, [], Submitting, [], Waiting(task), [], [Starting], 1, 1, 1, [task], [], multiset{})
  }

  lemma SubmittedThenWaits(capacity: nat, task: Task, t: State)
    requires Reaches(WaitingForWorker(capacity, task), t)
    ensures Reaches(Init(capacity, 1, false, [task]), t)
  {
    hide Reaches;
    var s0 := Init(capacity, 1, false, [task]);
    assert s0.workers == [Starting] && [] + [task] == [task];
    var s1 := s0.(client := Sending(task), toSubmit := [], wg := 1, submitted := [task]);
    var s2 := s1.(client := Submitting, dispatcher := GotTask(task));
    assert Apply(s0, ClientAdd) == s1;
    assert Apply(s1, ClientHandoff) == s2;
    assert Apply(s2, DispatchAdd) == WaitingForWorker(capacity, task);
    ReachesBy(s2, DispatchAdd, t);
    ReachesBy(s1, ClientHandoff, t);
    ReachesBy(s0, ClientAdd, t);
  }

  lemma WaitsThenHandedOver(capacity: nat, task: Task, t: State)
    requires Reaches(HandedOver(capacity, task), t)
    ensures Reaches(WaitingForWorker(capacity, task), t)
  {
    hide Reaches;
    var s0 := WaitingForWorker(capacity, task);
    var s1 := s0.(workers := [Ready], available := [0]);
    var s2 := s1.(dispatcher := Handing(task, 0), available := []);
    assert Apply(s0, WorkerReady(0)) == s1;
    assert Apply(s1, DispatchTake) == s2;
    assert Apply(s2, DispatchHand) == HandedOver(capacity, task);
    ReachesBy(s2, DispatchHand, t);
    ReachesBy(s1, DispatchTake, t);
    ReachesBy(s0, WorkerReady(0), t);
  }

  /** Stop without waiting may begin with the workers while a task is being invoked. */
  lemma NotWaitingMayStopEarly(capacity: nat, task: Task)
    ensures Reaches(Init(capacity, 1, false, [task]),
                    HandedOver(capacity, task).(client := Taking(0), dispatcher := Ended, wg := 0))
  {
    var t := HandedOver(capacity, task).(client := Taking(0), dispatcher := Ended, wg := 0);
    hide Reaches, Init, HandedOver, WaitingForWorker;
    HandOverThenStop(capacity, task);
    WaitsThenHandedOver(capacity, task, t);
    SubmittedThenWaits(capacity, task, t);
  }

  lemma HandOverThenStop(capacity: nat, task: Task)
    ensures Reaches(HandedOver(capacity, task),
                    HandedOver(capacity, task).(client := Taking(0), dispatcher := Ended, wg := 0))
  {
    hide Reaches;
    var s0 := HandedOver(capacity, task);
    var t := s0.(client := Taking(0), dispatcher := Ended, wg := 0);
    var s1 := Apply(s0, DispatchDone);
    var s2 := Apply(s1, ClientStop);
    var s3 := Apply(s2, ClientPurged);
    var s4 := Apply(s3, ClientTerminate);
    assert Apply(s4, ClientTasksDone) == t;
    ReachesItself(t);
    ReachesBy(s4, ClientTasksDone, t);
    ReachesBy(s3, ClientTerminate, t);
    ReachesBy(s2, ClientPurged, t);
    ReachesBy(s1, ClientStop, t);
    ReachesBy(s0, DispatchDone, t);
  }
}
