/** cpp/examples/thread_pool.cc as a transition system.  One step is one critical section of the
    queue mutex, one notification, the end of a task, or a spurious wake-up; workers, outside
    callers and the destructor take steps in any order. */
module ThreadPool {
  import opened Wrappers

  type Task = nat

  /** Where a worker is: about to lock and test the wait predicate, asleep on the condition
      variable, in a task (perhaps between the push and the notification of a nested `Run`), or
      returned from `Loop`. */
  datatype Worker = Checking | Asleep | Running(task: Task, owes: bool) | Exited

  /** `owed` counts outside calls of `Run` that have pushed and not yet notified, `owesAll` says the
      destructor has set the flag and not yet notified; `submitted` and `taken` are histories. */
  datatype State = State(
    workers: seq<Worker>, tasks: seq<Task>, stop: bool, owed: nat, owesAll: bool,
    submitted: seq<Task>, taken: seq<Task>)

  datatype Step =
    | Submit(task: Task)
    | SubmitBy(w: nat, task: Task)
    | Notify(caller: Option<nat>, wake: Option<nat>)
    | Stop
    | NotifyAll
    | Check(w: nat)
    | Finish(w: nat)
    | Spurious(w: nat)

  ghost predicate Init(s: State) {
    && (forall i :: 0 <= i < |s.workers| ==> s.workers[i] == Checking)
    && s.tasks == [] && !s.stop && s.owed == 0 && !s.owesAll && s.submitted == [] && s.taken == []
  }

  function Woken(w: Worker): Worker { if w.Asleep? then Checking else w }

  ghost predicate AnyAsleep(s: State) { exists i :: 0 <= i < |s.workers| && s.workers[i].Asleep? }

  /** The worker after one pass of the critical section of `Loop`. */
  function Outcome(tasks: seq<Task>, stop: bool): Worker {
    if tasks != [] then Running(tasks[0], false) else if stop then Exited else Asleep
  }

  /** The notification goes to some sleeper, if there is one. */
  ghost predicate Wakes(s: State, ws: seq<Worker>, wake: Option<nat>) {
    match wake
    case None => !AnyAsleep(s) && ws == s.workers
    case Some(i) => i < |s.workers| && s.workers[i].Asleep? && ws == s.workers[i := Checking]
  }

  ghost predicate Next(s: State, step: Step, t: State) {
    match step
    case Submit(task) =>
      t == s.(tasks := s.tasks + [task], owed := s.owed + 1, submitted := s.submitted + [task])
    case SubmitBy(w, task) =>
      && w < |s.workers| && s.workers[w].Running? && !s.workers[w].owes
      && t == s.(tasks := s.tasks + [task], workers := s.workers[w := s.workers[w].(owes := true)],
          submitted := s.submitted + [task])
    case Notify(caller, wake) =>
      match caller {
        case None => s.owed > 0 && exists ws :: Wakes(s, ws, wake) && t == s.(owed := s.owed - 1, workers := ws)
        case Some(w) =>
          && w < |s.workers| && s.workers[w].Running? && s.workers[w].owes
          && exists ws ::
              Wakes(s, ws, wake) && |ws| == |s.workers| && t == s.(workers := ws[w := s.workers[w].(owes := false)])
      }
    case Stop => !s.stop && t == s.(stop := true, owesAll := true)
    case NotifyAll =>
      s.owesAll && t ==
          s.(owesAll := false, workers := seq(|s.workers|, i requires 0 <= i < |s.workers| => Woken(s.workers[i])))
    case Check(w) =>
      && w < |s.workers| && s.workers[w].Checking?
      && t == s.(workers := s.workers[w := Outcome(s.tasks, s.stop)],
                 tasks := if s.tasks == [] then [] else s.tasks[1..],
                 taken := if s.tasks == [] then s.taken else s.taken + [s.tasks[0]])
    case Finish(w) =>
      w < |s.workers| && s.workers[w].Running? && !s.workers[w].owes && t == s.(workers := s.workers[w := Checking])
    case Spurious(w) =>
      w < |s.workers| && s.workers[w].Asleep? && t == s.(workers := s.workers[w := Checking])
  }

  // ---------- counting workers ----------

  function One(b: bool): nat { if b then 1 else 0 }
  predicate Awake(w: Worker) { w.Checking? || w.Running? }
  predicate Owes(w: Worker) { w.Running? && w.owes }

  ghost function AwakeIn(ws: seq<Worker>): nat {
    if ws == [] then 0 else AwakeIn(ws[..|ws| - 1]) + One(Awake(ws[|ws| - 1]))
  }

  ghost function OwedIn(ws: seq<Worker>): nat {
    if ws == [] then 0 else OwedIn(ws[..|ws| - 1]) + One(Owes(ws[|ws| - 1]))
  }

  /** Notifications still to come, and workers that will look at the queue again. */
  ghost function Attention(s: State): nat { s.owed + OwedIn(s.workers) + AwakeIn(s.workers) }

  lemma {:induction false} CountSet(ws: seq<Worker>, i: nat, w: Worker)
    requires i < |ws|
    ensures AwakeIn(ws[i := w]) + One(Awake(ws[i])) == AwakeIn(ws) + One(Awake(w))
    ensures OwedIn(ws[i := w]) + One(Owes(ws[i])) == OwedIn(ws) + One(Owes(w))
    decreases |ws|
  {
    var last := |ws| - 1;
    if i < last {
      CountSet(ws[..last], i, w);
      assert ws[i := w][..last] == ws[..last][i := w];
    } else {
      assert ws[i := w][..last] == ws[..last];
    }
  }

  lemma {:induction false} CountSome(ws: seq<Worker>, i: nat)
    requires i < |ws|
    ensures Awake(ws[i]) ==> AwakeIn(ws) >= 1
    ensures Owes(ws[i]) ==> OwedIn(ws) >= 1
  {
    CountSet(ws, i, Exited);
  }

  lemma {:induction false} CountNone(ws: seq<Worker>)
    ensures AwakeIn(ws) == 0 <==> forall i :: 0 <= i < |ws| ==> !Awake(ws[i])
  {
    if ws != [] {
      var u := ws[..|ws| - 1];
      CountNone(u);
      assert forall i :: 0 <= i < |u| ==> u[i] == ws[i];
      if forall i :: 0 <= i < |ws| ==> !Awake(ws[i]) { assert forall i :: 0 <= i < |u| ==> !Awake(u[i]); }
    }
  }

  // ---------- what every step keeps ----------

  ghost predicate AnyExited(s: State) { exists i :: 0 <= i < |s.workers| && s.workers[i].Exited? }

  /** Tasks are taken in the order submitted, none lost and none twice. */
  ghost predicate InOrder(s: State) { s.submitted == s.taken + s.tasks }

  /** While a worker sleeps, every queued task has a notification or an awake worker of its own. */
  ghost predicate Attended(s: State) { AnyAsleep(s) ==> |s.tasks| <= Attention(s) }

  /** Workers leave only after the stop. */
  ghost predicate ExitAfterStop(s: State) { AnyExited(s) ==> s.stop }

  /** Nobody sleeps past the destructor's notification. */
  ghost predicate Roused(s: State) { s.stop && !s.owesAll ==> !AnyAsleep(s) }

  ghost predicate Inv(s: State) {
    InOrder(s) && Attended(s) && ExitAfterStop(s) && Roused(s) && (s.owesAll ==> s.stop)
  }

  lemma InitInv(s: State)
    requires Init(s)
    ensures Inv(s)
  {}

  lemma SubmitInv(s: State, task: Task, t: State)
    requires Inv(s) && Next(s, Submit(task), t)
    ensures Inv(t)
  {
    assert AnyAsleep(t) == AnyAsleep(s) && AnyExited(t) == AnyExited(s);
  }

  /** Replacing one worker by a worker that neither sleeps nor has left. */
  lemma Replaced(s: State, t: State, w: nat, x: Worker)
    requires w < |s.workers| && t.workers == s.workers[w := x]
    ensures AnyAsleep(t) && !x.Asleep? ==> AnyAsleep(s)
    ensures AnyExited(t) && !x.Exited? ==> AnyExited(s)
  {
    if AnyAsleep(t) && !x.Asleep? {
      var i :| 0 <= i < |t.workers| && t.workers[i].Asleep?;
      assert s.workers[i].Asleep?;
    }
    if AnyExited(t) && !x.Exited? {
      var i :| 0 <= i < |t.workers| && t.workers[i].Exited?;
      assert s.workers[i].Exited?;
    }
  }

  lemma SubmitByInv(s: State, w: nat, task: Task, t: State)
    requires Inv(s) && Next(s, SubmitBy(w, task), t)
    ensures Inv(t)
  {
    var x := s.workers[w].(owes := true);
    Replaced(s, t, w, x);
    CountSet(s.workers, w, x);
    CountSome(t.workers, w);
  }

  lemma WakesInv(s: State, wake: Option<nat>, ws: seq<Worker>)
    requires Wakes(s, ws, wake)
    ensures |ws| == |s.workers| && OwedIn(ws) == OwedIn(s.workers)
    ensures AwakeIn(ws) == AwakeIn(s.workers) + One(wake.Some?) && (wake.None? ==> !AnyAsleep(s))
    ensures forall i :: 0 <= i < |ws| && s.workers[i].Running? ==> ws[i] == s.workers[i]
    ensures var t := s.(workers := ws); (AnyAsleep(t) ==> AnyAsleep(s)) && (AnyExited(t) ==> AnyExited(s))
  {
    if wake.Some? {
      CountSet(s.workers, wake.value, Checking);
      Replaced(s, s.(workers := ws), wake.value, Checking);
    }
  }

  lemma NotifyInv(s: State, caller: Option<nat>, wake: Option<nat>, t: State)
    requires Inv(s) && Next(s, Notify(caller, wake), t)
    ensures Inv(t)
  {
    if caller.None? {
      var ws :| Wakes(s, ws, wake) && t == s.(owed := s.owed - 1, workers := ws);
      WakesInv(s, wake, ws);
      var m := s.(workers := ws);
      assert AnyAsleep(t) == AnyAsleep(m) && AnyExited(t) == AnyExited(m);
    } else {
      var w := caller.value;
      var x := s.workers[w].(owes := false);
      var ws :| Wakes(s, ws, wake) && |ws| == |s.workers| && t == s.(workers := ws[w := x]);
      WakesInv(s, wake, ws);
      var m := s.(workers := ws);
      Replaced(m, t, w, x);
      CountSet(ws, w, x);
      CountSome(t.workers, w);
    }
  }

  lemma NotifyAllInv(s: State, t: State)
    requires Inv(s) && Next(s, NotifyAll, t)
    ensures Inv(t)
  {
    WokenCount(s.workers, t.workers);
    if AnyExited(t) {
      var i :| 0 <= i < |t.workers| && t.workers[i].Exited?;
      assert s.workers[i].Exited?;
    }
  }

  lemma {:induction false} WokenCount(ws: seq<Worker>, vs: seq<Worker>)
    requires |vs| == |ws| && forall i :: 0 <= i < |ws| ==> vs[i] == Woken(ws[i])
    ensures AwakeIn(vs) >= AwakeIn(ws)
  {
    if ws != [] { WokenCount(ws[..|ws| - 1], vs[..|vs| - 1]); }
  }

  lemma TakeInv(s: State, w: nat, t: State)
    requires Inv(s) && Next(s, Check(w), t) && s.tasks != []
    ensures Inv(t)
  {
    var x := Running(s.tasks[0], false);
    Replaced(s, t, w, x);
    CountSet(s.workers, w, x);
    assert s.tasks == [s.tasks[0]] + t.tasks;
  }

  lemma LeaveInv(s: State, w: nat, t: State)
    requires Inv(s) && Next(s, Check(w), t) && s.tasks == []
    ensures Inv(t)
  {
    Replaced(s, t, w, if s.stop then Exited else Asleep);
  }

  lemma CheckInv(s: State, w: nat, t: State)
    requires Inv(s) && Next(s, Check(w), t)
    ensures Inv(t)
  {
    if s.tasks != [] { TakeInv(s, w, t); } else { LeaveInv(s, w, t); }
  }

  lemma AwakenInv(s: State, w: nat, t: State)
    requires Inv(s) && (Next(s, Finish(w), t) || Next(s, Spurious(w), t))
    ensures Inv(t)
  {
    Replaced(s, t, w, Checking);
    CountSet(s.workers, w, Checking);
    CountSome(t.workers, w);
  }

  lemma StopInv(s: State, t: State)
    requires Inv(s) && Next(s, Stop, t)
    ensures Inv(t)
  {
    assert AnyAsleep(t) == AnyAsleep(s) && AnyExited(t) == AnyExited(s);
  }

  lemma StepInv(s: State, step: Step, t: State)
    requires Inv(s) && Next(s, step, t)
    ensures Inv(t)
  {
    match step
    case Submit(task) => SubmitInv(s, task, t);
    case SubmitBy(w, task) => SubmitByInv(s, w, task, t);
    case Notify(caller, wake) => NotifyInv(s, caller, wake, t);
    case Stop => StopInv(s, t);
    case NotifyAll => NotifyAllInv(s, t);
    case Check(w) => CheckInv(s, w, t);
    case Finish(w) => AwakenInv(s, w, t);
    case Spurious(w) => AwakenInv(s, w, t);
  }

  // ---------- whole runs ----------

  ghost predicate IsRun(states: seq<State>, steps: seq<Step>) {
    |states| == |steps| + 1 && forall i :: 0 <= i < |steps| ==> Next(states[i], steps[i], states[i + 1])
  }

  lemma RunPrefix(states: seq<State>, steps: seq<Step>, ss: seq<State>, ps: seq<Step>)
    requires IsRun(states, steps) && steps != [] && ss == states[..|steps|] && ps == steps[..|steps| - 1]
    ensures IsRun(ss, ps) && Next(states[|steps| - 1], steps[|steps| - 1], states[|steps|])
  {
    forall i | 0 <= i < |ps| ensures Next(ss[i], ps[i], ss[i + 1]) { assert Next(states[i], steps[i], states[i + 1]); }
  }

  /** The tasks handed to `Run` along a run, in order. */
  ghost function SubmittedIn(steps: seq<Step>): seq<Task> {
    if steps == [] then []
    else
      var last := steps[|steps| - 1];
      SubmittedIn(steps[..|steps| - 1]) + if last.Submit? || last.SubmitBy? then [last.task] else []
  }

  ghost predicate AllExited(s: State) { forall i :: 0 <= i < |s.workers| ==> s.workers[i].Exited? }

  /** The tasks handed over when every worker had already returned. */
  ghost function LateIn(states: seq<State>, steps: seq<Step>): seq<Task>
    requires |states| > |steps|
  {
    if steps == [] then []
    else
      var n := |steps| - 1;
      LateIn(states, steps[..n]) + if steps[n].Submit? && AllExited(states[n]) then [steps[n].task] else []
  }

  /** The queued tasks that nobody is left to take. */
  ghost function Stranded(s: State): seq<Task> { if AllExited(s) then s.tasks else [] }

  /** A worker returns only from an empty queue, so only a late submission is ever stranded. */
  lemma StrandedStep(s: State, step: Step, t: State)
    requires Next(s, step, t)
    ensures Stranded(t) == Stranded(s) + if step.Submit? && AllExited(s) then [step.task] else []
    ensures AllExited(s) ==> AllExited(t) && t.taken == s.taken
  {
    if step.Notify? && step.caller.None? {
      var ws :| Wakes(s, ws, step.wake) && t == s.(owed := s.owed - 1, workers := ws);
    }
    if AllExited(t) && !AllExited(s) {
      var i :| 0 <= i < |s.workers| && !s.workers[i].Exited?;
      StillThere(s, step, t, i);
    }
  }

  lemma StillThere(s: State, step: Step, t: State, i: nat)
    requires Next(s, step, t) && i < |s.workers| && !s.workers[i].Exited?
    ensures |t.workers| == |s.workers| && (t.workers[i].Exited? ==> t.tasks == [])
  {
    match step
    case Notify(None, wake) =>
      var ws :| Wakes(s, ws, wake) && t == s.(owed := s.owed - 1, workers := ws);
    case _ =>
  }

  lemma {:induction false} LatePrefix(ss: seq<State>, states: seq<State>, steps: seq<Step>)
    requires |steps| < |ss| && ss <= states
    ensures LateIn(ss, steps) == LateIn(states, steps)
    decreases |steps|
  {
    if steps != [] { LatePrefix(ss, states, steps[..|steps| - 1]); }
  }

  lemma {:induction false} SubmittedLast(steps: seq<Step>)
    requires steps != []
    ensures var n, last := |steps| - 1, steps[|steps| - 1];
            SubmittedIn(steps) == SubmittedIn(steps[..n]) + if last.Submit? || last.SubmitBy? then [last.task] else []
  {}

  lemma {:induction false} LateLast(states: seq<State>, steps: seq<Step>)
    requires |states| > |steps| > 0
    ensures var n, last := |steps| - 1, steps[|steps| - 1];
            LateIn(states, steps)
            == LateIn(states, steps[..n]) + if last.Submit? && AllExited(states[n]) then [last.task] else []
  {}

  /** Every state of every run keeps the invariant; the history is the run's submissions, and what is
      stranded is exactly what came late. */
  lemma {:induction false} RunInv(states: seq<State>, steps: seq<Step>)
    requires IsRun(states, steps) && Init(states[0])
    ensures Inv(states[|steps|]) && states[|steps|].submitted == SubmittedIn(steps)
    ensures Stranded(states[|steps|]) == LateIn(states, steps)
    decreases |steps|
  {
    if steps == [] {
      InitInv(states[0]);
    } else {
      var n := |steps| - 1;
      var ss, ps := states[..n + 1], steps[..n];
      RunPrefix(states, steps, ss, ps);
      RunInv(ss, ps);
      LatePrefix(ss, states, ps);
      SubmittedLast(steps);
      LateLast(states, steps);
      RunStep(states[n], steps[n], states[n + 1], SubmittedIn(ps), LateIn(states, ps));
    }
  }

  /** One more step of a run whose submissions so far are `all`, of which `late` came late. */
  lemma RunStep(s: State, step: Step, t: State, all: seq<Task>, late: seq<Task>)
    requires Next(s, step, t) && Inv(s) && s.submitted == all && Stranded(s) == late
    ensures Inv(t) && t.submitted == all + if step.Submit? || step.SubmitBy? then [step.task] else []
    ensures Stranded(t) == late + if step.Submit? && AllExited(s) then [step.task] else []
  {
    StepInv(s, step, t);
    SubmittedStep(s, step, t);
    StrandedStep(s, step, t);
  }

  lemma SubmittedStep(s: State, step: Step, t: State)
    requires Next(s, step, t)
    ensures t.submitted == s.submitted + if step.Submit? || step.SubmitBy? then [step.task] else []
  {}

  /** No lost wake-up: while a worker is left, a queued task has an awake worker or a notification
      coming. */
  lemma NoLostWakeup(s: State)
    requires Inv(s) && s.tasks != [] && !AllExited(s)
    ensures Attention(s) >= 1
  {
    CountNone(s.workers);
    var i :| 0 <= i < |s.workers| && !s.workers[i].Exited?;
    assert s.workers[i].Asleep? ==> AnyAsleep(s);
  }

  /** No task is handed over when every worker has returned. */
  ghost predicate Timely(states: seq<State>, steps: seq<Step>)
    requires |states| > |steps|
  {
    forall i :: 0 <= i < |steps| && AllExited(states[i]) ==> !steps[i].Submit?
  }

  lemma {:induction false} TimelyIff(states: seq<State>, steps: seq<Step>)
    requires |states| > |steps|
    ensures Timely(states, steps) <==> LateIn(states, steps) == []
    decreases |steps|
  {
    if steps != [] {
      var n := |steps| - 1;
      var ps := steps[..n];
      TimelyIff(states, ps);
      assert forall i :: 0 <= i < n ==> ps[i] == steps[i];
      if Timely(states, ps) && !(steps[n].Submit? && AllExited(states[n])) {
        assert forall i :: 0 <= i < n && AllExited(states[i]) ==> !ps[i].Submit?;
        assert Timely(states, steps);
      }
    }
  }

  /** In every run what has been taken is a prefix of what was submitted.  Once all workers have
      returned, only the late tasks are missing, so everything was taken exactly in the timely runs;
      and in those a queued task always has attention. */
  lemma EveryTaskOnce(states: seq<State>, steps: seq<Step>)
    requires IsRun(states, steps) && Init(states[0])
    ensures states[|steps|].taken <= SubmittedIn(steps)
    ensures AllExited(states[|steps|]) ==> states[|steps|].taken + LateIn(states, steps) == SubmittedIn(steps)
    ensures AllExited(states[|steps|]) ==> (states[|steps|].taken == SubmittedIn(steps) <==> Timely(states, steps))
    ensures Timely(states, steps) && states[|steps|].tasks != [] ==>
              Attention(states[|steps|]) >= 1 && !AllExited(states[|steps|])
  {
    RunInv(states, steps);
    TimelyIff(states, steps);
    var s := states[|steps|];
    if s.tasks != [] && !AllExited(s) { NoLostWakeup(s); }
    if AllExited(s) && s.taken == SubmittedIn(steps) { assert |s.taken + s.tasks| == |s.taken|; }
  }

  /** A late task is lost for good: in every run that goes on after it, it is never taken. */
  lemma {:induction false} LateTaskIsLost(states: seq<State>, steps: seq<Step>)
    requires IsRun(states, steps) && AllExited(states[0])
    ensures AllExited(states[|steps|]) && states[0].tasks <= states[|steps|].tasks
    ensures states[|steps|].taken == states[0].taken
    decreases |steps|
  {
    if steps != [] {
      var n := |steps| - 1;
      var ss, ps := states[..n + 1], steps[..n];
      RunPrefix(states, steps, ss, ps);
      LateTaskIsLost(ss, ps);
      StrandedStep(states[n], steps[n], states[n + 1]);
    }
  }

  /** The smallest such run with a worker: the stop, its return, and then a task. */
  lemma LateRun() returns (states: seq<State>, steps: seq<Step>)
    ensures IsRun(states, steps) && Init(states[0]) && |states[0].workers| == 1
    ensures steps == [Stop, Check(0), Submit(7)]
    ensures AllExited(states[3]) && states[3].tasks == [7] && states[3].taken == []
    ensures !Timely(states, steps)
  {
    var s0 := State([Checking], [], false, 0, false, [], []);
    var s1 := s0.(stop := true, owesAll := true);
    var s2 := s1.(workers := [Exited]);
    var s3 := s2.(tasks := [7], owed := 1, submitted := [7]);
    states, steps := [s0, s1, s2, s3], [Stop, Check(0), Submit(7)];
    assert s1.workers[0 := Exited] == [Exited];
    assert Next(s1, Check(0), s2);
    assert [] + [7] == [7];
    assert Next(s2, Submit(7), s3);
    assert AllExited(states[2]);
  }

  /** After the stop, while a worker is left, it is not too late. */
  lemma AfterStopRun() returns (states: seq<State>, steps: seq<Step>)
    ensures IsRun(states, steps) && Init(states[0]) && |states[0].workers| == 1
    ensures steps == [Stop, Submit(7), Check(0)] && states[3].taken == [7]
  {
    var s0 := State([Checking], [], false, 0, false, [], []);
    var s1 := s0.(stop := true, owesAll := true);
    var s2 := s1.(tasks := [7], owed := 1, submitted := [7]);
    var s3 := s2.(tasks := [], taken := [7], workers := [Running(7, false)]);
    states, steps := [s0, s1, s2, s3], [Stop, Submit(7), Check(0)];
    assert [] + [7] == [7] && [7][1..] == [];
    assert s2.workers[0 := Running(7, false)] == [Running(7, false)];
    assert Next(s1, Submit(7), s2) && Next(s2, Check(0), s3);
  }

  // ---------- tasks run to their end ----------

  /** A worker that looks at the queue runs its front task, leaves if there is none after the stop, and
      otherwise goes to sleep. */
  lemma CheckRuns(s: State, w: nat, t: State)
    requires Next(s, Check(w), t)
    ensures |t.workers| == |s.workers| && forall i :: 0 <= i < |s.workers| && i != w ==> t.workers[i] == s.workers[i]
    ensures s.tasks != [] ==> t.workers[w] == Running(s.tasks[0], false) && s.tasks == [s.tasks[0]] + t.tasks
    ensures s.tasks == [] && s.stop ==> t.workers[w] == Exited && t.tasks == []
    ensures s.tasks == [] && !s.stop ==> t.workers[w] == Asleep && t.tasks == []
  {}

  /** The tasks ended along a run, in order. */
  ghost function FinishedIn(states: seq<State>, steps: seq<Step>): seq<Task>
    requires |states| > |steps|
  {
    if steps == [] then []
    else
      var n := |steps| - 1;
      FinishedIn(states, steps[..n]) + Ended(states[n], steps[n])
  }

  /** The task that a step ends. */
  ghost function Ended(s: State, step: Step): seq<Task> {
    if step.Finish? && step.w < |s.workers| && s.workers[step.w].Running? then [s.workers[step.w].task] else []
  }

  predicate Runs(w: Worker, x: Task) { w.Running? && w.task == x }

  /** How many workers are running task `x`. */
  ghost function RunningIn(ws: seq<Worker>, x: Task): nat {
    if ws == [] then 0 else RunningIn(ws[..|ws| - 1], x) + One(Runs(ws[|ws| - 1], x))
  }

  lemma {:induction false} RunningSet(ws: seq<Worker>, i: nat, w: Worker, x: Task)
    requires i < |ws|
    ensures RunningIn(ws[i := w], x) + One(Runs(ws[i], x)) == RunningIn(ws, x) + One(Runs(w, x))
    decreases |ws|
  {
    var last := |ws| - 1;
    if i < last {
      RunningSet(ws[..last], i, w, x);
      assert ws[i := w][..last] == ws[..last][i := w];
    } else {
      assert ws[i := w][..last] == ws[..last];
    }
  }

  lemma {:induction false} RunningSame(ws: seq<Worker>, vs: seq<Worker>, x: Task)
    requires |vs| == |ws| && forall i :: 0 <= i < |ws| ==> Runs(vs[i], x) == Runs(ws[i], x)
    ensures RunningIn(vs, x) == RunningIn(ws, x)
  {
    if ws != [] { RunningSame(ws[..|ws| - 1], vs[..|vs| - 1], x); }
  }

  lemma {:induction false} RunningNone(ws: seq<Worker>, x: Task)
    requires forall i :: 0 <= i < |ws| ==> !ws[i].Running?
    ensures RunningIn(ws, x) == 0
  {
    if ws != [] { RunningNone(ws[..|ws| - 1], x); }
  }

  lemma WakesRunning(s: State, ws: seq<Worker>, wake: Option<nat>, x: Task)
    requires Wakes(s, ws, wake)
    ensures |ws| == |s.workers| && RunningIn(ws, x) == RunningIn(s.workers, x)
    ensures forall i :: 0 <= i < |ws| && s.workers[i].Running? ==> ws[i] == s.workers[i]
  {
    if wake.Some? { RunningSet(s.workers, wake.value, Checking, x); }
  }

  lemma NotifyRunning(s: State, caller: Option<nat>, wake: Option<nat>, t: State, x: Task)
    requires Next(s, Notify(caller, wake), t)
    ensures RunningIn(t.workers, x) == RunningIn(s.workers, x) && t.taken == s.taken
  {
    if caller.None? {
      var ws :| Wakes(s, ws, wake) && t == s.(owed := s.owed - 1, workers := ws);
      WakesRunning(s, ws, wake, x);
    } else {
      var v := s.workers[caller.value].(owes := false);
      var ws :| Wakes(s, ws, wake) && |ws| == |s.workers| && t == s.(workers := ws[caller.value := v]);
      WakesRunning(s, ws, wake, x);
      RunningSet(ws, caller.value, v, x);
    }
  }

  lemma CheckRunning(s: State, w: nat, t: State, x: Task)
    requires Next(s, Check(w), t)
    ensures RunningIn(t.workers, x) == RunningIn(s.workers, x) + One(s.tasks != [] && s.tasks[0] == x)
    ensures multiset(t.taken)[x] == multiset(s.taken)[x] + One(s.tasks != [] && s.tasks[0] == x)
  {
    CheckRuns(s, w, t);
    RunningSet(s.workers, w, t.workers[w], x);
    assert t.workers == s.workers[w := t.workers[w]];
  }

  /** What a step takes off the queue is run, and only the end of a task stops it from running. */
  lemma RunningStep(s: State, step: Step, t: State, x: Task)
    requires Next(s, step, t)
    ensures multiset(t.taken)[x] + RunningIn(s.workers, x)
         == multiset(s.taken)[x] + RunningIn(t.workers, x) + multiset(Ended(s, step))[x]
  {
    match step
    case Submit(task) =>
    case SubmitBy(w, task) => RunningSet(s.workers, w, s.workers[w].(owes := true), x);
    case Notify(caller, wake) => NotifyRunning(s, caller, wake, t, x);
    case Stop =>
    case NotifyAll => RunningSame(s.workers, t.workers, x);
    case Check(w) => CheckRunning(s, w, t, x);
    case Finish(w) => RunningSet(s.workers, w, Checking, x);
    case Spurious(w) => RunningSet(s.workers, w, Checking, x);
  }

  /** `x` was taken as often as it has ended and is running. */
  ghost predicate Accounted(s: State, finished: seq<Task>, x: Task) {
    multiset(s.taken)[x] == multiset(finished)[x] + RunningIn(s.workers, x)
  }

  lemma AccountedStep(s: State, step: Step, t: State, before: seq<Task>, after: seq<Task>, x: Task)
    requires Next(s, step, t) && Accounted(s, before, x) && after == before + Ended(s, step)
    ensures Accounted(t, after, x)
  {
    RunningStep(s, step, t, x);
  }

  lemma AccountedStart(s: State, x: Task)
    requires Init(s)
    ensures Accounted(s, [], x)
  {
    RunningNone(s.workers, x);
  }

  lemma {:induction false} FinishedNext(states: seq<State>, steps: seq<Step>, n: nat)
    requires |states| > |steps| > n
    ensures FinishedIn(states, steps[..n + 1]) == FinishedIn(states, steps[..n]) + Ended(states[n], steps[n])
  {
    assert steps[..n + 1][..n] == steps[..n];
  }

  lemma {:induction false} AccountedNext(states: seq<State>, steps: seq<Step>, n: nat, x: Task)
    requires IsRun(states, steps) && n < |steps| && Accounted(states[n], FinishedIn(states, steps[..n]), x)
    ensures Accounted(states[n + 1], FinishedIn(states, steps[..n + 1]), x)
  {
    var before, after := FinishedIn(states, steps[..n]), FinishedIn(states, steps[..n + 1]);
    FinishedNext(states, steps, n);
    AccountedStep(states[n], steps[n], states[n + 1], before, after, x);
  }

  lemma {:induction false} TakenRun(states: seq<State>, steps: seq<Step>, n: nat, x: Task)
    requires IsRun(states, steps) && Init(states[0]) && n <= |steps|
    ensures Accounted(states[n], FinishedIn(states, steps[..n]), x)
  {
    if n == 0 {
      AccountedStart(states[0], x);
    } else {
      TakenRun(states, steps, n - 1, x);
      AccountedNext(states, steps, n - 1, x);
    }
  }

  /** In every run the tasks taken are those that have ended and those still running; so once all
      workers have returned, every task taken has been run to its end, and in a timely run that is every
      task submitted. */
  lemma TasksRun(states: seq<State>, steps: seq<Step>)
    requires IsRun(states, steps) && Init(states[0])
    ensures forall x :: multiset(states[|steps|].taken)[x]
                     == multiset(FinishedIn(states, steps))[x] + RunningIn(states[|steps|].workers, x)
    ensures AllExited(states[|steps|]) ==> multiset(states[|steps|].taken) == multiset(FinishedIn(states, steps))
    ensures AllExited(states[|steps|]) && Timely(states, steps) ==>
              multiset(FinishedIn(states, steps)) == multiset(SubmittedIn(steps))
  {
    var t, f := states[|steps|], FinishedIn(states, steps);
    forall x ensures multiset(t.taken)[x] == multiset(f)[x] + RunningIn(t.workers, x) {
      assert steps[..|steps|] == steps;
      TakenRun(states, steps, |steps|, x);
    }
    if AllExited(t) {
      forall x ensures multiset(t.taken)[x] == multiset(f)[x] { RunningNone(t.workers, x); }
    }
    EveryTaskOnce(states, steps);
  }

  // ---------- progress ----------

  /** Steps the pool owes by itself. */
  ghost predicate Internal(step: Step) { step.Notify? || step.NotifyAll? || step.Check? || step.Finish? }

  /** After the stop nobody goes to sleep again, so waking up is progress too. */
  function Load(w: Worker, stop: bool): nat {
    match w
    case Checking => 1
    case Asleep => if stop then 2 else 0
    case Running(_, owes) => if owes then 4 else 2
    case Exited => 0
  }

  ghost function LoadIn(ws: seq<Worker>, stop: bool): nat {
    if ws == [] then 0 else LoadIn(ws[..|ws| - 1], stop) + Load(ws[|ws| - 1], stop)
  }

  /** How many steps can still happen before the pool is idle. */
  ghost function Budget(s: State): nat {
    2 * |s.tasks| + 2 * s.owed + LoadIn(s.workers, s.stop) + if s.owesAll then |s.workers| + 1 else 0
  }

  lemma {:induction false} LoadSet(ws: seq<Worker>, i: nat, w: Worker, stop: bool)
    requires i < |ws|
    ensures LoadIn(ws[i := w], stop) + Load(ws[i], stop) == LoadIn(ws, stop) + Load(w, stop)
    decreases |ws|
  {
    var last := |ws| - 1;
    if i < last {
      LoadSet(ws[..last], i, w, stop);
      assert ws[i := w][..last] == ws[..last][i := w];
    } else {
      assert ws[i := w][..last] == ws[..last];
    }
  }

  lemma {:induction false} LoadWoken(ws: seq<Worker>, vs: seq<Worker>, stop: bool)
    requires |vs| == |ws| && forall i :: 0 <= i < |ws| ==> vs[i] == Woken(ws[i])
    ensures LoadIn(vs, stop) <= LoadIn(ws, stop) + |ws|
  {
    if ws != [] { LoadWoken(ws[..|ws| - 1], vs[..|vs| - 1], stop); }
  }

  lemma WakesLoad(s: State, wake: Option<nat>, ws: seq<Worker>)
    requires Wakes(s, ws, wake)
    ensures |ws| == |s.workers| && LoadIn(ws, s.stop) <= LoadIn(s.workers, s.stop) + 1
    ensures forall i :: 0 <= i < |ws| && s.workers[i].Running? ==> ws[i] == s.workers[i]
  {
    if wake.Some? { LoadSet(s.workers, wake.value, Checking, s.stop); }
  }

  lemma NotifySpends(s: State, caller: Option<nat>, wake: Option<nat>, t: State)
    requires Next(s, Notify(caller, wake), t)
    ensures Budget(t) < Budget(s)
  {
    if caller.None? {
      var ws :| Wakes(s, ws, wake) && t == s.(owed := s.owed - 1, workers := ws);
      WakesLoad(s, wake, ws);
    } else {
      var x := s.workers[caller.value].(owes := false);
      var ws :| Wakes(s, ws, wake) && |ws| == |s.workers| && t == s.(workers := ws[caller.value := x]);
      WakesLoad(s, wake, ws);
      LoadSet(ws, caller.value, x, s.stop);
    }
  }

  lemma CheckSpends(s: State, w: nat, t: State)
    requires Next(s, Check(w), t)
    ensures Budget(t) < Budget(s)
  {
    LoadSet(s.workers, w, Outcome(s.tasks, s.stop), s.stop);
  }

  /** Every internal step uses up budget, and so does a spurious wake-up after the stop. */
  lemma InternalSpends(s: State, step: Step, t: State)
    requires Next(s, step, t) && (Internal(step) || (step.Spurious? && s.stop))
    ensures Budget(t) < Budget(s)
  {
    match step
    case Notify(caller, wake) => NotifySpends(s, caller, wake, t);
    case NotifyAll => LoadWoken(s.workers, t.workers, s.stop);
    case Check(w) => CheckSpends(s, w, t);
    case Finish(w) => LoadSet(s.workers, w, Checking, s.stop);
    case Spurious(w) => LoadSet(s.workers, w, Checking, s.stop);
  }

  /** Nothing is left for the pool to do by itself. */
  ghost predicate Idle(s: State) {
    s.owed == 0 && !s.owesAll && forall i :: 0 <= i < |s.workers| ==> s.workers[i].Asleep? || s.workers[i].Exited?
  }

  /** A pool that is not idle can move. */
  lemma CanMove(s: State) returns (step: Step, t: State)
    requires !Idle(s)
    ensures Internal(step) && Next(s, step, t)
  {
    if s.owed > 0 {
      var wake, ws := SomeWake(s);
      step, t := Notify(None, wake), s.(owed := s.owed - 1, workers := ws);
      assert Wakes(s, ws, wake) && t == s.(owed := s.owed - 1, workers := ws);
    } else if s.owesAll {
      step, t := NotifyAll,
          s.(owesAll := false, workers := seq(|s.workers|, i requires 0 <= i < |s.workers| => Woken(s.workers[i])));
    } else {
      var w: nat :| w < |s.workers| && !(s.workers[w].Asleep? || s.workers[w].Exited?);
      step, t := WorkerMove(s, w);
    }
  }

  lemma WorkerMove(s: State, w: nat) returns (step: Step, t: State)
    requires w < |s.workers| && Awake(s.workers[w])
    ensures Internal(step) && Next(s, step, t)
  {
    if s.workers[w].Checking? {
      step := Check(w);
      t := s.(workers := s.workers[w := Outcome(s.tasks, s.stop)],
              tasks := if s.tasks == [] then [] else s.tasks[1..],
              taken := if s.tasks == [] then s.taken else s.taken + [s.tasks[0]]);
    } else if s.workers[w].owes {
      var wake, ws := SomeWake(s);
      step, t := Notify(Some(w), wake), s.(workers := ws[w := s.workers[w].(owes := false)]);
      assert Wakes(s, ws, wake) && |ws| == |s.workers| && t == s.(workers := ws[w := s.workers[w].(owes := false)]);
    } else {
      step, t := Finish(w), s.(workers := s.workers[w := Checking]);
    }
  }

  lemma SomeWake(s: State) returns (wake: Option<nat>, ws: seq<Worker>)
    ensures Wakes(s, ws, wake) && |ws| == |s.workers|
  {
    wake, ws := None, s.workers;
    if AnyAsleep(s) {
      var i :| 0 <= i < |s.workers| && s.workers[i].Asleep?;
      wake, ws := Some(i), s.workers[i := Checking];
    }
  }

  /** An idle pool has taken every task but the stranded ones; a stopped idle pool has let every
      worker go. */
  lemma IdleIsDone(s: State)
    requires Inv(s) && Idle(s)
    ensures s.tasks == Stranded(s) && s.taken + Stranded(s) == s.submitted
    ensures s.stop ==> AllExited(s)
  {
    CountNone(s.workers);
    NobodyOwes(s.workers);
    if s.tasks != [] && !AllExited(s) { NoLostWakeup(s); }
  }

  lemma {:induction false} NobodyOwes(ws: seq<Worker>)
    requires forall i :: 0 <= i < |ws| ==> !Owes(ws[i])
    ensures OwedIn(ws) == 0
  {
    if ws != [] { NobodyOwes(ws[..|ws| - 1]); }
  }

  /** Shutdown ends: from any reachable stopped state, a run without new submissions is no longer than
      the budget, spurious wake-ups included, and when the pool is idle every worker has returned and
      every task was taken but those already stranded. */
  lemma {:induction false} ShutdownEnds(states: seq<State>, steps: seq<Step>)
    requires IsRun(states, steps) && Inv(states[0]) && states[0].stop
    requires forall i :: 0 <= i < |steps| ==> !steps[i].Submit? && !steps[i].SubmitBy?
    ensures |steps| + Budget(states[|steps|]) <= Budget(states[0])
    ensures Inv(states[|steps|]) && states[|steps|].stop && states[|steps|].submitted == states[0].submitted
    ensures Stranded(states[|steps|]) == Stranded(states[0])
    ensures Idle(states[|steps|]) ==>
              AllExited(states[|steps|]) && states[|steps|].taken + Stranded(states[0]) == states[0].submitted
    decreases |steps|
  {
    if steps != [] {
      var n := |steps| - 1;
      var ss, ps := states[..n + 1], steps[..n];
      RunPrefix(states, steps, ss, ps);
      ShutdownEnds(ss, ps);
      var s, t := states[n], states[n + 1];
      StepInv(s, steps[n], t);
      InternalSpends(s, steps[n], t);
      SubmittedStep(s, steps[n], t);
      StrandedStep(s, steps[n], t);
    }
    if Idle(states[|steps|]) { IdleIsDone(states[|steps|]); }
  }

  // ---------- the object ----------

  class Pool {
    var tasks: seq<Task>
    var stop: bool

    /** The queue and the flag are those of the abstract state. */
    ghost predicate Represents(s: State)
      reads this
    {
      tasks == s.tasks && stop == s.stop
    }

    constructor ()
      ensures forall s :: Init(s) ==> Represents(s)
    {
      tasks, stop := [], false;
    }

    /** The critical section of `Run`, called from outside or by worker `caller` inside a task. */
    method Push(task: Task, ghost caller: Option<nat>, ghost s: State) returns (ghost t: State)
      requires Represents(s)
      requires caller.Some? ==>
                caller.value < |s.workers| && s.workers[caller.value].Running? && !s.workers[caller.value].owes
      modifies this`tasks
      ensures Represents(t) && Next(s, if caller.None? then Submit(task) else SubmitBy(caller.value, task), t)
    {
      tasks := tasks + [task];
      t := s.(tasks := tasks, submitted := s.submitted + [task]);
      t := if caller.None? then t.(owed := s.owed + 1)
          else t.(workers := s.workers[caller.value := s.workers[caller.value].(owes := true)]);
    }

    /** One pass of the critical section of `Loop`: wait again, return, or take the front task. */
    method TryTake(ghost w: nat, ghost s: State) returns (r: Worker, ghost t: State)
      requires Represents(s) && w < |s.workers| && s.workers[w].Checking?
      modifies this`tasks
      ensures Represents(t) && Next(s, Check(w), t) && r == t.workers[w]
      ensures s.tasks != [] ==>
          r == Running(s.tasks[0], false) && t.tasks == s.tasks[1..] && t.taken == s.taken + [s.tasks[0]]
      ensures s.tasks == [] ==> t.tasks == [] && t.taken == s.taken
      ensures r.Asleep? <==> !s.stop && s.tasks == []
      ensures r.Exited? <==> s.stop && s.tasks == []
    {
      t := s.(workers := s.workers[w := Outcome(s.tasks, s.stop)],
              tasks := if s.tasks == [] then [] else s.tasks[1..],
              taken := if s.tasks == [] then s.taken else s.taken + [s.tasks[0]]);
      if !(stop || tasks != []) {
        return Asleep, t;
      }
      if stop && tasks == [] {
        return Exited, t;
      }
      r := Running(tasks[0], false);
      tasks := tasks[1..];
    }

    /** The critical section of the destructor. */
    method BeginStop(ghost s: State) returns (ghost t: State)
      requires Represents(s) && !s.stop
      modifies this`stop
      ensures Represents(t) && Next(s, Stop, t)
    {
      stop := true;
      t := s.(stop := true, owesAll := true);
    }
  }
}
