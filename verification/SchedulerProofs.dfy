/** What every reachable state and every run of the scheduler satisfies. */
module SchedulerProofs {
  import opened Words
  import opened Wrappers
  import opened SchedulerModel

  // ---------------------------------------------------------------- the invariant

  /** Every release is registered + a whole number of periods; an armed timer waits for the deadline. */
  ghost predicate OnSchedule(s: State, t: Task) {
    && t.deadline == t.registered + (t.callbacks + 1) * s.toJiffies(t.period)
    && t.deadline <= s.now + s.toJiffies(t.period)
    && (t.timer.Some? ==> t.deadline <= t.timer.value && (t.timer.value == t.deadline || t.timer.value <= s.now))
  }

  /** A task has been released since it last slept, or else it still waits for its deadline. */
  ghost predicate Released(s: State, t: Task) {
    if t.fired then t.wakeAt <= s.now else t.wakeAt == t.deadline
  }

  ghost predicate TaskInv(s: State, h: nat)
    requires WF(s) && h < |s.tasks|
  {
    var t := s.tasks[h];
    && (t.state == RUNNING ==> s.curr == Some(h))
    && (t.state == READY && !t.fired ==> s.curr.Some? && CurrPeriod(s) < t.period)
    && (t.timer.Some? ==> h in s.list)
    && (h in s.list && t.yieldCount > 0 ==> t.timer.Some?)
    && OnSchedule(s, t)
    && Released(s, t)
  }

  ghost predicate Inv(s: State) {
    WF(s) && forall h | 0 <= h < |s.tasks| :: TaskInv(s, h)
  }

  lemma OnePeriodMore(k: nat, p: nat)
    ensures (k + 1) * p == k * p + p
  {
  }

  lemma InsertKeepsInv(s: State, r: Request, ok: bool)
    requires Inv(s)
    ensures Inv(InsertStep(s, r, ok))
  {
    var s' := InsertStep(s, r, ok);
    forall h | 0 <= h < |s'.tasks| ensures TaskInv(s', h) {
      if h < |s.tasks| {
        assert TaskInv(s, h);
      }
    }
  }

  lemma YieldKeepsInv(s: State, pid: nat)
    requires Inv(s)
    ensures Inv(YieldStep(s, pid))
  {
    var s' := YieldStep(s, pid);
    forall h | 0 <= h < |s'.tasks| ensures TaskInv(s', h) {
      assert TaskInv(s, h);
    }
  }

  lemma FiredTaskInv(s: State, h: nat)
    requires Inv(s) && Expired(s, h)
    ensures TaskInv(FireStep(s, h), h)
  {
    assert TaskInv(s, h);
    OnePeriodMore(s.tasks[h].callbacks + 1, s.toJiffies(s.tasks[h].period));
  }

  lemma FireKeepsInv(s: State, h: nat)
    requires Inv(s)
    ensures Inv(FireStep(s, h))
  {
    if Expired(s, h) {
      var s' := FireStep(s, h);
      forall k | 0 <= k < |s'.tasks| ensures TaskInv(s', k) {
        if k == h {
          FiredTaskInv(s, h);
        } else {
          assert TaskInv(s, k);
        }
      }
    }
  }

  /** A switch goes to a listed READY task whose period is strictly shorter than the current one's. */
  lemma SwitchTarget(s: State)
    requires WF(s) && SwitchTo(s).Some?
    ensures var h := SwitchTo(s).value;
      && h in s.list
      && h < |s.tasks|
      && s.tasks[h].state == READY
      && s.tasks[h].period < CurrPeriod(s)
      && DispatchStep(s).curr == Some(h)
      && CurrPeriod(DispatchStep(s)) == s.tasks[h].period
  {
    ScanIsCurrOrListed(s, |s.list|);
  }

  lemma DispatchKeepsInv(s: State)
    requires Inv(s)
    ensures Inv(DispatchStep(s))
  {
    if SwitchTo(s).Some? {
      SwitchTarget(s);
      var s' := DispatchStep(s);
      forall h | 0 <= h < |s'.tasks| ensures TaskInv(s', h) {
        assert TaskInv(s, h);
      }
    }
  }

  lemma DeregisterKeepsInv(s: State, pid: nat)
    requires Inv(s)
    ensures Inv(DeregisterStep(s, pid))
  {
    var s' := DeregisterStep(s, pid);
    var i := FirstWithPid(s, pid);
    forall h | 0 <= h < |s'.tasks| ensures TaskInv(s', h) {
      assert TaskInv(s, h);
      if i < |s.list| && h in s.list && h != s.list[i] {
        var j :| 0 <= j < |s.list| && s.list[j] == h;
        assert j != i && s'.list[if j < i then j else j - 1] == h;
      }
    }
  }

  lemma NextKeepsInv(s: State, e: Event)
    requires Inv(s)
    ensures Inv(Next(s, e))
  {
    match e
    case Insert(r, gotMemory, found) => InsertKeepsInv(s, r, gotMemory && found);
    case Yield(pid) => YieldKeepsInv(s, pid);
    case Fire(h) => FireKeepsInv(s, h);
    case Dispatch => DispatchKeepsInv(s);
    case Deregister(pid) => DeregisterKeepsInv(s, pid);
    case _ =>
      var s' := Next(s, e);
      forall h | 0 <= h < |s'.tasks| ensures TaskInv(s', h) {
        assert TaskInv(s, h);
      }
  }

  lemma {:induction false} RunKeepsInv(s: State, es: seq<Event>)
    requires Inv(s)
    ensures Inv(Run(s, es))
  {
    if es == [] {
    } else {
      RunKeepsInv(s, es[..|es| - 1]);
      NextKeepsInv(Run(s, es[..|es| - 1]), es[|es| - 1]);
    }
  }

  // ---------------------------------------------------------------- reachable states

  ghost predicate LeadsTo(es: seq<Event>, s: State) {
    s == Run(Init(s.toJiffies), es)
  }

  ghost predicate Reachable(s: State) {
    exists es: seq<Event> :: LeadsTo(es, s)
  }

  lemma ReachableInv(s: State)
    requires Reachable(s)
    ensures Inv(s)
  {
    var es: seq<Event> :| LeadsTo(es, s);
    RunKeepsInv(Init(s.toJiffies), es);
  }

  /** Listed pids are distinct, at most one listed task is RUNNING, and it is mp2_curr_task. */
  lemma OneRunningTask(s: State)
    requires Reachable(s)
    ensures forall i, j | 0 <= i < j < |s.list| ::
              s.list[j] < |s.tasks| && s.list[i] < |s.tasks| && s.tasks[s.list[i]].pid != s.tasks[s.list[j]].pid
    ensures forall h | 0 <= h < |s.tasks| && s.tasks[h].state == RUNNING :: s.curr == Some(h)
  {
    ReachableInv(s);
    forall h | 0 <= h < |s.tasks| && s.tasks[h].state == RUNNING ensures s.curr == Some(h) {
      assert TaskInv(s, h);
    }
  }

  /**
   Release discipline: whatever task a dispatcher pass makes RUNNING, its timer has fired since it
   last went to SLEEPING, and the deadline it was sleeping for has passed.
   */
  lemma NoJobBeforeItsRelease(s: State)
    requires Reachable(s) && WF(s) && SwitchTo(s).Some?
    ensures var h := SwitchTo(s).value;
      && h < |s.tasks|
      && s.tasks[h].fired
      && s.tasks[h].wakeAt <= s.now
      && DispatchStep(s).tasks[h].state == RUNNING
  {
    ReachableInv(s);
    SwitchTarget(s);
    assert TaskInv(s, SwitchTo(s).value);
  }

  /**
   Drift-free release: with r the registration time, p the period in jiffies and k the number of timer
   callbacks so far, the deadline is r + (k + 1) * p and k * p never exceeds now - r.
   */
  lemma DriftFree(s: State, h: nat)
    requires Reachable(s) && h < |s.tasks|
    ensures var t := s.tasks[h];
      var p := s.toJiffies(t.period);
      && t.deadline == t.registered + (t.callbacks + 1) * p
      && t.deadline <= s.now + p
      && t.callbacks * p <= s.now - t.registered
      && (t.timer.Some? ==> t.deadline <= t.timer.value)
      && (Expired(s, h) ==> t.deadline <= s.now)
  {
    ReachableInv(s);
    assert TaskInv(s, h);
    var t := s.tasks[h];
    var p := s.toJiffies(t.period);
    OnePeriodMore(t.callbacks, p);
  }

  /** Once a listed task has yielded, its timer stays armed, and it is due at the deadline or due already. */
  lemma TimerStaysArmed(s: State, h: nat)
    requires Reachable(s) && h < |s.tasks| && h in s.list && s.tasks[h].yieldCount > 0
    ensures var t := s.tasks[h];
      && t.timer.Some?
      && t.deadline <= t.timer.value
      && (t.timer.value == t.deadline || Expired(s, h))
  {
    ReachableInv(s);
    assert TaskInv(s, h);
  }

  // ---------------------------------------------------------------- registration and deregistration

  lemma NoneLeft(s: State, pid: nat)
    requires WF(s)
    ensures FirstWithPid(DeregisterStep(s, pid), pid) == |DeregisterStep(s, pid).list|
  {
    var s', i := DeregisterStep(s, pid), FirstWithPid(s, pid);
    forall j | 0 <= j < |s'.list|
      ensures s'.tasks[s'.list[j]].pid != pid
    {
      assert i < |s.list| ==> s'.list[j] == s.list[if j < i then j else j + 1];
    }
  }

  /** Deregistering takes whatever has the pid off the list, and nothing else. */
  lemma DeregisteredIsGone(s: State, pid: nat)
    requires WF(s)
    ensures var s' := Next(s, Deregister(pid));
      && FirstWithPid(s', pid) == |s'.list|
      && (forall h | h in s.list :: h in s'.list || (h < |s.tasks| && s.tasks[h].pid == pid))
      && (forall h | h in s'.list :: h in s.list)
  {
    var s', i := Next(s, Deregister(pid)), FirstWithPid(s, pid);
    NoneLeft(s, pid);
    if i < |s.list| {
      forall h | h in s.list && h != s.list[i]
        ensures h in s'.list
      {
        var j :| 0 <= j < |s.list| && s.list[j] == h;
        assert s'.list[if j < i then j else j - 1] == h;
      }
    }
  }

  /** Registering a new pid and deregistering it at once leaves the list as it was. */
  lemma DeregisterUndoesInsert(s: State, r: Request)
    requires WF(s) && r in s.pending && FirstWithPid(s, r.pid) == |s.list|
    ensures Next(Next(s, Insert(r, true, true)), Deregister(r.pid)).list == s.list
  {
    var s' := Next(s, Insert(r, true, true));
    assert s'.tasks[s'.list[|s.list|]].pid == r.pid;
    assert FirstWithPid(s', r.pid) == |s.list|;
  }

  // ---------------------------------------------------------------- the dispatcher pass

  /** No listed READY task has a shorter period than the current one after a pass. */
  lemma PassLeavesLeastPeriod(s: State, i: nat)
    requires WF(s) && i < |s.list|
    ensures var s' := Next(s, Dispatch);
      s'.tasks[s.list[i]].state == READY ==> CurrPeriod(s') <= s'.tasks[s.list[i]].period
  {
    ScanIsCurrOrListed(s, |s.list|);
  }

  /**
   A pass switches exactly when some listed READY task has a strictly shorter period than the current
   task; so ties keep the current task. The new task is the earliest listed one of least period.
   */
  lemma PassSwitchesIff(s: State)
    requires WF(s)
    ensures SwitchTo(s).Some? <==>
              exists i | 0 <= i < |s.list| ::
                s.tasks[s.list[i]].state == READY && s.tasks[s.list[i]].period < CurrPeriod(s)
    ensures SwitchTo(s).Some? ==>
              exists i | 0 <= i < |s.list| ::
                && SwitchTo(s) == Some(s.list[i])
                && (forall j | 0 <= j < |s.list| && s.tasks[s.list[j]].state == READY ::
                      s.tasks[s.list[i]].period <= s.tasks[s.list[j]].period)
                && (forall j | 0 <= j < i && s.tasks[s.list[j]].state == READY ::
                      s.tasks[s.list[i]].period < s.tasks[s.list[j]].period)
  {
    ScanIsCurrOrListed(s, |s.list|);
  }

  lemma SecondPassIsIdle(s: State)
    requires WF(s)
    ensures Next(Next(s, Dispatch), Dispatch) == Next(s, Dispatch)
  {
    var s' := Next(s, Dispatch);
    forall i | 0 <= i < |s'.list| && s'.tasks[s'.list[i]].state == READY
      ensures CurrPeriod(s') <= s'.tasks[s'.list[i]].period
    {
      PassLeavesLeastPeriod(s, i);
    }
    PassSwitchesIff(s');
  }

  // ---------------------------------------------------------------- released jobs left waiting

  /** The listed task has been released and waits to be made RUNNING. */
  ghost predicate ReadyAt(s: State, i: int)
    requires WF(s)
  {
    0 <= i < |s.list| && s.tasks[s.list[i]].state == READY
  }

  ghost predicate NoneRunning(s: State)
    requires WF(s)
  {
    forall i | 0 <= i < |s.list| :: s.tasks[s.list[i]].state != RUNNING
  }

  /** A released job waits, nothing that is listed is RUNNING, and the pass still does not switch. */
  ghost predicate LeftIdle(s: State)
    requires WF(s)
  {
    (exists i :: ReadyAt(s, i)) && NoneRunning(s) && SwitchTo(s) == None
  }

  /** mp2_curr_task, if there is one, is off the list or is not RUNNING. */
  ghost predicate CurrentIsStale(s: State)
    requires WF(s)
  {
    s.curr.Some? ==> s.curr.value !in s.list || s.tasks[s.curr.value].state != RUNNING
  }

  lemma NoneRunningIff(s: State)
    requires Reachable(s) && WF(s)
    ensures NoneRunning(s) <==> CurrentIsStale(s)
  {
    OneRunningTask(s);
    if s.curr.Some? && s.curr.value in s.list {
      var i :| 0 <= i < |s.list| && s.list[i] == s.curr.value;
      assert s.tasks[s.list[i]] == s.tasks[s.curr.value];
    }
  }

  lemma NoSwitchIff(s: State)
    requires WF(s)
    ensures SwitchTo(s) == None <==> forall i | ReadyAt(s, i) :: CurrPeriod(s) <= s.tasks[s.list[i]].period
  {
    PassSwitchesIff(s);
    if SwitchTo(s).Some? {
      var i :| 0 <= i < |s.list| && s.tasks[s.list[i]].state == READY && s.tasks[s.list[i]].period < CurrPeriod(s);
      assert ReadyAt(s, i);
    }
  }

  /** A pass leaves released jobs waiting exactly when the period of a stale current task is no longer than theirs. */
  lemma LeftIdleIff(s: State)
    requires Reachable(s) && WF(s)
    ensures LeftIdle(s)
            <==> && (exists i :: ReadyAt(s, i))
                 && CurrentIsStale(s)
                 && (forall i | ReadyAt(s, i) :: CurrPeriod(s) <= s.tasks[s.list[i]].period)
  {
    NoneRunningIff(s);
    NoSwitchIff(s);
  }

  // ---------------------------------------------------------------- switches over a whole run

  /** No period has changed, and the current one has not become longer. */
  ghost predicate PeriodsKept(s: State, s': State)
    requires WF(s) && WF(s')
  {
    && |s.tasks| <= |s'.tasks|
    && (forall h | 0 <= h < |s.tasks| :: s'.tasks[h].period == s.tasks[h].period)
    && CurrPeriod(s') <= CurrPeriod(s)
    && (s.curr.Some? ==> s'.curr.Some?)
  }

  lemma DispatchKeepsPeriods(s: State)
    requires WF(s)
    ensures PeriodsKept(s, DispatchStep(s))
  {
    if SwitchTo(s).Some? {
      SwitchTarget(s);
    }
  }

  lemma ListStepsKeepPeriods(s: State, r: Request, ok: bool, pid: nat)
    requires WF(s)
    ensures PeriodsKept(s, InsertStep(s, r, ok))
    ensures PeriodsKept(s, DeregisterStep(s, pid))
  {
  }

  lemma TimerStepsKeepPeriods(s: State, pid: nat, h: nat)
    requires WF(s)
    ensures PeriodsKept(s, YieldStep(s, pid))
    ensures PeriodsKept(s, FireStep(s, h))
  {
  }

  lemma NextKeepsPeriods(s: State, e: Event)
    requires WF(s)
    ensures PeriodsKept(s, Next(s, e))
  {
    match e
    case Dispatch => DispatchKeepsPeriods(s);
    case Fire(h) => TimerStepsKeepPeriods(s, 0, h);
    case Insert(r, gotMemory, found) => ListStepsKeepPeriods(s, r, gotMemory && found, 0);
    case Yield(pid) => TimerStepsKeepPeriods(s, pid, 0);
    case Deregister(pid) => ListStepsKeepPeriods(s, Request(0, 0, 0), false, pid);
    case Admit(_) =>
    case Tick(_) =>
  }

  lemma {:induction false} RunKeepsPeriods(s: State, es: seq<Event>, i: nat, j: nat)
    requires WF(s) && i <= j <= |es|
    ensures PeriodsKept(At(s, es, i), At(s, es, j))
    decreases j
  {
    if i == j {
    } else {
      RunKeepsPeriods(s, es, i, j - 1);
      assert es[..j][..j - 1] == es[..j - 1];
      NextKeepsPeriods(At(s, es, j - 1), es[j - 1]);
    }
  }

  /**
   Over a whole run the periods of the tasks switched to decrease strictly, because yielding and
   deregistering never clear mp2_curr_task. So every task is made RUNNING at most once in a run, whatever
   README.md of the scheduler says about a context switch for each job.
   */
  lemma SwitchPeriodsDecrease(s: State, es: seq<Event>, i: nat, j: nat)
    requires WF(s) && i < j < |es| && es[i] == Dispatch && es[j] == Dispatch
    requires SwitchTo(At(s, es, i)).Some? && SwitchTo(At(s, es, j)).Some?
    ensures var a, b := SwitchTo(At(s, es, i)).value, SwitchTo(At(s, es, j)).value;
      && a < |At(s, es, j).tasks| && b < |At(s, es, j).tasks|
      && At(s, es, j).tasks[b].period < At(s, es, j).tasks[a].period
      && a != b
  {
    SwitchTarget(At(s, es, i));
    SwitchTarget(At(s, es, j));
    assert es[..i + 1][..i] == es[..i];
    RunKeepsPeriods(s, es, i + 1, j);
  }

  /** Hence a task that is not of shorter period than one that has run is never dispatched afterwards. */
  lemma NeverDispatchedAgain(s: State, es: seq<Event>, i: nat, h: nat)
    requires WF(s) && i < |es| && es[i] == Dispatch && SwitchTo(At(s, es, i)).Some?
    requires h < |At(s, es, i).tasks|
    requires SwitchTo(At(s, es, i)).value < |At(s, es, i).tasks|
    requires At(s, es, i).tasks[SwitchTo(At(s, es, i)).value].period <= At(s, es, i).tasks[h].period
    ensures forall j | i < j < |es| && es[j] == Dispatch :: SwitchTo(At(s, es, j)) != Some(h)
  {
    forall j | i < j < |es| && es[j] == Dispatch ensures SwitchTo(At(s, es, j)) != Some(h) {
      if SwitchTo(At(s, es, j)).Some? {
        SwitchPeriodsDecrease(s, es, i, j);
        RunKeepsPeriods(s, es, i, j);
      }
    }
  }

  /** Nor is a job that a pass has left idle, whatever happens afterwards. */
  lemma LeftIdleForever(s: State, i: nat, es: seq<Event>)
    requires WF(s) && LeftIdle(s) && ReadyAt(s, i)
    ensures SwitchTo(Run(s, es)) != Some(s.list[i])
  {
    NoSwitchIff(s);
    assert es[..0] == [] && es[..|es|] == es;
    RunKeepsPeriods(s, es, 0, |es|);
    if SwitchTo(Run(s, es)).Some? {
      SwitchTarget(Run(s, es));
    }
  }

  // ---------------------------------------------------------------- tasks demoted in their sleep

  /** The pass makes task h READY although it sleeps. */
  ghost predicate WakesSleeper(s: State, h: nat)
    requires WF(s)
  {
    h < |s.tasks| && s.tasks[h].state == SLEEPING && DispatchStep(s).tasks[h].state == READY
  }

  /** A pass makes a sleeping task READY exactly when it switches away from a current task that sleeps. */
  lemma WakesSleeperIff(s: State, h: nat)
    requires WF(s)
    ensures WakesSleeper(s, h) <==>
              s.curr == Some(h) && s.tasks[h].state == SLEEPING && SwitchTo(s).Some?
  {
    if SwitchTo(s).Some? {
      SwitchTarget(s);
    }
  }

  /** It does no harm, only because such a task is never dispatched again. */
  lemma WokenSleeperNeverRuns(s: State, es: seq<Event>, i: nat, h: nat)
    requires WF(s) && i < |es| && es[i] == Dispatch && WakesSleeper(At(s, es, i), h)
    ensures forall j | i < j < |es| && es[j] == Dispatch :: SwitchTo(At(s, es, j)) != Some(h)
  {
    WakesSleeperIff(At(s, es, i), h);
    SwitchTarget(At(s, es, i));
    NeverDispatchedAgain(s, es, i, h);
  }

  lemma RunSnoc(s: State, es: seq<Event>, e: Event)
    requires WF(s)
    ensures Run(s, es + [e]) == Next(Run(s, es), e)
  {
    assert (es + [e])[..|es|] == es;
  }

  lemma NextKeepsConversion(s: State, e: Event)
    requires WF(s)
    ensures Next(s, e).toJiffies == s.toJiffies
  {
  }

  lemma StepReachable(s: State, e: Event)
    requires WF(s) && Reachable(s)
    ensures Reachable(Next(s, e))
  {
    var es: seq<Event> :| LeadsTo(es, s);
    RunSnoc(Init(s.toJiffies), es, e);
    NextKeepsConversion(s, e);
    assert LeadsTo(es + [e], Next(s, e));
  }

  lemma LastIsFirst(s: State)
    requires WF(s) && s.list != []
    ensures FirstWithPid(s, s.tasks[s.list[|s.list| - 1]].pid) == |s.list| - 1
  {
  }

  lemma SetTwice(ts: seq<Task>, h: nat, t: Task, t': Task)
    requires h < |ts|
    ensures ts[h := t][h := t'] == ts[h := t']
  {
  }

  lemma SetLast(ts: seq<Task>, t: Task, t': Task)
    ensures (ts + [t])[|ts| := t'] == ts + [t']
  {
  }

  lemma Admitting(s: State, r: Request) returns (s': State)
    requires WF(s) && Reachable(s) && Admission(s, r) == Admitted
    ensures WF(s') && Reachable(s') && s' == s.(pending := s.pending + multiset{r})
  {
    s' := Next(s, Admit(r));
    StepReachable(s, Admit(r));
  }

  lemma Inserting(s: State, r: Request) returns (s': State)
    requires WF(s) && Reachable(s) && r in s.pending && FirstWithPid(s, r.pid) == |s.list|
    ensures WF(s') && Reachable(s')
    ensures s' == s.(pending := s.pending - multiset{r}, tasks := s.tasks + [NewTask(s, r)],
                     list := s.list + [|s.tasks|])
  {
    var s1 := s.(pending := s.pending - multiset{r});
    assert FirstWithPid(s1, r.pid) == |s1.list|;
    assert NewTask(s1, r) == NewTask(s, r);
    s' := Append(s1, r);
    assert s' == InsertStep(s, r, true);
    StepReachable(s, Insert(r, true, true));
  }

  /** A task that yields before its deadline. */
  ghost function Asleep(t: Task): Task {
    t.(state := SLEEPING, timer := Some(t.deadline), fired := false, wakeAt := t.deadline,
       yieldCount := t.yieldCount + 1)
  }

  /** A task whose timer fires; p is its period in jiffies. */
  ghost function Awake(t: Task, p: nat): Task {
    t.(state := READY, deadline := t.deadline + p, timer := Some(t.deadline + p), callbacks := t.callbacks + 1,
       fired := true)
  }

  ghost predicate IsLast(s: State, h: nat) {
    s.list != [] && s.list[|s.list| - 1] == h < |s.tasks|
  }

  lemma YieldLast(s: State, h: nat)
    requires WF(s) && IsLast(s, h) && s.tasks[h].deadline > s.now
    ensures YieldStep(s, s.tasks[h].pid) == s.(tasks := s.tasks[h := Asleep(s.tasks[h])])
  {
    LastIsFirst(s);
  }

  lemma Yielding(s: State, h: nat) returns (s': State)
    requires WF(s) && Reachable(s) && IsLast(s, h) && s.tasks[h].deadline > s.now
    ensures WF(s') && Reachable(s') && s' == s.(tasks := s.tasks[h := Asleep(s.tasks[h])])
  {
    YieldLast(s, h);
    s' := YieldStep(s, s.tasks[h].pid);
    StepReachable(s, Yield(s.tasks[h].pid));
  }

  lemma Waiting(s: State, d: nat) returns (s': State)
    requires WF(s) && Reachable(s)
    ensures WF(s') && Reachable(s') && s' == s.(now := s.now + d)
  {
    s' := Next(s, Tick(d));
    StepReachable(s, Tick(d));
  }

  lemma FireLast(s: State, h: nat)
    requires WF(s) && IsLast(s, h) && Expired(s, h)
    ensures FireStep(s, h) == s.(tasks := s.tasks[h := Awake(s.tasks[h], s.toJiffies(s.tasks[h].period))])
  {
    LastIsFirst(s);
    SetTwice(s.tasks, h, s.tasks[h].(timer := None), Awake(s.tasks[h], s.toJiffies(s.tasks[h].period)));
  }

  lemma Firing(s: State, h: nat) returns (s': State)
    requires WF(s) && Reachable(s) && IsLast(s, h) && Expired(s, h)
    ensures WF(s') && Reachable(s')
    ensures s' == s.(tasks := s.tasks[h := Awake(s.tasks[h], s.toJiffies(s.tasks[h].period))])
  {
    FireLast(s, h);
    s' := FireStep(s, h);
    StepReachable(s, Fire(h));
  }

  /** What a newly registered task that yields at once has become when its timer first fires. */
  ghost function Launched(s: State, r: Request): Task {
    Awake(Asleep(NewTask(s, r)), s.toJiffies(r.period))
  }

  lemma Registering(s: State, r: Request) returns (s': State)
    requires WF(s) && Reachable(s) && FirstWithPid(s, r.pid) == |s.list| && Admission(s, r) == Admitted
    ensures WF(s') && Reachable(s')
    ensures s' == s.(list := s.list + [|s.tasks|], tasks := s.tasks + [NewTask(s, r)])
  {
    var s1 := Admitting(s, r);
    assert FirstWithPid(s1, r.pid) == |s1.list|;
    assert NewTask(s1, r) == NewTask(s, r);
    assert s1.pending - multiset{r} == s.pending;
    s' := Inserting(s1, r);
  }

  lemma Launching(s: State, r: Request) returns (s': State)
    requires WF(s) && Reachable(s) && FirstWithPid(s, r.pid) == |s.list| && Admission(s, r) == Admitted
    requires 0 < s.toJiffies(r.period) <= r.period
    ensures WF(s') && Reachable(s')
    ensures s' == s.(now := s.now + r.period, list := s.list + [|s.tasks|], tasks := s.tasks + [Launched(s, r)])
  {
    var h, t, p := |s.tasks|, NewTask(s, r), s.toJiffies(r.period);
    s' := Registering(s, r);
    s' := Yielding(s', h);
    SetLast(s.tasks, t, Asleep(t));
    s' := Waiting(s', r.period);
    s' := Firing(s', h);
    SetLast(s.tasks, Asleep(t), Awake(Asleep(t), p));
  }

  lemma LongTaskReady(toJiffies: nat -> nat) returns (s: State)
    requires toJiffies(2) == 2
    ensures WF(s) && Reachable(s)
    ensures s == State(toJiffies, 2, [Task(1, 2, 0, 4, READY, Some(4), 0, 1, 1, true, 2)], [0], None, multiset{})
  {
    s := Init(toJiffies);
    assert LeadsTo([], s);
    s := Launching(s, Request(1, 2, 0));
  }

  lemma OnlyTaskRuns(s: State) returns (s': State)
    requires WF(s) && Reachable(s) && s.list == [0] && s.curr == None && |s.tasks| == 1
    requires s.tasks[0].state == READY && s.tasks[0].period < ULONG_MAX
    ensures WF(s') && Reachable(s')
    ensures s' == s.(curr := Some(0), tasks := [s.tasks[0].(state := RUNNING)])
  {
    assert Scan(s, 0) == Choice(None, ULONG_MAX);
    assert Scan(s, 1) == Choice(Some(0), s.tasks[0].period);
    s' := DispatchStep(s);
    StepReachable(s, Dispatch);
  }

  /** The first task, with a period of 2 jiffies, has run its first job and sleeps until its next release. */
  lemma LongTaskSleeps(toJiffies: nat -> nat) returns (s: State)
    requires toJiffies(2) == 2
    ensures WF(s) && Reachable(s)
    ensures s == State(toJiffies, 2, [Task(1, 2, 0, 4, SLEEPING, Some(4), 0, 2, 1, false, 4)], [0], Some(0), multiset{})
  {
    s := LongTaskReady(toJiffies);
    s := OnlyTaskRuns(s);
    s := Yielding(s, 0);
  }

  /** Its second job is released at 4 and left waiting, because the task itself is still the current one. */
  lemma SecondJobWaits(toJiffies: nat -> nat) returns (s: State)
    requires toJiffies(2) == 2
    ensures Reachable(s) && WF(s) && LeftIdle(s)
    ensures s.list == [0] && s.curr == Some(0) && |s.tasks| == 1
    ensures s.tasks[0].state == READY && s.tasks[0].callbacks == 2 && s.tasks[0].wakeAt <= s.now
  {
    s := LongTaskSleeps(toJiffies);
    s := Waiting(s, 2);
    s := Firing(s, 0);
    NoSwitchIff(s);
    assert ReadyAt(s, 0);
  }

  lemma ShorterIsChosen(s: State)
    requires WF(s) && |s.tasks| == 2 && s.list == [0, 1] && s.curr == Some(0) && s.tasks[0].state == SLEEPING
    requires s.tasks[1].state == READY && s.tasks[1].period < s.tasks[0].period
    ensures SwitchTo(s) == Some(1)
  {
    assert Scan(s, 1) == Choice(Some(0), s.tasks[0].period);
  }

  lemma AdmittedBesideIdle(s: State, r: Request)
    requires WF(s) && s.list == [0] && s.tasks != [] && s.tasks[0].processingTime == r.processingTime == 0
    requires 0 < r.period && s.tasks[0].period + r.period <= ULONG_MAX
    ensures Admission(s, r) == Admitted
  {
    assert SumTimes(s, 0) == SumPeriods(s, 0) == 0;
    assert SumTimes(s, 1) == 0 && SumPeriods(s, 1) == s.tasks[0].period;
  }

  /** A first task has run a job and sleeps until 4; a second, of period 1, is released at 3 and preempts it. */
  lemma SleeperIsWoken(toJiffies: nat -> nat) returns (s: State)
    requires toJiffies(1) == 1 && toJiffies(2) == 2
    ensures Reachable(s) && WF(s) && WakesSleeper(s, 0) && s.now < s.tasks[0].deadline
  {
    var short := Request(2, 1, 0);
    s := LongTaskSleeps(toJiffies);
    AdmittedBesideIdle(s, short);
    s := Launching(s, short);
    ShorterIsChosen(s);
    WakesSleeperIff(s, 0);
  }
}
