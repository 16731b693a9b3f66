/**
 The rate-monotonic scheduler of mp2.c as a transition system.

 Every event is one hold of mp2_proc_list_lock, except that a registration is two: the
 admission check, and the duplicate check with the insertion. Tasks are named by a handle,
 their index in `tasks`; a handle is never reused, and a deregistered task keeps its entry
 because mp2_curr_task may still point at it.

 The last five fields of a task are history, not program state: when it registered,
 how often it has yielded, how many timer callbacks it has had, whether its timer has fired since
 it last went to SLEEPING, and the deadline that was in force when it did.
 */
module SchedulerModel {
  import opened Wrappers
  import opened Words
  import opened Sequences

  datatype TaskState = READY | RUNNING | SLEEPING

  datatype Task = Task(
    pid: nat, period: ulong, processingTime: ulong, deadline: nat, state: TaskState, timer: Option<nat>,
    registered: nat, yieldCount: nat, callbacks: nat, fired: bool, wakeAt: nat)

  datatype Request = Request(pid: nat, period: ulong, processingTime: ulong)

  /** `toJiffies` is the kernel's msecs_to_jiffies; nothing is assumed about it. */
  datatype State = State(
    toJiffies: nat -> nat, now: nat, tasks: seq<Task>, list: seq<nat>, curr: Option<nat>,
    pending: multiset<Request>)

  datatype Event =
    | Admit(r: Request)
    | Insert(r: Request, gotMemory: bool, found: bool)
    | Yield(pid: nat)
    | Fire(h: nat)
    | Dispatch
    | Deregister(pid: nat)
    | Tick(d: nat)

  ghost predicate WF(s: State) {
    && (forall i | 0 <= i < |s.list| :: s.list[i] < |s.tasks|)
    && (forall i, j | 0 <= i < j < |s.list| :: s.tasks[s.list[i]].pid != s.tasks[s.list[j]].pid)
    && (s.curr.Some? ==> s.curr.value < |s.tasks|)
  }

  ghost function Init(toJiffies: nat -> nat): State {
    State(toJiffies, 0, [], [], None, multiset{})
  }

  // ---------------------------------------------------------------- list searches

  /** The position of the first listed task with this pid, or |list|. */
  ghost function FirstWithPid(s: State, pid: nat, from: nat := 0): (i: nat)
    requires WF(s) && from <= |s.list|
    ensures from <= i <= |s.list|
    ensures i < |s.list| ==> s.tasks[s.list[i]].pid == pid
    ensures forall j | from <= j < i :: s.tasks[s.list[j]].pid != pid
    decreases |s.list| - from
  {
    if from == |s.list| || s.tasks[s.list[from]].pid == pid then from else FirstWithPid(s, pid, from + 1)
  }

  /** mp2_curr_task's period, or ULONG_MAX when there is no current task. */
  ghost function CurrPeriod(s: State): ulong
    requires WF(s)
  {
    if s.curr.Some? then s.tasks[s.curr.value].period else ULONG_MAX
  }

  datatype Choice = Choice(task: Option<nat>, minPeriod: ulong)

  /** highest_priority_task and min_period after the first n listed tasks were looked at. */
  ghost function Scan(s: State, n: nat): Choice
    requires WF(s) && n <= |s.list|
  {
    if n == 0 then
      Choice(s.curr, CurrPeriod(s))
    else
      var c := Scan(s, n - 1);
      var t := s.tasks[s.list[n - 1]];
      if t.state == READY && t.period < c.minPeriod then Choice(Some(s.list[n - 1]), t.period) else c
  }

  /** The task a dispatcher pass would switch to, if it would switch. */
  ghost function SwitchTo(s: State): Option<nat>
    requires WF(s)
  {
    var best := Scan(s, |s.list|).task;
    if best.Some? && best != s.curr then best else None
  }

  // ---------------------------------------------------------------- admission

  datatype Verdict = Admitted | Rejected | DivideByZero

  ghost function SumPeriods(s: State, n: nat): nat
    requires WF(s) && n <= |s.list|
  {
    if n == 0 then 0 else SumPeriods(s, n - 1) + s.tasks[s.list[n - 1]].period
  }

  ghost function SumTimes(s: State, n: nat): nat
    requires WF(s) && n <= |s.list|
  {
    if n == 0 then 0 else SumTimes(s, n - 1) + s.tasks[s.list[n - 1]].processingTime
  }

  /** The test of mp2_admission_control on the two totals, in 64-bit arithmetic. */
  function AdmissionTest(totalPeriod: ulong, totalTime: ulong): Verdict {
    if totalPeriod == 0 then DivideByZero
    else if WrapU64(totalTime * 1000) / totalPeriod <= 693 then Admitted
    else Rejected
  }

  ghost function Admission(s: State, r: Request): Verdict
    requires WF(s)
  {
    AdmissionTest(WrapU64(SumPeriods(s, |s.list|) + r.period), WrapU64(SumTimes(s, |s.list|) + r.processingTime))
  }

  // ---------------------------------------------------------------- the transitions

  ghost function NewTask(s: State, r: Request): Task {
    var deadline := s.now + s.toJiffies(r.period);
    Task(r.pid, r.period, r.processingTime, deadline, SLEEPING, None, s.now, 0, 0, false, deadline)
  }

  ghost function Append(s: State, r: Request): (s': State)
    requires WF(s) && FirstWithPid(s, r.pid) == |s.list|
    ensures WF(s')
  {
    s.(tasks := s.tasks + [NewTask(s, r)], list := s.list + [|s.tasks|])
  }

  ghost function InsertStep(s: State, r: Request, ok: bool): (s': State)
    requires WF(s)
    ensures WF(s')
  {
    if r !in s.pending then s
    else
      var s1 := s.(pending := s.pending - multiset{r});
      if !ok || FirstWithPid(s1, r.pid) < |s1.list| then s1 else Append(s1, r)
  }

  ghost function YieldStep(s: State, pid: nat): (s': State)
    requires WF(s)
    ensures WF(s')
  {
    var i := FirstWithPid(s, pid);
    if i == |s.list| then s
    else
      var h := s.list[i];
      var t := s.tasks[h].(yieldCount := s.tasks[h].yieldCount + 1);
      var t' := if t.deadline > s.now
                then t.(state := SLEEPING, timer := Some(t.deadline), fired := false, wakeAt := t.deadline)
                else t.(timer := Some(s.now));
      s.(tasks := s.tasks[h := t'])
  }

  /** A timer callback runs only when the timer is armed and has expired. */
  ghost predicate Expired(s: State, h: nat) {
    h < |s.tasks| && s.tasks[h].timer.Some? && s.tasks[h].timer.value <= s.now
  }

  /** The timer has gone off; the callback has not looked at the list yet. */
  ghost function Disarm(s: State, h: nat): (s': State)
    requires WF(s) && h < |s.tasks|
    ensures WF(s')
  {
    s.(tasks := s.tasks[h := s.tasks[h].(timer := None)])
  }

  ghost function Release(s: State, h: nat): (s': State)
    requires WF(s) && h < |s.tasks|
    ensures WF(s')
  {
    var t := s.tasks[h];
    var d := t.deadline + s.toJiffies(t.period);
    s.(tasks := s.tasks[h := t.(state := READY, deadline := d, timer := Some(d),
                                callbacks := t.callbacks + 1, fired := true)])
  }

  ghost function FireStep(s: State, h: nat): (s': State)
    requires WF(s)
    ensures WF(s')
  {
    if !Expired(s, h) then s
    else if FirstWithPid(s, s.tasks[h].pid) == |s.list| then Disarm(s, h)
    else Release(Disarm(s, h), h)
  }

  /** The current task loses the processor and becomes READY, asleep or not. */
  ghost function Demote(s: State): (s': State)
    requires WF(s)
    ensures WF(s')
  {
    if s.curr.Some? then s.(tasks := s.tasks[s.curr.value := s.tasks[s.curr.value].(state := READY)]) else s
  }

  ghost function Promote(s: State, h: nat): (s': State)
    requires WF(s) && h < |s.tasks|
    ensures WF(s')
  {
    s.(tasks := s.tasks[h := s.tasks[h].(state := RUNNING)], curr := Some(h))
  }

  lemma {:induction false} ScanIsCurrOrListed(s: State, n: nat)
    requires WF(s) && n <= |s.list|
    ensures var c := Scan(s, n);
      && c.minPeriod <= CurrPeriod(s)
      && (c.task != s.curr ==>
            exists i | 0 <= i < n :: c.task == Some(s.list[i]) && s.tasks[s.list[i]].state == READY
                                     && s.tasks[s.list[i]].period == c.minPeriod < CurrPeriod(s)
                                     && forall j | 0 <= j < i :: s.tasks[s.list[j]].state == READY
                                          ==> s.tasks[s.list[j]].period > c.minPeriod)
      && (c.task == s.curr ==> c.minPeriod == CurrPeriod(s))
      && (forall i | 0 <= i < n :: s.tasks[s.list[i]].state == READY ==> s.tasks[s.list[i]].period >= c.minPeriod)
  {
    if n == 0 {
    } else {
      ScanIsCurrOrListed(s, n - 1);
    }
  }

  ghost function DispatchStep(s: State): (s': State)
    requires WF(s)
    ensures WF(s')
  {
    var best := SwitchTo(s);
    if best == None then s
    else
      assert best.value < |s.tasks| by { ScanIsCurrOrListed(s, |s.list|); }
      Promote(Demote(s), best.value)
  }

  ghost function DeregisterStep(s: State, pid: nat): (s': State)
    requires WF(s)
    ensures WF(s')
  {
    var i := FirstWithPid(s, pid);
    if i == |s.list| then s
    else
      var h := s.list[i];
      s.(tasks := s.tasks[h := s.tasks[h].(timer := None)], list := RemoveAt(s.list, i))
  }

  ghost function Next(s: State, e: Event): (s': State)
    requires WF(s)
    ensures WF(s')
  {
    match e
    case Admit(r) => if Admission(s, r) == Admitted then s.(pending := s.pending + multiset{r}) else s
    case Insert(r, gotMemory, found) => InsertStep(s, r, gotMemory && found)
    case Yield(pid) => YieldStep(s, pid)
    case Fire(h) => FireStep(s, h)
    case Dispatch => DispatchStep(s)
    case Deregister(pid) => DeregisterStep(s, pid)
    case Tick(d) => s.(now := s.now + d)
  }

  ghost function Run(s: State, es: seq<Event>): (s': State)
    requires WF(s)
    ensures WF(s')
  {
    if es == [] then s else Next(Run(s, es[..|es| - 1]), es[|es| - 1])
  }

  /** The state of a run just before its event number i. */
  ghost function At(s: State, es: seq<Event>, i: nat): (s': State)
    requires WF(s) && i <= |es|
    ensures WF(s')
  {
    Run(s, es[..i])
  }
}
