/**
 The code of mp2.c over its own heap: task structures updated in place, the process list, and
 mp2_curr_task. Each method is one hold of mp2_proc_list_lock and refines one event of
 SchedulerModel, so what SchedulerProofs says of every run holds of every sequence of calls.
 */
module Scheduler {
  import opened Wrappers
  import opened Words
  import opened Sequences
  import opened SchedulerModel
  import opened SchedulerProofs

  class TaskStruct {
    const pid: nat
    const period: ulong
    const processingTime: ulong
    var deadlineJiff: nat
    var state: TaskState
    var wakeupTimer: Option<nat>

    /** The address of the structure. */
    const handle: nat

    constructor (pid: nat, period: ulong, processingTime: ulong, deadline: nat, handle: nat)
      ensures this.handle == handle
      ensures this.pid == pid && this.period == period && this.processingTime == processingTime
      ensures deadlineJiff == deadline && state == SLEEPING && wakeupTimer == None
    {
      this.pid, this.period, this.processingTime := pid, period, processingTime;
      deadlineJiff, state, wakeupTimer := deadline, SLEEPING, None;
      this.handle := handle;
    }

    /** The structure holds what the model says; the model's history fields have no counterpart. */
    ghost predicate Shows(t: Task)
      reads this
    {
      && pid == t.pid && period == t.period && processingTime == t.processingTime
      && deadlineJiff == t.deadline && state == t.state && wakeupTimer == t.timer
    }
  }

  /** += on unsigned long: a total that wraps stays the wrapped sum. */
  method AddTo(total: ulong, x: ulong, ghost sum: nat) returns (r: ulong)
    requires total == WrapU64(sum)
    ensures r == WrapU64(sum + x)
  {
    r := WrapU64(total + x);
  }

  class Mp2 {
    const toJiffies: nat -> nat
    var jiffies: nat
    var processList: seq<TaskStruct>
    var currTask: TaskStruct?
    /** Structures allocated so far; the next one gets this address. */
    var allocations: nat

    /** The model state this object is in. */
    ghost var model: State
    /** Every structure ever allocated, freed ones included; structs[h] is task h of the model. */
    ghost var structs: seq<TaskStruct>

    ghost predicate Valid()
      reads this, structs
    {
      && WF(model)
      && model.toJiffies == toJiffies
      && model.now == jiffies
      && allocations == |structs| == |model.tasks|
      && (forall h | 0 <= h < |structs| :: structs[h].handle == h && structs[h].Shows(model.tasks[h]))
      && |processList| == |model.list|
      && (forall i | 0 <= i < |processList| :: processList[i] == structs[model.list[i]])
      && currTask == if model.curr.Some? then structs[model.curr.value] else null
    }

    ghost function Structs(): set<TaskStruct>
      reads this
    {
      set t | t in structs
    }

    constructor (toJiffies: nat -> nat)
      ensures structs == [] && processList == [] && currTask == null && jiffies == 0
      ensures Valid() && model == Init(toJiffies)
    {
      this.toJiffies := toJiffies;
      jiffies, processList, currTask := 0, [], null;
      allocations, structs, model := 0, [], Init(toJiffies);
    }

    /** The clock, which the kernel advances. */
    method Advance(d: nat)
      requires Valid()
      modifies this`jiffies, this`model
      ensures Valid() && model == old(model).(now := old(model).now + d)
    {
      jiffies := jiffies + d;
      model := model.(now := model.now + d);
    }

    /** The search of a dispatcher pass: highest_priority_task when its loop is done. */
    method Highest() returns (highest: TaskStruct?)
      requires Valid()
      ensures var best := Scan(model, |model.list|).task;
        && (best.Some? ==> best.value < |structs|)
        && highest == if best.Some? then structs[best.value] else null
    {
      var minPeriod: ulong := ULONG_MAX;
      highest := null;
      if currTask != null {
        minPeriod := currTask.period;
        highest := currTask;
      }
      for i := 0 to |processList|
        invariant Scan(model, i).minPeriod == minPeriod
        invariant Scan(model, i).task.Some? ==> Scan(model, i).task.value < |structs|
        invariant highest == if Scan(model, i).task.Some? then structs[Scan(model, i).task.value] else null
      {
        var t := processList[i];
        if t.state == READY && t.period < minPeriod {
          minPeriod := t.period;
          highest := t;
        }
      }
    }

    /** The dispatcher preempts mp2_curr_task, if there is one. */
    method Preempt()
      requires Valid()
      modifies this`model, structs
      ensures Valid() && model == Demote(old(model))
    {
      model := Demote(model);
      if currTask != null {
        currTask.state := READY;
      }
    }

    /** And switches to t. */
    method SwitchOver(t: TaskStruct)
      requires Valid() && t in structs
      modifies this`currTask, this`model, t
      ensures Valid() && model == Promote(old(model), t.handle)
    {
      model := Promote(model, t.handle);
      t.state := RUNNING;
      currTask := t;
    }

    /** One pass of the loop of mp2_dispatcher. */
    method DispatcherPass()
      requires Valid()
      modifies this`currTask, this`model, structs
      ensures Valid() && model == DispatchStep(old(model))
    {
      var highest := Highest();
      if highest != null && highest != currTask {
        Preempt();
        SwitchOver(highest);
      }
    }

    /** del_timer, and what the kernel does to an expired timer before it runs the callback. */
    method StopTimer(t: TaskStruct)
      requires Valid() && t in structs
      modifies this`model, t
      ensures Valid() && model == Disarm(old(model), t.handle)
    {
      model := Disarm(model, t.handle);
      t.wakeupTimer := None;
    }

    /** The body of the callback's loop, for the one listed task with the pid of t. */
    method MakeReady(t: TaskStruct)
      requires Valid() && t in structs
      modifies this`model, t
      ensures Valid() && model == Release(old(model), t.handle)
    {
      model := Release(model, t.handle);
      t.state := READY;
      t.deadlineJiff := t.deadlineJiff + toJiffies(t.period);
      t.wakeupTimer := Some(t.deadlineJiff);
    }

    /** The wake-up timer of t has expired: mp2_timer_callback. */
    method TimerCallback(t: TaskStruct)
      requires Valid() && t in structs
      modifies this`model, structs
      ensures Valid() && model == FireStep(old(model), t.handle)
    {
      ghost var s, k := model, FirstWithPid(model, t.pid);
      if t.wakeupTimer.Some? && t.wakeupTimer.value <= jiffies {
        StopTimer(t);
        for i := 0 to |processList|
          invariant Valid()
          invariant model == if k < i then Release(Disarm(s, t.handle), t.handle) else Disarm(s, t.handle)
        {
          if processList[i].pid == t.pid {
            assert s.tasks[s.list[i]].pid == t.pid;
            MakeReady(t);
          }
        }
      }
    }

    method AdmissionControl(r: Request) returns (v: Verdict)
      requires Valid()
      ensures v == Admission(model, r)
    {
      var totalPeriod, totalTime := r.period, r.processingTime;
      for i := 0 to |processList|
        invariant totalPeriod == WrapU64(SumPeriods(model, i) + r.period)
        invariant totalTime == WrapU64(SumTimes(model, i) + r.processingTime)
      {
        totalPeriod := AddTo(totalPeriod, processList[i].period, SumPeriods(model, i) + r.period);
        totalTime := AddTo(totalTime, processList[i].processingTime, SumTimes(model, i) + r.processingTime);
      }
      v := AdmissionTest(totalPeriod, totalTime);
    }

    /** The first lock hold of mp2_registration: its result, or None when the division traps. */
    method RegistrationCheck(r: Request) returns (rv: Option<int>)
      requires Valid()
      modifies this`model
      ensures Valid() && model == Next(old(model), Admit(r))
      ensures rv == match Admission(old(model), r)
                    case Admitted => Some(0)
                    case Rejected => Some(1)
                    case DivideByZero => None
    {
      var v := AdmissionControl(r);
      rv := match v case Admitted => Some(0) case Rejected => Some(1) case DivideByZero => None;
      model := Next(model, Admit(r));
    }

    /** A new structure, filled in and put at the tail of the list. */
    method AppendTask(r: Request)
      requires Valid() && FirstWithPid(model, r.pid) == |processList|
      modifies this`model, this`processList, this`allocations, this`structs
      ensures fresh(Structs() - old(Structs()))
      ensures Valid() && model == Append(old(model), r)
    {
      var t := new TaskStruct(r.pid, r.period, r.processingTime, jiffies + toJiffies(r.period), allocations);
      model := Append(model, r);
      allocations := allocations + 1;
      structs := structs + [t];
      processList := processList + [t];
    }

    /** The search loop that registration, yield and deregistration share. */
    method FindPid(pid: nat) returns (i: nat)
      requires Valid()
      ensures i == FirstWithPid(model, pid)
    {
      i := 0;
      while i < |processList| && processList[i].pid != pid
        invariant i <= |processList|
        invariant FirstWithPid(model, pid) == FirstWithPid(model, pid, i)
      {
        i := i + 1;
      }
    }

    /**
     The second lock hold. `gotMemory` and `found` are what kmem_cache_alloc and find_task_by_pid
     answered. A duplicate pid is dismissed with result 0.
     */
    method RegistrationInsert(r: Request, gotMemory: bool, found: bool) returns (rv: int)
      requires Valid() && r in model.pending
      modifies this`model, this`processList, this`allocations, this`structs
      ensures fresh(Structs() - old(Structs()))
      ensures Valid() && model == InsertStep(old(model), r, gotMemory && found)
      ensures rv == if FirstWithPid(old(model), r.pid) < |old(processList)| || (gotMemory && found) then 0 else -1
    {
      rv := 0;
      var i := FindPid(r.pid);
      model := model.(pending := model.pending - multiset{r});
      assert FirstWithPid(model, r.pid) == i;
      if i < |processList| {
        return;
      }
      if !gotMemory || !found {
        return -1;
      }
      AppendTask(r);
    }

    method YieldTask(pid: nat)
      requires Valid()
      modifies this`model, structs
      ensures Valid() && model == YieldStep(old(model), pid)
    {
      var i := FindPid(pid);
      model := YieldStep(model, pid);
      if i < |processList| {
        var t := processList[i];
        if t.deadlineJiff > jiffies {
          t.state := SLEEPING;
          t.wakeupTimer := Some(t.deadlineJiff);
        } else {
          t.wakeupTimer := Some(jiffies);
        }
      }
    }

    /** list_del on the i-th structure. */
    method Unlist(i: nat)
      requires Valid() && i < |processList|
      modifies this`model, this`processList
      ensures Valid() && model == old(model).(list := RemoveAt(old(model).list, i))
    {
      model := model.(list := RemoveAt(model.list, i));
      processList := RemoveAt(processList, i);
    }

    method Deregistration(pid: nat)
      requires Valid()
      modifies this`model, this`processList, structs
      ensures Valid() && model == DeregisterStep(old(model), pid)
    {
      var i := FindPid(pid);
      if i < |processList| {
        StopTimer(processList[i]);
        Unlist(i);
      }
    }
  }

  /** The second lock hold of a registration only follows a first one that admitted it. */
  ghost predicate Proper(toJiffies: nat -> nat, es: seq<Event>) {
    forall i | 0 <= i < |es| && es[i].Insert? :: es[i].r in Run(Init(toJiffies), es[..i]).pending
  }

  /** The kernel's timer wheel: only a listed task has an armed timer. */
  method FireTimer(m: Mp2, h: nat)
    requires m.Valid() && Inv(m.model)
    modifies m`model, m.Structs()
    ensures m.Valid() && m.model == FireStep(old(m.model), h) && m.structs == old(m.structs)
  {
    var i := 0;
    while i < |m.processList| && m.processList[i].handle != h
      invariant i <= |m.processList|
      invariant forall j | 0 <= j < i :: m.processList[j].handle != h
    {
      i := i + 1;
    }
    if i < |m.processList| {
      m.TimerCallback(m.processList[i]);
    } else if h < |m.model.tasks| {
      assert TaskInv(m.model, h);
    }
  }

  method Perform(m: Mp2, e: Event)
    requires m.Valid() && Inv(m.model)
    requires e.Insert? ==> e.r in m.model.pending
    modifies m, m.Structs()
    ensures m.Valid() && m.model == Next(old(m.model), e)
    ensures fresh(m.Structs() - old(m.Structs()))
  {
    match e
    case Admit(r) => var _ := m.RegistrationCheck(r);
    case Insert(r, gotMemory, found) => var _ := m.RegistrationInsert(r, gotMemory, found);
    case Yield(pid) => m.YieldTask(pid);
    case Fire(h) => FireTimer(m, h);
    case Dispatch => m.DispatcherPass();
    case Deregister(pid) => m.Deregistration(pid);
    case Tick(d) => m.Advance(d);
  }

  /**
   Any sequence of lock holds, from module load on: the code ends in the state of the model's run. So every
   statement of SchedulerProofs about runs is one about this code.
   */
  method Execute(toJiffies: nat -> nat, es: seq<Event>) returns (m: Mp2)
    requires Proper(toJiffies, es)
    ensures m.Valid() && m.model == Run(Init(toJiffies), es)
  {
    m := new Mp2(toJiffies);
    assert es[..0] == [];
    for i := 0 to |es|
      invariant fresh(m) && fresh(m.Structs())
      invariant m.Valid() && m.model == Run(Init(toJiffies), es[..i])
    {
      RunKeepsInv(Init(toJiffies), es[..i]);
      assert es[..i + 1][..i] == es[..i];
      Perform(m, es[i]);
    }
    assert es[..|es|] == es;
  }
}
