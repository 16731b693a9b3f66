/**
 What each lock hold does, field by field, and what that makes of a whole run: every task on the list is one
 that was requested, admitted and inserted, with the numbers that were asked for.
 */
module SchedulerEffects {
  import opened Sequences
  import opened Words
  import opened Wrappers
  import opened SchedulerModel
  import opened SchedulerProofs

  // ---------------------------------------------------------------- one event

  /** Of the whole state only task h may have changed. */
  ghost predicate OnlyTask(s: State, s': State, h: nat) {
    && s' == s.(tasks := s'.tasks)
    && |s'.tasks| == |s.tasks|
    && forall k | 0 <= k < |s.tasks| && k != h :: s'.tasks[k] == s.tasks[k]
  }

  /** No listed task has this pid. */
  ghost predicate Unlisted(s: State, pid: nat)
    requires WF(s)
  {
    forall i | 0 <= i < |s.list| :: s.tasks[s.list[i]].pid != pid
  }

  lemma PositionOf(s: State, i: nat)
    requires WF(s) && i < |s.list|
    ensures FirstWithPid(s, s.tasks[s.list[i]].pid) == i
  {
  }

  lemma PositionOfNone(s: State, pid: nat)
    requires WF(s) && Unlisted(s, pid)
    ensures FirstWithPid(s, pid) == |s.list|
  {
  }

  /** A request that is not admitted leaves no trace; one that is may be inserted once. */
  lemma AdmitEffect(s: State, r: Request)
    requires WF(s)
    ensures Admission(s, r) != Admitted ==> Next(s, Admit(r)) == s
    ensures Admission(s, r) == Admitted ==>
              var s' := Next(s, Admit(r));
              s' == s.(pending := s'.pending) && s'.pending == s.pending + multiset{r}
  {
  }

  /** A new task has the numbers of its request, sleeps, and has its deadline one period from now. */
  lemma InsertEffect(s: State, r: Request)
    requires WF(s) && r in s.pending && Unlisted(s, r.pid)
    ensures var s', h := Next(s, Insert(r, true, true)), |s.tasks|;
      && s'.list == s.list + [h]
      && |s'.tasks| == h + 1 && s'.tasks[..h] == s.tasks
      && s'.tasks[h].pid == r.pid && s'.tasks[h].period == r.period
      && s'.tasks[h].processingTime == r.processingTime
      && s'.tasks[h].state == SLEEPING && s'.tasks[h].timer == None
      && s'.tasks[h].deadline == s.now + s.toJiffies(r.period)
      && s'.pending == s.pending - multiset{r}
      && s' == s.(list := s'.list, tasks := s'.tasks, pending := s'.pending)
  {
    var s1 := s.(pending := s.pending - multiset{r});
    PositionOfNone(s1, r.pid);
  }

  /** A duplicate pid, or no memory or no such process, uses the admission up and changes nothing else. */
  lemma InsertRefused(s: State, r: Request, gotMemory: bool, found: bool)
    requires WF(s) && r in s.pending && (!Unlisted(s, r.pid) || !gotMemory || !found)
    ensures Next(s, Insert(r, gotMemory, found)) == s.(pending := s.pending - multiset{r})
  {
    var s1 := s.(pending := s.pending - multiset{r});
    if !Unlisted(s, r.pid) {
      var i :| 0 <= i < |s.list| && s.tasks[s.list[i]].pid == r.pid;
      PositionOf(s1, i);
    }
  }

  /** A yield acts on the task with that pid: before its deadline it sleeps until then, after it fires at once. */
  lemma YieldEffect(s: State, i: nat)
    requires WF(s) && i < |s.list|
    ensures var h := s.list[i];
      var t, s' := s.tasks[h], Next(s, Yield(s.tasks[h].pid));
      && OnlyTask(s, s', h)
      && s'.tasks[h].pid == t.pid && s'.tasks[h].period == t.period
      && s'.tasks[h].processingTime == t.processingTime && s'.tasks[h].deadline == t.deadline
      && s'.tasks[h].state == (if t.deadline > s.now then SLEEPING else t.state)
      && s'.tasks[h].timer == Some(if t.deadline > s.now then t.deadline else s.now)
  {
    PositionOf(s, i);
  }

  lemma YieldUnlisted(s: State, pid: nat)
    requires WF(s) && Unlisted(s, pid)
    ensures Next(s, Yield(pid)) == s
  {
    PositionOfNone(s, pid);
  }

  /** A callback releases its own task: READY, with deadline and timer one period on. */
  lemma FireEffect(s: State, i: nat)
    requires WF(s) && i < |s.list| && Expired(s, s.list[i])
    ensures var h := s.list[i];
      var t, s' := s.tasks[h], Next(s, Fire(h));
      && OnlyTask(s, s', h)
      && s'.tasks[h].pid == t.pid && s'.tasks[h].period == t.period
      && s'.tasks[h].processingTime == t.processingTime
      && s'.tasks[h].state == READY
      && s'.tasks[h].deadline == t.deadline + s.toJiffies(t.period)
      && s'.tasks[h].timer == Some(t.deadline + s.toJiffies(t.period))
  {
    PositionOf(s, i);
  }

  /** A timer that is not armed, or not due, calls nothing back. */
  lemma FireTooEarly(s: State, h: nat)
    requires WF(s) && (h < |s.tasks| ==> s.tasks[h].timer == None || s.tasks[h].timer.value > s.now)
    ensures Next(s, Fire(h)) == s
  {
  }

  /** A pass that switches makes its target RUNNING and the task it replaces READY, and touches no other. */
  lemma DispatchEffect(s: State, h: nat)
    requires WF(s) && SwitchTo(s).Some? && h < |s.tasks|
    ensures var s' := Next(s, Dispatch);
      && s' == s.(tasks := s'.tasks, curr := SwitchTo(s))
      && |s'.tasks| == |s.tasks|
      && s'.tasks[h] == if SwitchTo(s) == Some(h) then s.tasks[h].(state := RUNNING)
                        else if s.curr == Some(h) then s.tasks[h].(state := READY)
                        else s.tasks[h]
  {
    SwitchTarget(s);
  }

  /** One that does not switch changes nothing. With no current task every period below ULONG_MAX is shorter. */
  lemma DispatchIdle(s: State)
    requires WF(s)
    ensures SwitchTo(s) == None ==> Next(s, Dispatch) == s
    ensures s.curr == None ==>
              (SwitchTo(s) == None <==>
               forall i | 0 <= i < |s.list| && s.tasks[s.list[i]].state == READY ::
                 s.tasks[s.list[i]].period == 0xFFFF_FFFF_FFFF_FFFF)
  {
    PassSwitchesIff(s);
  }

  /** Deregistration stops the timer of the task with that pid and takes the task off the list. */
  lemma DeregisterEffect(s: State, i: nat)
    requires WF(s) && i < |s.list|
    ensures var h := s.list[i];
      var s' := Next(s, Deregister(s.tasks[h].pid));
      && s'.list == s.list[..i] + s.list[i + 1..]
      && OnlyTask(s, s'.(list := s.list), h)
      && s'.tasks[h] == s.tasks[h].(timer := None)
  {
    PositionOf(s, i);
  }

  lemma DeregisterUnlisted(s: State, pid: nat)
    requires WF(s) && Unlisted(s, pid)
    ensures Next(s, Deregister(pid)) == s
  {
    PositionOfNone(s, pid);
  }

  lemma TickEffect(s: State, d: nat)
    requires WF(s)
    ensures var s' := Next(s, Tick(d)); s' == s.(now := s'.now) && s'.now == s.now + d
  {
  }

  // ---------------------------------------------------------------- whole runs

  /** Event i is an admission check of r that was passed. */
  ghost predicate AdmittedAt(s: State, es: seq<Event>, i: nat, r: Request)
    requires WF(s)
  {
    i < |es| && es[i] == Admit(r) && Admission(At(s, es, i), r) == Admitted
  }

  ghost predicate AdmittedBefore(s: State, es: seq<Event>, n: nat, r: Request)
    requires WF(s)
  {
    exists i: nat | i < n :: AdmittedAt(s, es, i, r)
  }

  lemma AdmittedInPrefix(s: State, es: seq<Event>, m: nat, n: nat, r: Request)
    requires WF(s) && n <= m <= |es|
    ensures AdmittedBefore(s, es[..m], n, r) <==> AdmittedBefore(s, es, n, r)
  {
    forall i: nat | i < n
      ensures AdmittedAt(s, es[..m], i, r) <==> AdmittedAt(s, es, i, r)
    {
      assert es[..m][..i] == es[..i];
    }
  }

  lemma AdmittedLonger(s: State, es: seq<Event>, e: Event, n: nat, r: Request)
    requires WF(s) && n <= |es| && AdmittedBefore(s, es, n, r)
    ensures AdmittedBefore(s, es + [e], |es| + 1, r)
  {
    assert (es + [e])[..|es|] == es;
    AdmittedInPrefix(s, es + [e], |es|, n, r);
    var i: nat :| i < n && AdmittedAt(s, es + [e], i, r);
  }

  /** Only an admitted request is pending. */
  lemma PendingStep(s: State, e: Event, r: Request)
    requires WF(s) && r in Next(s, e).pending && r !in s.pending
    ensures e == Admit(r) && Admission(s, r) == Admitted
  {
  }

  lemma {:induction false} PendingWasAdmitted(s: State, es: seq<Event>, r: Request)
    requires WF(s) && s.pending == multiset{} && r in Run(s, es).pending
    ensures AdmittedBefore(s, es, |es|, r)
  {
    if es == [] {
    } else {
      var n := |es| - 1;
      var front, e := es[..n], es[n];
      assert es == front + [e];
      if r in Run(s, front).pending {
        PendingWasAdmitted(s, front, r);
        AdmittedLonger(s, front, e, n, r);
      } else {
        PendingStep(Run(s, front), e, r);
        assert AdmittedAt(s, es, n, r);
      }
    }
  }

  /** Event i inserted task h on a request r that had been admitted. */
  ghost predicate InsertedAt(s: State, es: seq<Event>, i: nat, h: nat, r: Request)
    requires WF(s)
  {
    && i < |es| && es[i] == Insert(r, true, true)
    && AdmittedBefore(s, es, i, r)
    && |At(s, es, i).tasks| == h && Unlisted(At(s, es, i), r.pid)
  }

  /** A task still has the numbers of this request. */
  ghost predicate AsRequested(t: Task, r: Request) {
    t.pid == r.pid && t.period == r.period && t.processingTime == r.processingTime
  }

  lemma InsertedLonger(s: State, es: seq<Event>, e: Event, i: nat, h: nat, r: Request)
    requires WF(s) && InsertedAt(s, es, i, h, r)
    ensures InsertedAt(s, es + [e], i, h, r)
  {
    assert (es + [e])[..|es|] == es && (es + [e])[..i] == es[..i];
    AdmittedInPrefix(s, es + [e], |es|, i, r);
  }

  lemma InsertNumbers(s: State, r: Request, gotMemory: bool, found: bool)
    requires WF(s)
    ensures var s' := Next(s, Insert(r, gotMemory, found));
      && |s.tasks| <= |s'.tasks| && s'.tasks[..|s.tasks|] == s.tasks
      && (|s'.tasks| > |s.tasks| ==>
            && gotMemory && found && r in s.pending && Unlisted(s, r.pid)
            && |s'.tasks| == |s.tasks| + 1 && AsRequested(s'.tasks[|s.tasks|], r))
  {
    if r in s.pending {
      if Unlisted(s, r.pid) && gotMemory && found {
        InsertEffect(s, r);
      } else {
        InsertRefused(s, r, gotMemory, found);
      }
    }
  }

  ghost predicate SameNumbers(t: Task, t': Task) {
    t'.pid == t.pid && t'.period == t.period && t'.processingTime == t.processingTime
  }

  lemma DispatchNumbers(s: State, h: nat)
    requires WF(s) && h < |s.tasks|
    ensures |DispatchStep(s).tasks| == |s.tasks| && SameNumbers(s.tasks[h], DispatchStep(s).tasks[h])
  {
    if SwitchTo(s).Some? {
      DispatchEffect(s, h);
    }
  }

  lemma YieldNumbers(s: State, pid: nat, h: nat)
    requires WF(s) && h < |s.tasks|
    ensures |YieldStep(s, pid).tasks| == |s.tasks| && SameNumbers(s.tasks[h], YieldStep(s, pid).tasks[h])
  {
  }

  lemma FireNumbers(s: State, k: nat, h: nat)
    requires WF(s) && h < |s.tasks|
    ensures |FireStep(s, k).tasks| == |s.tasks| && SameNumbers(s.tasks[h], FireStep(s, k).tasks[h])
  {
  }

  /** No other event adds a task, and none changes the numbers one was registered with. */
  lemma NumbersStep(s: State, e: Event, h: nat)
    requires WF(s) && !e.Insert? && h < |s.tasks|
    ensures |Next(s, e).tasks| == |s.tasks| && SameNumbers(s.tasks[h], Next(s, e).tasks[h])
  {
    match e
    case Dispatch => DispatchNumbers(s, h);
    case Yield(pid) => YieldNumbers(s, pid, h);
    case Fire(k) => FireNumbers(s, k, h);
    case Deregister(_) =>
    case Admit(_) =>
    case Tick(_) =>
  }

  lemma OnlyInsertAdds(s: State, e: Event)
    requires WF(s) && !e.Insert?
    ensures |Next(s, e).tasks| == |s.tasks|
  {
    if s.tasks != [] {
      NumbersStep(s, e, 0);
    }
  }

  /** Every task, and so every listed one, was requested with these numbers, admitted and then inserted. */
  lemma {:induction false} TaskWasRequested(s: State, es: seq<Event>, h: nat) returns (i: nat, r: Request)
    requires WF(s) && s.pending == multiset{} && s.tasks == [] && h < |Run(s, es).tasks|
    ensures InsertedAt(s, es, i, h, r) && AsRequested(Run(s, es).tasks[h], r)
  {
    var n := |es| - 1;
    var front, e := es[..n], es[n];
    assert es == front + [e];
    var s1 := Run(s, front);
    if e.Insert? {
      InsertNumbers(s1, e.r, e.gotMemory, e.found);
    } else {
      OnlyInsertAdds(s1, e);
    }
    if h < |s1.tasks| {
      if !e.Insert? {
        NumbersStep(s1, e, h);
      }
      i, r := TaskWasRequested(s, front, h);
      InsertedLonger(s, front, e, i, h, r);
    } else {
      i, r := n, e.r;
      PendingWasAdmitted(s, front, r);
      AdmittedInPrefix(s, es, n, n, r);
    }
  }

  /** The admissions of a run that were passed, and the insertions that used one up. */
  ghost function Granted(s: State, es: seq<Event>): multiset<Request>
    requires WF(s)
  {
    if es == [] then multiset{}
    else
      var n := |es| - 1;
      var e, before := es[n], Granted(s, es[..n]);
      if e.Admit? && Admission(Run(s, es[..n]), e.r) == Admitted then before + multiset{e.r} else before
  }

  ghost function Spent(s: State, es: seq<Event>): multiset<Request>
    requires WF(s)
  {
    if es == [] then multiset{}
    else
      var n := |es| - 1;
      var e, before := es[n], Spent(s, es[..n]);
      if e.Insert? && e.r in Run(s, es[..n]).pending then before + multiset{e.r} else before
  }

  lemma PendingMoves(s: State, e: Event)
    requires WF(s)
    ensures Next(s, e).pending
            == if e.Admit? && Admission(s, e.r) == Admitted then s.pending + multiset{e.r}
               else if e.Insert? && e.r in s.pending then s.pending - multiset{e.r}
               else s.pending
  {
  }

  /** No admission is used twice. */
  lemma {:induction false} AdmissionsBalance(s: State, es: seq<Event>)
    requires WF(s) && s.pending == multiset{}
    ensures Run(s, es).pending + Spent(s, es) == Granted(s, es)
  {
    if es == [] {
    } else {
      var n := |es| - 1;
      AdmissionsBalance(s, es[..n]);
      PendingMoves(Run(s, es[..n]), es[n]);
    }
  }
}
