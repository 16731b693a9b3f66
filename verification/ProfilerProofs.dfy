/** Conservation: what the profiler's samples and the tasks' counters hold, in every interleaving. */
module ProfilerProofs {
  import opened Wrappers
  import opened Words
  import opened ProfilerModel
  import R = SampleRing

  // ---------------------------------------------------------------- arithmetic up to whole turns

  lemma {:induction false} InTableUpdate(procs: seq<Option<Counters>>, i: nat, o: Option<Counters>, q: Quantity)
    requires i < |procs|
    ensures InTable(procs[i := o], q) == InTable(procs, q) - InSlot(procs[i], q) + InSlot(o, q)
  {
    var n := |procs| - 1;
    if i < n {
      assert procs[i := o][..n] == procs[..n][i := o];
      InTableUpdate(procs[..n], i, o, q);
    } else {
      assert procs[i := o][..n] == procs[..n];
    }
  }

  /** a may fall short of b only by whole turns of a 64-bit word. */
  predicate ShortByTurns(a: int, b: int) {
    a <= b && (b - a) % U64_RANGE == 0
  }

  lemma TurnsAdd(m: int, n: int)
    requires m % U64_RANGE == 0 && n % U64_RANGE == 0
    ensures (m + n) % U64_RANGE == 0
  {
    var p, q := m / U64_RANGE, n / U64_RANGE;
    assert m == U64_RANGE * p && n == U64_RANGE * q;
    assert m + n == U64_RANGE * (p + q);
  }

  /** a for a', b for a + x: shortfalls add up. */
  lemma ShortChain(a': int, a: int, x: int, b: int)
    requires ShortByTurns(a', a) && ShortByTurns(a + x, b)
    ensures ShortByTurns(a' + x, b)
  {
    TurnsAdd(a - a', b - (a + x));
  }

  lemma WrapShort(x: nat)
    ensures ShortByTurns(WrapU64(x), x)
  {
  }

  lemma AddTotalsShort(t: Totals, c: Counters, q: Quantity)
    ensures ShortByTurns(TotalOf(AddTotals(t, c), q), TotalOf(t, q) + In(c, q))
  {
    match q
    case Minor => WrapShort(t.minFlt + c.minFlt);
    case Major => WrapShort(t.majFlt + c.majFlt);
    case Cpu =>
      WrapShort(t.cpu + c.utime);
      WrapShort(WrapU64(t.cpu + c.utime) + c.stime);
      ShortChain(WrapU64(t.cpu + c.utime), t.cpu + c.utime, c.stime, t.cpu + c.utime + c.stime);
      ShortChain(TotalOf(AddTotals(t, c), q), WrapU64(t.cpu + c.utime) + c.stime, 0, t.cpu + c.utime + c.stime);
  }

  lemma CpuShort(u: ulong, t: ulong, v: ulong, w: ulong)
    ensures ShortByTurns(WrapU64(u + v) + WrapU64(t + w), u + t + v + w)
  {
    WrapShort(u + v);
    WrapShort(t + w);
    ShortChain(WrapU64(u + v), u + v, t + w, u + t + v + w);
    ShortChain(WrapU64(t + w), t + w, WrapU64(u + v), u + t + v + w);
  }

  lemma AddCountersShort(c: Counters, d: Counters, q: Quantity)
    ensures ShortByTurns(In(AddCounters(c, d), q), In(c, q) + In(d, q))
  {
    match q
    case Minor => WrapShort(c.minFlt + d.minFlt);
    case Major => WrapShort(c.majFlt + d.majFlt);
    case Cpu =>
      CpuShort(c.utime, c.stime, d.utime, d.stime);
  }

  // ---------------------------------------------------------------- the eight accesses

  /** All but what is in the window. */
  function Kept(c: Counters, pc: nat): Counters {
    Counters(if 0 < pc <= 5 then 0 else c.minFlt, if 1 < pc <= 4 then 0 else c.majFlt,
             if 2 < pc <= 6 then 0 else c.utime, if 3 < pc <= 7 then 0 else c.stime)
  }

  lemma KeptAndWindow(c: Counters, pc: nat, q: Quantity)
    ensures In(c, q) == In(Kept(c, pc), q) + In(Window(c, pc), q)
  {
  }

  lemma KeptAdds(c: Counters, d: Counters, pc: nat)
    ensures Kept(AddCounters(c, d), pc) == AddCounters(Kept(c, pc), Kept(d, pc))
  {
    assert WrapU64(0) == 0;
  }

  lemma Parts(c: Counters, pc: nat, q: Quantity)
    requires pc <= 8
    ensures In(c, q) == In(Unread(c, pc), q) + In(Window(c, pc), q) + In(ClearedBy(c, pc), q)
  {
  }

  lemma ReadMoves(got: Counters, c: Counters, pc: nat, q: Quantity)
    requires pc < 4
    ensures In(ReadBy(ReadField(got, c, pc), pc + 1), q) + In(Unread(c, pc + 1), q)
            == In(ReadBy(got, pc), q) + In(Unread(c, pc), q)
    ensures In(Unread(c, pc + 1), q) + In(Window(c, pc + 1), q) == In(Unread(c, pc), q) + In(Window(c, pc), q)
  {
  }

  lemma ClearMoves(got: Counters, c: Counters, pc: nat, q: Quantity)
    requires 4 <= pc < 8
    ensures var c' := ClearField(c, pc);
      In(c', q) - In(Window(c', pc + 1), q) == In(c, q) - In(Window(c, pc), q)
    ensures ReadBy(got, pc) == ReadBy(got, pc + 1) == got
    ensures Unread(c, pc) == Unread(c, pc + 1) == ZERO
  {
  }

  /** New work goes to the counters still to be counted, except for the part in the window. */
  lemma WorkParts(c: Counters, d: Counters, pc: nat, q: Quantity)
    ensures ShortByTurns(In(Kept(AddCounters(c, d), pc), q), In(Kept(c, pc), q) + In(Kept(d, pc), q))
  {
    KeptAdds(c, d, pc);
    AddCountersShort(Kept(c, pc), Kept(d, pc), q);
  }

  // ---------------------------------------------------------------- every step

  /** The task being read is there until it exits, and the sampler is at one of its accesses or done. */
  ghost predicate Sound(s: State) {
    && (s.sampler.Reading? ==> s.sampler.pc <= 8)
    && (s.sampler.Reading? && s.sampler.gone.None? ==> Live(s.procs, s.sampler.pid))
  }

  /** The books balance: all there was and all that was generated is held, or was lost in a window. */
  ghost predicate Balanced(s: State, q: Quantity) {
    Sound(s) && ShortByTurns(Held(s, q) + Of(s.lost, q), Of(s.due, q))
  }

  ghost function Missing(s: State, q: Quantity): int {
    Of(s.due, q) - Of(s.lost, q) - Held(s, q)
  }

  /** The step moves q about without losing any. */
  ghost predicate Exact(s: State, s': State, q: Quantity) {
    Sound(s') && Missing(s', q) == Missing(s, q)
  }

  lemma ExactConserves(s: State, s': State, q: Quantity)
    requires Balanced(s, q) && Exact(s, s', q)
    ensures Balanced(s', q)
  {
  }

  /** What a task adds to what is still to be counted, and to what is lost. */
  lemma WorkMoves(s: State, pid: nat, d: Counters, pc: nat, q: Quantity)
    requires Sound(s) && Live(s.procs, pid) && pc == if BeingRead(s, pid) then s.sampler.pc else 0
    ensures var s', c := WorkStep(s, pid, d), s.procs[pid].value;
      && Held(s', q) == Held(s, q) - In(Kept(c, pc), q) + In(Kept(AddCounters(c, d), pc), q)
      && Of(s'.due, q) == Of(s.due, q) + In(d, q)
      && Of(s'.lost, q) == Of(s.lost, q) + In(d, q) - In(Kept(d, pc), q)
  {
    var c := s.procs[pid].value;
    InTableUpdate(s.procs, pid, Some(AddCounters(c, d)), q);
    KeptAndWindow(c, pc, q);
    KeptAndWindow(d, pc, q);
    KeptAndWindow(AddCounters(c, d), pc, q);
  }

  lemma WorkConserves(s: State, pid: nat, d: Counters, q: Quantity)
    requires Balanced(s, q) && Live(s.procs, pid)
    ensures Balanced(WorkStep(s, pid, d), q)
  {
    var c, pc := s.procs[pid].value, if BeingRead(s, pid) then s.sampler.pc else 0;
    WorkMoves(s, pid, d, pc, q);
    WorkParts(c, d, pc, q);
    var rest := Held(s, q) - In(Kept(c, pc), q) + Of(s.lost, q) + In(d, q) - In(Kept(d, pc), q);
    ShortChain(In(Kept(AddCounters(c, d), pc), q), In(Kept(c, pc), q) + In(Kept(d, pc), q), rest,
               Of(s.due, q) + In(d, q));
  }

  lemma ExitIsExact(s: State, pid: nat, q: Quantity)
    requires Sound(s) && Live(s.procs, pid)
    ensures Exact(s, ExitStep(s, pid), q)
  {
    var c := s.procs[pid].value;
    InTableUpdate(s.procs, pid, None, q);
    if BeingRead(s, pid) {
      Parts(c, s.sampler.pc, q);
    }
  }

  lemma SpawnIsExact(s: State, pid: nat, c: Counters, q: Quantity)
    requires Sound(s) && pid < |s.procs| && s.procs[pid].None?
    ensures Exact(s, SpawnStep(s, pid, c), q)
  {
    InTableUpdate(s.procs, pid, Some(c), q);
  }

  lemma ReadIsExact(s: State, q: Quantity)
    requires Sound(s) && s.sampler.Reading? && s.sampler.pc < 4
    ensures Exact(s, ReadStep(s), q)
  {
    ReadMoves(s.sampler.got, Target(s), s.sampler.pc, q);
  }

  lemma ClearIsExact(s: State, q: Quantity)
    requires Sound(s) && s.sampler.Reading? && 4 <= s.sampler.pc < 8
    ensures Exact(s, ClearStep(s), q)
  {
    var p, pc := s.sampler.pid, s.sampler.pc;
    ClearMoves(s.sampler.got, Target(s), pc, q);
    if s.sampler.gone.None? {
      InTableUpdate(s.procs, p, Some(ClearField(s.procs[p].value, pc)), q);
    }
  }

  lemma TotalsConserve(s: State, now: ulong, q: Quantity)
    requires Balanced(s, q) && s.sampler.Reading? && s.sampler.pc == 8
    ensures Balanced(SamplerStep(s, now), q)
  {
    var m, s' := s.sampler, SamplerStep(s, now);
    AddTotalsShort(m.totals, m.got, q);
    ShortChain(TotalOf(AddTotals(m.totals, m.got), q), TotalOf(m.totals, q) + In(m.got, q),
               Held(s, q) - InFlight(m, q) + Of(s.lost, q), Of(s.due, q));
  }

  lemma InRecordsSnoc(rs: seq<R.Record>, r: R.Record, q: Quantity)
    ensures InRecords(rs + [r], q) == InRecords(rs, q) + InRecord(r, q)
  {
    assert (rs + [r])[..|rs|] == rs;
  }

  lemma RecordConserves(log: seq<R.Event>, e: R.Event, q: Quantity)
    ensures InRecords(R.Samples(log + [e]), q)
            == InRecords(R.Samples(log), q) + if e.Sample? then InRecord(e.r, q) else 0
  {
    R.RunSnoc(log, e);
    if e.Sample? {
      InRecordsSnoc(R.Samples(log), e.r, q);
    } else {
      assert R.Samples(log) + [] == R.Samples(log);
    }
  }

  lemma FinishIsExact(s: State, now: ulong, q: Quantity)
    requires Sound(s) && s.sampler.Looping? && s.sampler.n >= |s.list|
    ensures Exact(s, SamplerStep(s, now), q)
  {
    var t := s.sampler.totals;
    RecordConserves(s.log, R.Sample(R.Record(now, t.minFlt, t.majFlt, t.cpu)), q);
    assert InFlight(s.sampler, q) == TotalOf(t, q);
  }

  lemma LoopingIsExact(s: State, now: ulong, q: Quantity)
    requires Sound(s) && s.sampler.Looping?
    ensures Exact(s, SamplerStep(s, now), q)
  {
    var s' := SamplerStep(s, now);
    if s.sampler.n >= |s.list| {
      FinishIsExact(s, now, q);
    } else {
      assert InFlight(s'.sampler, q) == InFlight(s.sampler, q);
      assert Doomed(s') == Doomed(s) == ZERO;
    }
  }

  lemma DrainIsExact(s: State, q: Quantity)
    requires Sound(s)
    ensures Exact(s, Next(s, Drain), q)
  {
    RecordConserves(s.log, R.DrainAll, q);
  }

  lemma ListIsExact(s: State, list: seq<nat>, q: Quantity)
    requires Sound(s)
    ensures Exact(s, s.(list := list), q)
  {
  }

  lemma SamplerConserves(s: State, now: ulong, q: Quantity)
    requires Balanced(s, q)
    ensures Balanced(SamplerStep(s, now), q)
  {
    var s' := SamplerStep(s, now);
    match s.sampler
    case Idle =>
    case Looping(_, _) =>
      LoopingIsExact(s, now, q);
      ExactConserves(s, s', q);
    case Reading(_, _, _, pc, _, _) =>
      if pc < 4 {
        ReadIsExact(s, q);
        ExactConserves(s, s', q);
      } else if pc < 8 {
        ClearIsExact(s, q);
        ExactConserves(s, s', q);
      } else {
        TotalsConserve(s, now, q);
      }
  }

  /** What tasks do conserves. */
  lemma TasksConserve(s: State, e: Event, q: Quantity)
    requires Balanced(s, q) && (e.Work? || e.Spawn? || e.Exit?)
    ensures Balanced(Next(s, e), q)
  {
    match e
    case Work(pid, d) =>
      if Live(s.procs, pid) {
        WorkConserves(s, pid, d, q);
      }
    case Spawn(pid, c) =>
      if pid < |s.procs| && s.procs[pid].None? {
        SpawnIsExact(s, pid, c, q);
        ExactConserves(s, SpawnStep(s, pid, c), q);
      }
    case Exit(pid) =>
      if Live(s.procs, pid) {
        ExitIsExact(s, pid, q);
        ExactConserves(s, ExitStep(s, pid), q);
      }
  }

  lemma NextConserves(s: State, e: Event, q: Quantity)
    requires Balanced(s, q)
    ensures Balanced(Next(s, e), q)
  {
    var s' := Next(s, e);
    match e
    case SamplerRuns(now) => SamplerConserves(s, now, q);
    case Drain =>
      DrainIsExact(s, q);
      ExactConserves(s, s', q);
    case Register(pid, _) =>
      ListIsExact(s, s'.list, q);
      ExactConserves(s, s', q);
    case Unregister(pid) =>
      ListIsExact(s, s'.list, q);
      ExactConserves(s, s', q);
    case _ => TasksConserve(s, e, q);
  }

  lemma NothingMissing(s: State, q: Quantity)
    requires Sound(s) && Missing(s, q) == 0
    ensures Balanced(s, q)
  {
  }

  lemma InitBalanced(procs: seq<Option<Counters>>, q: Quantity)
    ensures Balanced(Init(procs), q)
  {
    var s := Init(procs);
    assert R.Samples(s.log) == [];
    assert Held(s, q) == InTable(procs, q) == Of(s.due, q);
    NothingMissing(s, q);
  }

  /**
   Conservation in every interleaving of faults, task starts and exits, registrations and the single accesses
   of samples: what is held and what was lost add up to all there was and all that was generated, up to whole
   turns of the 64-bit words.
   */
  lemma {:induction false} Conservation(procs: seq<Option<Counters>>, es: seq<Event>, q: Quantity)
    ensures Balanced(Run(Init(procs), es), q)
  {
    if es == [] {
      InitBalanced(procs, q);
    } else {
      Conservation(procs, es[..|es| - 1], q);
      NextConserves(Run(Init(procs), es[..|es| - 1]), es[|es| - 1], q);
    }
  }

  lemma ShortButSmall(a: nat, b: nat)
    requires ShortByTurns(a, b) && b < U64_RANGE
    ensures a == b
  {
  }

  lemma HeldNonNegative(s: State, q: Quantity)
    requires Sound(s)
    ensures Held(s, q) >= 0
  {
    if s.sampler.Reading? && s.sampler.gone.None? {
      InTableUpdate(s.procs, s.sampler.pid, None, q);
      Parts(s.procs[s.sampler.pid].value, s.sampler.pc, q);
    }
  }

  lemma ExactBalance(s: State, q: Quantity)
    requires Balanced(s, q) && Of(s.due, q) < U64_RANGE
    ensures Held(s, q) == Of(s.due, q) - Of(s.lost, q)
  {
    HeldNonNegative(s, q);
    ShortButSmall(Held(s, q) + Of(s.lost, q), Of(s.due, q));
  }

  /** While the grand total fits in a word, exactly what was generated in windows is missing. */
  lemma ExactConservation(procs: seq<Option<Counters>>, es: seq<Event>, q: Quantity)
    requires Of(Run(Init(procs), es).due, q) < U64_RANGE
    ensures var s := Run(Init(procs), es);
      Held(s, q) == Of(s.due, q) - Of(s.lost, q)
  {
    Conservation(procs, es, q);
    ExactBalance(Run(Init(procs), es), q);
  }

  // ---------------------------------------------------------------- when nothing is lost

  /** The event generates some of q in a counter that has been read and not yet cleared. */
  ghost predicate HitsWindow(s: State, e: Event, q: Quantity) {
    e.Work? && Live(s.procs, e.pid) && In(Exposed(s, e.pid, e.d), q) > 0
  }

  lemma LostStep(s: State, e: Event, q: Quantity)
    ensures Of(Next(s, e).lost, q) >= Of(s.lost, q)
    ensures Of(Next(s, e).lost, q) > Of(s.lost, q) <==> HitsWindow(s, e, q)
  {
  }

  /** Event i of the run hits a window. */
  ghost predicate HitAt(procs: seq<Option<Counters>>, es: seq<Event>, i: nat, q: Quantity)
    requires i < |es|
  {
    HitsWindow(Run(Init(procs), es[..i]), es[i], q)
  }

  ghost predicate NoHit(procs: seq<Option<Counters>>, es: seq<Event>, q: Quantity) {
    forall i | 0 <= i < |es| :: !HitAt(procs, es, i, q)
  }

  lemma NoHitSnoc(procs: seq<Option<Counters>>, es: seq<Event>, q: Quantity)
    requires es != []
    ensures NoHit(procs, es, q) <==> NoHit(procs, es[..|es| - 1], q) && !HitAt(procs, es, |es| - 1, q)
  {
    var front := es[..|es| - 1];
    forall i | 0 <= i < |front|
      ensures HitAt(procs, front, i, q) == HitAt(procs, es, i, q)
    {
      assert es[..i] == front[..i];
    }
  }

  /** Nothing is lost exactly when no event of the run hits a window. */
  lemma {:induction false} NothingLostIff(procs: seq<Option<Counters>>, es: seq<Event>, q: Quantity)
    ensures Of(Run(Init(procs), es).lost, q) == 0 <==> NoHit(procs, es, q)
  {
    if es == [] {
    } else {
      var front := es[..|es| - 1];
      NothingLostIff(procs, front, q);
      LostStep(Run(Init(procs), front), es[|es| - 1], q);
      NoHitSnoc(procs, es, q);
    }
  }

  /** So all of q is held exactly when no fault, or no CPU time, comes between a counter's read and its clear. */
  lemma ConservedIff(procs: seq<Option<Counters>>, es: seq<Event>, q: Quantity)
    requires Of(Run(Init(procs), es).due, q) < U64_RANGE
    ensures Held(Run(Init(procs), es), q) == Of(Run(Init(procs), es).due, q)
            <==> NoHit(procs, es, q)
  {
    ExactConservation(procs, es, q);
    NothingLostIff(procs, es, q);
  }

  // ---------------------------------------------------------------- up to the records the monitor prints

  lemma PrintedInTheEnd(log: seq<R.Event>)
    requires |R.Samples(log)| <= 12000 && R.Marked(R.Samples(log))
    ensures R.Run(log + [R.DrainAll]).drained == R.Samples(log)
  {
    R.FifoUpTo12000(log);
  }

  ghost function Printed(s: State): seq<R.Record> {
    R.Run(s.log + [R.DrainAll]).drained
  }

  lemma HeldIsPrinted(s: State, q: Quantity)
    requires |R.Samples(s.log)| <= 12000 && R.Marked(R.Samples(s.log))
    ensures InRecords(Printed(s), q) + Unrecorded(s, q) == Held(s, q)
  {
    PrintedInTheEnd(s.log);
  }

  /** From fault to print: the books balance with the records the monitor prints instead of those sampled. */
  ghost predicate PipelineBalanced(s: State, q: Quantity) {
    ShortByTurns(InRecords(Printed(s), q) + Unrecorded(s, q) + Of(s.lost, q), Of(s.due, q))
  }

  lemma BalancedWhenPrinted(s: State, q: Quantity)
    requires Balanced(s, q) && |R.Samples(s.log)| <= 12000 && R.Marked(R.Samples(s.log))
    ensures PipelineBalanced(s, q)
  {
    HeldIsPrinted(s, q);
  }

  /**
   For at most 12000 samples, what the monitor has printed or would print now, what is in flight, what counters
   still hold, what left with tasks and what was lost add up to everything.
   */
  lemma PipelineConserves(procs: seq<Option<Counters>>, es: seq<Event>, q: Quantity)
    requires |R.Samples(Run(Init(procs), es).log)| <= 12000 && R.Marked(R.Samples(Run(Init(procs), es).log))
    ensures PipelineBalanced(Run(Init(procs), es), q)
  {
    Conservation(procs, es, q);
    BalancedWhenPrinted(Run(Init(procs), es), q);
  }

  // ---------------------------------------------------------------- an uninterrupted sample

  function InPass(p: Pass, q: Quantity): nat {
    TotalOf(p.totals, q) + InTable(p.procs, q)
  }

  lemma VisitConserves(p: Pass, pid: nat, q: Quantity)
    ensures ShortByTurns(InPass(Visit(p, pid), q), InPass(p, q))
  {
    if Live(p.procs, pid) {
      var c := p.procs[pid].value;
      InTableUpdate(p.procs, pid, Some(ZERO), q);
      AddTotalsShort(p.totals, c, q);
    }
  }

  /** A sample moves what it clears into its totals. */
  lemma {:induction false} LoopConserves(procs: seq<Option<Counters>>, list: seq<nat>, n: nat, q: Quantity)
    requires n <= |list|
    ensures ShortByTurns(InPass(SampleLoop(procs, list, n), q), InTable(procs, q))
  {
    if n == 0 {
    } else {
      LoopConserves(procs, list, n - 1, q);
      var p := SampleLoop(procs, list, n - 1);
      VisitConserves(p, list[n - 1], q);
      ShortChain(InPass(Visit(p, list[n - 1]), q), InPass(p, q), 0, InTable(procs, q));
    }
  }

  /** k steps of the sampler with nothing in between. */
  function Steps(s: State, now: ulong, k: nat): State
    decreases k
  {
    if k == 0 then s else Steps(SamplerStep(s, now), now, k - 1)
  }

  lemma {:induction false} StepsAdd(s: State, now: ulong, j: nat, k: nat)
    ensures Steps(s, now, j + k) == Steps(Steps(s, now, j), now, k)
    decreases j
  {
    if j == 0 {
    } else {
      StepsAdd(SamplerStep(s, now), now, j - 1, k);
    }
  }

  lemma FourReads(s: State, now: ulong)
    requires s.sampler.Reading? && s.sampler.pc == 0
    ensures Steps(s, now, 4) == s.(sampler := s.sampler.(pc := 4, got := Target(s)))
  {
    var s1 := SamplerStep(s, now);
    var s2 := SamplerStep(s1, now);
    var s3 := SamplerStep(s2, now);
    assert Steps(s, now, 4) == Steps(s1, now, 3) == Steps(s2, now, 2) == Steps(s3, now, 1) == SamplerStep(s3, now);
  }

  lemma FourClears(s: State, now: ulong)
    requires s.sampler.Reading? && s.sampler.pc == 4 && BeingRead(s, s.sampler.pid) && Live(s.procs, s.sampler.pid)
    ensures Steps(s, now, 4)
            == s.(procs := s.procs[s.sampler.pid := Some(ZERO)], sampler := s.sampler.(pc := 8))
  {
    var s1 := SamplerStep(s, now);
    var s2 := SamplerStep(s1, now);
    var s3 := SamplerStep(s2, now);
    assert Steps(s, now, 4) == Steps(s1, now, 3) == Steps(s2, now, 2) == Steps(s3, now, 1) == SamplerStep(s3, now);
  }

  ghost predicate Visited(s: State, n: nat, p: Pass, s': State) {
    s' == s.(procs := p.procs, sampler := Looping(n, p.totals))
  }

  /** One turn of the loop. */
  lemma OneVisit(s: State, now: ulong, n: nat, p: Pass) returns (k: nat)
    requires n < |s.list| && s.procs == p.procs && s.sampler == Looping(n, p.totals)
    ensures Visited(s, n + 1, Visit(p, s.list[n]), Steps(s, now, k))
  {
    var s1 := SamplerStep(s, now);
    if Live(s.procs, s.list[n]) {
      FourReads(s1, now);
      var s2 := Steps(s1, now, 4);
      FourClears(s2, now);
      var s3 := Steps(s2, now, 4);
      StepsAdd(s1, now, 4, 4);
      StepsAdd(s1, now, 8, 1);
      assert Steps(s3, now, 1) == SamplerStep(s3, now);
      k := 10;
      assert Steps(s, now, 10) == Steps(s1, now, 9);
    } else {
      k := 1;
      assert Steps(s, now, 1) == s1;
    }
  }

  lemma {:induction false} VisitsAll(s: State, now: ulong, n: nat) returns (k: nat)
    requires s.sampler == Idle && n <= |s.list|
    ensures Visited(s, n, SampleLoop(s.procs, s.list, n), Steps(s, now, k))
  {
    if n == 0 {
      k := 1;
      assert Steps(s, now, 1) == SamplerStep(s, now);
    } else {
      var j := VisitsAll(s, now, n - 1);
      var i := OneVisit(Steps(s, now, j), now, n - 1, SampleLoop(s.procs, s.list, n - 1));
      StepsAdd(s, now, j, i);
      k := j + i;
    }
  }

  /** The state after a whole sample. */
  function Sampled(s: State, now: ulong): State {
    var p := SampleLoop(s.procs, s.list, |s.list|);
    var t := p.totals;
    s.(procs := p.procs, log := s.log + [R.Sample(R.Record(now, t.minFlt, t.majFlt, t.cpu))])
  }

  /** With nothing in between, the steps of a sample are the plain loop over the list. */
  lemma UninterruptedSample(s: State, now: ulong) returns (k: nat)
    requires s.sampler == Idle
    ensures Steps(s, now, k) == Sampled(s, now)
  {
    var j := VisitsAll(s, now, |s.list|);
    StepsAdd(s, now, j, 1);
    assert Steps(Steps(s, now, j), now, 1) == SamplerStep(Steps(s, now, j), now);
    k := j + 1;
  }

  lemma {:induction false} LoopKeepsLive(procs: seq<Option<Counters>>, list: seq<nat>, n: nat, pid: nat)
    requires n <= |list|
    ensures Live(SampleLoop(procs, list, n).procs, pid) <==> Live(procs, pid)
  {
    if n == 0 {
    } else {
      LoopKeepsLive(procs, list, n - 1, pid);
    }
  }

  lemma {:induction false} ClearedStays(procs: seq<Option<Counters>>, list: seq<nat>, i: nat, n: nat)
    requires i < n <= |list|
    ensures var all := SampleLoop(procs, list, n).procs;
      Live(procs, list[i]) ==> Live(all, list[i]) && all[list[i]].value == ZERO
  {
    LoopKeepsLive(procs, list, n - 1, list[i]);
    if i == n - 1 {
    } else {
      ClearedStays(procs, list, i, n - 1);
    }
  }

  /** A pid that is listed again is not counted again: its later visits change neither totals nor counters. */
  lemma DuplicateCountsOnce(procs: seq<Option<Counters>>, list: seq<nat>, i: nat, j: nat)
    requires i < j < |list| && list[i] == list[j]
    ensures SampleLoop(procs, list, j + 1) == SampleLoop(procs, list, j)
  {
    LoopKeepsLive(procs, list, j, list[j]);
    ClearedStays(procs, list, i, j);
  }

  // ---------------------------------------------------------------- a fault in the window

  function Repeat(now: ulong, k: nat): (es: seq<Event>)
    ensures |es| == k
  {
    if k == 0 then [] else Repeat(now, k - 1) + [SamplerRuns(now)]
  }

  lemma RunSnoc(s: State, es: seq<Event>, e: Event)
    ensures Run(s, es + [e]) == Next(Run(s, es), e)
  {
    assert (es + [e])[..|es|] == es;
  }

  /** Steps without interruption are part of a run. */
  lemma {:induction false} RunRepeat(s: State, es: seq<Event>, now: ulong, k: nat)
    ensures Run(s, es + Repeat(now, k)) == Steps(Run(s, es), now, k)
  {
    if k == 0 {
      assert es + Repeat(now, 0) == es;
    } else {
      RunRepeat(s, es, now, k - 1);
      assert es + Repeat(now, k) == es + Repeat(now, k - 1) + [SamplerRuns(now)];
      RunSnoc(s, es + Repeat(now, k - 1), SamplerRuns(now));
      StepsAdd(Run(s, es), now, k - 1, 1);
      assert Steps(Steps(Run(s, es), now, k - 1), now, 1) == SamplerStep(Steps(Run(s, es), now, k - 1), now);
    }
  }

  lemma ToTheWindow(s: State, now: ulong)
    requires s.sampler.Idle? && s.list == [0] && Live(s.procs, 0)
    ensures Steps(s, now, 6) == s.(sampler := Reading(0, Totals(0, 0, 0), 0, 4, s.procs[0].value, None))
  {
    var s1 := SamplerStep(s, now);
    var s2 := SamplerStep(s1, now);
    assert Steps(s, now, 6) == Steps(s1, now, 5) == Steps(s2, now, 4);
    FourReads(s2, now);
  }

  lemma FromTheWindow(s: State, now: ulong)
    requires s.list == [0] && Live(s.procs, 0) && s.sampler == Reading(0, Totals(0, 0, 0), 0, 4, ZERO, None)
    ensures Steps(s, now, 6) == s.(procs := s.procs[0 := Some(ZERO)], sampler := Idle,
                                   log := s.log + [R.Sample(R.Record(now, 0, 0, 0))])
  {
    FourClears(s, now);
    var s4 := Steps(s, now, 4);
    var s5 := SamplerStep(s4, now);
    StepsAdd(s, now, 4, 2);
    assert Steps(s4, now, 2) == Steps(s5, now, 1) == SamplerStep(s5, now);
  }

  /** A sample of one pid with d generated after the four reads: the record is empty and so are the counters. */
  lemma LostInWindow(s: State, d: Counters, now: ulong) returns (es: seq<Event>)
    requires s.sampler.Idle? && s.list == [0] && Live(s.procs, 0) && s.procs[0].value == ZERO
    ensures Run(s, es) == s.(due := Plus(s.due, d), lost := Plus(s.lost, d),
                             log := s.log + [R.Sample(R.Record(now, 0, 0, 0))])
  {
    ToTheWindow(s, now);
    RunRepeat(s, [], now, 6);
    var e1, s1 := [] + Repeat(now, 6), Steps(s, now, 6);
    RunSnoc(s, e1, Work(0, d));
    var e2, s2 := e1 + [Work(0, d)], Next(s1, Work(0, d));
    FromTheWindow(s2, now);
    RunRepeat(s, e2, now, 6);
    es := e2 + Repeat(now, 6);
    assert s2.procs[0 := Some(ZERO)] == s.procs;
  }
}
