/**
 What each event of the profiler does, field by field: whose counters work goes to, which entry an unregistration
 removes, what each access of get_cpu_use touches, and what a whole sample writes.
 */
module ProfilerEffects {
  import opened Wrappers
  import opened Words
  import opened ProfilerModel
  import opened ProfilerProofs
  import R = SampleRing

  /** Wrapping along the way makes no difference. */
  lemma WrapSum(x: nat, y: nat)
    ensures WrapU64(WrapU64(x) + y) == WrapU64(x + y)
  {
  }

  // ---------------------------------------------------------------- the process list

  /** A pid is appended, wherever it already stands, unless memory runs out. */
  lemma RegisterEffect(s: State, pid: nat)
    requires s.sampler.Idle?
    ensures var s' := Next(s, Register(pid, true)); s' == s.(list := s'.list) && s'.list == s.list + [pid]
    ensures Next(s, Register(pid, false)) == s
  {
  }

  /** The first entry with the pid goes, and no other. */
  lemma UnregisterEffect(s: State, i: nat)
    requires s.sampler.Idle? && i < |s.list| && s.list[i] !in s.list[..i]
    ensures var s' := Next(s, Unregister(s.list[i]));
      s' == s.(list := s'.list) && s'.list == s.list[..i] + s.list[i + 1..]
  {
    assert FirstIndex(s.list, s.list[i]) == i;
  }

  lemma UnregisterUnlisted(s: State, pid: nat)
    requires pid !in s.list
    ensures Next(s, Unregister(pid)) == s
  {
    assert FirstIndex(s.list, pid) == |s.list|;
  }

  /** Registering a pid that is not listed and unregistering it restores the list. */
  lemma UnregisterUndoesRegister(s: State, pid: nat)
    requires s.sampler.Idle? && pid !in s.list
    ensures Next(Next(s, Register(pid, true)), Unregister(pid)) == s
  {
    var s1 := Next(s, Register(pid, true));
    assert s1.list[|s.list|] == pid && s1.list[..|s.list|] == s.list;
    UnregisterEffect(s1, |s.list|);
  }

  lemma ListLocked(s: State, pid: nat, gotMemory: bool)
    requires !s.sampler.Idle?
    ensures Next(s, Register(pid, gotMemory)) == Next(s, Unregister(pid)) == s
  {
  }

  // ---------------------------------------------------------------- tasks

  /** Of the table only this pid's entry may have changed. */
  ghost predicate OnlyEntry(s: State, s': State, pid: nat) {
    && |s'.procs| == |s.procs| && s'.list == s.list && s'.log == s.log
    && forall p | 0 <= p < |s.procs| && p != pid :: s'.procs[p] == s.procs[p]
  }

  /** Work adds to the counters of the task that did it, in 64-bit words, and to what is due. */
  lemma WorkEffect(s: State, pid: nat, d: Counters)
    requires Live(s.procs, pid)
    ensures var s', c := Next(s, Work(pid, d)), s.procs[pid].value;
      && OnlyEntry(s, s', pid) && s'.sampler == s.sampler && s'.departed == s.departed
      && s'.procs[pid].Some?
      && s'.procs[pid].value.minFlt == (c.minFlt + d.minFlt) % 0x1_0000_0000_0000_0000
      && s'.procs[pid].value.majFlt == (c.majFlt + d.majFlt) % 0x1_0000_0000_0000_0000
      && s'.procs[pid].value.utime == (c.utime + d.utime) % 0x1_0000_0000_0000_0000
      && s'.procs[pid].value.stime == (c.stime + d.stime) % 0x1_0000_0000_0000_0000
      && s'.due.minFlt == s.due.minFlt + d.minFlt && s'.due.majFlt == s.due.majFlt + d.majFlt
      && s'.due.cpu == s.due.cpu + d.utime + d.stime
  {
  }

  /** A new task brings its counters along; an exiting one leaves the table. */
  lemma SpawnEffect(s: State, pid: nat, c: Counters)
    requires pid < |s.procs| && s.procs[pid] == None
    ensures var s' := Next(s, Spawn(pid, c));
      && OnlyEntry(s, s', pid) && s'.sampler == s.sampler && s'.procs[pid] == Some(c)
      && s'.departed == s.departed && s'.lost == s.lost
      && s'.due.minFlt == s.due.minFlt + c.minFlt && s'.due.majFlt == s.due.majFlt + c.majFlt
      && s'.due.cpu == s.due.cpu + c.utime + c.stime
  {
  }

  lemma ExitEffect(s: State, pid: nat)
    requires Live(s.procs, pid)
    ensures var s', c := Next(s, Exit(pid)), s.procs[pid].value;
      && OnlyEntry(s, s', pid) && s'.procs[pid] == None && s'.due == s.due && s'.lost == s.lost
      && (!s.sampler.Reading? || s.sampler.pid != pid ==>
            && s'.sampler == s.sampler
            && s'.departed.minFlt == s.departed.minFlt + c.minFlt && s'.departed.majFlt == s.departed.majFlt + c.majFlt
            && s'.departed.cpu == s.departed.cpu + c.utime + c.stime)
      && (BeingRead(s, pid) ==> s'.sampler == s.sampler.(gone := Some(c)))
  {
  }

  /** Nothing happens to a task that is not there, or is there already. */
  lemma NoSuchTask(s: State, pid: nat, c: Counters)
    ensures !Live(s.procs, pid) ==> Next(s, Work(pid, c)) == Next(s, Exit(pid)) == s
    ensures Live(s.procs, pid) ==> Next(s, Spawn(pid, c)) == s
  {
  }

  // ---------------------------------------------------------------- the accesses of one visit

  /** Between visits: the next listed pid is looked up, or, at the end, the totals go into a record. */
  lemma LoopEffect(s: State, now: ulong)
    requires s.sampler.Looping?
    ensures var s', n, t := Next(s, SamplerRuns(now)), s.sampler.n, s.sampler.totals;
      && s'.procs == s.procs && s'.list == s.list
      && (n >= |s.list| ==>
            s'.sampler == Idle && s'.log == s.log + [R.Sample(R.Record(now, t.minFlt, t.majFlt, t.cpu))])
      && (n < |s.list| ==> s'.log == s.log)
      && (n < |s.list| && Live(s.procs, s.list[n]) ==>
            && s'.sampler.Reading? && s'.sampler.n == n && s'.sampler.totals == t
            && s'.sampler.pid == s.list[n] && s'.sampler.pc == 0 && s'.sampler.gone == None)
      && (n < |s.list| && !Live(s.procs, s.list[n]) ==> s'.sampler == Looping(n + 1, t))
  {
  }

  /** The first four accesses read min_flt, maj_flt, utime and stime, one each, of the task even if it has exited. */
  lemma ReadEffect(s: State, c: Counters, now: ulong)
    requires s.sampler.Reading? && s.sampler.pc < 4
    requires if s.sampler.gone.Some? then c == s.sampler.gone.value
             else Live(s.procs, s.sampler.pid) && c == s.procs[s.sampler.pid].value
    ensures var s', m := Next(s, SamplerRuns(now)), s.sampler;
      && s' == s.(sampler := m.(pc := m.pc + 1, got := s'.sampler.got))
      && s'.sampler.got.minFlt == (if m.pc == 0 then c.minFlt else m.got.minFlt)
      && s'.sampler.got.majFlt == (if m.pc == 1 then c.majFlt else m.got.majFlt)
      && s'.sampler.got.utime == (if m.pc == 2 then c.utime else m.got.utime)
      && s'.sampler.got.stime == (if m.pc == 3 then c.stime else m.got.stime)
  {
  }

  /** The other four clear maj_flt, min_flt, utime and stime. */
  lemma ClearEffect(s: State, now: ulong)
    requires s.sampler.Reading? && 4 <= s.sampler.pc < 8
    requires s.sampler.gone == None && Live(s.procs, s.sampler.pid)
    ensures var s', m, c := Next(s, SamplerRuns(now)), s.sampler, s.procs[s.sampler.pid].value;
      && OnlyEntry(s, s', m.pid) && s'.sampler == m.(pc := m.pc + 1) && s'.procs[m.pid].Some?
      && s'.procs[m.pid].value.majFlt == (if m.pc == 4 then 0 else c.majFlt)
      && s'.procs[m.pid].value.minFlt == (if m.pc == 5 then 0 else c.minFlt)
      && s'.procs[m.pid].value.utime == (if m.pc == 6 then 0 else c.utime)
      && s'.procs[m.pid].value.stime == (if m.pc == 7 then 0 else c.stime)
  {
  }

  /** Clearing the counters of a task that has exited touches no other task, not even one with its pid. */
  lemma ClearOfExited(s: State, now: ulong)
    requires s.sampler.Reading? && 4 <= s.sampler.pc < 8 && s.sampler.gone.Some?
    ensures Next(s, SamplerRuns(now)) == s.(sampler := s.sampler.(pc := s.sampler.pc + 1))
  {
  }

  /** Then what was got is added to the totals, and the loop goes on. */
  lemma AddEffect(s: State, now: ulong)
    requires s.sampler.Reading? && s.sampler.pc == 8
    ensures var s', m := Next(s, SamplerRuns(now)), s.sampler;
      && s' == s.(sampler := s'.sampler) && s'.sampler.Looping? && s'.sampler.n == m.n + 1
      && s'.sampler.totals.minFlt == (m.totals.minFlt + m.got.minFlt) % 0x1_0000_0000_0000_0000
      && s'.sampler.totals.majFlt == (m.totals.majFlt + m.got.majFlt) % 0x1_0000_0000_0000_0000
      && s'.sampler.totals.cpu == (m.totals.cpu + m.got.utime + m.got.stime) % 0x1_0000_0000_0000_0000
  {
    WrapSum(s.sampler.totals.cpu + s.sampler.got.utime, s.sampler.got.stime);
  }

  // ---------------------------------------------------------------- a whole sample

  /** The sum of one quantity over the live pids below n that are listed, each taken once. */
  function ListedSum(procs: seq<Option<Counters>>, list: seq<nat>, f: Counters -> nat, n: nat): nat
    requires n <= |procs|
  {
    if n == 0 then 0
    else
      ListedSum(procs, list, f, n - 1)
      + if n - 1 in list && procs[n - 1].Some? then f(procs[n - 1].value) else 0
  }

  lemma {:induction false} ListedSumAdd(procs: seq<Option<Counters>>, list: seq<nat>, pid: nat, f: Counters -> nat,
                                        n: nat)
    requires n <= |procs|
    ensures ListedSum(procs, list + [pid], f, n)
            == ListedSum(procs, list, f, n)
               + if pid < n && pid !in list && procs[pid].Some? then f(procs[pid].value) else 0
  {
    if n == 0 {
    } else {
      ListedSumAdd(procs, list, pid, f, n - 1);
      assert n - 1 in list + [pid] <==> n - 1 in list || n - 1 == pid;
    }
  }

  /** The table with the listed pids cleared. */
  ghost predicate ListedCleared(procs: seq<Option<Counters>>, list: seq<nat>, procs': seq<Option<Counters>>) {
    && |procs'| == |procs|
    && forall p | 0 <= p < |procs| ::
         procs'[p] == if p in list && procs[p].Some? then Some(ZERO) else procs[p]
  }

  const ALL_MIN: Counters -> nat := (c: Counters) => c.minFlt
  const ALL_MAJ: Counters -> nat := (c: Counters) => c.majFlt
  const ALL_CPU: Counters -> nat := (c: Counters) => c.utime + c.stime

  ghost predicate TotalsOfListed(procs: seq<Option<Counters>>, list: seq<nat>, t: Totals) {
    && t.minFlt == ListedSum(procs, list, ALL_MIN, |procs|) % 0x1_0000_0000_0000_0000
    && t.majFlt == ListedSum(procs, list, ALL_MAJ, |procs|) % 0x1_0000_0000_0000_0000
    && t.cpu == ListedSum(procs, list, ALL_CPU, |procs|) % 0x1_0000_0000_0000_0000
  }

  lemma VisitTotals(procs: seq<Option<Counters>>, list: seq<nat>, t: Totals, pid: nat)
    requires TotalsOfListed(procs, list, t) && Live(procs, pid) && pid !in list
    ensures TotalsOfListed(procs, list + [pid], AddTotals(t, procs[pid].value))
  {
    var c := procs[pid].value;
    ListedSumAdd(procs, list, pid, ALL_MIN, |procs|);
    ListedSumAdd(procs, list, pid, ALL_MAJ, |procs|);
    ListedSumAdd(procs, list, pid, ALL_CPU, |procs|);
    WrapSum(ListedSum(procs, list, ALL_MIN, |procs|), c.minFlt);
    WrapSum(ListedSum(procs, list, ALL_MAJ, |procs|), c.majFlt);
    WrapSum(ListedSum(procs, list, ALL_CPU, |procs|), c.utime);
    WrapSum(ListedSum(procs, list, ALL_CPU, |procs|) + c.utime, c.stime);
  }

  lemma NoTotals(procs: seq<Option<Counters>>, list: seq<nat>, t: Totals, pid: nat)
    requires TotalsOfListed(procs, list, t) && (pid in list || !Live(procs, pid))
    ensures TotalsOfListed(procs, list + [pid], t)
  {
    ListedSumAdd(procs, list, pid, ALL_MIN, |procs|);
    ListedSumAdd(procs, list, pid, ALL_MAJ, |procs|);
    ListedSumAdd(procs, list, pid, ALL_CPU, |procs|);
  }

  lemma AddNothing(t: Totals)
    ensures AddTotals(t, ZERO) == t
  {
  }

  lemma VisitEffect(procs: seq<Option<Counters>>, list: seq<nat>, p: Pass, pid: nat)
    requires ListedCleared(procs, list, p.procs) && TotalsOfListed(procs, list, p.totals)
    ensures ListedCleared(procs, list + [pid], Visit(p, pid).procs)
    ensures TotalsOfListed(procs, list + [pid], Visit(p, pid).totals)
  {
    if Live(procs, pid) && pid !in list {
      VisitTotals(procs, list, p.totals, pid);
    } else {
      AddNothing(p.totals);
      NoTotals(procs, list, p.totals, pid);
    }
  }

  lemma {:induction false} NothingListed(procs: seq<Option<Counters>>, f: Counters -> nat, n: nat)
    requires n <= |procs|
    ensures ListedSum(procs, [], f, n) == 0
  {
    if n == 0 {
    } else {
      NothingListed(procs, f, n - 1);
    }
  }

  lemma {:induction false} LoopSums(procs: seq<Option<Counters>>, list: seq<nat>, n: nat)
    requires n <= |list|
    ensures ListedCleared(procs, list[..n], SampleLoop(procs, list, n).procs)
    ensures TotalsOfListed(procs, list[..n], SampleLoop(procs, list, n).totals)
  {
    if n == 0 {
      NothingListed(procs, ALL_MIN, |procs|);
      NothingListed(procs, ALL_MAJ, |procs|);
      NothingListed(procs, ALL_CPU, |procs|);
    } else {
      LoopSums(procs, list, n - 1);
      VisitEffect(procs, list[..n - 1], SampleLoop(procs, list, n - 1), list[n - 1]);
      assert list[..n] == list[..n - 1] + [list[n - 1]];
    }
  }

  /**
   An uninterrupted sample writes one record, with the time it was written and, each mod 2^64, the minor faults,
   major faults and CPU time of the listed tasks, counting each task once. It clears their counters and no others.
   */
  lemma SampleEffect(s: State, now: ulong) returns (k: nat, r: R.Record)
    requires s.sampler.Idle?
    ensures var s' := Steps(s, now, k);
      && s' == s.(procs := s'.procs, log := s.log + [R.Sample(r)])
      && ListedCleared(s.procs, s.list, s'.procs)
      && r.jiffies == now
      && TotalsOfListed(s.procs, s.list, Totals(r.minFlt, r.majFlt, r.cpu))
    ensures Steps(s, now, k) == Sampled(s, now)
  {
    k := UninterruptedSample(s, now);
    LoopSums(s.procs, s.list, |s.list|);
    assert s.list[..|s.list|] == s.list;
    var t := SampleLoop(s.procs, s.list, |s.list|).totals;
    r := R.Record(now, t.minFlt, t.majFlt, t.cpu);
  }

  lemma DrainEffect(s: State)
    ensures Next(s, Drain) == s.(log := s.log + [R.DrainAll])
  {
  }
}
