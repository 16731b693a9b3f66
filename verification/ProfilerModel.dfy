/**
 The counters of the page-fault profiler (mp3.c, mp3_given.h) as a transition system: tasks accumulate faults
 and CPU time, and a sample reads and clears the counters of every listed process.

 A sample takes the list lock, but the lock guards the list and not the counters. So it goes on in small steps,
 one for each counter get_cpu_use reads or clears, and tasks may fault, start and exit between any two of
 them. All arithmetic is on unsigned long.
 */
module ProfilerModel {
  import opened Wrappers
  import opened Words
  import opened Sequences
  import R = SampleRing

  datatype Counters = Counters(minFlt: ulong, majFlt: ulong, utime: ulong, stime: ulong)
  const ZERO := Counters(0, 0, 0, 0)

  /** A sample's totals: minor faults, major faults, CPU time. */
  datatype Totals = Totals(minFlt: ulong, majFlt: ulong, cpu: ulong)

  /** Unbounded sums of the three quantities. */
  datatype Sums = Sums(minFlt: nat, majFlt: nat, cpu: nat)

  /**
   Where mp3_work_function stands. Looping: it is about to look at list entry n. Reading: it is in get_cpu_use,
   has done the first pc of its eight accesses to the counters and has got so many of them. A task that
   exits meanwhile is gone from the pid table, but its structure can still be read.
   */
  datatype Sampler =
    | Idle
    | Looping(n: nat, totals: Totals)
    | Reading(n: nat, totals: Totals, pid: nat, pc: nat, got: Counters, gone: Option<Counters>)

  /**
   `procs` is the kernel's pid table; the list may name a pid twice, or one that has no task. `log` is what has
   happened to the shared buffer. The last three fields are history: what was there to begin with or was generated
   since, what left the system with its task, and what was generated in a counter between its read and its clear.
   */
  datatype State = State(
    procs: seq<Option<Counters>>, list: seq<nat>, sampler: Sampler, log: seq<R.Event>,
    due: Sums, departed: Sums, lost: Sums)

  /** `now` is the value of jiffies. */
  datatype Event =
    | Work(pid: nat, d: Counters)
    | Spawn(pid: nat, c: Counters)
    | Exit(pid: nat)
    | Register(pid: nat, gotMemory: bool)
    | Unregister(pid: nat)
    | SamplerRuns(now: ulong)
    | Drain

  predicate Live(procs: seq<Option<Counters>>, pid: nat) {
    pid < |procs| && procs[pid].Some?
  }

  function Plus(s: Sums, c: Counters): Sums {
    Sums(s.minFlt + c.minFlt, s.majFlt + c.majFlt, s.cpu + c.utime + c.stime)
  }

  function AddCounters(c: Counters, d: Counters): Counters {
    Counters(WrapU64(c.minFlt + d.minFlt), WrapU64(c.majFlt + d.majFlt),
             WrapU64(c.utime + d.utime), WrapU64(c.stime + d.stime))
  }

  function AddTotals(t: Totals, c: Counters): Totals {
    Totals(WrapU64(t.minFlt + c.minFlt), WrapU64(t.majFlt + c.majFlt), WrapU64(WrapU64(t.cpu + c.utime) + c.stime))
  }

  // ---------------------------------------------------------------- get_cpu_use, access by access

  /** Access number pc, a read: min_flt, maj_flt, utime, stime. */
  function ReadField(got: Counters, c: Counters, pc: nat): Counters {
    match pc
    case 0 => got.(minFlt := c.minFlt)
    case 1 => got.(majFlt := c.majFlt)
    case 2 => got.(utime := c.utime)
    case _ => got.(stime := c.stime)
  }

  /** Access number pc, a clear: maj_flt, min_flt, utime, stime. */
  function ClearField(c: Counters, pc: nat): Counters {
    match pc
    case 4 => c.(majFlt := 0)
    case 5 => c.(minFlt := 0)
    case 6 => c.(utime := 0)
    case _ => c.(stime := 0)
  }

  /** The counters that pc accesses have read, and those they have not. */
  function ReadBy(c: Counters, pc: nat): Counters {
    Counters(if pc > 0 then c.minFlt else 0, if pc > 1 then c.majFlt else 0,
             if pc > 2 then c.utime else 0, if pc > 3 then c.stime else 0)
  }

  function Unread(c: Counters, pc: nat): Counters {
    Counters(if pc > 0 then 0 else c.minFlt, if pc > 1 then 0 else c.majFlt,
             if pc > 2 then 0 else c.utime, if pc > 3 then 0 else c.stime)
  }

  /** Those they have cleared, and those they have read but not cleared. */
  function ClearedBy(c: Counters, pc: nat): Counters {
    Counters(if pc > 5 then c.minFlt else 0, if pc > 4 then c.majFlt else 0,
             if pc > 6 then c.utime else 0, if pc > 7 then c.stime else 0)
  }

  function Window(c: Counters, pc: nat): Counters {
    Counters(if 0 < pc <= 5 then c.minFlt else 0, if 1 < pc <= 4 then c.majFlt else 0,
             if 2 < pc <= 6 then c.utime else 0, if 3 < pc <= 7 then c.stime else 0)
  }

  /** get_cpu_use is working on the task that has this pid. */
  predicate BeingRead(s: State, pid: nat) {
    s.sampler.Reading? && s.sampler.pid == pid && s.sampler.gone.None?
  }

  /** Of what the task's counters have or get, the part the sampler will clear without having read it. */
  function Exposed(s: State, pid: nat, c: Counters): Counters {
    if BeingRead(s, pid) then Window(c, s.sampler.pc) else ZERO
  }

  // ---------------------------------------------------------------- the transitions

  /** The position of the first listed occurrence of pid, or |list|. */
  function FirstIndex(list: seq<nat>, pid: nat, from: nat := 0): (i: nat)
    requires from <= |list|
    ensures from <= i <= |list|
    ensures i < |list| ==> list[i] == pid
    ensures forall j | from <= j < i :: list[j] != pid
    decreases |list| - from
  {
    if from == |list| || list[from] == pid then from else FirstIndex(list, pid, from + 1)
  }

  function WithoutFirst(list: seq<nat>, pid: nat): seq<nat> {
    var i := FirstIndex(list, pid);
    if i == |list| then list else RemoveAt(list, i)
  }

  function WorkStep(s: State, pid: nat, d: Counters): State {
    if !Live(s.procs, pid) then s
    else
      s.(procs := s.procs[pid := Some(AddCounters(s.procs[pid].value, d))],
         due := Plus(s.due, d), lost := Plus(s.lost, Exposed(s, pid, d)))
  }

  function SpawnStep(s: State, pid: nat, c: Counters): State {
    if pid >= |s.procs| || s.procs[pid].Some? then s
    else s.(procs := s.procs[pid := Some(c)], due := Plus(s.due, c))
  }

  /** What the sampler is still going to read does not leave with the task, nor does what it has read. */
  function ExitStep(s: State, pid: nat): State {
    if !Live(s.procs, pid) then s
    else
      var c, s1 := s.procs[pid].value, s.(procs := s.procs[pid := None]);
      if BeingRead(s, pid) then
        s1.(sampler := s.sampler.(gone := Some(c)), departed := Plus(s.departed, ClearedBy(c, s.sampler.pc)))
      else
        s1.(departed := Plus(s.departed, c))
  }

  /** The counters get_cpu_use reads. */
  function Target(s: State): Counters
    requires s.sampler.Reading?
  {
    if s.sampler.gone.Some? then s.sampler.gone.value
    else if Live(s.procs, s.sampler.pid) then s.procs[s.sampler.pid].value
    else ZERO
  }

  function ReadStep(s: State): State
    requires s.sampler.Reading?
  {
    s.(sampler := s.sampler.(pc := s.sampler.pc + 1, got := ReadField(s.sampler.got, Target(s), s.sampler.pc)))
  }

  function ClearStep(s: State): State
    requires s.sampler.Reading?
  {
    var p, pc := s.sampler.pid, s.sampler.pc;
    var procs := if BeingRead(s, p) && Live(s.procs, p)
                 then s.procs[p := Some(ClearField(s.procs[p].value, pc))] else s.procs;
    s.(procs := procs, sampler := s.sampler.(pc := pc + 1))
  }

  /** One step of mp3_work_function, past its test of the sampling period. */
  function SamplerStep(s: State, now: ulong): State {
    match s.sampler
    case Idle => s.(sampler := Looping(0, Totals(0, 0, 0)))
    case Looping(n, t) =>
      if n >= |s.list| then
        s.(sampler := Idle, log := s.log + [R.Sample(R.Record(now, t.minFlt, t.majFlt, t.cpu))])
      else if Live(s.procs, s.list[n]) then
        s.(sampler := Reading(n, t, s.list[n], 0, ZERO, None))
      else
        s.(sampler := Looping(n + 1, t))
    case Reading(n, t, _, pc, got, _) =>
      if pc < 4 then ReadStep(s)
      else if pc < 8 then ClearStep(s)
      else s.(sampler := Looping(n + 1, AddTotals(t, got)))
  }

  /** While a sample holds the list lock, registrations wait for it. */
  function Next(s: State, e: Event): State {
    match e
    case Work(pid, d) => WorkStep(s, pid, d)
    case Spawn(pid, c) => SpawnStep(s, pid, c)
    case Exit(pid) => ExitStep(s, pid)
    case Register(pid, gotMemory) => if s.sampler.Idle? && gotMemory then s.(list := s.list + [pid]) else s
    case Unregister(pid) => if s.sampler.Idle? then s.(list := WithoutFirst(s.list, pid)) else s
    case SamplerRuns(now) => SamplerStep(s, now)
    case Drain => s.(log := s.log + [R.DrainAll])
  }

  function In(c: Counters, q: Quantity): nat {
    match q case Minor => c.minFlt case Major => c.majFlt case Cpu => c.utime + c.stime
  }

  function InSlot(o: Option<Counters>, q: Quantity): nat {
    if o.Some? then In(o.value, q) else 0
  }

  /** What the counters of all tasks hold. */
  function InTable(procs: seq<Option<Counters>>, q: Quantity): nat {
    if procs == [] then 0 else InTable(procs[..|procs| - 1], q) + InSlot(procs[|procs| - 1], q)
  }

  function TableSums(procs: seq<Option<Counters>>): Sums {
    Sums(InTable(procs, Minor), InTable(procs, Major), InTable(procs, Cpu))
  }

  function Init(procs: seq<Option<Counters>>): State {
    State(procs, [], Idle, [], TableSums(procs), Sums(0, 0, 0), Sums(0, 0, 0))
  }

  function Run(s: State, es: seq<Event>): State {
    if es == [] then s else Next(Run(s, es[..|es| - 1]), es[|es| - 1])
  }

  // ---------------------------------------------------------------- the books

  datatype Quantity = Minor | Major | Cpu

  function Of(s: Sums, q: Quantity): nat {
    match q case Minor => s.minFlt case Major => s.majFlt case Cpu => s.cpu
  }

  function TotalOf(t: Totals, q: Quantity): nat {
    match q case Minor => t.minFlt case Major => t.majFlt case Cpu => t.cpu
  }

  function InRecord(r: R.Record, q: Quantity): nat {
    match q case Minor => r.minFlt case Major => r.majFlt case Cpu => r.cpu
  }

  function InRecords(rs: seq<R.Record>, q: Quantity): nat {
    if rs == [] then 0 else InRecords(rs[..|rs| - 1], q) + InRecord(rs[|rs| - 1], q)
  }

  /** What a sample in progress has taken or will take from a task that has exited. */
  function InFlight(m: Sampler, q: Quantity): nat {
    match m
    case Idle => 0
    case Looping(_, t) => TotalOf(t, q)
    case Reading(_, t, _, pc, got, gone) =>
      TotalOf(t, q) + In(ReadBy(got, pc), q) + if gone.Some? then In(Unread(gone.value, pc), q) else 0
  }

  /** What still stands in counters although the sampler has read it already. */
  function Doomed(s: State): Counters {
    if s.sampler.Reading? && Live(s.procs, s.sampler.pid)
    then Exposed(s, s.sampler.pid, s.procs[s.sampler.pid].value)
    else ZERO
  }

  /** In flight, still to be counted, or gone with a task. */
  function Unrecorded(s: State, q: Quantity): int {
    InFlight(s.sampler, q) + (InTable(s.procs, q) - In(Doomed(s), q)) + Of(s.departed, q)
  }

  /** All that the samples have or can still account for. */
  function Held(s: State, q: Quantity): int {
    InRecords(R.Samples(s.log), q) + Unrecorded(s, q)
  }

  // ---------------------------------------------------------------- a sample without interruption

  datatype Pass = Pass(procs: seq<Option<Counters>>, totals: Totals)

  /** One turn of the loop: a live pid's counters are added and cleared, any other pid is skipped. */
  function Visit(p: Pass, pid: nat): Pass {
    if Live(p.procs, pid) then Pass(p.procs[pid := Some(ZERO)], AddTotals(p.totals, p.procs[pid].value)) else p
  }

  /** The pid table and the totals after the loop has visited the first n listed pids. */
  function SampleLoop(procs: seq<Option<Counters>>, list: seq<nat>, n: nat): Pass
    requires n <= |list|
  {
    if n == 0 then Pass(procs, Totals(0, 0, 0)) else Visit(SampleLoop(procs, list, n - 1), list[n - 1])
  }
}
