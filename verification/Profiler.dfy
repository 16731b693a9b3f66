/**
 The code of mp3.c over its own state, and monitor.c on the shared buffer. Every call is shown to do what the
 transition system does, so what ProfilerProofs says of its runs holds of every sequence of calls.
 */
module Profiler {
  import opened Wrappers
  import opened Words
  import opened Sequences
  import opened ProfilerModel
  import opened ProfilerProofs
  import R = SampleRing

  const THRESH_SAMPLING_PERIOD_MS := 25

  method TakeWord(buf: array<ulong>, index: nat) returns (w: ulong, next: nat)
    requires buf.Length == R.CAPACITY && index <= R.BUFD_MAX
    modifies buf
    ensures w == old(buf[index])
    ensures buf[..] == old(buf[..])[index := R.EMPTY]
    ensures next == R.Advance(index)
  {
    w := buf[index];
    buf[index] := R.EMPTY;
    next := index + 1;
    if next >= R.BUFD_MAX {
      next := 0;
    }
  }

  /** The body of the drain loop. */
  method TakeRecord(buf: array<ulong>, index: nat) returns (r: R.Record, next: nat)
    requires buf.Length == R.CAPACITY && index <= R.BUFD_MAX
    modifies buf
    ensures r == R.Taken(old(buf[..]), index)
    ensures buf[..] == R.Erased(old(buf[..]), index)
    ensures next == R.Advance4(index)
  {
    var w0, w1, w2, w3: ulong;
    next := index;
    w0, next := TakeWord(buf, next);
    w1, next := TakeWord(buf, next);
    w2, next := TakeWord(buf, next);
    w3, next := TakeWord(buf, next);
    r := R.Record(w0, w1, w2, w3);
  }

  /** The scan loop. */
  method FindFirst(buf: array<ulong>) returns (index: nat)
    requires buf.Length == R.CAPACITY
    ensures index == R.Scan(buf[..]) <= R.BUFD_MAX
  {
    index := 0;
    while index < R.BUFD_MAX && buf[index] == R.EMPTY
      invariant index <= R.BUFD_MAX
      invariant R.Scan(buf[..]) == R.Scan(buf[..], index)
    {
      index := index + 1;
    }
  }

  /** main of monitor.c on the mapped buffer: the records it prints. */
  method Monitor(buf: array<ulong>) returns (out: seq<R.Record>)
    requires buf.Length == R.CAPACITY
    modifies buf
    ensures out == R.Drain(old(buf[..]), R.Scan(old(buf[..]))).0
    ensures buf[..] == R.Drain(old(buf[..]), R.Scan(old(buf[..]))).1
  {
    var index: nat := FindFirst(buf);
    out := [];
    ghost var whole := R.Drain(buf[..], index);
    while buf[index] != R.EMPTY
      invariant index <= R.BUFD_MAX
      invariant whole.0 == out + R.Drain(buf[..], index).0
      invariant whole.1 == R.Drain(buf[..], index).1
      decreases R.Used(buf[..], R.CAPACITY)
    {
      R.ErasedUsesLess(buf[..], index);
      R.DrainTurn(buf[..], index);
      var r;
      r, index := TakeRecord(buf, index);
      out := out + [r];
    }
  }

  lemma DrainState(log: seq<R.Event>)
    ensures var r := R.Run(log);
      var d := R.Drain(r.buf, R.Scan(r.buf));
      R.Run(log + [R.DrainAll]) == R.State(d.1, r.idx, r.drained + d.0)
  {
    R.RunSnoc(log, R.DrainAll);
  }

  class Mp3 {
    const toMsecs: nat -> nat
    var procs: seq<Option<Counters>>
    var processList: seq<nat>
    var oldJiffies: ulong
    const memBuffer: array<ulong>
    /** In words from the start of the buffer. */
    var samplingIdx: nat

    /** The model state this object is in, between calls. */
    ghost var model: State
    /** What the monitor has printed. */
    ghost var printed: seq<R.Record>

    ghost predicate Valid()
      reads this, memBuffer
    {
      && model.sampler.Idle?
      && procs == model.procs && processList == model.list
      && memBuffer.Length == R.CAPACITY && samplingIdx <= R.CAPACITY
      && R.State(memBuffer[..], samplingIdx, printed) == R.Run(model.log)
    }

    /** vmalloc_mem_buffer: the buffer starts with every byte 0xff. */
    constructor (toMsecs: nat -> nat, procs: seq<Option<Counters>>)
      ensures Valid() && fresh(memBuffer)
      ensures model == Init(procs) && oldJiffies == 0 && this.toMsecs == toMsecs
      ensures this.procs == procs && processList == [] && samplingIdx == 0 && printed == []
      ensures memBuffer.Length == 65536 && forall i | 0 <= i < 65536 :: memBuffer[i] == 0xFFFF_FFFF_FFFF_FFFF
    {
      this.toMsecs, this.procs, processList, oldJiffies := toMsecs, procs, [], 0;
      memBuffer := new ulong[R.CAPACITY](_ => R.EMPTY);
      samplingIdx, model, printed := 0, Init(procs), [];
      new;
      assert memBuffer[..] == R.Cleared();
    }

    /** get_cpu_use without interruption: the counters of a live pid, which it zeroes; None for its result -1. */
    method GetCpuUse(pid: nat) returns (c: Option<Counters>)
      modifies this`procs
      ensures c == if Live(old(procs), pid) then old(procs)[pid] else None
      ensures procs == if Live(old(procs), pid) then old(procs)[pid := Some(ZERO)] else old(procs)
    {
      if pid < |procs| && procs[pid].Some? {
        c := procs[pid];
        procs := procs[pid := Some(ZERO)];
      } else {
        c := None;
      }
    }

    /** The loop of mp3_work_function over the process list. */
    method ReadAll() returns (t: Totals)
      modifies this`procs
      ensures Pass(procs, t) == SampleLoop(old(procs), processList, |processList|)
    {
      var totalMin: ulong, totalMaj: ulong, totalCpu: ulong := 0, 0, 0;
      for i := 0 to |processList|
        invariant Pass(procs, Totals(totalMin, totalMaj, totalCpu)) == SampleLoop(old(procs), processList, i)
      {
        var c := GetCpuUse(processList[i]);
        if c.Some? {
          totalMin := WrapU64(totalMin + c.value.minFlt);
          totalMaj := WrapU64(totalMaj + c.value.majFlt);
          totalCpu := WrapU64(totalCpu + c.value.utime);
          totalCpu := WrapU64(totalCpu + c.value.stime);
        }
      }
      t := Totals(totalMin, totalMaj, totalCpu);
    }

    /** The rest of mp3_work_function: wrap, store four words, advance. */
    method WriteRecord(now: ulong, t: Totals)
      requires memBuffer.Length == R.CAPACITY && samplingIdx <= R.CAPACITY
      modifies this`samplingIdx, memBuffer
      ensures samplingIdx == R.WriteAt(old(samplingIdx)) + 4 <= R.CAPACITY
      ensures memBuffer[..] == R.PutRecord(old(memBuffer[..]), R.WriteAt(old(samplingIdx)),
                                           R.Record(now, t.minFlt, t.majFlt, t.cpu))
    {
      if samplingIdx + 4 > R.CAPACITY {
        samplingIdx := 0;
      }
      memBuffer[samplingIdx] := now;
      memBuffer[samplingIdx + 1] := t.minFlt;
      memBuffer[samplingIdx + 2] := t.majFlt;
      memBuffer[samplingIdx + 3] := t.cpu;
      samplingIdx := samplingIdx + 4;
    }

    /** mp3_work_function reads jiffies three times: for the test, for old_jiffies and for the record. */
    method WorkFunction(tested: ulong, started: ulong, written: ulong) returns (sampled: bool)
      requires Valid()
      modifies this`procs, this`oldJiffies, this`samplingIdx, this`model, memBuffer
      ensures Valid() && printed == old(printed)
      ensures sampled <==> toMsecs((tested - old(oldJiffies)) % 0x1_0000_0000_0000_0000) >= 25
      ensures !sampled ==> model == old(model) && oldJiffies == old(oldJiffies)
      ensures sampled ==> model == Sampled(old(model), written) && oldJiffies == started
    {
      if toMsecs(WrapU64(tested - oldJiffies)) < THRESH_SAMPLING_PERIOD_MS {
        return false;
      }
      oldJiffies := started;
      var t := ReadAll();
      WriteRecord(written, t);
      model := Sampled(model, written);
      sampled := true;
    }

    /** mp3_registration; `gotMemory` is what kmem_cache_alloc answered. */
    method Registration(pid: nat, gotMemory: bool) returns (rv: int)
      requires Valid()
      modifies this`processList, this`model
      ensures Valid() && model == Next(old(model), Register(pid, gotMemory))
      ensures rv == if gotMemory then 0 else -1
    {
      if !gotMemory {
        return -1;
      }
      processList := processList + [pid];
      model := Next(model, Register(pid, gotMemory));
      rv := 0;
    }

    /** mp3_unregistration removes the first entry with the pid. */
    method Unregistration(pid: nat)
      requires Valid()
      modifies this`processList, this`model
      ensures Valid() && model == Next(old(model), Unregister(pid))
    {
      var i := 0;
      while i < |processList| && processList[i] != pid
        invariant i <= |processList|
        invariant FirstIndex(processList, pid) == FirstIndex(processList, pid, i)
      {
        i := i + 1;
      }
      if i < |processList| {
        processList := RemoveAt(processList, i);
      }
      model := Next(model, Unregister(pid));
    }

    /** What the kernel does to the tasks' counters. */
    method TaskEvent(e: Event)
      requires Valid() && (e.Work? || e.Spawn? || e.Exit?)
      modifies this`procs, this`model
      ensures Valid() && model == Next(old(model), e)
    {
      if e.pid < |procs| {
        match e
        case Work(pid, d) =>
          if procs[pid].Some? {
            procs := procs[pid := Some(AddCounters(procs[pid].value, d))];
          }
        case Spawn(pid, c) =>
          if procs[pid].None? {
            procs := procs[pid := Some(c)];
          }
        case Exit(pid) => procs := procs[pid := None];
      }
      model := Next(model, e);
    }

    /** One run of the monitor. */
    method RunMonitor() returns (out: seq<R.Record>)
      requires Valid()
      modifies this`model, this`printed, memBuffer
      ensures Valid() && model == Next(old(model), Drain)
      ensures printed == old(printed) + out
    {
      DrainState(model.log);
      out := Monitor(memBuffer);
      printed := printed + out;
      model := model.(log := model.log + [R.DrainAll]);
      assert R.Run(model.log) == R.State(memBuffer[..], samplingIdx, printed);
    }
  }

  // ---------------------------------------------------------------- any sequence of calls

  datatype Call =
    | Plain(e: Event)
    | CallWorkFunction(tested: ulong, started: ulong, written: ulong)

  datatype Position = Position(state: State, oldJiffies: ulong)

  /** What a call does to the model, and to old_jiffies. */
  ghost function Effect(p: Position, toMsecs: nat -> nat, c: Call): Position {
    match c
    case Plain(e) => p.(state := Next(p.state, e))
    case CallWorkFunction(tested, started, written) =>
      if toMsecs(WrapU64(tested - p.oldJiffies)) < THRESH_SAMPLING_PERIOD_MS then p
      else Position(Sampled(p.state, written), started)
  }

  ghost function Effects(p: Position, toMsecs: nat -> nat, cs: seq<Call>): Position {
    if cs == [] then p else Effect(Effects(p, toMsecs, cs[..|cs| - 1]), toMsecs, cs[|cs| - 1])
  }

  /** The sampler runs only in calls of mp3_work_function. */
  ghost predicate Proper(cs: seq<Call>) {
    forall i | 0 <= i < |cs| :: cs[i].Plain? ==> !cs[i].e.SamplerRuns?
  }

  method Perform(m: Mp3, c: Call)
    requires m.Valid() && (c.Plain? ==> !c.e.SamplerRuns?)
    modifies m, m.memBuffer
    ensures m.Valid()
    ensures Position(m.model, m.oldJiffies)
            == Effect(Position(old(m.model), old(m.oldJiffies)), m.toMsecs, c)
  {
    match c
    case CallWorkFunction(tested, started, written) => var _ := m.WorkFunction(tested, started, written);
    case Plain(e) =>
      if e.Register? {
        var _ := m.Registration(e.pid, e.gotMemory);
      } else if e.Unregister? {
        m.Unregistration(e.pid);
      } else if e.Drain? {
        var _ := m.RunMonitor();
      } else {
        m.TaskEvent(e);
      }
  }

  /** Any sequence of calls, from module load on, leaves the code in the state the model has then. */
  method Execute(toMsecs: nat -> nat, procs: seq<Option<Counters>>, cs: seq<Call>) returns (m: Mp3)
    requires Proper(cs)
    ensures m.Valid() && Position(m.model, m.oldJiffies) == Effects(Position(Init(procs), 0), toMsecs, cs)
  {
    m := new Mp3(toMsecs, procs);
    ghost var start := Position(Init(procs), 0);
    assert cs[..0] == [];
    for i := 0 to |cs|
      invariant fresh(m) && fresh(m.memBuffer) && m.toMsecs == toMsecs
      invariant m.Valid() && Position(m.model, m.oldJiffies) == Effects(start, toMsecs, cs[..i])
    {
      assert cs[..i + 1][..i] == cs[..i];
      Perform(m, cs[i]);
    }
    assert cs[..|cs|] == cs;
  }

  lemma CallIsARun(p: Position, toMsecs: nat -> nat, procs: seq<Option<Counters>>, before: seq<Event>, c: Call)
    returns (es: seq<Event>)
    requires p.state == Run(Init(procs), before) && p.state.sampler.Idle? && p.state.lost == Sums(0, 0, 0)
    requires c.Plain? ==> !c.e.SamplerRuns?
    ensures var s := Effect(p, toMsecs, c).state;
      s == Run(Init(procs), es) && s.sampler.Idle? && s.lost == Sums(0, 0, 0)
  {
    match c
    case Plain(e) =>
      RunSnoc(Init(procs), before, e);
      es := before + [e];
    case CallWorkFunction(tested, _, written) =>
      if toMsecs(WrapU64(tested - p.oldJiffies)) < THRESH_SAMPLING_PERIOD_MS {
        es := before;
      } else {
        var k := UninterruptedSample(p.state, written);
        RunRepeat(Init(procs), before, written, k);
        es := before + Repeat(written, k);
      }
  }

  /** Every sequence of calls is a run of the model, in which nothing is lost: no call interrupts a sample. */
  lemma {:induction false} CallsAreARun(toMsecs: nat -> nat, procs: seq<Option<Counters>>, cs: seq<Call>)
    returns (es: seq<Event>)
    requires Proper(cs)
    ensures var s := Effects(Position(Init(procs), 0), toMsecs, cs).state;
      s == Run(Init(procs), es) && s.sampler.Idle? && s.lost == Sums(0, 0, 0)
  {
    if cs == [] {
      es := [];
    } else {
      var front, c := cs[..|cs| - 1], cs[|cs| - 1];
      var before := CallsAreARun(toMsecs, procs, front);
      var p := Effects(Position(Init(procs), 0), toMsecs, front);
      es := CallIsARun(p, toMsecs, procs, before, c);
    }
  }

  /** What the monitor would print now. */
  ghost function Waiting(m: Mp3): seq<R.Record>
    requires m.Valid()
    reads m, m.memBuffer
  {
    R.Drain(m.memBuffer[..], R.Scan(m.memBuffer[..])).0
  }

  lemma PrintedAndWaiting(m: Mp3)
    requires m.Valid()
    ensures Printed(m.model) == m.printed + Waiting(m)
  {
    DrainState(m.model.log);
  }

  /** These records, these counters and what left with tasks are all there was and all that was generated. */
  ghost predicate Closed(rs: seq<R.Record>, procs: seq<Option<Counters>>, s: State, q: Quantity) {
    ShortByTurns(InRecords(rs, q) + InTable(procs, q) + Of(s.departed, q), Of(s.due, q))
  }

  lemma ClosedWhenIdle(s: State, q: Quantity)
    requires PipelineBalanced(s, q) && s.sampler.Idle? && s.lost == Sums(0, 0, 0)
    ensures Closed(Printed(s), s.procs, s, q)
  {
    assert Unrecorded(s, q) == InTable(s.procs, q) + Of(s.departed, q);
  }

  /**
   On the code's own state: after any calls with at most 12000 samples, what was printed and what waits in the
   buffer, with what the counters hold, closes the books.
   */
  lemma CodeConserves(m: Mp3, toMsecs: nat -> nat, procs: seq<Option<Counters>>, cs: seq<Call>, q: Quantity)
    requires Proper(cs) && m.Valid()
    requires Position(m.model, m.oldJiffies) == Effects(Position(Init(procs), 0), toMsecs, cs)
    requires |R.Samples(m.model.log)| <= 12000 && R.Marked(R.Samples(m.model.log))
    ensures Closed(m.printed + Waiting(m), m.procs, m.model, q)
  {
    var es := CallsAreARun(toMsecs, procs, cs);
    PipelineConserves(procs, es, q);
    PrintedAndWaiting(m);
    ClosedWhenIdle(m.model, q);
  }
}
