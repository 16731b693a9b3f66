/**
 The retry loop of ktime_get_fast_ns (timekeeping.rs) over the latch of seqlock.rs, interleaved in
 every way with a writer. Each shared word is read or written in a step of its own, and the reader may
 load the fields of tk_read_base in any order.

 The writer is the environment. It follows the latch scheme of Linux Documentation/locking/seqlock.rst:
 bump the sequence, write copy 0, bump it again, write copy 1.
 */
module LatchClock {
  import opened Bits
  import opened Timekeeping
  import opened Words
  import opened Wrappers

  const SEQ_RANGE: nat := 0x1_0000_0000

  datatype Field = FBase | FClock | FCycleLast | FMask | FMult | FXtimeNsec | FShift
  const ALL: set<Field> := {FBase, FClock, FCycleLast, FMask, FMult, FXtimeNsec, FShift}

  lemma InAll(f: Field)
    ensures f in ALL
  {
    match f
    case FBase => case FClock => case FCycleLast => case FMask => case FMult => case FXtimeNsec => case FShift =>
  }

  /** dst with field f taken from src. */
  function CopyField(src: Snapshot, dst: Snapshot, f: Field): Snapshot {
    match f
    case FBase => dst.(base := src.base)
    case FClock => dst.(clock := src.clock)
    case FCycleLast => dst.(cycleLast := src.cycleLast)
    case FMask => dst.(mask := src.mask)
    case FMult => dst.(mult := src.mult)
    case FXtimeNsec => dst.(xtimeNsec := src.xtimeNsec)
    case FShift => dst.(shift := src.shift)
  }

  predicate Same(a: Snapshot, b: Snapshot, f: Field) {
    match f
    case FBase => a.base == b.base
    case FClock => a.clock == b.clock
    case FCycleLast => a.cycleLast == b.cycleLast
    case FMask => a.mask == b.mask
    case FMult => a.mult == b.mult
    case FXtimeNsec => a.xtimeNsec == b.xtimeNsec
    case FShift => a.shift == b.shift
  }

  lemma SameOnAll(a: Snapshot, b: Snapshot)
    requires forall f: Field :: Same(a, b, f)
    ensures a == b
  {
    assert Same(a, b, FBase) && Same(a, b, FClock) && Same(a, b, FCycleLast) && Same(a, b, FMask);
    assert Same(a, b, FMult) && Same(a, b, FXtimeNsec) && Same(a, b, FShift);
  }

  datatype Writer = Idle | Copying(target: bool, next: Snapshot, todo: set<Field>)

  /** `started` is history: how many bumps there had been when the sequence was loaded. */
  datatype Reader =
    | Begin
    | Reading(start: nat, started: nat, seen: Snapshot, have: set<Field>, cycles: Option<u64>)
    | Done(time: u64)

  /** copy0 and copy1 are base[0] and base[1]; the sequence word holds bumps mod 2^32. */
  datatype State = State(
    bumps: nat, copy0: Snapshot, copy1: Snapshot, published: seq<Snapshot>, writer: Writer, reader: Reader)

  datatype Event =
    | WriterBegins(next: Snapshot)
    | WriterCopies(f: Field)
    | WriterBumps
    | WriterEnds
    | LoadSequence
    | LoadField(f: Field)
    | ReadClock(cycles: u64)
    | Check

  function Sequence(s: State): nat {
    s.bumps % SEQ_RANGE
  }

  function Init(first: Snapshot): State {
    State(0, first, first, [first], Idle, Begin)
  }

  /** base[seq & 1]. */
  function Base(s: State, start: nat): Snapshot {
    if And(start, 1) == 0 then s.copy0 else s.copy1
  }

  /** The reader has everything its computation needs. */
  predicate Complete(r: Reader) {
    r.Reading? && r.have == ALL && r.cycles.Some?
  }

  function Next(validate: bool, s: State, e: Event): State {
    var w, r := s.writer, s.reader;
    match e
    case WriterBegins(next) =>
      if w.Idle? then s.(bumps := s.bumps + 1, writer := Copying(false, next, ALL)) else s
    case WriterCopies(f) =>
      if w.Idle? || f !in w.todo then s
      else if w.target then s.(copy1 := CopyField(w.next, s.copy1, f), writer := w.(todo := w.todo - {f}))
      else s.(copy0 := CopyField(w.next, s.copy0, f), writer := w.(todo := w.todo - {f}))
    case WriterBumps =>
      if w.Idle? || w.target || w.todo != {} then s
      else s.(bumps := s.bumps + 1, writer := Copying(true, w.next, ALL), published := s.published + [w.next])
    case WriterEnds =>
      if w.Idle? || !w.target || w.todo != {} then s else s.(writer := Idle)
    case LoadSequence =>
      if !r.Begin? then s else s.(reader := Reading(Sequence(s), s.bumps, s.copy0, {}, None))
    case LoadField(f) =>
      if !r.Reading? then s
      else s.(reader := r.(seen := CopyField(Base(s, r.start), r.seen, f), have := r.have + {f}))
    case ReadClock(cycles) =>
      if !r.Reading? || FClock !in r.have then s else s.(reader := r.(cycles := Some(cycles)))
    case Check =>
      if !Complete(r) then s
      else s.(reader := if Sequence(s) != r.start then Begin else Done(TimeAt(validate, r.seen, r.cycles.value)))
  }

  function Run(validate: bool, s: State, es: seq<Event>): State {
    if es == [] then s else Next(validate, Run(validate, s, es[..|es| - 1]), es[|es| - 1])
  }

  // ---------------------------------------------------------------- the invariant

  /** The copy that readers are directed to holds the last published snapshot. */
  ghost predicate Latched(s: State) {
    && |s.published| == s.bumps / 2 + 1
    && (if s.bumps % 2 == 0 then s.copy0 else s.copy1) == s.published[|s.published| - 1]
  }

  ghost predicate Copied(copy: Snapshot, next: Snapshot, todo: set<Field>) {
    forall f: Field :: f in todo || Same(copy, next, f)
  }

  ghost predicate WriterInv(s: State) {
    match s.writer
    case Idle => s.bumps % 2 == 0 && s.copy1 == s.copy0
    case Copying(target, next, todo) =>
      && (target <==> s.bumps % 2 == 0)
      && (target ==> next == s.copy0)
      && Copied(if target then s.copy1 else s.copy0, next, todo)
  }

  /** Until the next bump, what the reader has seen comes from the last published snapshot. */
  ghost predicate ReaderInv(s: State) {
    s.reader.Reading? ==>
      && s.reader.started <= s.bumps
      && s.reader.start == s.reader.started % SEQ_RANGE
      && (s.reader.started == s.bumps ==>
            forall f | f in s.reader.have :: Same(s.reader.seen, Base(s, s.reader.start), f))
  }

  ghost predicate Inv(s: State) {
    Latched(s) && WriterInv(s) && ReaderInv(s)
  }

  /** seq & 1 picks the copy by the parity of the number of bumps. */
  lemma BaseByParity(s: State, bumps: nat)
    ensures Base(s, bumps % SEQ_RANGE) == if bumps % 2 == 0 then s.copy0 else s.copy1
  {
    assert Pow2(1) == 2;
    AndLowMask(bumps % SEQ_RANGE, 1);
  }

  /** Sequence parity: the reader's base is the same copy before and after a step. */
  lemma ReaderBase(s: State, s': State)
    requires s.reader.Reading? && s.reader.start == s.reader.started % SEQ_RANGE
    ensures Base(s, s.reader.start) == if s.reader.started % 2 == 0 then s.copy0 else s.copy1
    ensures Base(s', s.reader.start) == if s.reader.started % 2 == 0 then s'.copy0 else s'.copy1
  {
    BaseByParity(s, s.reader.started);
    BaseByParity(s', s.reader.started);
  }

  lemma WriterKeepsInv(validate: bool, s: State, e: Event)
    requires Inv(s) && (e.WriterBegins? || e.WriterCopies? || e.WriterBumps? || e.WriterEnds?)
    ensures Inv(Next(validate, s, e))
  {
    var s' := Next(validate, s, e);
    if s.reader.Reading? {
      ReaderBase(s, s');
    }
    if e.WriterBumps? && s' != s {
      assert Copied(s.copy0, s.writer.next, {});
      SameOnAll(s.copy0, s.writer.next);
    }
    if e.WriterEnds? && s' != s {
      assert Copied(s.copy1, s.writer.next, {});
      SameOnAll(s.copy1, s.writer.next);
    }
  }

  lemma ReaderKeepsInv(validate: bool, s: State, e: Event)
    requires Inv(s) && (e.LoadSequence? || e.LoadField? || e.ReadClock? || e.Check?)
    ensures Inv(Next(validate, s, e))
  {
    if s.reader.Reading? {
      ReaderBase(s, Next(validate, s, e));
    }
  }

  lemma NextKeepsInv(validate: bool, s: State, e: Event)
    requires Inv(s)
    ensures Inv(Next(validate, s, e))
  {
    if e.WriterBegins? || e.WriterCopies? || e.WriterBumps? || e.WriterEnds? {
      WriterKeepsInv(validate, s, e);
    } else {
      ReaderKeepsInv(validate, s, e);
    }
  }

  lemma {:induction false} RunKeepsInv(validate: bool, first: Snapshot, es: seq<Event>)
    ensures Inv(Run(validate, Init(first), es))
  {
    if es == [] {
    } else {
      RunKeepsInv(validate, first, es[..|es| - 1]);
      NextKeepsInv(validate, Run(validate, Init(first), es[..|es| - 1]), es[|es| - 1]);
    }
  }

  // ---------------------------------------------------------------- what a successful read returns

  lemma SameResidue(a: nat, b: nat)
    requires a <= b < a + SEQ_RANGE
    ensures a % SEQ_RANGE == b % SEQ_RANGE <==> a == b
  {
  }

  /**
   In every interleaving where the writer bumped fewer than 2^32 times since the reader loaded the
   sequence: the check lets the reader out exactly when there was no bump at all, and then every
   field it used comes from one snapshot, the last one published.
   */
  lemma ReadsOneSnapshot(validate: bool, first: Snapshot, es: seq<Event>)
    requires Complete(Run(validate, Init(first), es).reader)
    requires var s := Run(validate, Init(first), es); s.bumps < s.reader.started + SEQ_RANGE
    ensures var s := Run(validate, Init(first), es);
      var s' := Next(validate, s, Check);
      && s.published != []
      && (s'.reader.Done? <==> s.bumps == s.reader.started)
      && (s'.reader.Done? ==>
            && s.reader.seen == s.published[|s.published| - 1]
            && s'.reader.time == TimeAt(validate, s.published[|s.published| - 1], s.reader.cycles.value))
  {
    RunKeepsInv(validate, first, es);
    var s := Run(validate, Init(first), es);
    var r := s.reader;
    SameResidue(r.started, s.bumps);
    if r.started == s.bumps {
      BaseByParity(s, r.started);
      forall f: Field
        ensures Same(r.seen, Base(s, r.start), f)
      {
        InAll(f);
      }
      SameOnAll(r.seen, Base(s, r.start));
    }
  }

  ghost function LastPublished(s: State): Snapshot
    requires s.published != []
  {
    s.published[|s.published| - 1]
  }

  /** The time that a k-bit clock reading of `cycles` gives by snapshot t. */
  ghost predicate TimeBy(validate: bool, k: nat, t: Snapshot, cycles: u64, time: nat)
    requires 1 <= k
  {
    var d := CyclesSince(validate, k, cycles, t.cycleLast);
    time == (t.base + (d * t.mult + t.xtimeNsec) % 0x1_0000_0000_0000_0000 / Pow2(t.shift)) % 0x1_0000_0000_0000_0000
  }

  /** So what the reader returns is the scaled cycles since the last published update, on top of its base. */
  lemma ReadsTime(validate: bool, first: Snapshot, es: seq<Event>, k: nat)
    requires Complete(Run(validate, Init(first), es).reader)
    requires var s := Run(validate, Init(first), es); s.bumps < s.reader.started + SEQ_RANGE
    requires 1 <= k <= 64
    ensures var s := Run(validate, Init(first), es);
      var s' := Next(validate, s, Check);
      && s.published != []
      && (s'.reader.Done? && LastPublished(s).mask == Pow2(k) - 1 ==>
            TimeBy(validate, k, LastPublished(s), s.reader.cycles.value, s'.reader.time))
  {
    var s := Run(validate, Init(first), es);
    ReadsOneSnapshot(validate, first, es);
    if LastPublished(s).mask == Pow2(k) - 1 {
      TimeValue(validate, k, LastPublished(s), s.reader.cycles.value);
    }
  }

  // ---------------------------------------------------------------- the bound is exact

  ghost predicate GetsOut(validate: bool, first: Snapshot, es: seq<Event>, limit: nat) {
    var s := Run(validate, Init(first), es);
    && Complete(s.reader)
    && s.published != []
    && s.bumps < s.reader.started + limit
    && Next(validate, s, Check).reader.Done?
  }

  /** A reader that gets out after fewer than `limit` bumps has always used the last published snapshot. */
  ghost predicate SafeBelow(limit: nat) {
    forall validate: bool, first: Snapshot, es: seq<Event> | GetsOut(validate, first, es, limit) ::
      var s := Run(validate, Init(first), es);
      s.reader.seen == s.published[|s.published| - 1]
  }

  lemma {:induction false} RunAppend(validate: bool, s: State, a: seq<Event>, b: seq<Event>)
    ensures Run(validate, s, a + b) == Run(validate, Run(validate, s, a), b)
  {
    if b == [] {
      assert a + b == a;
    } else {
      assert (a + b)[..|a + b| - 1] == a + b[..|b| - 1];
      RunAppend(validate, s, a, b[..|b| - 1]);
    }
  }

  lemma RunSnoc(validate: bool, s: State, es: seq<Event>, e: Event)
    ensures Run(validate, s, es + [e]) == Next(validate, Run(validate, s, es), e)
  {
    assert (es + [e])[..|es|] == es;
  }

  const FIELDS: seq<Field> := [FBase, FClock, FCycleLast, FMask, FMult, FXtimeNsec, FShift]

  function CopyEvents(fs: seq<Field>): seq<Event> {
    if fs == [] then [] else CopyEvents(fs[..|fs| - 1]) + [WriterCopies(fs[|fs| - 1])]
  }

  function LoadEvents(fs: seq<Field>): seq<Event> {
    if fs == [] then [] else LoadEvents(fs[..|fs| - 1]) + [LoadField(fs[|fs| - 1])]
  }

  /** The copy the writer is writing. */
  function Target(s: State): Snapshot
    requires s.writer.Copying?
  {
    if s.writer.target then s.copy1 else s.copy0
  }

  function WithTarget(s: State, copy: Snapshot, todo: set<Field>): State
    requires s.writer.Copying?
  {
    var w := s.writer.(todo := todo);
    if s.writer.target then s.(copy1 := copy, writer := w) else s.(copy0 := copy, writer := w)
  }

  lemma CopiedOneMore(copy: Snapshot, next: Snapshot, todo: set<Field>, f: Field)
    requires Copied(copy, next, todo)
    ensures Copied(CopyField(next, copy, f), next, todo - {f})
  {
    var copy' := CopyField(next, copy, f);
    forall g: Field
      ensures g in todo - {f} || Same(copy', next, g)
    {
      assert g in todo || Same(copy, next, g);
    }
  }

  lemma {:induction false} CopyRun(validate: bool, s: State, fs: seq<Field>) returns (copy: Snapshot, todo: set<Field>)
    requires s.writer.Copying? && s.writer.todo == ALL
    ensures Run(validate, s, CopyEvents(fs)) == WithTarget(s, copy, todo)
    ensures forall f: Field :: f in todo <==> f !in fs
    ensures Copied(copy, s.writer.next, todo)
  {
    if fs == [] {
      copy, todo := Target(s), ALL;
      forall f: Field ensures f in ALL { InAll(f); }
    } else {
      var front, f := fs[..|fs| - 1], fs[|fs| - 1];
      assert fs == front + [f];
      copy, todo := CopyRun(validate, s, front);
      RunSnoc(validate, s, CopyEvents(front), WriterCopies(f));
      if f in todo {
        CopiedOneMore(copy, s.writer.next, todo, f);
        copy, todo := CopyField(s.writer.next, copy, f), todo - {f};
      }
    }
  }

  lemma InFields(f: Field)
    ensures f in FIELDS
  {
    assert FIELDS[0] == FBase && FIELDS[1] == FClock && FIELDS[2] == FCycleLast && FIELDS[3] == FMask;
    assert FIELDS[4] == FMult && FIELDS[5] == FXtimeNsec && FIELDS[6] == FShift;
  }

  lemma CopyAllCopies(validate: bool, s: State)
    requires s.writer.Copying? && s.writer.todo == ALL
    ensures Run(validate, s, CopyEvents(FIELDS)) == WithTarget(s, s.writer.next, {})
  {
    var copy, todo := CopyRun(validate, s, FIELDS);
    forall f: Field ensures f in FIELDS { InFields(f); }
    SameOnAll(copy, s.writer.next);
    assert todo == {};
  }

  /** What has been seen: the fields of fs from src, the others as before. */
  ghost predicate Loaded(seen: Snapshot, before: Snapshot, src: Snapshot, fs: seq<Field>) {
    forall f: Field :: Same(seen, if f in fs then src else before, f)
  }

  lemma LoadedOneMore(seen: Snapshot, before: Snapshot, src: Snapshot, fs: seq<Field>, f: Field)
    requires Loaded(seen, before, src, fs)
    ensures Loaded(CopyField(src, seen, f), before, src, fs + [f])
  {
    forall g: Field
      ensures Same(CopyField(src, seen, f), if g in fs + [f] then src else before, g)
    {
      assert Same(seen, if g in fs then src else before, g);
      assert g in fs + [f] <==> g in fs || g == f;
    }
  }

  function WithSeen(s: State, seen: Snapshot, have: set<Field>): State
    requires s.reader.Reading?
  {
    s.(reader := s.reader.(seen := seen, have := have))
  }

  lemma {:induction false} LoadRun(validate: bool, s: State, src: Snapshot, fs: seq<Field>)
    returns (seen: Snapshot, have: set<Field>)
    requires s.reader.Reading? && Base(s, s.reader.start) == src
    ensures Run(validate, s, LoadEvents(fs)) == WithSeen(s, seen, have)
    ensures forall f: Field :: f in have <==> f in s.reader.have || f in fs
    ensures Loaded(seen, s.reader.seen, src, fs)
  {
    if fs == [] {
      seen, have := s.reader.seen, s.reader.have;
      assert Run(validate, s, []) == s;
    } else {
      var front, f := fs[..|fs| - 1], fs[|fs| - 1];
      assert fs == front + [f];
      seen, have := LoadRun(validate, s, src, front);
      RunSnoc(validate, s, LoadEvents(front), LoadField(f));
      LoadedOneMore(seen, s.reader.seen, src, front, f);
      seen, have := CopyField(src, seen, f), have + {f};
    }
  }

  lemma AllSeen(seen: Snapshot, before: Snapshot, src: Snapshot, have: set<Field>)
    requires Loaded(seen, before, src, FIELDS) && forall f: Field :: f in FIELDS ==> f in have
    ensures seen == src && have == ALL
  {
    forall f: Field
      ensures Same(seen, src, f) && f in have && f in ALL
    {
      InFields(f);
      InAll(f);
      assert Same(seen, if f in FIELDS then src else before, f);
    }
    SameOnAll(seen, src);
  }

  /** One iteration of the reader with the clock standing at `cycles`. */
  function Iteration(cycles: u64): seq<Event> {
    [LoadSequence] + LoadEvents(FIELDS) + [ReadClock(cycles)] + [Check]
  }

  /** The copy the sequence word directs readers to. */
  function Current(s: State): Snapshot {
    if s.bumps % 2 == 0 then s.copy0 else s.copy1
  }

  lemma RunOne(validate: bool, s: State, e: Event)
    ensures Run(validate, s, [e]) == Next(validate, s, e)
  {
    assert [e][..0] == [];
  }

  lemma LoadedFrom(validate: bool, s: State)
    requires s.reader.Begin?
    ensures Run(validate, s, [LoadSequence] + LoadEvents(FIELDS))
            == s.(reader := Reading(Sequence(s), s.bumps, Current(s), ALL, None))
  {
    var s1 := Next(validate, s, LoadSequence);
    RunOne(validate, s, LoadSequence);
    BaseByParity(s1, s.bumps);
    var seen, have := LoadRun(validate, s1, Current(s), FIELDS);
    AllSeen(seen, s1.reader.seen, Current(s), have);
    RunAppend(validate, s, [LoadSequence], LoadEvents(FIELDS));
  }

  lemma CheckedFrom(validate: bool, s: State, cycles: u64)
    requires s.reader == Reading(Sequence(s), s.bumps, Current(s), ALL, None)
    ensures Next(validate, Next(validate, s, ReadClock(cycles)), Check)
            == s.(reader := Done(TimeAt(validate, Current(s), cycles)))
  {
    InAll(FClock);
  }

  lemma IterationFrom(validate: bool, s: State, cycles: u64)
    requires s.reader.Begin?
    ensures Run(validate, s, Iteration(cycles)) == s.(reader := Done(TimeAt(validate, Current(s), cycles)))
  {
    var loaded := [LoadSequence] + LoadEvents(FIELDS);
    LoadedFrom(validate, s);
    RunSnoc(validate, s, loaded, ReadClock(cycles));
    RunSnoc(validate, s, loaded + [ReadClock(cycles)], Check);
    CheckedFrom(validate, s.(reader := Reading(Sequence(s), s.bumps, Current(s), ALL, None)), cycles);
  }

  lemma CurrentIsPublished(s: State)
    requires Latched(s)
    ensures s.published != [] && Current(s) == LastPublished(s)
  {
  }

  ghost predicate GivesTime(validate: bool, k: nat, t: Snapshot, cycles: u64, r: Reader)
    requires 1 <= k
  {
    r.Done? && (t.mask == Pow2(k) - 1 ==> TimeBy(validate, k, t, cycles, r.time))
  }

  lemma DoneGivesTime(validate: bool, k: nat, t: Snapshot, cycles: u64)
    requires 1 <= k <= 64
    ensures GivesTime(validate, k, t, cycles, Done(TimeAt(validate, t, cycles)))
  {
    if t.mask == Pow2(k) - 1 {
      TimeValue(validate, k, t, cycles);
    }
  }

  lemma IterationTime(validate: bool, s: State, cycles: u64, k: nat)
    requires s.reader.Begin? && 1 <= k <= 64
    ensures GivesTime(validate, k, Current(s), cycles, Run(validate, s, Iteration(cycles)).reader)
  {
    IterationFrom(validate, s, cycles);
    DoneGivesTime(validate, k, Current(s), cycles);
    assert Run(validate, s, Iteration(cycles)).reader == Done(TimeAt(validate, Current(s), cycles));
  }

  /** Undisturbed, a reader gets out at once with the time by the last published snapshot, even in mid-update. */
  lemma UndisturbedRead(validate: bool, first: Snapshot, es: seq<Event>, cycles: u64, k: nat)
    requires Run(validate, Init(first), es).reader.Begin? && 1 <= k <= 64
    ensures var s := Run(validate, Init(first), es);
      s.published != []
      && GivesTime(validate, k, LastPublished(s), cycles, Run(validate, Init(first), es + Iteration(cycles)).reader)
  {
    RunKeepsInv(validate, first, es);
    CurrentIsPublished(Run(validate, Init(first), es));
    RunAppend(validate, Init(first), es, Iteration(cycles));
    IterationTime(validate, Run(validate, Init(first), es), cycles, k);
  }

  function Update(next: Snapshot): seq<Event> {
    [WriterBegins(next)] + CopyEvents(FIELDS) + [WriterBumps] + CopyEvents(FIELDS) + [WriterEnds]
  }

  /** A whole update by the writer, from idle to idle. */
  lemma UpdateUpdates(validate: bool, s: State, next: Snapshot)
    requires s.writer.Idle?
    ensures Run(validate, s, Update(next))
            == s.(bumps := s.bumps + 2, copy0 := next, copy1 := next, published := s.published + [next])
  {
    var s1 := Next(validate, s, WriterBegins(next));
    RunOne(validate, s, WriterBegins(next));
    RunAppend(validate, s, [WriterBegins(next)], CopyEvents(FIELDS));
    CopyAllCopies(validate, s1);
    var s2 := s1.(copy0 := next, writer := Copying(false, next, {}));
    RunOne(validate, s2, WriterBumps);
    RunAppend(validate, s, [WriterBegins(next)] + CopyEvents(FIELDS), [WriterBumps]);
    var s3 := Next(validate, s2, WriterBumps);
    CopyAllCopies(validate, s3);
    RunAppend(validate, s, [WriterBegins(next)] + CopyEvents(FIELDS) + [WriterBumps], CopyEvents(FIELDS));
    var s4 := s3.(copy1 := next, writer := Copying(true, next, {}));
    RunOne(validate, s4, WriterEnds);
    RunAppend(validate, s, [WriterBegins(next)] + CopyEvents(FIELDS) + [WriterBumps] + CopyEvents(FIELDS),
              [WriterEnds]);
  }

  function Updates(next: Snapshot, n: nat): seq<Event> {
    if n == 0 then [] else Updates(next, n - 1) + Update(next)
  }

  function Copies(next: Snapshot, n: nat): (ps: seq<Snapshot>)
    ensures forall i | 0 <= i < |ps| :: ps[i] == next
  {
    if n == 0 then [] else Copies(next, n - 1) + [next]
  }

  lemma {:induction false} UpdatesUpdate(validate: bool, s: State, next: Snapshot, n: nat)
    requires s.writer.Idle?
    ensures Run(validate, s, Updates(next, n))
            == if n == 0 then s
               else s.(bumps := s.bumps + 2 * n, copy0 := next, copy1 := next,
                       published := s.published + Copies(next, n))
  {
    if n > 0 {
      UpdatesUpdate(validate, s, next, n - 1);
      var mid := Run(validate, s, Updates(next, n - 1));
      RunAppend(validate, s, Updates(next, n - 1), Update(next));
      UpdateUpdates(validate, mid, next);
      assert s.published + Copies(next, n) == s.published + Copies(next, n - 1) + [next];
    } else {
      assert Updates(next, 0) == [];
    }
  }

  lemma Escapes(validate: bool, a: Snapshot, es: seq<Event>, s: State)
    requires s == Run(validate, Init(a), es) && Complete(s.reader) && s.published != []
    requires s.bumps == SEQ_RANGE && s.reader.started == s.reader.start == 0
    ensures GetsOut(validate, a, es, SEQ_RANGE + 1)
  {
  }

  /** One field loaded, then half the range of the sequence in updates. */
  lemma WrappedState(validate: bool, a: Snapshot, b: Snapshot, half: nat) returns (s: State)
    requires half > 0
    ensures s == State(2 * half, b, b, [a] + Copies(b, half), Idle, Reading(0, 0, a, {FBase}, None))
    ensures s == Run(validate, Init(a), [LoadSequence] + [LoadField(FBase)] + Updates(b, half))
  {
    var s1 := Next(validate, Next(validate, Init(a), LoadSequence), LoadField(FBase));
    RunOne(validate, Init(a), LoadSequence);
    RunSnoc(validate, Init(a), [LoadSequence], LoadField(FBase));
    RunAppend(validate, Init(a), [LoadSequence] + [LoadField(FBase)], Updates(b, half));
    UpdatesUpdate(validate, s1, b, half);
    assert s1.reader.have == {FBase};
    BaseByParity(Init(a), 0);
    s := Run(validate, s1, Updates(b, half));
  }

  lemma OnlyThese(a: Snapshot, b: Snapshot, n: nat, seen: Snapshot)
    requires seen != a && seen != b
    ensures seen !in [a] + Copies(b, n)
  {
  }

  lemma InTail(f: Field)
    ensures f in FIELDS[1..] <==> f != FBase
  {
    InFields(f);
    assert FIELDS == [FBase] + FIELDS[1..];
    assert FIELDS[1..] == [FClock, FCycleLast, FMask, FMult, FXtimeNsec, FShift];
  }

  /** fs names every field but the base. */
  ghost predicate AllButBase(fs: seq<Field>) {
    forall f: Field :: f in fs <==> f != FBase
  }

  lemma TornSeen(a: Snapshot, b: Snapshot, seen: Snapshot, fs: seq<Field>)
    requires a.base != b.base && a.mult != b.mult && AllButBase(fs) && Loaded(seen, a, b, fs)
    ensures seen != a && seen != b
  {
    assert FBase !in fs && FMult in fs;
    assert Same(seen, a, FBase) && Same(seen, b, FMult);
  }

  lemma AllHave(have: set<Field>, fs: seq<Field>)
    requires AllButBase(fs) && forall f: Field :: f in have <==> f in {FBase} || f in fs
    ensures have == ALL && FClock in have
  {
    forall f: Field ensures f in have <==> f in ALL {
      InAll(f);
      assert f in fs || f == FBase;
    }
    InAll(FClock);
  }

  /** From the wrapped state: the fields still to load come from b, the base already loaded from a. */
  lemma TornTail(validate: bool, a: Snapshot, b: Snapshot, s: State, fs: seq<Field>)
    returns (seen: Snapshot, rest: seq<Event>)
    requires a.base != b.base && a.mult != b.mult && AllButBase(fs)
    requires s.copy0 == b && s.reader == Reading(0, 0, a, {FBase}, None)
    ensures seen != a && seen != b
    ensures Run(validate, s, rest) == s.(reader := Reading(0, 0, seen, ALL, Some(0)))
  {
    BaseByParity(s, 0);
    var have;
    seen, have := LoadRun(validate, s, b, fs);
    AllHave(have, fs);
    TornSeen(a, b, seen, fs);
    rest := LoadEvents(fs) + [ReadClock(0)];
    RunSnoc(validate, s, LoadEvents(fs), ReadClock(0));
  }

  /** With 2^31 updates inside one iteration the sequence comes round and a torn snapshot gets out. */
  lemma TornAfterWrap(validate: bool, a: Snapshot, b: Snapshot)
    requires a.base != b.base && a.mult != b.mult
    ensures exists es: seq<Event> :: GetsOut(validate, a, es, SEQ_RANGE + 1)
              && Run(validate, Init(a), es).reader.seen !in Run(validate, Init(a), es).published
  {
    var half: nat := 0x8000_0000;
    var es := [LoadSequence] + [LoadField(FBase)] + Updates(b, half);
    var s := WrappedState(validate, a, b, half);
    forall f: Field ensures f in FIELDS[1..] <==> f != FBase {
      InTail(f);
    }
    var seen, rest := TornTail(validate, a, b, s, FIELDS[1..]);
    RunAppend(validate, Init(a), es, rest);
    OnlyThese(a, b, half, seen);
    Escapes(validate, a, es + rest, s.(reader := Reading(0, 0, seen, ALL, Some(0))));
  }

  /** So a reader is safe in every interleaving exactly as far as the 32-bit sequence reaches. */
  lemma SafeIffBelowRange(limit: nat)
    ensures SafeBelow(limit) <==> limit <= 0x1_0000_0000
  {
    if limit <= SEQ_RANGE {
      forall validate: bool, first: Snapshot, es: seq<Event> | GetsOut(validate, first, es, limit)
        ensures var s := Run(validate, Init(first), es);
                s.reader.seen == s.published[|s.published| - 1]
      {
        ReadsOneSnapshot(validate, first, es);
      }
    } else {
      var a := Snapshot(0, 0, 0, 0, 0, 0, 0);
      var b := Snapshot(1, 0, 0, 0, 1, 0, 0);
      TornAfterWrap(true, a, b);
      var es: seq<Event> :| GetsOut(true, a, es, SEQ_RANGE + 1)
        && Run(true, Init(a), es).reader.seen !in Run(true, Init(a), es).published;
      assert GetsOut(true, a, es, limit);
    }
  }
}
