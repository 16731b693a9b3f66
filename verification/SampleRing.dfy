/**
 The profiler's shared buffer: the sampler of mp3.c writes records of four words, wrapping at the end
 of the buffer; monitor.c drains them, wrapping at BUFD_MAX, and marks what it has read with -1.
 A sample and a drain are each atomic.
 */
module SampleRing {
  import opened Words

  /** What monitor.c reads as -1. */
  const EMPTY: ulong := ULONG_MAX

  /** 128 pages of 4096 bytes in words of 8 bytes. */
  const CAPACITY := 65536
  const BUFD_MAX := 48000

  datatype Record = Record(jiffies: ulong, minFlt: ulong, majFlt: ulong, cpu: ulong)

  type Buffer = b: seq<ulong> | |b| == CAPACITY witness seq(CAPACITY, _ => 0)

  function Cleared(): Buffer {
    seq(CAPACITY, _ => EMPTY)
  }

  // ---------------------------------------------------------------- one sample

  /** sampling_idx, in words, after the wrap test. */
  function WriteAt(idx: nat): nat {
    if idx + 4 > CAPACITY then 0 else idx
  }

  function PutRecord(buf: Buffer, at: nat, r: Record): Buffer
    requires at + 4 <= CAPACITY
  {
    buf[at := r.jiffies][at + 1 := r.minFlt][at + 2 := r.majFlt][at + 3 := r.cpu]
  }

  // ---------------------------------------------------------------- one drain

  /** The scan loop: the first word below BUFD_MAX that is not empty, or BUFD_MAX. */
  function Scan(buf: Buffer, from: nat := 0): (i: nat)
    requires from <= BUFD_MAX
    ensures from <= i <= BUFD_MAX
    ensures i < BUFD_MAX ==> buf[i] != EMPTY
    ensures forall j | from <= j < i :: buf[j] == EMPTY
    decreases BUFD_MAX - from
  {
    if from == BUFD_MAX || buf[from] != EMPTY then from else Scan(buf, from + 1)
  }

  function Advance(i: nat): nat {
    if i + 1 >= BUFD_MAX then 0 else i + 1
  }

  ghost function Used(buf: Buffer, n: nat): nat
    requires n <= CAPACITY
  {
    if n == 0 then 0 else Used(buf, n - 1) + if buf[n - 1] == EMPTY then 0 else 1
  }

  /** Words read from i on, and the buffer with them marked as read. */
  function Taken(buf: Buffer, i: nat): Record
    requires i <= BUFD_MAX
  {
    var i1 := Advance(i);
    var i2 := Advance(i1);
    var i3 := Advance(i2);
    var b1 := buf[i := EMPTY];
    var b2 := b1[i1 := EMPTY];
    Record(buf[i], b1[i1], b2[i2], b2[i2 := EMPTY][i3])
  }

  function Erased(buf: Buffer, i: nat): Buffer
    requires i <= BUFD_MAX
  {
    var i1 := Advance(i);
    var i2 := Advance(i1);
    buf[i := EMPTY][i1 := EMPTY][i2 := EMPTY][Advance(i2) := EMPTY]
  }

  function Advance4(i: nat): (j: nat)
    requires i <= BUFD_MAX
    ensures j < BUFD_MAX
  {
    Advance(Advance(Advance(Advance(i))))
  }

  lemma {:induction false} UsedErase(buf: Buffer, i: nat, n: nat)
    requires i < CAPACITY && n <= CAPACITY
    ensures Used(buf[i := EMPTY], n) == Used(buf, n) - (if i < n && buf[i] != EMPTY then 1 else 0)
  {
    if n == 0 {
    } else {
      UsedErase(buf, i, n - 1);
    }
  }

  lemma ErasedUsesLess(buf: Buffer, i: nat)
    requires i <= BUFD_MAX && buf[i] != EMPTY
    ensures Used(Erased(buf, i), CAPACITY) < Used(buf, CAPACITY)
  {
    var i1 := Advance(i);
    var i2 := Advance(i1);
    UsedErase(buf, i, CAPACITY);
    UsedErase(buf[i := EMPTY], i1, CAPACITY);
    UsedErase(buf[i := EMPTY][i1 := EMPTY], i2, CAPACITY);
    UsedErase(buf[i := EMPTY][i1 := EMPTY][i2 := EMPTY], Advance(i2), CAPACITY);
  }

  /** What the drain loop prints, and the buffer it leaves. */
  ghost function Drain(buf: Buffer, i: nat): (r: (seq<Record>, Buffer))
    requires i <= BUFD_MAX
    decreases Used(buf, CAPACITY)
  {
    if buf[i] == EMPTY then ([], buf)
    else
      ErasedUsesLess(buf, i);
      var rest := Drain(Erased(buf, i), Advance4(i));
      ([Taken(buf, i)] + rest.0, rest.1)
  }

  // ---------------------------------------------------------------- runs

  datatype Event = Sample(r: Record) | DrainAll

  datatype State = State(buf: Buffer, idx: nat, drained: seq<Record>)

  ghost function Next(s: State, e: Event): State {
    match e
    case Sample(r) => State(PutRecord(s.buf, WriteAt(s.idx), r), WriteAt(s.idx) + 4, s.drained)
    case DrainAll =>
      var d := Drain(s.buf, Scan(s.buf));
      State(d.1, s.idx, s.drained + d.0)
  }

  ghost function Run(es: seq<Event>): State {
    if es == [] then State(Cleared(), 0, []) else Next(Run(es[..|es| - 1]), es[|es| - 1])
  }

  function Samples(es: seq<Event>): (rs: seq<Record>)
    ensures |rs| <= |es|
  {
    if es == [] then []
    else
      var e := es[|es| - 1];
      Samples(es[..|es| - 1]) + if e.Sample? then [e.r] else []
  }

  /** No sample's jiffies word is the empty marker. */
  ghost predicate Marked(rs: seq<Record>) {
    forall k | 0 <= k < |rs| :: rs[k].jiffies != 0xFFFF_FFFF_FFFF_FFFF
  }

  // ---------------------------------------------------------------- first in, first out

  function WordOf(r: Record, c: nat): ulong
    requires c < 4
  {
    if c == 0 then r.jiffies else if c == 1 then r.minFlt else if c == 2 then r.majFlt else r.cpu
  }

  /** What word i is when the buffer holds records d .. n of rs, each in its own four words. */
  function WordAt(rs: seq<Record>, d: nat, n: nat, i: nat): ulong
    requires n <= |rs|
  {
    if 4 * d <= i < 4 * n then WordOf(rs[i / 4], i % 4) else EMPTY
  }

  /** The buffer holds those records and nothing else. */
  ghost predicate Holds(buf: Buffer, rs: seq<Record>, d: nat, n: nat) {
    && d <= n <= |rs|
    && 4 * n <= BUFD_MAX
    && forall i {:trigger WordAt(rs, d, n, i)} | 0 <= i < CAPACITY :: buf[i] == WordAt(rs, d, n, i)
  }

  lemma HeldWord(buf: Buffer, rs: seq<Record>, d: nat, n: nat, i: nat)
    requires Holds(buf, rs, d, n) && i < CAPACITY
    ensures buf[i] == if 4 * d <= i < 4 * n then WordOf(rs[i / 4], i % 4) else EMPTY
  {
    assert buf[i] == WordAt(rs, d, n, i);
  }

  lemma PutHolds(buf: Buffer, rs: seq<Record>, d: nat, r: Record)
    requires Holds(buf, rs, d, |rs|) && 4 * |rs| + 4 <= BUFD_MAX
    ensures Holds(PutRecord(buf, 4 * |rs|, r), rs + [r], d, |rs| + 1)
  {
    var b, n := PutRecord(buf, 4 * |rs|, r), |rs|;
    forall i | 0 <= i < CAPACITY
      ensures b[i] == WordAt(rs + [r], d, n + 1, i)
    {
      HeldWord(buf, rs, d, n, i);
      if 4 * n <= i < 4 * n + 4 {
        assert i / 4 == n;
      } else if 4 * d <= i < 4 * n {
        assert i / 4 < n;
      }
    }
  }

  /** One turn of the drain loop on record d. */
  lemma TurnHolds(buf: Buffer, rs: seq<Record>, d: nat, n: nat)
    requires Holds(buf, rs, d, n) && d < n && Marked(rs)
    ensures buf[4 * d] != EMPTY
    ensures Taken(buf, 4 * d) == rs[d]
    ensures Holds(Erased(buf, 4 * d), rs, d + 1, n)
    ensures Advance4(4 * d) == if 4 * d + 4 == BUFD_MAX then 0 else 4 * d + 4
  {
    var i := 4 * d;
    HeldWord(buf, rs, d, n, i);
    HeldWord(buf, rs, d, n, i + 1);
    HeldWord(buf, rs, d, n, i + 2);
    HeldWord(buf, rs, d, n, i + 3);
    forall j | 0 <= j < CAPACITY
      ensures Erased(buf, i)[j] == WordAt(rs, d + 1, n, j)
    {
      HeldWord(buf, rs, d, n, j);
    }
  }

  lemma DrainTurn(buf: Buffer, i: nat)
    requires i <= BUFD_MAX && buf[i] != EMPTY
    ensures Drain(buf, i).0 == [Taken(buf, i)] + Drain(Erased(buf, i), Advance4(i)).0
    ensures Drain(buf, i).1 == Drain(Erased(buf, i), Advance4(i)).1
  {
  }

  /** Where the drain loop stands before record d; behind the last word it has wrapped. */
  function CursorAt(d: nat): nat {
    if 4 * d == BUFD_MAX then 0 else 4 * d
  }

  lemma DrainOne(buf: Buffer, rs: seq<Record>, d: nat, n: nat)
    requires Holds(buf, rs, d, n) && d < n && Marked(rs)
    ensures Drain(buf, CursorAt(d)).0 == [rs[d]] + Drain(Erased(buf, 4 * d), CursorAt(d + 1)).0
    ensures Drain(buf, CursorAt(d)).1 == Drain(Erased(buf, 4 * d), CursorAt(d + 1)).1
    ensures Holds(Erased(buf, 4 * d), rs, d + 1, n)
  {
    TurnHolds(buf, rs, d, n);
    DrainTurn(buf, 4 * d);
  }

  /** From record d on, the drain loop prints the records the buffer holds and empties it. */
  lemma {:induction false} DrainHolds(buf: Buffer, rs: seq<Record>, d: nat, n: nat)
    requires Holds(buf, rs, d, n) && Marked(rs)
    ensures Drain(buf, CursorAt(d)).0 == rs[d..n]
    ensures Holds(Drain(buf, CursorAt(d)).1, rs, n, n)
    decreases n - d
  {
    if d < n {
      DrainOne(buf, rs, d, n);
      DrainHolds(Erased(buf, 4 * d), rs, d + 1, n);
      assert rs[d..n] == [rs[d]] + rs[d + 1..n];
    } else {
      HeldWord(buf, rs, d, n, CursorAt(d));
      assert rs[d..n] == [];
    }
  }

  lemma ScanHolds(buf: Buffer, rs: seq<Record>, d: nat, n: nat)
    requires Holds(buf, rs, d, n) && Marked(rs)
    ensures Scan(buf) == if d < n then 4 * d else BUFD_MAX
    ensures d == n ==> buf[BUFD_MAX] == EMPTY
  {
    var i := Scan(buf);
    HeldWord(buf, rs, d, n, i);
    HeldWord(buf, rs, d, n, BUFD_MAX);
    if d < n {
      HeldWord(buf, rs, d, n, 4 * d);
    }
  }

  /** A whole drain, scan included. */
  lemma DrainAllHolds(buf: Buffer, rs: seq<Record>, d: nat, n: nat)
    requires Holds(buf, rs, d, n) && Marked(rs)
    ensures Drain(buf, Scan(buf)).0 == rs[d..n] && Holds(Drain(buf, Scan(buf)).1, rs, n, n)
  {
    ScanHolds(buf, rs, d, n);
    if d < n {
      DrainHolds(buf, rs, d, n);
    }
  }

  /** After samples rs, of which d were drained. */
  ghost predicate InOrder(s: State, rs: seq<Record>, d: nat) {
    Holds(s.buf, rs, d, |rs|) && s.idx == 4 * |rs| && s.drained == rs[..d]
  }

  lemma SampleInOrder(s: State, rs: seq<Record>, d: nat, r: Record)
    requires InOrder(s, rs, d) && 4 * |rs| + 4 <= BUFD_MAX
    ensures InOrder(Next(s, Sample(r)), rs + [r], d)
  {
    PutHolds(s.buf, rs, d, r);
    assert (rs + [r])[..d] == rs[..d];
  }

  lemma DrainInOrder(s: State, rs: seq<Record>, d: nat)
    requires InOrder(s, rs, d) && Marked(rs)
    ensures InOrder(Next(s, DrainAll), rs, |rs|)
  {
    DrainAllHolds(s.buf, rs, d, |rs|);
    assert rs[..d] + rs[d..|rs|] == rs == rs[..|rs|];
  }

  lemma NothingYet(rs: seq<Record>)
    requires rs == []
    ensures InOrder(Run([]), rs, 0)
  {
  }

  lemma {:induction false} RunInOrder(es: seq<Event>) returns (d: nat)
    requires 4 * |Samples(es)| <= BUFD_MAX && Marked(Samples(es))
    ensures InOrder(Run(es), Samples(es), d)
  {
    if es == [] {
      d := 0;
      NothingYet(Samples(es));
    } else {
      var front, e := es[..|es| - 1], es[|es| - 1];
      var rs := Samples(front);
      assert forall k | 0 <= k < |rs| :: rs[k] == Samples(es)[k];
      d := RunInOrder(front);
      match e {
        case Sample(r) =>
          SampleInOrder(Run(front), rs, d, r);
          assert Samples(es) == rs + [r];
        case DrainAll =>
          DrainInOrder(Run(front), rs, d);
          assert Samples(es) == rs;
          d := |rs|;
      }
    }
  }

  /** What has been drained, followed by what a drain now would print, is what was sampled. */
  ghost predicate Fifo(es: seq<Event>) {
    Run(es + [DrainAll]).drained == Samples(es)
  }

  lemma RunSnoc(es: seq<Event>, e: Event)
    ensures Run(es + [e]) == Next(Run(es), e)
    ensures Samples(es + [e]) == Samples(es) + if e.Sample? then [e.r] else []
  {
    assert (es + [e])[..|es|] == es;
  }

  lemma FifoUpTo12000(es: seq<Event>)
    requires |Samples(es)| <= 12000 && Marked(Samples(es))
    ensures Fifo(es)
  {
    RunSnoc(es, DrainAll);
    var d := RunInOrder(es);
    DrainInOrder(Run(es), Samples(es), d);
  }

  lemma NextSlot(n: nat)
    ensures WriteAt(4 * (n % 16384) + 4) == 4 * ((n + 1) % 16384)
  {
    assert (n + 1) % 16384 == if n % 16384 == 16383 then 0 else n % 16384 + 1;
  }

  lemma SlotStep(s: State, e: Event, n: nat)
    requires WriteAt(s.idx) == 4 * (n % 16384) && s.idx <= CAPACITY
    ensures WriteAt(Next(s, e).idx) == 4 * ((if e.Sample? then n + 1 else n) % 16384)
    ensures Next(s, e).idx <= CAPACITY
  {
    NextSlot(n);
  }

  /** Sample number n goes to record slot n mod 16384, whatever has been drained in between. */
  lemma {:induction false} SampleSlot(es: seq<Event>)
    ensures WriteAt(Run(es).idx) == 4 * (|Samples(es)| % 16384)
    ensures Run(es).idx <= CAPACITY
  {
    if es == [] {
    } else {
      SampleSlot(es[..|es| - 1]);
      SlotStep(Run(es[..|es| - 1]), es[|es| - 1], |Samples(es[..|es| - 1])|);
    }
  }

  /** A sample stores its four words in the slot that is due, and no others. */
  lemma SampleStores(es: seq<Event>, r: Record, i: nat)
    requires i < CAPACITY
    ensures var n := |Samples(es)| % 16384;
      Run(es + [Sample(r)]).buf[i]
      == if i == 4 * n then r.jiffies else if i == 4 * n + 1 then r.minFlt else if i == 4 * n + 2 then r.majFlt
         else if i == 4 * n + 3 then r.cpu else Run(es).buf[i]
  {
    SampleSlot(es);
    RunSnoc(es, Sample(r));
  }

  /** Word c of the record that is read at i: up to word 48000 and then on from word 0. */
  function ReadAt(i: nat, c: nat): nat
    requires i <= 48000 && c < 4
  {
    if i == 48000 then (if c == 0 then 48000 else c - 1) else (i + c) % 48000
  }

  /** Wherever the drain loop stands, one turn prints the four words from there and erases those alone. */
  lemma TurnAnywhere(buf: Buffer, i: nat, j: nat)
    requires i <= 48000 && j < CAPACITY
    ensures Taken(buf, i) == Record(buf[i], buf[ReadAt(i, 1)], buf[ReadAt(i, 2)], buf[ReadAt(i, 3)])
    ensures Erased(buf, i)[j] == if exists c: nat | c < 4 :: j == ReadAt(i, c) then EMPTY else buf[j]
    ensures Advance4(i) == if i == 48000 then 3 else (i + 4) % 48000
  {
    assert ReadAt(i, 0) == i && ReadAt(i, 1) == Advance(i);
    assert ReadAt(i, 2) == Advance(Advance(i)) && ReadAt(i, 3) == Advance(Advance(Advance(i)));
  }

  /** The loop stops, with nothing printed, exactly at an empty word. */
  lemma DrainStops(buf: Buffer, i: nat)
    requires i <= 48000
    ensures Drain(buf, i).0 == [] <==> buf[i] == 0xFFFF_FFFF_FFFF_FFFF
    ensures Drain(buf, i).0 == [] ==> Drain(buf, i).1 == buf
  {
  }

  // ---------------------------------------------------------------- the bound is exact

  /** Sample 12001 lands where the monitor wraps: it is printed with three words that are not its own. */
  lemma TornRecord(buf: Buffer, rs: seq<Record>, r: Record)
    requires Holds(buf, rs, |rs|, |rs|) && Marked(rs) && r.jiffies != EMPTY
    ensures var b := PutRecord(buf, BUFD_MAX, r);
      Drain(b, Scan(b)).0 == [Record(r.jiffies, EMPTY, EMPTY, EMPTY)]
  {
    var b := PutRecord(buf, BUFD_MAX, r);
    ScanHolds(buf, rs, |rs|, |rs|);
    var i := Scan(b);
    HeldWord(buf, rs, |rs|, |rs|, i);
    assert Scan(b) == BUFD_MAX;
    HeldWord(buf, rs, |rs|, |rs|, 0);
    HeldWord(buf, rs, |rs|, |rs|, 1);
    HeldWord(buf, rs, |rs|, |rs|, 2);
    HeldWord(buf, rs, |rs|, |rs|, 3);
    DrainTurn(b, BUFD_MAX);
  }

  ghost predicate Whole(r: Record) {
    var minusOne := 0xFFFF_FFFF_FFFF_FFFF;
    r.jiffies != minusOne && r.minFlt != minusOne && r.majFlt != minusOne && r.cpu != minusOne
  }

  ghost predicate AllWhole(rs: seq<Record>) {
    forall k | 0 <= k < |rs| :: Whole(rs[k])
  }

  /** How many of these records have no empty word. */
  ghost function WholeOnes(rs: seq<Record>): nat {
    if rs == [] then 0 else WholeOnes(rs[..|rs| - 1]) + if Whole(rs[|rs| - 1]) then 1 else 0
  }

  lemma {:induction false} WholeOnesAppend(rs: seq<Record>, more: seq<Record>)
    ensures WholeOnes(rs + more) == WholeOnes(rs) + WholeOnes(more)
  {
    if more == [] {
      assert rs + more == rs;
    } else {
      var n := |more| - 1;
      assert (rs + more)[..|rs + more| - 1] == rs + more[..n];
      WholeOnesAppend(rs, more[..n]);
    }
  }

  lemma {:induction false} WholeOnesOfWhole(rs: seq<Record>)
    requires AllWhole(rs)
    ensures WholeOnes(rs) == |rs|
  {
    if rs == [] {
    } else {
      WholeOnesOfWhole(rs[..|rs| - 1]);
    }
  }

  /** The monitor reads words 0 to BUFD_MAX. */
  const REACH := BUFD_MAX + 1

  /** How many words of a record slot the monitor can read. */
  function Reached(slot: nat): nat {
    if slot < 12000 then 4 else if slot == 12000 then 1 else 0
  }

  /** How many words of the first n samples the monitor can read. */
  function Budget(n: nat): nat {
    if n == 0 then 0 else Budget(n - 1) + Reached((n - 1) % 16384)
  }

  lemma {:induction false} BudgetShort(n: nat)
    ensures Budget(n) <= 4 * n
    ensures n > 12000 ==> Budget(n) < 4 * n
  {
    if n == 0 {
    } else {
      BudgetShort(n - 1);
    }
  }

  lemma {:induction false} UsedStore(buf: Buffer, i: nat, w: ulong, n: nat)
    requires i < CAPACITY && n <= CAPACITY
    ensures Used(buf[i := w], n) <= Used(buf, n) + if i < n then 1 else 0
  {
    if n == 0 {
    } else {
      UsedStore(buf, i, w, n - 1);
    }
  }

  lemma SampleUses(buf: Buffer, slot: nat, r: Record)
    requires slot < 16384
    ensures Used(PutRecord(buf, 4 * slot, r), REACH) <= Used(buf, REACH) + Reached(slot)
  {
    var at := 4 * slot;
    var b1 := buf[at := r.jiffies];
    var b2 := b1[at + 1 := r.minFlt];
    var b3 := b2[at + 2 := r.majFlt];
    UsedStore(buf, at, r.jiffies, REACH);
    UsedStore(b1, at + 1, r.minFlt, REACH);
    UsedStore(b2, at + 2, r.majFlt, REACH);
    UsedStore(b3, at + 3, r.cpu, REACH);
  }

  /** A record printed without an empty word has used up four words. */
  lemma TurnUses(buf: Buffer, i: nat)
    requires i <= BUFD_MAX
    ensures Used(Erased(buf, i), REACH) + (if Whole(Taken(buf, i)) then 4 else 0) <= Used(buf, REACH)
  {
    var i1 := Advance(i);
    var i2 := Advance(i1);
    var b1 := buf[i := EMPTY];
    var b2 := b1[i1 := EMPTY];
    UsedErase(buf, i, REACH);
    UsedErase(b1, i1, REACH);
    UsedErase(b2, i2, REACH);
    UsedErase(b2[i2 := EMPTY], Advance(i2), REACH);
  }

  lemma {:induction false} DrainUses(buf: Buffer, i: nat)
    requires i <= BUFD_MAX
    ensures Used(Drain(buf, i).1, REACH) + 4 * WholeOnes(Drain(buf, i).0) <= Used(buf, REACH)
    decreases Used(buf, CAPACITY)
  {
    if buf[i] == EMPTY {
    } else {
      DrainTurn(buf, i);
      ErasedUsesLess(buf, i);
      TurnUses(buf, i);
      DrainUses(Erased(buf, i), Advance4(i));
      WholeOnesAppend([Taken(buf, i)], Drain(Erased(buf, i), Advance4(i)).0);
    }
  }

  /** What can still be printed and what has been printed without an empty word stay within the budget. */
  ghost predicate WithinBudget(s: State, n: nat) {
    Used(s.buf, REACH) + 4 * WholeOnes(s.drained) <= Budget(n)
  }

  lemma NextWithinBudget(s: State, e: Event, n: nat)
    requires WithinBudget(s, n) && WriteAt(s.idx) == 4 * (n % 16384)
    ensures WithinBudget(Next(s, e), if e.Sample? then n + 1 else n)
  {
    match e
    case Sample(r) => SampleUses(s.buf, n % 16384, r);
    case DrainAll =>
      DrainUses(s.buf, Scan(s.buf));
      WholeOnesAppend(s.drained, Drain(s.buf, Scan(s.buf)).0);
  }

  lemma {:induction false} NothingUsed(n: nat)
    requires n <= CAPACITY
    ensures Used(Cleared(), n) == 0
  {
    if n == 0 {
    } else {
      NothingUsed(n - 1);
    }
  }

  lemma {:induction false} RunWithinBudget(es: seq<Event>)
    ensures WithinBudget(Run(es), |Samples(es)|)
  {
    if es == [] {
      NothingUsed(REACH);
    } else {
      var front, e := es[..|es| - 1], es[|es| - 1];
      RunWithinBudget(front);
      SampleSlot(front);
      NextWithinBudget(Run(front), e, |Samples(front)|);
    }
  }

  lemma OverrunIsNotFifo(es: seq<Event>)
    requires AllWhole(Samples(es)) && |Samples(es)| > 12000
    ensures !Fifo(es)
  {
    var all := es + [DrainAll];
    RunSnoc(es, DrainAll);
    assert Samples(all) == Samples(es);
    RunWithinBudget(all);
    WholeOnesOfWhole(Samples(es));
    BudgetShort(|Samples(es)|);
    assert WholeOnes(Run(all).drained) < |Samples(es)|;
  }

  /** Without empty words in the samples, a run is first in, first out exactly when it has at most 12000 samples. */
  lemma FifoIff(es: seq<Event>)
    requires AllWhole(Samples(es))
    ensures Fifo(es) <==> |Samples(es)| <= 12000
  {
    if |Samples(es)| <= 12000 {
      FifoUpTo12000(es);
    } else {
      OverrunIsNotFifo(es);
    }
  }

  /** First in, first out holds for every run of at most `limit` samples. */
  ghost predicate FifoBelow(limit: nat) {
    forall es: seq<Event> | |Samples(es)| <= limit && Marked(Samples(es)) :: Fifo(es)
  }

  function SampleRepeatedly(r: Record, n: nat): (es: seq<Event>)
    ensures |es| == n
  {
    if n == 0 then [] else SampleRepeatedly(r, n - 1) + [Sample(r)]
  }

  lemma {:induction false} RepeatedSamples(r: Record, n: nat)
    ensures |Samples(SampleRepeatedly(r, n))| == n
    ensures forall k | 0 <= k < n :: Samples(SampleRepeatedly(r, n))[k] == r
  {
    if n == 0 {
    } else {
      RepeatedSamples(r, n - 1);
      assert SampleRepeatedly(r, n)[..n - 1] == SampleRepeatedly(r, n - 1);
    }
  }

  lemma FifoIffUpTo12000(limit: nat)
    ensures FifoBelow(limit) <==> limit <= 12000
  {
    if limit <= 12000 {
      forall es: seq<Event> | |Samples(es)| <= limit && Marked(Samples(es))
        ensures Fifo(es)
      {
        FifoUpTo12000(es);
      }
    } else {
      var over := SampleRepeatedly(Record(0, 0, 0, 0), 12001);
      RepeatedSamples(Record(0, 0, 0, 0), 12001);
      FifoIff(over);
    }
  }
}
