/**
 The arithmetic of timekeeping.rs: cycles since the last update, and the time they stand for. Sums,
 differences and products are on u64 and wrap, as in a release build.
 */
module Timekeeping {
  import opened Bits
  import opened Words

  type shiftCount = x: int | 0 <= x < 64

  /** The fields of tk_read_base that the reader uses; `clock` names the clocksource. */
  datatype Snapshot = Snapshot(
    base: u64, clock: nat, cycleLast: u64, mask: u64, mult: u64, xtimeNsec: u64, shift: shiftCount)

  lemma Pow64()
    ensures Pow2(64) == U64_RANGE
  {
    assert Pow2(8) == 0x100;
    Pow2Sum(8, 8);
    Pow2Sum(16, 16);
    Pow2Sum(32, 32);
  }

  /** `validate` is CONFIG_CLOCKSOURCE_VALIDATE_LAST_CYCLE. */
  function ClocksourceDelta(validate: bool, now: u64, last: u64, mask: u64): u64 {
    var ret := And(WrapU64(now - last), mask);
    if validate then
      Pow64();
      HighLow(mask, 1);
      if And(ret, Not(64, High(mask, 1))) != 0 then 0 else ret
    else
      ret
  }

  function DeltaToNs(t: Snapshot, delta: u64): nat {
    High(WrapU64(delta * t.mult + t.xtimeNsec), t.shift)
  }

  function TimeAfter(t: Snapshot, delta: u64): u64 {
    WrapU64(t.base + DeltaToNs(t, delta))
  }

  /** The time computed from one snapshot and one clock reading. */
  function TimeAt(validate: bool, t: Snapshot, cycles: u64): u64 {
    TimeAfter(t, ClocksourceDelta(validate, cycles, t.cycleLast, t.mask))
  }

  // ---------------------------------------------------------------- cycles

  /** The forward distance on a counter of k bits. */
  function Forward(k: nat, now: u64, last: u64): nat {
    Low(WrapU64(now - last), k)
  }

  /** r & !(2^j - 1) in a 64-bit word keeps the bits from j up. */
  lemma BitsFrom(r: nat, j: nat, i: nat)
    requires j <= 64 && r < Pow2(64)
    ensures Pow2(j) <= Pow2(64)
    ensures Bit(And(r, Not(64, Pow2(j) - 1)), i) <==> j <= i && Bit(r, i)
  {
    Pow2Monotone(j, 64);
    BitAnd(r, Not(64, Pow2(j) - 1), i);
    BitNot(64, Pow2(j) - 1, i);
    BitNot(j, 0, i);
    BitOfZero(i);
    if i >= 64 {
      HighBitsClear(r, 64, i);
    }
  }

  /** So it is zero exactly when r is below 2^j. */
  lemma NoBitsFrom(r: nat, j: nat)
    requires j <= 64 && r < Pow2(64)
    ensures Pow2(j) <= Pow2(64)
    ensures And(r, Not(64, Pow2(j) - 1)) == 0 <==> r < Pow2(j)
  {
    Pow2Monotone(j, 64);
    var masked := And(r, Not(64, Pow2(j) - 1));
    forall i: nat
      ensures Bit(masked, i) <==> j <= i && Bit(r, i)
      ensures !Bit(0, i)
    {
      BitsFrom(r, j, i);
      BitOfZero(i);
    }
    if masked == 0 {
      FitsInWidth(r, j);
    }
    if r < Pow2(j) {
      forall i: nat
        ensures Bit(masked, i) <==> Bit(0, i)
      {
        if i >= j {
          HighBitsClear(r, j, i);
        }
      }
      SameBits(masked, 0);
    }
  }

  /** With a k-bit mask and validation on, the delta is the forward distance, or 0 in the backward half. */
  lemma DeltaForMask(k: nat, now: u64, last: u64)
    requires 1 <= k <= 64
    ensures Pow2(k) - 1 < U64_RANGE
    ensures ClocksourceDelta(true, now, last, Pow2(k) - 1)
            == if Forward(k, now, last) < Pow2(k - 1) then Forward(k, now, last) else 0
  {
    Pow64();
    Pow2Monotone(k, 64);
    var r := WrapU64(now - last);
    AndLowMask(r, k);
    HighLow(r, k);
    assert High(Pow2(k) - 1, 1) == Pow2(k - 1) - 1 by { assert High(Pow2(k) - 1, 1) == (Pow2(k) - 1) / 2; }
    NoBitsFrom(Low(r, k), k - 1);
  }

  lemma WrapOnce(x: int)
    requires -U64_RANGE <= x < 2 * U64_RANGE
    ensures WrapU64(x) == if x < 0 then x + U64_RANGE else if x < U64_RANGE then x else x - U64_RANGE
  {
  }

  lemma WrapBack(last: u64, n: nat)
    requires n < U64_RANGE
    ensures WrapU64(WrapU64(last + n) - last) == n
    ensures n > 0 ==> WrapU64(WrapU64(last - n) - last) == U64_RANGE - n
  {
    WrapOnce(last + n);
    WrapOnce(WrapU64(last + n) - last);
    WrapOnce(last - n);
    WrapOnce(WrapU64(last - n) - last);
  }

  lemma HalfRange(k: nat)
    requires 1 <= k <= 64
    ensures Pow2(k - 1) < U64_RANGE && Pow2(k) - 1 < U64_RANGE
  {
    Pow64();
    Pow2Monotone(k, 64);
  }

  /** n cycles after the last update, below half the counter's range, read as n. */
  lemma ForwardCycles(k: nat, last: u64, n: nat)
    requires 1 <= k <= 64 && n < Pow2(k - 1)
    ensures Pow2(k) - 1 < U64_RANGE
    ensures ClocksourceDelta(true, WrapU64(last + n), last, Pow2(k) - 1) == n
  {
    HalfRange(k);
    DeltaForMask(k, WrapU64(last + n), last);
    WrapBack(last, n);
    LowOfSmall(n, k);
  }

  lemma OneMore(q: int, p: int)
    ensures (q + 1) * p == q * p + p
  {
  }

  lemma LowOfComplement(k: nat, w: nat, n: nat)
    requires k <= w && 0 < n <= Pow2(k)
    ensures Pow2(w) >= n && Low(Pow2(w) - n, k) == Pow2(k) - n
  {
    Pow2Sum(w - k, k);
    var q := Pow2(w - k) - 1;
    OneMore(q, Pow2(k));
    assert Pow2(w) - n == q * Pow2(k) + (Pow2(k) - n);
    DivModUnique(Pow2(w) - n, Pow2(k), q, Pow2(k) - n);
    HighLow(Pow2(w) - n, k);
  }

  /** A clock that is up to half the range behind the last update reads as no time passed. */
  lemma BackwardCycles(k: nat, last: u64, n: nat)
    requires 1 <= k <= 64 && 0 < n <= Pow2(k - 1)
    ensures Pow2(k) - 1 < U64_RANGE
    ensures ClocksourceDelta(true, WrapU64(last - n), last, Pow2(k) - 1) == 0
  {
    HalfRange(k);
    Pow64();
    DeltaForMask(k, WrapU64(last - n), last);
    WrapBack(last, n);
    LowOfComplement(k, 64, n);
  }

  // ---------------------------------------------------------------- the time read

  /** The time a snapshot gives after d cycles, before any wrapping. */
  function ExactTime(t: Snapshot, d: u64): nat {
    t.base + High(d * t.mult + t.xtimeNsec, t.shift)
  }

  /** Nothing in the computation of the time wraps for a delta of d cycles. */
  ghost predicate NoWrap(t: Snapshot, d: u64) {
    d * t.mult + t.xtimeNsec < U64_RANGE && ExactTime(t, d) < U64_RANGE
  }

  lemma TimeIsExact(t: Snapshot, d: u64)
    requires NoWrap(t, d)
    ensures TimeAfter(t, d) == ExactTime(t, d)
  {
    WrapOnce(d * t.mult + t.xtimeNsec);
    WrapOnce(ExactTime(t, d));
  }

  lemma {:induction false} HighMonotone(a: nat, b: nat, k: nat)
    requires a <= b
    ensures High(a, k) <= High(b, k)
  {
    if k == 0 {
    } else {
      HighMonotone(a / 2, b / 2, k - 1);
    }
  }

  lemma ExactTimeMonotone(t: Snapshot, m: u64, n: u64)
    requires m <= n
    ensures ExactTime(t, m) <= ExactTime(t, n)
  {
    MulMonotone(m, n, t.mult);
    HighMonotone(m * t.mult + t.xtimeNsec, n * t.mult + t.xtimeNsec, t.shift);
  }

  /** The time is never below base + (xtime_nsec >> shift), whatever the clock reads. */
  lemma TimeNotBeforeUpdate(validate: bool, t: Snapshot, cycles: u64)
    requires NoWrap(t, ClocksourceDelta(validate, cycles, t.cycleLast, t.mask))
    ensures TimeAt(validate, t, cycles) >= t.base + High(t.xtimeNsec, t.shift)
  {
    var d := ClocksourceDelta(validate, cycles, t.cycleLast, t.mask);
    TimeIsExact(t, d);
    ExactTimeMonotone(t, 0, d);
  }

  /** Cycles since the last update on a counter of k bits; with validation the backward half counts as none. */
  function CyclesSince(validate: bool, k: nat, now: u64, last: u64): nat
    requires k >= 1
  {
    var f := WrapU64(now - last) % Pow2(k);
    if validate && f >= Pow2(k - 1) then 0 else f
  }

  lemma DeltaIsCyclesSince(validate: bool, k: nat, now: u64, last: u64)
    requires 1 <= k <= 64
    ensures Pow2(k) - 1 < U64_RANGE
    ensures ClocksourceDelta(validate, now, last, Pow2(k) - 1) == CyclesSince(validate, k, now, last)
  {
    HalfRange(k);
    HighLow(WrapU64(now - last), k);
    if validate {
      DeltaForMask(k, now, last);
    } else {
      AndLowMask(WrapU64(now - last), k);
    }
  }

  /** The time read, for any clock reading and with every wrap: base + (d * mult + xtime_nsec) / 2^shift. */
  lemma TimeValue(validate: bool, k: nat, t: Snapshot, cycles: u64)
    requires 1 <= k <= 64 && t.mask == Pow2(k) - 1
    ensures var d := CyclesSince(validate, k, cycles, t.cycleLast);
      TimeAt(validate, t, cycles)
      == (t.base + (d * t.mult + t.xtimeNsec) % 0x1_0000_0000_0000_0000 / Pow2(t.shift)) % 0x1_0000_0000_0000_0000
  {
    DeltaIsCyclesSince(validate, k, cycles, t.cycleLast);
    HighLow(WrapU64(CyclesSince(validate, k, cycles, t.cycleLast) * t.mult + t.xtimeNsec), t.shift);
  }

  /** n cycles after the update, where nothing wraps, the time is exactly the scaled count on top of the base. */
  lemma TimeForward(k: nat, t: Snapshot, n: nat)
    requires 1 <= k <= 64 && t.mask == Pow2(k) - 1
    requires n < Pow2(k - 1) && n < U64_RANGE && NoWrap(t, n)
    ensures TimeAt(true, t, WrapU64(t.cycleLast + n)) == t.base + (n * t.mult + t.xtimeNsec) / Pow2(t.shift)
  {
    ForwardCycles(k, t.cycleLast, n);
    TimeIsExact(t, n);
    HighLow(n * t.mult + t.xtimeNsec, t.shift);
  }

  /** Time does not run backwards over the forward half range of a k-bit counter. */
  lemma TimeMonotone(k: nat, t: Snapshot, m: nat, n: nat)
    requires 1 <= k <= 64 && t.mask == Pow2(k) - 1
    requires m <= n < Pow2(k - 1) && n < U64_RANGE && NoWrap(t, n)
    ensures TimeAt(true, t, WrapU64(t.cycleLast + m)) <= TimeAt(true, t, WrapU64(t.cycleLast + n))
  {
    ForwardCycles(k, t.cycleLast, m);
    ForwardCycles(k, t.cycleLast, n);
    MulMonotone(m, n, t.mult);
    ExactTimeMonotone(t, m, n);
    TimeIsExact(t, m);
    TimeIsExact(t, n);
  }
}
