/**
 The bitfield storage unit of perf_event/binding.rs and the two bitfields laid out in it. The
 storage is read as one number; get and set are Extract and Replace on it, in either byte order.
 */
module Bitfield {
  import opened Bits
  import opened Words

  /** Bit `index` of the unit, in the order the code counts bits. */
  predicate BitAt(bytes: seq<byte>, bigEndian: bool, index: nat)
    requires index < 8 * |bytes|
  {
    Bit(bytes[index / 8], if bigEndian then 7 - index % 8 else index % 8)
  }

  /** The bytes as one number, in the byte order of the target. */
  function Number(bytes: seq<byte>, bigEndian: bool): nat {
    if bytes == [] then 0
    else if bigEndian then Number(bytes[..|bytes| - 1], true) * 256 + bytes[|bytes| - 1]
    else Number(bytes[1..], false) * 256 + bytes[0]
  }

  /** Where a field of width w at this offset starts in the number of `bytes` bytes. */
  function Shift(bytes: nat, bigEndian: bool, offset: nat, w: nat): nat
    requires offset + w <= 8 * bytes
  {
    if bigEndian then 8 * bytes - offset - w else offset
  }

  lemma ByteFits(b: byte)
    ensures b < Pow2(8)
  {
    assert Pow2(8) == 256;
  }

  /** Bit `index` of the unit is bit Shift(index) of the number. */
  lemma {:induction false} NumberBit(bytes: seq<byte>, bigEndian: bool, index: nat)
    requires index < 8 * |bytes|
    ensures Bit(Number(bytes, bigEndian), Shift(|bytes|, bigEndian, index, 1)) <==> BitAt(bytes, bigEndian, index)
  {
    assert Pow2(8) == 256;
    var i := Shift(|bytes|, bigEndian, index, 1);
    if bigEndian {
      var rest := bytes[..|bytes| - 1];
      ShlIsProduct(Number(rest, true), 8);
      BitConcat(Number(rest, true), bytes[|bytes| - 1], 8, i);
      if index < 8 * |rest| {
        NumberBit(rest, true, index);
      }
    } else {
      ShlIsProduct(Number(bytes[1..], false), 8);
      BitConcat(Number(bytes[1..], false), bytes[0], 8, i);
      if index >= 8 {
        NumberBit(bytes[1..], false, index - 8);
        assert index / 8 - 1 == (index - 8) / 8;
      }
    }
  }

  lemma {:induction false} NumberFits(bytes: seq<byte>, bigEndian: bool)
    ensures Number(bytes, bigEndian) < Pow2(8 * |bytes|)
  {
    if bytes == [] {
    } else {
      var rest := if bigEndian then bytes[..|bytes| - 1] else bytes[1..];
      NumberFits(rest, bigEndian);
      Pow2Sum(8, 8 * |rest|);
      assert Pow2(8) == 256;
    }
  }

  /** The digit of a field's value that bit j of the unit holds. */
  function Digit(bigEndian: bool, offset: nat, w: nat, j: nat): nat
    requires offset <= j < offset + w
  {
    if bigEndian then w - 1 - (j - offset) else j - offset
  }

  /** Bit j of the unit holds one of the digits below n of the field's value. */
  predicate InField(bigEndian: bool, offset: nat, w: nat, j: nat, n: nat) {
    offset <= j < offset + w && Digit(bigEndian, offset, w, j) < n
  }

  /** Two units that agree outside a field hold numbers that agree outside it. */
  lemma NumberAfterSet(a: seq<byte>, b: seq<byte>, bigEndian: bool, offset: nat, w: nat, val: nat)
    requires |a| == |b| && offset + w <= 8 * |a|
    requires forall j | 0 <= j < 8 * |a| ::
               BitAt(b, bigEndian, j)
               == if InField(bigEndian, offset, w, j, w) then Bit(val, Digit(bigEndian, offset, w, j))
                  else BitAt(a, bigEndian, j)
    ensures Number(b, bigEndian) == Replace(Number(a, bigEndian), Shift(|a|, bigEndian, offset, w), w, val)
  {
    var m, n, s := Number(a, bigEndian), Number(b, bigEndian), Shift(|a|, bigEndian, offset, w);
    forall i: nat
      ensures Bit(n, i) <==> Bit(Replace(m, s, w, val), i)
    {
      BitReplace(m, s, w, val, i);
      if i < 8 * |a| {
        var j := Shift(|a|, bigEndian, i, 1);
        NumberBit(a, bigEndian, j);
        NumberBit(b, bigEndian, j);
      } else {
        NumberFits(a, bigEndian);
        NumberFits(b, bigEndian);
        HighBitsClear(m, 8 * |a|, i);
        HighBitsClear(n, 8 * |a|, i);
      }
    }
    SameBits(n, Replace(m, s, w, val));
  }

  lemma AssembledIsExtract(n: nat, s: nat, w: nat, val: nat)
    requires forall k: nat :: Bit(val, k) <==> k < w && Bit(n, s + k)
    ensures val == Extract(n, s, w)
  {
    forall k: nat
      ensures Bit(val, k) <==> Bit(Extract(n, s, w), k)
    {
      BitExtract(n, s, w, k);
    }
    SameBits(val, Extract(n, s, w));
  }

  /** val |= 1 << index */
  method OrBit(w: nat, val: nat, index: nat) returns (r: nat)
    requires val < Pow2(w) && index < w
    ensures r < Pow2(w) && forall k: nat :: Bit(r, k) <==> k == index || Bit(val, k)
  {
    WriteBit(w, val, index);
    r := Or(val, Pow2(index));
  }

  class BitfieldUnit {
    const bigEndian: bool
    const storage: array<byte>

    constructor (bigEndian: bool, bytes: nat)
      ensures this.bigEndian == bigEndian && fresh(storage) && storage.Length == bytes
      ensures Num() == 0
    {
      this.bigEndian := bigEndian;
      storage := new byte[bytes](_ => 0);
      new;
      ZeroNumber(storage[..], bigEndian);
    }

    ghost function Num(): nat
      reads storage
    {
      Number(storage[..], bigEndian)
    }

    method GetBit(index: nat) returns (b: bool)
      requires index < 8 * storage.Length
      ensures b == BitAt(storage[..], bigEndian, index)
    {
      var bitIndex := if bigEndian then 7 - index % 8 else index % 8;
      var mask := Pow2(bitIndex);
      AndOneBit(storage[index / 8], bitIndex);
      b := And(storage[index / 8], mask) == mask;
    }

    method SetBit(index: nat, val: bool)
      requires index < 8 * storage.Length
      modifies storage
      ensures forall j | 0 <= j < 8 * storage.Length ::
                BitAt(storage[..], bigEndian, j) == if j == index then val else old(BitAt(storage[..], bigEndian, j))
    {
      var at := index / 8;
      var bitIndex := if bigEndian then 7 - index % 8 else index % 8;
      var mask := Pow2(bitIndex);
      ByteFits(storage[at]);
      WriteBit(8, storage[at], bitIndex);
      assert Pow2(8) == 256;
      if val {
        storage[at] := Or(storage[at], mask);
      } else {
        storage[at] := And(storage[at], Not(8, mask));
      }
      forall j | 0 <= j < 8 * storage.Length
        ensures BitAt(storage[..], bigEndian, j)
                == if j == index then val else old(BitAt(storage[..], bigEndian, j))
      {
        if j / 8 == at {
          assert j == index <==> j % 8 == index % 8;
        }
      }
    }

    method Get(offset: nat, width: nat) returns (val: nat)
      requires width <= 64 && offset + width <= 8 * storage.Length
      ensures val == Extract(Num(), Shift(storage.Length, bigEndian, offset, width), width)
    {
      val := 0;
      forall k: nat
        ensures !Bit(0, k)
      {
        BitOfZero(k);
      }
      ghost var s := Shift(storage.Length, bigEndian, offset, width);
      for i := 0 to width
        invariant val < Pow2(width)
        invariant forall k: nat :: Bit(val, k) <==>
                    k < width && (if bigEndian then width - 1 - k else k) < i && Bit(Num(), s + k)
      {
        var b := GetBit(i + offset);
        NumberBit(storage[..], bigEndian, i + offset);
        var index := if bigEndian then width - 1 - i else i;
        if b {
          val := OrBit(width, val, index);
        }
      }
      AssembledIsExtract(Num(), s, width, val);
    }

    method Set(offset: nat, width: nat, val: nat)
      requires width <= 64 && offset + width <= 8 * storage.Length
      modifies storage
      ensures Num() == Replace(old(Num()), Shift(storage.Length, bigEndian, offset, width), width, val)
    {
      for i := 0 to width
        invariant forall j | 0 <= j < 8 * storage.Length ::
                    BitAt(storage[..], bigEndian, j)
                    == if InField(bigEndian, offset, width, j, i) then Bit(val, Digit(bigEndian, offset, width, j))
                       else BitAt(old(storage[..]), bigEndian, j)
      {
        var mask := Pow2(i);
        AndOneBit(val, i);
        var isSet := And(val, mask) == mask;
        var index := if bigEndian then width - 1 - i else i;
        SetBit(index + offset, isSet);
      }
      NumberAfterSet(old(storage[..]), storage[..], bigEndian, offset, width, val);
    }
  }

  lemma {:induction false} ZeroNumber(bytes: seq<byte>, bigEndian: bool)
    requires forall i | 0 <= i < |bytes| :: bytes[i] == 0
    ensures Number(bytes, bigEndian) == 0
  {
    if bytes == [] {
    } else {
      ZeroNumber(if bigEndian then bytes[..|bytes| - 1] else bytes[1..], bigEndian);
    }
  }

  // ---------------------------------------------------------------- the two layouts

  datatype Field = Field(offset: nat, width: nat)

  /** perf_branch_entry: mispred, predicted, in_tx, abort, cycles, type, reserved. */
  const BRANCH_ENTRY: seq<Field> :=
    [Field(0, 1), Field(1, 1), Field(2, 1), Field(3, 1), Field(4, 16), Field(20, 4), Field(24, 40)]

  /** perf_mem_data_src: op, lvl, snoop, lock, dtlb, lvl_num, remote, snoopx, blk, rsvd. */
  const MEM_DATA_SRC: seq<Field> :=
    [Field(0, 5), Field(5, 14), Field(19, 5), Field(24, 2), Field(26, 7), Field(33, 4), Field(37, 1), Field(38, 2),
     Field(40, 3), Field(43, 21)]

  /** The fields of a layout lie in order in a unit of 8 bytes, none overlapping another. */
  predicate InOrder(layout: seq<Field>) {
    && (forall k | 0 <= k < |layout| :: layout[k].width <= 64 && layout[k].offset + layout[k].width <= 64)
    && (forall j, k | 0 <= j < k < |layout| :: layout[j].offset + layout[j].width <= layout[k].offset)
  }

  /** What the getter of a field returns. */
  function FieldOf(n: nat, bigEndian: bool, f: Field): nat
    requires f.offset + f.width <= 64
  {
    Extract(n, Shift(8, bigEndian, f.offset, f.width), f.width)
  }

  /** What the setter of a field leaves. */
  function WithField(n: nat, bigEndian: bool, f: Field, v: nat): nat
    requires f.offset + f.width <= 64
  {
    Replace(n, Shift(8, bigEndian, f.offset, f.width), f.width, v)
  }

  /** A setter changes its own field to its argument mod 2^width and no other field. */
  lemma SetterIsLocal(n: nat, bigEndian: bool, layout: seq<Field>, k: nat, m: nat, v: nat)
    requires InOrder(layout) && k < |layout| && m < |layout|
    ensures FieldOf(WithField(n, bigEndian, layout[k], v), bigEndian, layout[m])
            == if m == k then v % Pow2(layout[k].width) else FieldOf(n, bigEndian, layout[m])
  {
    var f, g := layout[k], layout[m];
    var s := Shift(8, bigEndian, f.offset, f.width);
    if m == k {
      ExtractReplaced(n, s, f.width, v);
    } else {
      ExtractElsewhere(n, s, f.width, v, Shift(8, bigEndian, g.offset, g.width), g.width);
    }
  }

  /** The first k fields read back as the values given for them, mod 2^width. */
  ghost predicate ReadsBack(n: nat, bigEndian: bool, layout: seq<Field>, vals: seq<u64>, k: nat)
    requires InOrder(layout) && k <= |layout| == |vals|
  {
    forall m | 0 <= m < k :: FieldOf(n, bigEndian, layout[m]) == vals[m] % Pow2(layout[m].width)
  }

  lemma NextReadsBack(n: nat, bigEndian: bool, layout: seq<Field>, vals: seq<u64>, k: nat)
    requires InOrder(layout) && k < |layout| == |vals| && ReadsBack(n, bigEndian, layout, vals, k)
    ensures ReadsBack(WithField(n, bigEndian, layout[k], vals[k]), bigEndian, layout, vals, k + 1)
  {
    forall m | 0 <= m < k + 1
      ensures FieldOf(WithField(n, bigEndian, layout[k], vals[k]), bigEndian, layout[m])
              == vals[m] % Pow2(layout[m].width)
    {
      SetterIsLocal(n, bigEndian, layout, k, m, vals[k]);
    }
  }

  /** A field of the number: its lowest bit and its width. */
  datatype Place = Place(start: nat, width: nat)

  /** The number with the first k values, each mod 2^width, at their places. */
  ghost function Packed(places: seq<Place>, vals: seq<u64>, k: nat): nat
    requires k <= |places| == |vals|
  {
    if k == 0 then 0
    else Packed(places, vals, k - 1) + vals[k - 1] % Pow2(places[k - 1].width) * Pow2(places[k - 1].start)
  }

  /** The fields of a layout fill a unit of 8 bytes without a gap. */
  predicate Gapless(layout: seq<Field>) {
    && layout != [] && layout[0].offset == 0
    && (forall k | 0 < k < |layout| :: layout[k].offset == layout[k - 1].offset + layout[k - 1].width)
    && layout[|layout| - 1].offset + layout[|layout| - 1].width == 64
  }

  /** Where field k starts, or where the last one ends. */
  function Edge(layout: seq<Field>, k: nat): nat
    requires k <= |layout|
  {
    if k < |layout| then layout[k].offset else 64
  }

  ghost predicate Places(layout: seq<Field>, bigEndian: bool, places: seq<Place>)
    requires InOrder(layout)
  {
    && |places| == |layout|
    && forall k | 0 <= k < |layout| ::
         places[k] == Place(Shift(8, bigEndian, layout[k].offset, layout[k].width), layout[k].width)
  }

  /** What the first k fields hold lies below their edge. */
  lemma {:induction false} PackedLow(n: nat, layout: seq<Field>, places: seq<Place>, vals: seq<u64>, k: nat)
    requires InOrder(layout) && Gapless(layout) && |vals| == |layout| && k <= |layout|
    requires ReadsBack(n, false, layout, vals, |layout|) && Places(layout, false, places)
    ensures Packed(places, vals, k) == Low(n, Edge(layout, k))
  {
    if k == 0 {
    } else {
      var f := layout[k - 1];
      PackedLow(n, layout, places, vals, k - 1);
      assert Edge(layout, k - 1) == f.offset && Edge(layout, k) == f.offset + f.width;
      assert places[k - 1] == Place(f.offset, f.width);
      assert vals[k - 1] % Pow2(f.width) == FieldOf(n, false, f) == Extract(n, f.offset, f.width);
      LowStep(n, f.offset, f.width);
    }
  }

  lemma NoHigh(h: nat, p: nat)
    requires p > 0 && h * p < p
    ensures h == 0
  {
  }

  /** The part of n above bit s, in place. */
  ghost function Above(n: nat, s: nat): nat {
    High(n, s) * Pow2(s)
  }

  lemma AboveStep(n: nat, s: nat, w: nat)
    ensures Above(n, s + w) + Extract(n, s, w) * Pow2(s) == Above(n, s)
  {
    HighStep(n, s, w);
  }

  lemma NothingAbove(n: nat)
    requires n < Pow2(64)
    ensures Above(n, 64) == 0
  {
    HighLowSum(n, 64);
    NoHigh(High(n, 64), Pow2(64));
  }

  lemma AllAbove(n: nat)
    ensures Above(n, 0) == n
  {
  }

  /** Or, big-endian, above it. */
  lemma {:induction false} PackedHigh(n: nat, layout: seq<Field>, places: seq<Place>, vals: seq<u64>, k: nat)
    requires InOrder(layout) && Gapless(layout) && |vals| == |layout| && k <= |layout| && n < Pow2(64)
    requires ReadsBack(n, true, layout, vals, |layout|) && Places(layout, true, places)
    ensures Packed(places, vals, k) == Above(n, 64 - Edge(layout, k))
  {
    if k == 0 {
      NothingAbove(n);
    } else {
      var f := layout[k - 1];
      PackedHigh(n, layout, places, vals, k - 1);
      var s := 64 - f.offset - f.width;
      assert Edge(layout, k - 1) == f.offset && Edge(layout, k) == f.offset + f.width;
      assert places[k - 1] == Place(s, f.width);
      assert vals[k - 1] % Pow2(f.width) == FieldOf(n, true, f) == Extract(n, s, f.width);
      AboveStep(n, s, f.width);
    }
  }

  /** n is these values at these places, and nothing else. */
  ghost predicate IsPacked(n: nat, places: seq<Place>, vals: seq<u64>) {
    |places| == |vals| && n == Packed(places, vals, |vals|)
  }

  /** Fields that read back determine the unit's number. */
  lemma NumberIsPacked(bytes: seq<byte>, bigEndian: bool, layout: seq<Field>, places: seq<Place>, vals: seq<u64>)
    requires |bytes| == 8 && InOrder(layout) && Gapless(layout) && |vals| == |layout|
    requires ReadsBack(Number(bytes, bigEndian), bigEndian, layout, vals, |layout|)
    requires Places(layout, bigEndian, places)
    ensures IsPacked(Number(bytes, bigEndian), places, vals)
  {
    var n := Number(bytes, bigEndian);
    NumberFits(bytes, bigEndian);
    if bigEndian {
      PackedHigh(n, layout, places, vals, |layout|);
      AllAbove(n);
    } else {
      PackedLow(n, layout, places, vals, |layout|);
      LowOfSmall(n, 64);
    }
  }

  /** Field by field, the lowest bit and the width in the number. */
  function BranchPlaces(bigEndian: bool): seq<Place> {
    if bigEndian
    then [Place(63, 1), Place(62, 1), Place(61, 1), Place(60, 1), Place(44, 16), Place(40, 4), Place(0, 40)]
    else [Place(0, 1), Place(1, 1), Place(2, 1), Place(3, 1), Place(4, 16), Place(20, 4), Place(24, 40)]
  }

  function MemPlaces(bigEndian: bool): seq<Place> {
    if bigEndian
    then [Place(59, 5), Place(45, 14), Place(40, 5), Place(38, 2), Place(31, 7), Place(27, 4), Place(26, 1),
          Place(24, 2), Place(21, 3), Place(0, 21)]
    else [Place(0, 5), Place(5, 14), Place(19, 5), Place(24, 2), Place(26, 7), Place(33, 4), Place(37, 1),
          Place(38, 2), Place(40, 3), Place(43, 21)]
  }

  /** Field k of a layout is at this place. */
  ghost predicate PlaceOf(f: Field, bigEndian: bool, p: Place) {
    f.width == p.width && p.start == if bigEndian then 64 - f.offset - f.width else f.offset
  }

  lemma PlacesFrom(layout: seq<Field>, bigEndian: bool, places: seq<Place>)
    requires InOrder(layout) && |places| == |layout|
    requires forall k | 0 <= k < |layout| :: PlaceOf(layout[k], bigEndian, places[k])
    ensures Places(layout, bigEndian, places)
  {
    forall k | 0 <= k < |layout|
      ensures places[k] == Place(Shift(8, bigEndian, layout[k].offset, layout[k].width), layout[k].width)
    {
      assert PlaceOf(layout[k], bigEndian, places[k]);
    }
  }

  lemma BranchInOrder()
    ensures InOrder(BRANCH_ENTRY)
  {
  }

  lemma BranchGapless()
    ensures Gapless(BRANCH_ENTRY)
  {
  }

  lemma MemInOrder()
    ensures InOrder(MEM_DATA_SRC)
  {
  }

  lemma MemGapless()
    ensures Gapless(MEM_DATA_SRC)
  {
  }

  lemma BranchIsPacked(bytes: seq<byte>, bigEndian: bool, vals: seq<u64>)
    requires |bytes| == 8 && |vals| == |BRANCH_ENTRY| && InOrder(BRANCH_ENTRY)
    requires ReadsBack(Number(bytes, bigEndian), bigEndian, BRANCH_ENTRY, vals, |vals|)
    ensures IsPacked(Number(bytes, bigEndian), BranchPlaces(bigEndian), vals)
  {
    BranchInOrder();
    BranchGapless();
    PlacesFrom(BRANCH_ENTRY, bigEndian, BranchPlaces(bigEndian));
    NumberIsPacked(bytes, bigEndian, BRANCH_ENTRY, BranchPlaces(bigEndian), vals);
  }

  lemma MemIsPacked(bytes: seq<byte>, bigEndian: bool, vals: seq<u64>)
    requires |bytes| == 8 && |vals| == |MEM_DATA_SRC| && InOrder(MEM_DATA_SRC)
    requires ReadsBack(Number(bytes, bigEndian), bigEndian, MEM_DATA_SRC, vals, |vals|)
    ensures IsPacked(Number(bytes, bigEndian), MemPlaces(bigEndian), vals)
  {
    MemInOrder();
    MemGapless();
    PlacesFrom(MEM_DATA_SRC, bigEndian, MemPlaces(bigEndian));
    NumberIsPacked(bytes, bigEndian, MEM_DATA_SRC, MemPlaces(bigEndian), vals);
  }

  /** The first k calls of `set` inside new_bitfield_1 have been made. */
  ghost predicate Built(u: BitfieldUnit, layout: seq<Field>, vals: seq<u64>, k: nat)
    reads u.storage
  {
    && InOrder(layout) && k <= |layout| == |vals|
    && u.storage.Length == 8
    && ReadsBack(u.Num(), u.bigEndian, layout, vals, k)
  }

  method SetNext(u: BitfieldUnit, layout: seq<Field>, vals: seq<u64>, k: nat)
    requires Built(u, layout, vals, k) && k < |layout|
    modifies u.storage
    ensures Built(u, layout, vals, k + 1)
  {
    NextReadsBack(u.Num(), u.bigEndian, layout, vals, k);
    u.Set(layout[k].offset, layout[k].width, vals[k]);
  }

  method NewBranchEntry(bigEndian: bool, mispred: u64, predicted: u64, inTx: u64, abort: u64, cycles: u64,
                        kind: u64, reserved: u64)
    returns (u: BitfieldUnit)
    ensures u.bigEndian == bigEndian && u.storage.Length == 8 && fresh(u.storage)
    ensures ReadsBack(u.Num(), bigEndian, BRANCH_ENTRY, [mispred, predicted, inTx, abort, cycles, kind, reserved],
                      7)
    ensures IsPacked(u.Num(), BranchPlaces(bigEndian), [mispred, predicted, inTx, abort, cycles, kind, reserved])
  {
    var vals := [mispred, predicted, inTx, abort, cycles, kind, reserved];
    u := new BitfieldUnit(bigEndian, 8);
    SetNext(u, BRANCH_ENTRY, vals, 0);
    SetNext(u, BRANCH_ENTRY, vals, 1);
    SetNext(u, BRANCH_ENTRY, vals, 2);
    SetNext(u, BRANCH_ENTRY, vals, 3);
    SetNext(u, BRANCH_ENTRY, vals, 4);
    SetNext(u, BRANCH_ENTRY, vals, 5);
    SetNext(u, BRANCH_ENTRY, vals, 6);
    BranchIsPacked(u.storage[..], bigEndian, vals);
  }

  method NewMemDataSrc(bigEndian: bool, op: u64, lvl: u64, snoop: u64, lock: u64, dtlb: u64, lvlNum: u64,
                       remote: u64, snoopx: u64, blk: u64, rsvd: u64)
    returns (u: BitfieldUnit)
    ensures u.bigEndian == bigEndian && u.storage.Length == 8 && fresh(u.storage)
    ensures ReadsBack(u.Num(), bigEndian, MEM_DATA_SRC,
                      [op, lvl, snoop, lock, dtlb, lvlNum, remote, snoopx, blk, rsvd], 10)
    ensures IsPacked(u.Num(), MemPlaces(bigEndian),
                     [op, lvl, snoop, lock, dtlb, lvlNum, remote, snoopx, blk, rsvd])
  {
    var vals := [op, lvl, snoop, lock, dtlb, lvlNum, remote, snoopx, blk, rsvd];
    u := new BitfieldUnit(bigEndian, 8);
    SetNext(u, MEM_DATA_SRC, vals, 0);
    SetNext(u, MEM_DATA_SRC, vals, 1);
    SetNext(u, MEM_DATA_SRC, vals, 2);
    SetNext(u, MEM_DATA_SRC, vals, 3);
    SetNext(u, MEM_DATA_SRC, vals, 4);
    SetNext(u, MEM_DATA_SRC, vals, 5);
    SetNext(u, MEM_DATA_SRC, vals, 6);
    SetNext(u, MEM_DATA_SRC, vals, 7);
    SetNext(u, MEM_DATA_SRC, vals, 8);
    SetNext(u, MEM_DATA_SRC, vals, 9);
    MemIsPacked(u.storage[..], bigEndian, vals);
  }
}
