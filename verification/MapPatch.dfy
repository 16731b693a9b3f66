/**
 The map relocation of libiu.cpp: parse_maps collects the map records of the .maps section, and
 fix_maps writes each map's file descriptor into the kptr word of its record in the file image.
 */
module MapPatch {
  import opened Bits
  import opened Words

  /** struct map_def: five 32-bit fields, 4 bytes of padding, then the 8-byte kptr. */
  const KPTR_OFFSET := 24
  const MAP_DEF_SIZE := 32

  // ---------------------------------------------------------------- parse_maps

  datatype Symbol = Symbol(section: nat, isObject: bool, value: nat, size: nat, name: string)

  predicate DefinesMap(sym: Symbol, mapsSection: nat) {
    sym.section == mapsSection && sym.isObject && sym.size == MAP_DEF_SIZE
  }

  /** map_defs: the first symbol at each address names its map, because try_emplace keeps what is there. */
  method CollectMaps(syms: seq<Symbol>, mapsSection: nat) returns (mapDefs: map<nat, string>)
    ensures forall a :: a in mapDefs <==>
              exists i | 0 <= i < |syms| :: DefinesMap(syms[i], mapsSection) && syms[i].value == a
    ensures forall i | 0 <= i < |syms| && DefinesMap(syms[i], mapsSection) ::
              (forall j | 0 <= j < i && DefinesMap(syms[j], mapsSection) :: syms[j].value != syms[i].value)
              ==> mapDefs[syms[i].value] == syms[i].name
  {
    mapDefs := map[];
    for n := 0 to |syms|
      invariant forall a :: a in mapDefs <==>
                  exists i | 0 <= i < n :: DefinesMap(syms[i], mapsSection) && syms[i].value == a
      invariant forall i | 0 <= i < n && DefinesMap(syms[i], mapsSection) ::
                  (forall j | 0 <= j < i && DefinesMap(syms[j], mapsSection) :: syms[j].value != syms[i].value)
                  ==> mapDefs[syms[i].value] == syms[i].name
    {
      var sym := syms[n];
      if sym.section != mapsSection || !sym.isObject {
        continue;
      }
      if sym.size == MAP_DEF_SIZE && sym.value !in mapDefs {
        mapDefs := mapDefs[sym.value := sym.name];
      }
    }
  }

  // ---------------------------------------------------------------- the patched image

  /** Byte k of a word in memory: little-endian, as on the x86-64 target. */
  function ByteOf(v: nat, k: nat): byte {
    if k == 0 then v % 256 else ByteOf(v / 256, k - 1)
  }

  /** val_from_buf of n bytes. */
  function WordAt(image: seq<byte>, off: nat, n: nat): nat
    requires off + n <= |image|
    decreases n
  {
    if n == 0 then 0 else image[off] + 256 * WordAt(image, off + 1, n - 1)
  }

  function ByteAfter(image: seq<byte>, off: nat, v: nat, i: nat): byte
    requires i < |image|
  {
    if off <= i < off + 8 then ByteOf(v, i - off) else image[i]
  }

  /** val_to_buf of a 64-bit value. */
  function PutWord(image: seq<byte>, off: nat, v: nat): (r: seq<byte>)
    requires off + 8 <= |image|
    ensures |r| == |image|
    ensures forall i | 0 <= i < |r| :: r[i] == ByteAfter(image, off, v, i)
  {
    seq(|image|, i requires 0 <= i < |image| => ByteAfter(image, off, v, i))
  }

  /** The section's address and file offset, and the size of the image. */
  datatype Layout = Layout(shaddr: nat, shoff: nat, size: nat)

  /** A record of map_defs, with what create answers for it. */
  datatype MapDef = MapDef(addr: nat, fd: i32)

  /** kptr_file_off */
  function KptrAt(l: Layout, d: MapDef): int {
    d.addr + KPTR_OFFSET - l.shaddr + l.shoff
  }

  /** The records, in the order the hash table is iterated, lie in the image and no two overlap. */
  predicate Placed(l: Layout, defs: seq<MapDef>) {
    && (forall k | 0 <= k < |defs| ::
          l.shaddr <= defs[k].addr && defs[k].addr - l.shaddr + l.shoff + MAP_DEF_SIZE <= l.size)
    && (forall j, k | 0 <= j < |defs| && 0 <= k < |defs| && j != k ::
          defs[j].addr + MAP_DEF_SIZE <= defs[k].addr || defs[k].addr + MAP_DEF_SIZE <= defs[j].addr)
  }

  predicate Created(defs: seq<MapDef>, n: nat)
    requires n <= |defs|
  {
    forall k | 0 <= k < n :: defs[k].fd >= 0
  }

  /** The image after the first n records were patched. */
  function Patched(l: Layout, image: seq<byte>, defs: seq<MapDef>, n: nat): (r: seq<byte>)
    requires |image| == l.size && Placed(l, defs) && n <= |defs| && Created(defs, n)
    ensures |r| == |image|
  {
    if n == 0 then image else PutWord(Patched(l, image, defs, n - 1), KptrAt(l, defs[n - 1]), defs[n - 1].fd)
  }

  method ValToBuf(buf: array<byte>, off: nat, v: nat)
    requires off + 8 <= buf.Length
    modifies buf
    ensures buf[..] == PutWord(old(buf[..]), off, v)
  {
    for k := 0 to 8
      invariant forall i | 0 <= i < buf.Length ::
                  buf[i] == if off <= i < off + k then ByteOf(v, i - off) else old(buf[i])
    {
      buf[off + k] := ByteOf(v, k);
    }
  }

  /** The loop of fix_maps. A failed create stops it with -1 and leaves the n records before it patched. */
  method FixMaps(l: Layout, fileMap: array<byte>, defs: seq<MapDef>) returns (rv: int, n: nat)
    requires fileMap.Length == l.size && Placed(l, defs)
    modifies fileMap
    ensures rv == 0 || rv == -1
    ensures n <= |defs| && Created(defs, n)
    ensures rv == 0 <==> n == |defs|
    ensures rv == -1 ==> defs[n].fd < 0
    ensures fileMap[..] == Patched(l, old(fileMap[..]), defs, n)
  {
    rv, n := 0, 0;
    while n < |defs|
      invariant n <= |defs| && Created(defs, n)
      invariant fileMap[..] == Patched(l, old(fileMap[..]), defs, n)
    {
      var mapFd := defs[n].fd;
      if mapFd < 0 {
        return -1, n;
      }
      ValToBuf(fileMap, KptrAt(l, defs[n]), mapFd);
      n := n + 1;
    }
  }

  // ---------------------------------------------------------------- what the image holds

  predicate Covers(l: Layout, d: MapDef, i: int) {
    KptrAt(l, d) <= i < KptrAt(l, d) + 8
  }

  /** The byte of d's fd that belongs at position i of the image. */
  function FdByte(l: Layout, d: MapDef, i: nat): byte
    requires Covers(l, d, i) && d.fd >= 0
  {
    ByteOf(d.fd, i - KptrAt(l, d))
  }

  /** A byte of a kptr word is the byte of that map's fd, whatever was patched before or after it. */
  lemma {:induction false} CoveredByte(l: Layout, image: seq<byte>, defs: seq<MapDef>, n: nat, k: nat, i: nat)
    requires |image| == l.size && Placed(l, defs) && k < n <= |defs| && Created(defs, n)
    requires i < |image| && Covers(l, defs[k], i)
    ensures Patched(l, image, defs, n)[i] == FdByte(l, defs[k], i)
  {
    if k == n - 1 {
    } else {
      CoveredByte(l, image, defs, n - 1, k, i);
    }
  }

  /** Every byte outside the kptr words is unchanged. */
  lemma {:induction false} OtherByte(l: Layout, image: seq<byte>, defs: seq<MapDef>, n: nat, i: nat)
    requires |image| == l.size && Placed(l, defs) && n <= |defs| && Created(defs, n)
    requires i < |image| && forall k | 0 <= k < n :: !Covers(l, defs[k], i)
    ensures Patched(l, image, defs, n)[i] == image[i]
  {
    if n == 0 {
    } else {
      OtherByte(l, image, defs, n - 1, i);
    }
  }

  function Power256(n: nat): (p: nat)
    ensures p > 0
  {
    if n == 0 then 1 else 256 * Power256(n - 1)
  }

  lemma DivTwice(v: nat, b: nat)
    requires b > 0
    ensures v / 256 / b == v / (256 * b)
  {
    var h := v / 256;
    var q, r := h / b, v % 256 + 256 * (h % b);
    assert h == q * b + h % b;
    assert v == q * (256 * b) + r;
    DivModUnique(v, 256 * b, q, r);
  }

  /** Byte k of a word is its k-th digit in base 256. */
  lemma {:induction false} ByteIsDigit(v: nat, k: nat)
    ensures ByteOf(v, k) == v / Power256(k) % 256
  {
    if k == 0 {
    } else {
      ByteIsDigit(v / 256, k - 1);
      DivTwice(v, Power256(k - 1));
    }
  }

  lemma ModStep(v: nat, p: nat)
    requires p > 0
    ensures v % (256 * p) == v % 256 + 256 * (v / 256 % p)
  {
    var h := v / 256;
    var q, r := h / p, v % 256 + 256 * (h % p);
    assert h == q * p + h % p;
    assert v == q * (256 * p) + r;
    DivModUnique(v, 256 * p, q, r);
  }

  lemma {:induction false} WordOfBytes(image: seq<byte>, off: nat, n: nat, v: nat)
    requires off + n <= |image| && forall k | 0 <= k < n :: image[off + k] == ByteOf(v, k)
    ensures WordAt(image, off, n) == v % Power256(n)
    decreases n
  {
    if n == 0 {
    } else {
      forall k | 0 <= k < n - 1
        ensures image[off + 1 + k] == ByteOf(v / 256, k)
      {
        assert image[off + (k + 1)] == ByteOf(v, k + 1);
      }
      WordOfBytes(image, off + 1, n - 1, v / 256);
      assert image[off + 0] == ByteOf(v, 0);
      ModStep(v, Power256(n - 1));
    }
  }

  /** A non-negative int fits in the eight bytes. */
  lemma WordRange(v: nat)
    requires v < 0x8000_0000
    ensures v % Power256(8) == v
  {
    assert Power256(4) == 0x1_0000_0000;
    assert Power256(8) == 256 * (256 * (256 * (256 * Power256(4))));
  }

  /** Each record's kptr word reads back as its map's file descriptor. */
  lemma KptrReadsBack(l: Layout, image: seq<byte>, defs: seq<MapDef>, k: nat)
    requires |image| == l.size && Placed(l, defs) && Created(defs, |defs|)
    requires k < |defs|
    ensures 0 <= KptrAt(l, defs[k]) <= |image| - 8
    ensures WordAt(Patched(l, image, defs, |defs|), KptrAt(l, defs[k]), 8) == defs[k].fd
  {
    var out, off := Patched(l, image, defs, |defs|), KptrAt(l, defs[k]);
    forall i | 0 <= i < 8
      ensures out[off + i] == ByteOf(defs[k].fd, i)
    {
      CoveredByte(l, image, defs, |defs|, k, off + i);
    }
    WordOfBytes(out, off, 8, defs[k].fd);
    WordRange(defs[k].fd);
  }

  lemma SameCoveredByte(l: Layout, image: seq<byte>, defs: seq<MapDef>, defs': seq<MapDef>, k: nat, m: nat, i: nat)
    requires |image| == l.size && Placed(l, defs) && Placed(l, defs')
    requires Created(defs, |defs|) && Created(defs', |defs'|)
    requires k < |defs| && m < |defs'| && defs[k] == defs'[m] && i < |image| && Covers(l, defs[k], i)
    ensures Patched(l, image, defs, |defs|)[i] == Patched(l, image, defs', |defs'|)[i]
  {
    CoveredByte(l, image, defs, |defs|, k, i);
    CoveredByte(l, image, defs', |defs'|, m, i);
  }

  lemma NoneCovers(l: Layout, defs: seq<MapDef>, defs': seq<MapDef>, i: nat)
    requires (forall k | 0 <= k < |defs| :: !Covers(l, defs[k], i)) && forall d :: d in defs <==> d in defs'
    ensures forall k | 0 <= k < |defs'| :: !Covers(l, defs'[k], i)
  {
    forall k | 0 <= k < |defs'|
      ensures !Covers(l, defs'[k], i)
    {
      assert defs'[k] in defs;
    }
  }

  lemma SameByte(l: Layout, image: seq<byte>, defs: seq<MapDef>, defs': seq<MapDef>, i: nat)
    requires |image| == l.size && Placed(l, defs) && Placed(l, defs')
    requires Created(defs, |defs|) && Created(defs', |defs'|)
    requires (forall d :: d in defs <==> d in defs') && i < |image|
    ensures Patched(l, image, defs, |defs|)[i] == Patched(l, image, defs', |defs'|)[i]
  {
    if k :| 0 <= k < |defs| && Covers(l, defs[k], i) {
      assert defs[k] in defs';
      var m :| 0 <= m < |defs'| && defs'[m] == defs[k];
      SameCoveredByte(l, image, defs, defs', k, m, i);
    } else {
      OtherByte(l, image, defs, |defs|, i);
      NoneCovers(l, defs, defs', i);
      OtherByte(l, image, defs', |defs'|, i);
    }
  }

  /** The hash table may be iterated in any order: the image comes out the same. */
  lemma OrderDoesNotMatter(l: Layout, image: seq<byte>, defs: seq<MapDef>, defs': seq<MapDef>)
    requires |image| == l.size && Placed(l, defs) && Placed(l, defs')
    requires Created(defs, |defs|) && Created(defs', |defs'|)
    requires forall d :: d in defs <==> d in defs'
    ensures Patched(l, image, defs, |defs|) == Patched(l, image, defs', |defs'|)
  {
    forall i | 0 <= i < |image|
      ensures Patched(l, image, defs, |defs|)[i] == Patched(l, image, defs', |defs'|)[i]
    {
      SameByte(l, image, defs, defs', i);
    }
  }

  // ---------------------------------------------------------------- from symbol to patched word

  /** The records the section's symbols define lie in the image; two at different addresses do not overlap. */
  predicate SymbolsPlaced(l: Layout, syms: seq<Symbol>, mapsSection: nat) {
    && (forall i | 0 <= i < |syms| && DefinesMap(syms[i], mapsSection) ::
          l.shaddr <= syms[i].value && syms[i].value - l.shaddr + l.shoff + MAP_DEF_SIZE <= l.size)
    && (forall i, j | 0 <= i < |syms| && 0 <= j < |syms| && DefinesMap(syms[i], mapsSection)
                      && DefinesMap(syms[j], mapsSection) ::
          syms[i].value == syms[j].value || syms[i].value + MAP_DEF_SIZE <= syms[j].value
          || syms[j].value + MAP_DEF_SIZE <= syms[i].value)
  }

  ghost predicate HasMap(syms: seq<Symbol>, mapsSection: nat, a: nat) {
    exists i | 0 <= i < |syms| :: DefinesMap(syms[i], mapsSection) && syms[i].value == a
  }

  /** One record for each map address of the section, in some order, with what create answers for it. */
  ghost predicate Enumerates(defs: seq<MapDef>, syms: seq<Symbol>, mapsSection: nat, create: nat -> i32) {
    && (forall k | 0 <= k < |defs| :: HasMap(syms, mapsSection, defs[k].addr) && defs[k].fd == create(defs[k].addr))
    && (forall a | HasMap(syms, mapsSection, a) :: MapDef(a, create(a)) in defs)
    && (forall j, k | 0 <= j < k < |defs| :: defs[j].addr != defs[k].addr)
  }

  lemma EnumeratedIsPlaced(l: Layout, syms: seq<Symbol>, mapsSection: nat, defs: seq<MapDef>, create: nat -> i32)
    requires SymbolsPlaced(l, syms, mapsSection) && Enumerates(defs, syms, mapsSection, create)
    ensures Placed(l, defs)
  {
    forall j, k | 0 <= j < |defs| && 0 <= k < |defs| && j != k
      ensures defs[j].addr + MAP_DEF_SIZE <= defs[k].addr || defs[k].addr + MAP_DEF_SIZE <= defs[j].addr
    {
      assert HasMap(syms, mapsSection, defs[j].addr) && HasMap(syms, mapsSection, defs[k].addr);
      assert defs[j].addr != defs[k].addr;
    }
    forall k | 0 <= k < |defs|
      ensures l.shaddr <= defs[k].addr && defs[k].addr - l.shaddr + l.shoff + MAP_DEF_SIZE <= l.size
    {
      assert HasMap(syms, mapsSection, defs[k].addr);
    }
  }

  /** The eight bytes from offset 24 of the record at address a are, low byte first, those of v. */
  ghost predicate HoldsBytes(l: Layout, image: seq<byte>, a: nat, v: nat) {
    var off := a + 24 - l.shaddr + l.shoff;
    0 <= off <= |image| - 8 && forall k: nat | k < 8 :: image[off + k] == v / Power256(k) % 256
  }

  /** They read as the number v. */
  ghost predicate ReadsAs(l: Layout, image: seq<byte>, a: nat, v: nat) {
    var off := a + 24 - l.shaddr + l.shoff;
    0 <= off <= |image| - 8 && WordAt(image, off, 8) == v
  }

  /** The record at address a has what create answered for it, as bytes and as a number. */
  ghost predicate Relocated(l: Layout, image: seq<byte>, a: nat, create: nat -> i32) {
    create(a) >= 0 && HoldsBytes(l, image, a, create(a)) && ReadsAs(l, image, a, create(a))
  }

  lemma KptrBytes(l: Layout, image: seq<byte>, defs: seq<MapDef>, k: nat, b: nat)
    requires |image| == l.size && Placed(l, defs) && Created(defs, |defs|) && k < |defs| && b < 8
    ensures Patched(l, image, defs, |defs|)[KptrAt(l, defs[k]) + b] == defs[k].fd / Power256(b) % 256
  {
    CoveredByte(l, image, defs, |defs|, k, KptrAt(l, defs[k]) + b);
    ByteIsDigit(defs[k].fd, b);
  }

  lemma RecordHolds(l: Layout, image: seq<byte>, defs: seq<MapDef>, k: nat)
    requires |image| == l.size && Placed(l, defs) && Created(defs, |defs|) && k < |defs|
    ensures HoldsBytes(l, Patched(l, image, defs, |defs|), defs[k].addr, defs[k].fd)
  {
    forall b: nat | b < 8
      ensures Patched(l, image, defs, |defs|)[KptrAt(l, defs[k]) + b] == defs[k].fd / Power256(b) % 256
    {
      KptrBytes(l, image, defs, k, b);
    }
  }

  lemma RecordReads(l: Layout, image: seq<byte>, defs: seq<MapDef>, k: nat)
    requires |image| == l.size && Placed(l, defs) && Created(defs, |defs|) && k < |defs|
    ensures ReadsAs(l, Patched(l, image, defs, |defs|), defs[k].addr, defs[k].fd)
  {
    KptrReadsBack(l, image, defs, k);
  }

  lemma RecordRelocated(l: Layout, image: seq<byte>, defs: seq<MapDef>, create: nat -> i32, k: nat)
    requires |image| == l.size && Placed(l, defs) && Created(defs, |defs|)
    requires k < |defs| && defs[k].fd == create(defs[k].addr)
    ensures Relocated(l, Patched(l, image, defs, |defs|), defs[k].addr, create)
  {
    RecordHolds(l, image, defs, k);
    RecordReads(l, image, defs, k);
  }

  /** Every map symbol of the section finds its map's descriptor in the patched image. */
  lemma SymbolsRelocated(l: Layout, image: seq<byte>, syms: seq<Symbol>, mapsSection: nat, defs: seq<MapDef>,
                         create: nat -> i32)
    requires |image| == l.size && Placed(l, defs) && Created(defs, |defs|)
    requires Enumerates(defs, syms, mapsSection, create)
    ensures forall i | 0 <= i < |syms| && DefinesMap(syms[i], mapsSection) ::
              Relocated(l, Patched(l, image, defs, |defs|), syms[i].value, create)
  {
    forall i | 0 <= i < |syms| && DefinesMap(syms[i], mapsSection)
      ensures Relocated(l, Patched(l, image, defs, |defs|), syms[i].value, create)
    {
      var a := syms[i].value;
      assert HasMap(syms, mapsSection, a);
      var k :| 0 <= k < |defs| && defs[k] == MapDef(a, create(a));
      RecordRelocated(l, image, defs, create, k);
    }
  }

  /** Byte j lies outside bytes 24 to 31 of every map record. */
  ghost predicate Outlying(l: Layout, syms: seq<Symbol>, mapsSection: nat, j: int) {
    forall i | 0 <= i < |syms| && DefinesMap(syms[i], mapsSection) ::
      var off := syms[i].value + 24 - l.shaddr + l.shoff; j < off || j >= off + 8
  }

  /** And nothing else in the image has changed. */
  lemma RestUnchanged(l: Layout, image: seq<byte>, syms: seq<Symbol>, mapsSection: nat, defs: seq<MapDef>,
                      create: nat -> i32, j: nat)
    requires |image| == l.size && Placed(l, defs) && Created(defs, |defs|) && j < |image|
    requires Enumerates(defs, syms, mapsSection, create)
    requires Outlying(l, syms, mapsSection, j)
    ensures Patched(l, image, defs, |defs|)[j] == image[j]
  {
    forall k | 0 <= k < |defs|
      ensures !Covers(l, defs[k], j)
    {
      assert HasMap(syms, mapsSection, defs[k].addr);
    }
    OtherByte(l, image, defs, |defs|, j);
  }

  lemma AllRestUnchanged(l: Layout, image: seq<byte>, syms: seq<Symbol>, mapsSection: nat, defs: seq<MapDef>,
                         create: nat -> i32)
    requires |image| == l.size && Placed(l, defs) && Created(defs, |defs|)
    requires Enumerates(defs, syms, mapsSection, create)
    ensures forall j | 0 <= j < |image| && Outlying(l, syms, mapsSection, j) ::
              Patched(l, image, defs, |defs|)[j] == image[j]
  {
    forall j | 0 <= j < |image| && Outlying(l, syms, mapsSection, j)
      ensures Patched(l, image, defs, |defs|)[j] == image[j]
    {
      RestUnchanged(l, image, syms, mapsSection, defs, create, j);
    }
  }

  lemma CreatedIff(defs: seq<MapDef>, syms: seq<Symbol>, mapsSection: nat, create: nat -> i32)
    requires Enumerates(defs, syms, mapsSection, create)
    ensures (forall k | 0 <= k < |defs| :: defs[k].fd >= 0)
            <==> forall i | 0 <= i < |syms| && DefinesMap(syms[i], mapsSection) :: create(syms[i].value) >= 0
  {
    if forall k | 0 <= k < |defs| :: defs[k].fd >= 0 {
      forall i | 0 <= i < |syms| && DefinesMap(syms[i], mapsSection)
        ensures create(syms[i].value) >= 0
      {
        assert HasMap(syms, mapsSection, syms[i].value);
      }
    } else {
      var k :| 0 <= k < |defs| && defs[k].fd < 0;
      assert HasMap(syms, mapsSection, defs[k].addr);
    }
  }

  /** The order of the hash table is any order. */
  method Iterate(mapDefs: map<nat, string>, create: nat -> i32, ghost syms: seq<Symbol>, ghost mapsSection: nat)
    returns (defs: seq<MapDef>)
    requires forall a :: a in mapDefs <==> HasMap(syms, mapsSection, a)
    ensures Enumerates(defs, syms, mapsSection, create)
  {
    defs := [];
    var todo := mapDefs.Keys;
    while todo != {}
      invariant todo <= mapDefs.Keys
      invariant forall k | 0 <= k < |defs| ::
                  defs[k].addr in mapDefs && defs[k].addr !in todo && defs[k].fd == create(defs[k].addr)
      invariant forall a | a in mapDefs && a !in todo :: MapDef(a, create(a)) in defs
      invariant forall j, k | 0 <= j < k < |defs| :: defs[j].addr != defs[k].addr
      decreases todo
    {
      var a :| a in todo;
      defs := defs + [MapDef(a, create(a))];
      todo := todo - {a};
    }
  }

  /** parse_maps and then fix_maps; `create` says which descriptor each map gets, or that it gets none. */
  method RelocateMaps(l: Layout, fileMap: array<byte>, syms: seq<Symbol>, mapsSection: nat, create: nat -> i32)
    returns (rv: int)
    requires fileMap.Length == l.size && SymbolsPlaced(l, syms, mapsSection)
    modifies fileMap
    ensures rv == 0 || rv == -1
    ensures rv == 0 <==> forall i | 0 <= i < |syms| && DefinesMap(syms[i], mapsSection) :: create(syms[i].value) >= 0
    ensures rv == 0 ==> forall i | 0 <= i < |syms| && DefinesMap(syms[i], mapsSection) ::
                          Relocated(l, fileMap[..], syms[i].value, create)
    ensures rv == 0 ==> forall j | 0 <= j < fileMap.Length && Outlying(l, syms, mapsSection, j) ::
                          fileMap[j] == old(fileMap[j])
  {
    ghost var image := fileMap[..];
    var mapDefs := CollectMaps(syms, mapsSection);
    var defs := Iterate(mapDefs, create, syms, mapsSection);
    EnumeratedIsPlaced(l, syms, mapsSection, defs, create);
    var n: nat;
    rv, n := FixMaps(l, fileMap, defs);
    CreatedIff(defs, syms, mapsSection, create);
    if rv == 0 {
      SymbolsRelocated(l, image, syms, mapsSection, defs, create);
      AllRestUnchanged(l, image, syms, mapsSection, defs, create);
    }
  }
}
