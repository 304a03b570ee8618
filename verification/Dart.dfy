/** The three-level page walk of devices/apple-dart/apple_dart.c and the splitting of its superpages. */
module Dart {
  import opened Bits
  import opened Bytes
  import opened ModArith
  import opened Options

  const ENTRIES: nat := 256
  const TABLE: nat := 2048
  const L0: nat := 0x1000_0000
  const L1: nat := 0x10_0000
  const L2: nat := 0x1000

  /** `Outside` stands for an entry address outside guest RAM, where the source reads past its buffer. */
  datatype Result = Mapped(pa: u64) | Fault | Outside

  /** Guest RAM of `|ram|` bytes at guest address `base`. */
  datatype Memory = Memory(ram: seq<u8>, base: u64)

  predicate InRam(m: Memory, a: nat) {
    m.base as int <= a && a - m.base as int + 8 <= |m.ram|
  }

  /** dart_pte_read */
  function Pte(m: Memory, table: nat, idx: nat): Option<u64> {
    if InRam(m, table + 8 * idx) then Some(Le64At(m.ram, table + 8 * idx - m.base as int)) else None
  }

  predicate Valid(pte: u64) { pte % 2 == 1 }
  predicate Block(pte: u64) { pte / 2 % 2 == 1 }

  /** The index that a level of page size `unit` takes from an address. */
  function Index(iova: u64, unit: nat): (i: nat)
    requires unit > 0
    ensures i < ENTRIES
  {
    iova as int / unit % ENTRIES
  }

  /** `(pte & ~(unit - 1)) | (iova & (unit - 1))` for a power of two: the two parts share no bit, so `|` adds. */
  function Join(pte: u64, iova: u64, unit: nat): u64
    requires unit > 0 && TWO64 % unit == 0
  {
    JoinFits(pte, iova, unit);
    pte as int - pte as int % unit + iova as int % unit
  }

  lemma JoinFits(pte: u64, iova: u64, unit: nat)
    requires unit > 0 && TWO64 % unit == 0
    ensures 0 <= pte as int - pte as int % unit + iova as int % unit < TWO64
  {
    var p, q := pte as int, TWO64 / unit;
    assert TWO64 == unit * q && p == unit * (p / unit) + p % unit;
    if p / unit >= q {
      MulMono(unit, q, p / unit);
    } else {
      MulMono(unit, p / unit + 1, q);
    }
  }

  lemma MulMono(u: nat, a: int, b: int)
    requires a <= b
    ensures u * a <= u * b
  {
  }

  /** The source's own operators: `(pte & ~mask) | (iova & mask)` and `(iova >> n) & 0xFF`. */
  lemma JoinIsOr(pte: u64, iova: u64, n: nat)
    requires n == 12 || n == 20 || n == 28
    ensures Pow2(n) == (if n == 12 then L2 else if n == 20 then L1 else L0)
    ensures var unit := if n == 12 then L2 else if n == 20 then L1 else L0;
            && Join(pte, iova, unit) as nat == Or(AndNot(pte as nat, Pow2(n) - 1), And(iova as nat, Pow2(n) - 1))
            && Index(iova, unit) == And(Shr(iova as nat, n), 0xFF)
  {
    hide Or, And, AndNot, Pow2;
    Pow2Values();
    LowMask(pte as nat, n);
    LowMask(iova as nat, n);
    OrAdds(pte as nat / Pow2(n), iova as nat % Pow2(n), n);
    LowMask(Shr(iova as nat, n), 8);
  }

  function TableOf(pte: u64): nat {
    pte as int - pte as int % 0x1000
  }

  /** dart_walk */
  function Walk(m: Memory, ttbr: u64, iova: u64): Result {
    var p0 := Pte(m, ttbr as nat, Index(iova, L0));
    if p0.None? then Outside
    else if !Valid(p0.value) then Fault
    else if Block(p0.value) then Mapped(Join(p0.value, iova, L0))
    else WalkL1(m, p0.value, iova)
  }

  function WalkL1(m: Memory, l0: u64, iova: u64): Result {
    var p1 := Pte(m, TableOf(l0), Index(iova, L1));
    if p1.None? then Outside
    else if !Valid(p1.value) then Fault
    else if Block(p1.value) then Mapped(Join(p1.value, iova, L1))
    else WalkL2(m, p1.value, iova)
  }

  function WalkL2(m: Memory, l1: u64, iova: u64): Result {
    var p2 := Pte(m, TableOf(l1), Index(iova, L2));
    if p2.None? then Outside
    else if !Valid(p2.value) then Fault
    else Mapped(Join(p2.value, iova, L2))
  }

  // ---- Tables as a driver lays them out --------------------------------------------

  /** The driver has stored this entry in slot `idx` of the table at guest address `table`. */
  ghost predicate Stored(m: Memory, table: nat, idx: nat, entry: u64) {
    m.base as int <= table && At(m.ram, table - m.base as int + 8 * idx, Le64(entry))
  }

  lemma StoredReads(m: Memory, table: nat, idx: nat, entry: u64)
    requires Stored(m, table, idx, entry)
    ensures Pte(m, table, idx) == Some(entry)
  {
    hide Le64, Le64At;
    Le64RoundTrip(m.ram, table - m.base as int + 8 * idx, entry);
  }

  /** An entry for the `unit`-aligned target `to`: bit 0 valid, bit 1 a block, and other flags below bit 12. */
  predicate EntryFor(entry: u64, to: u64, unit: nat, block: bool, valid: bool)
    requires unit > 0
  {
    && to as int % unit == 0 && to <= entry && entry as int - to as int < 0x1000 <= unit
    && (entry as int % 2 == 1 <==> valid) && (entry as int / 2 % 2 == 1 <==> block)
  }

  /** The entry's target comes out with the address's place in the unit. */
  lemma JoinsTo(entry: u64, to: u64, unit: nat, block: bool, iova: u64)
    requires unit in {L0, L1, L2} && EntryFor(entry, to, unit, block, true)
    ensures to as int + iova as int % unit < TWO64 && Join(entry, iova, unit) as int == to as int + iova as int % unit
  {
    DivModUnique(entry as int, unit, to as int / unit, entry as int - to as int);
  }

  lemma TableIs(entry: u64, to: u64, block: bool, valid: bool)
    requires EntryFor(entry, to, 0x1000, block, valid)
    ensures TableOf(entry) == to as nat
  {
    DivModUnique(entry as int, 0x1000, to as int / 0x1000, entry as int - to as int);
  }

  /** A driver maps the 256 MiB around `iova` by a block in its level-0 table at `ttbr`. */
  lemma BlockWalk(m: Memory, ttbr: u64, iova: u64, e0: u64, to: u64)
    requires Stored(m, ttbr as nat, iova as int / 0x1000_0000 % 256, e0) && EntryFor(e0, to, 0x1000_0000, true, true)
    ensures Walk(m, ttbr, iova).Mapped? && Walk(m, ttbr, iova).pa as int == to as int + iova as int % 0x1000_0000
  {
    hide Pte, Join, Stored;
    StoredReads(m, ttbr as nat, iova as int / 0x1000_0000 % 256, e0);
    JoinsTo(e0, to, L0, true, iova);
  }

  /** A driver maps the MiB around `iova` by a block in a level-1 table, or the page by a page in a level-2 table below it. */
  lemma TableWalk(m: Memory, ttbr: u64, iova: u64, e0: u64, t1: u64, e1: u64, to: u64)
    requires Stored(m, ttbr as nat, iova as int / 0x1000_0000 % 256, e0) && EntryFor(e0, t1, 0x1000, false, true)
    requires Stored(m, t1 as nat, iova as int / 0x10_0000 % 256, e1) && EntryFor(e1, to, 0x10_0000, true, true)
    ensures Walk(m, ttbr, iova).Mapped? && Walk(m, ttbr, iova).pa as int == to as int + iova as int % 0x10_0000
  {
    hide Pte, Join, Stored;
    StoredReads(m, ttbr as nat, iova as int / 0x1000_0000 % 256, e0);
    StoredReads(m, t1 as nat, iova as int / 0x10_0000 % 256, e1);
    TableIs(e0, t1, false, true);
    JoinsTo(e1, to, L1, true, iova);
  }

  lemma PageWalk(m: Memory, ttbr: u64, iova: u64, e0: u64, t1: u64, e1: u64, t2: u64, e2: u64, to: u64, block: bool)
    requires Stored(m, ttbr as nat, iova as int / 0x1000_0000 % 256, e0) && EntryFor(e0, t1, 0x1000, false, true)
    requires Stored(m, t1 as nat, iova as int / 0x10_0000 % 256, e1) && EntryFor(e1, t2, 0x1000, false, true)
    requires Stored(m, t2 as nat, iova as int / 0x1000 % 256, e2) && EntryFor(e2, to, 0x1000, block, true)
    ensures Walk(m, ttbr, iova).Mapped? && Walk(m, ttbr, iova).pa as int == to as int + iova as int % 0x1000
  {
    hide Pte, Join, Stored;
    StoredReads(m, ttbr as nat, iova as int / 0x1000_0000 % 256, e0);
    StoredReads(m, t1 as nat, iova as int / 0x10_0000 % 256, e1);
    StoredReads(m, t2 as nat, iova as int / 0x1000 % 256, e2);
    TableIs(e0, t1, false, true);
    TableIs(e1, t2, false, true);
    JoinsTo(e2, to, L2, block, iova);
  }

  /** An invalid entry at any level is a translation fault. */
  lemma FaultWalk(m: Memory, ttbr: u64, iova: u64, e0: u64, t1: u64, e1: u64, t2: u64, e2: u64)
    requires Stored(m, ttbr as nat, iova as int / 0x1000_0000 % 256, e0)
    ensures e0 % 2 == 0 ==> Walk(m, ttbr, iova) == Fault
    ensures EntryFor(e0, t1, 0x1000, false, true) && Stored(m, t1 as nat, iova as int / 0x10_0000 % 256, e1) && e1 % 2 == 0 ==>
              Walk(m, ttbr, iova) == Fault
    ensures EntryFor(e0, t1, 0x1000, false, true) && Stored(m, t1 as nat, iova as int / 0x10_0000 % 256, e1)
              && EntryFor(e1, t2, 0x1000, false, true) && Stored(m, t2 as nat, iova as int / 0x1000 % 256, e2) && e2 % 2 == 0 ==>
              Walk(m, ttbr, iova) == Fault
  {
    hide Pte, Join, Stored;
    StoredReads(m, ttbr as nat, iova as int / 0x1000_0000 % 256, e0);
    if EntryFor(e0, t1, 0x1000, false, true) && Stored(m, t1 as nat, iova as int / 0x10_0000 % 256, e1) {
      TableIs(e0, t1, false, true);
      StoredReads(m, t1 as nat, iova as int / 0x10_0000 % 256, e1);
      if EntryFor(e1, t2, 0x1000, false, true) && Stored(m, t2 as nat, iova as int / 0x1000 % 256, e2) {
        TableIs(e1, t2, false, true);
        StoredReads(m, t2 as nat, iova as int / 0x1000 % 256, e2);
      }
    }
  }

  // ---- Splitting a superpage -----------------------------------------------------

  /** A table that covers the block at `start` with entries `step` apart. */
  function TableBytes(start: nat, step: nat, flags: nat, n: nat): (s: seq<u8>)
    ensures |s| == 8 * n
  {
    if n == 0 then [] else TableBytes(start, step, flags, n - 1) + Le64((start + (n - 1) * step + flags) % TWO64)
  }

  /** Where a walk reads: a level, and the address of the entry. */
  datatype Access = Access(level: nat, at: nat)

  /** The entries that the walk for `iova` reads. */
  function Accesses(m: Memory, ttbr: u64, iova: u64): set<Access> {
    var a0 := ttbr as nat + 8 * Index(iova, L0);
    var p0 := Pte(m, ttbr as nat, Index(iova, L0));
    if p0.None? || !Valid(p0.value) || Block(p0.value) then {Access(0, a0)}
    else
      var a1 := TableOf(p0.value) + 8 * Index(iova, L1);
      var p1 := Pte(m, TableOf(p0.value), Index(iova, L1));
      if p1.None? || !Valid(p1.value) || Block(p1.value) then {Access(0, a0), Access(1, a1)}
      else {Access(0, a0), Access(1, a1), Access(2, TableOf(p1.value) + 8 * Index(iova, L2))}
  }

  /** `slot` holds a block entry that walks read at `level` only, and `spare` is a page-aligned table's
      worth of RAM that no walk reads. */
  ghost predicate CanSplit(m: Memory, ttbr: u64, level: nat, slot: nat, spare: u64) {
    && level < 2
    && InRam(m, slot) && Valid(Le64At(m.ram, slot - m.base as int)) && Block(Le64At(m.ram, slot - m.base as int))
    && spare % 0x1000 == 0 && m.base <= spare && spare as int - m.base as int + TABLE <= |m.ram|
    && Apart(slot, 8, spare as nat, TABLE)
    && forall iova: u64, a :: a in Accesses(m, ttbr, iova) ==>
         && Apart(a.at, 8, spare as nat, TABLE)
         && ((a.at == slot && a.level == level) || Apart(a.at, 8, slot, 8))
  }

  /** The block entry replaced by a table of 256 entries of the next level: smaller blocks below level 0,
      pages below level 1. */
  function Split(m: Memory, level: nat, slot: nat, spare: u64): Memory
    requires level < 2 && InRam(m, slot)
    requires m.base <= spare && spare as int - m.base as int + TABLE <= |m.ram|
  {
    var pte := Le64At(m.ram, slot - m.base as int) as int;
    var bytes := if level == 0 then TableBytes(pte - pte % L0, L1, 3, ENTRIES) else TableBytes(pte - pte % L1, L2, 1, ENTRIES);
    assert |bytes| == TABLE;
    Memory(Blit(Blit(m.ram, spare as int - m.base as int, bytes), slot - m.base as int, Le64((spare as int + 1) % TWO64)), m.base)
  }

  lemma {:induction false} TableEntry(mem: seq<u8>, off: nat, start: nat, step: nat, flags: nat, n: nat, i: nat)
    requires At(mem, off, TableBytes(start, step, flags, n)) && i < n
    ensures off + 8 * i + 8 <= |mem|
    ensures Le64At(mem, off + 8 * i) as int == (start + i * step + flags) % TWO64
    decreases n
  {
    hide At, Le64, Le64At;
    var last: u64 := (start + (n - 1) * step + flags) % TWO64;
    AtConcat(mem, off, TableBytes(start, step, flags, n - 1), Le64(last));
    if i == n - 1 {
      Le64RoundTrip(mem, off + 8 * i, last);
    } else {
      TableEntry(mem, off, start, step, flags, n - 1, i);
    }
  }

  /** The new table's entries and the new slot, as the walk reads them. */
  lemma SplitReads(m: Memory, level: nat, slot: nat, spare: u64, i: nat)
    requires level < 2 && InRam(m, slot) && i < ENTRIES
    requires m.base <= spare && spare as int - m.base as int + TABLE <= |m.ram| && Apart(slot, 8, spare as nat, TABLE)
    ensures var m', pte := Split(m, level, slot, spare), Le64At(m.ram, slot - m.base as int) as int;
            && Pte(m', slot, 0) == Some((spare as int + 1) % TWO64)
            && Pte(m', spare as nat, i) ==
                 Some((if level == 0 then pte - pte % L0 + i * L1 + 3 else pte - pte % L1 + i * L2 + 1) % TWO64)
  {
    hide At, Le64, Le64At, Blit, TableBytes;
    var pte := Le64At(m.ram, slot - m.base as int) as int;
    var bytes := if level == 0 then TableBytes(pte - pte % L0, L1, 3, ENTRIES) else TableBytes(pte - pte % L1, L2, 1, ENTRIES);
    var f, s, e := spare as int - m.base as int, slot - m.base as int, Le64((spare as int + 1) % TWO64);
    var r1 := Blit(m.ram, f, bytes);
    var r2 := Blit(r1, s, e);
    Le64RoundTrip(r2, s, (spare as int + 1) % TWO64);
    BlitKeepsAt(r1, s, e, f, bytes);
    if level == 0 {
      TableEntry(r2, f, pte - pte % L0, L1, 3, ENTRIES, i);
    } else {
      TableEntry(r2, f, pte - pte % L1, L2, 1, ENTRIES, i);
    }
  }

  /** Every entry apart from the slot and the new table reads as before. */
  lemma SplitKeeps(m: Memory, level: nat, slot: nat, spare: u64, a: nat)
    requires level < 2 && InRam(m, slot)
    requires m.base <= spare && spare as int - m.base as int + TABLE <= |m.ram|
    requires Apart(a, 8, slot, 8) && Apart(a, 8, spare as nat, TABLE)
    ensures Pte(Split(m, level, slot, spare), a, 0) == Pte(m, a, 0)
  {
    hide Le64, Le64At, Blit, TableBytes;
    var pte := Le64At(m.ram, slot - m.base as int) as int;
    var bytes := if level == 0 then TableBytes(pte - pte % L0, L1, 3, ENTRIES) else TableBytes(pte - pte % L1, L2, 1, ENTRIES);
    var f, s, e := spare as int - m.base as int, slot - m.base as int, Le64((spare as int + 1) % TWO64);
    if InRam(m, a) {
      Le64Kept(m.ram, f, bytes, a - m.base as int);
      Le64Kept(Blit(m.ram, f, bytes), s, e, a - m.base as int);
    }
  }

  // ---- Splitting preserves the translation -----------------------------------------

  /** An address inside a block of 256 units: its unit, and its place in the unit. */
  lemma UnitOf(iova: u64, unit: nat)
    requires unit in {L1, L2}
    ensures iova as int % (ENTRIES * unit) == Index(iova, unit) * unit + iova as int % unit
  {
    var n := iova as int / unit;
    assert iova as int == unit * n + iova as int % unit;
    assert n == ENTRIES * (n / ENTRIES) + n % ENTRIES;
  }

  /** An entry `flags` above a multiple of its unit. */
  lemma EntryParts(k: nat, i: nat, unit: nat, flags: nat)
    requires unit in {L1, L2} && i < ENTRIES && flags in {1, 3}
    ensures var e := ENTRIES * unit * k + i * unit + flags;
            e % unit == flags && e % 2 == 1 && (flags == 3 ==> e / 2 % 2 == 1)
  {
    var e, n := ENTRIES * unit * k + i * unit + flags, ENTRIES * k + i;
    assert e == unit * n + flags by {
      assert ENTRIES * unit * k == unit * (ENTRIES * k);
    }
    DivModUnique(e, unit, n, flags);
    var quarter := if unit == L1 then 0x4_0000 * n else 0x400 * n;
    assert unit * n == 4 * quarter;
    DivModUnique(e, 4, quarter, flags);
    LowTwoBits(e);
  }

  lemma LowTwoBits(e: nat)
    ensures e % 4 in {1, 3} ==> e % 2 == 1
    ensures e % 4 == 3 ==> e / 2 % 2 == 1
  {
  }

  /** One entry of a level-0 block's new table: a block that covers the same addresses. */
  lemma SmallBlock(pte: u64, iova: u64)
    ensures pte as int - pte as int % L0 + Index(iova, L1) * L1 + 3 < TWO64
    ensures var e: u64 := pte as int - pte as int % L0 + Index(iova, L1) * L1 + 3;
            Valid(e) && Block(e) && Join(e, iova, L1) == Join(pte, iova, L0)
  {
    hide Index;
    UnitOf(iova, L1);
    var k := pte as int / L0;
    assert pte as int - pte as int % L0 == ENTRIES * L1 * k;
    EntryParts(k, Index(iova, L1), L1, 3);
  }

  /** One entry of a level-1 block's new table: a page that covers the same addresses. */
  lemma SmallPage(pte: u64, iova: u64)
    ensures pte as int - pte as int % L1 + Index(iova, L2) * L2 + 1 < TWO64
    ensures var e: u64 := pte as int - pte as int % L1 + Index(iova, L2) * L2 + 1;
            Valid(e) && Join(e, iova, L2) == Join(pte, iova, L1)
  {
    hide Index;
    UnitOf(iova, L2);
    var k := pte as int / L1;
    assert pte as int - pte as int % L1 == ENTRIES * L2 * k;
    EntryParts(k, Index(iova, L2), L2, 1);
  }

  /** The new slot entry is a valid table entry that points at the new table. */
  lemma TablePointer(spare: u64)
    requires spare % 0x1000 == 0
    ensures spare as int + 1 < TWO64
    ensures var e: u64 := spare as int + 1; Valid(e) && !Block(e) && TableOf(e) == spare as nat
  {
    var k := spare as int / 0x1000;
    DivModUnique(spare as int + 1, 2, 0x800 * k, 1);
    DivModUnique(0x800 * k, 2, 0x400 * k, 0);
    DivModUnique(spare as int + 1, 0x1000, k, 1);
  }

  lemma PteAt(m: Memory, table: nat, idx: nat)
    ensures Pte(m, table, idx) == Pte(m, table + 8 * idx, 0)
  {
  }

  /** Replacing a superpage by a table of its 256 parts changes the translation of no address. */
  lemma SplitPreserves(m: Memory, ttbr: u64, level: nat, slot: nat, spare: u64, iova: u64)
    requires CanSplit(m, ttbr, level, slot, spare)
    ensures Walk(Split(m, level, slot, spare), ttbr, iova) == Walk(m, ttbr, iova)
  {
    hide Pte, Split, Join, Index, TableOf, Valid, Block, Le64At;
    var m', pte := Split(m, level, slot, spare), Le64At(m.ram, slot - m.base as int);
    var a0 := ttbr as nat + 8 * Index(iova, L0);
    PteAt(m, ttbr as nat, Index(iova, L0));
    PteAt(m', ttbr as nat, Index(iova, L0));
    assert Access(0, a0) in Accesses(m, ttbr, iova);
    TablePointer(spare);
    SlotPte(m, slot);
    if a0 == slot && level == 0 {
      SplitReads(m, level, slot, spare, Index(iova, L1));
      SmallBlock(pte, iova);
    } else {
      SplitKeeps(m, level, slot, spare, a0);
      var p0 := Pte(m, ttbr as nat, Index(iova, L0));
      if p0.Some? && Valid(p0.value) && !Block(p0.value) {
        WalkL1Preserved(m, ttbr, level, slot, spare, iova, p0.value);
      }
    }
  }

  lemma SlotPte(m: Memory, slot: nat)
    requires InRam(m, slot)
    ensures Pte(m, slot, 0) == Some(Le64At(m.ram, slot - m.base as int))
  {
  }

  lemma WalkL1Preserved(m: Memory, ttbr: u64, level: nat, slot: nat, spare: u64, iova: u64, l0: u64)
    requires CanSplit(m, ttbr, level, slot, spare)
    requires Pte(m, ttbr as nat, Index(iova, L0)) == Some(l0) && Valid(l0) && !Block(l0)
    ensures WalkL1(Split(m, level, slot, spare), l0, iova) == WalkL1(m, l0, iova)
  {
    hide Pte, Split, Join, Index, TableOf, Valid, Block, Le64At;
    var m', pte := Split(m, level, slot, spare), Le64At(m.ram, slot - m.base as int);
    var a1 := TableOf(l0) + 8 * Index(iova, L1);
    PteAt(m, TableOf(l0), Index(iova, L1));
    PteAt(m', TableOf(l0), Index(iova, L1));
    assert Access(1, a1) in Accesses(m, ttbr, iova);
    TablePointer(spare);
    SlotPte(m, slot);
    if a1 == slot && level == 1 {
      SplitReads(m, level, slot, spare, Index(iova, L2));
      SmallPage(pte, iova);
    } else {
      SplitKeeps(m, level, slot, spare, a1);
      var p1 := Pte(m, TableOf(l0), Index(iova, L1));
      if p1.Some? && Valid(p1.value) && !Block(p1.value) {
        var a2 := TableOf(p1.value) + 8 * Index(iova, L2);
        PteAt(m, TableOf(p1.value), Index(iova, L2));
        PteAt(m', TableOf(p1.value), Index(iova, L2));
        assert Access(2, a2) in Accesses(m, ttbr, iova);
        SplitKeeps(m, level, slot, spare, a2);
      }
    }
  }
}
