/** The split virtqueue of devices/transport/virtio_mmio.c (Virtio 1.2, section 2.7):
    ring and descriptor accesses over guest memory, and the proof that driver and device
    together implement an unbounded first-in first-out queue.
 */
module Virtqueue {
  import opened Bytes
  import opened ModArith
  import opened Options

  /** The device's view of one queue.  `desc`, `avail` and `used` are the cached pointers, as offsets
      into guest RAM of the descriptor table and of the first byte of each ring. */
  datatype Queue = Queue(size: u16, ready: bool, descAddr: u64, availAddr: u64, usedAddr: u64,
                         desc: Option<nat>, avail: Option<nat>, used: Option<nat>, lastAvail: u16)

  const ZERO_QUEUE := Queue(0, false, 0, 0, 0, None, None, None, 0)

  datatype Desc = Desc(addr: u64, len: u32, flags: u16, next: u16)
  {
    /** VRING_DESC_F_NEXT */
    predicate HasNext() { flags % 2 == 1 }
  }

  /** A buffer of a descriptor chain, as an offset into guest RAM. */
  datatype Span = Span(off: nat, len: u32)

  const DESC_SIZE: nat := 16

  /** The rings and the table of this queue lie inside memory. */
  predicate InRam(q: Queue, ramSize: nat) {
    && q.size > 0
    && (q.desc.Some? ==> q.desc.value + DESC_SIZE * q.size as int <= ramSize)
    && (q.avail.Some? ==> q.avail.value + 4 + 2 * q.size as int <= ramSize)
    && (q.used.Some? ==> q.used.value + 4 + 8 * q.size as int <= ramSize)
  }

  function DescAt(ram: seq<u8>, at: nat): Desc
    requires at + DESC_SIZE <= |ram|
  {
    Desc(Le64At(ram, at), Le32At(ram, at + 8), Le16At(ram, at + 12), Le16At(ram, at + 14))
  }

  /** virtio_get_desc */
  function GetDesc(ram: seq<u8>, q: Queue, idx: u16): (d: Option<Desc>)
    requires InRam(q, |ram|)
    ensures d.Some? <==> idx < q.size && q.desc.Some?
  {
    if idx >= q.size || q.desc.None? then None
    else
      assert DESC_SIZE * idx as int + DESC_SIZE <= DESC_SIZE * q.size as int;
      Some(DescAt(ram, q.desc.value + DESC_SIZE * idx as int))
  }

  function AvailIdx(ram: seq<u8>, q: Queue): u16
    requires InRam(q, |ram|) && q.avail.Some?
  {
    Le16At(ram, q.avail.value + 2)
  }

  function AvailSlot(q: Queue, idx: nat): nat
    requires q.avail.Some? && q.size > 0
  {
    q.avail.value + 4 + 2 * (idx % q.size as int)
  }

  function UsedIdx(ram: seq<u8>, q: Queue): u16
    requires InRam(q, |ram|) && q.used.Some?
  {
    Le16At(ram, q.used.value + 2)
  }

  function UsedSlot(q: Queue, idx: nat): nat
    requires q.used.Some? && q.size > 0
  {
    q.used.value + 4 + 8 * (idx % q.size as int)
  }

  /** virtio_get_avail: the next head, if the driver has published one, and the moved cursor. */
  function GetAvail(ram: seq<u8>, q: Queue): (Option<u16>, Queue)
    requires InRam(q, |ram|)
  {
    if !q.ready || q.avail.None? || q.lastAvail == AvailIdx(ram, q) then (None, q)
    else
      (Some(Le16At(ram, AvailSlot(q, q.lastAvail as int))),
       q.(lastAvail := (q.lastAvail as int + 1) % TWO16))
  }

  /** virtio_put_used: the element first, then the index. */
  function PutUsed(ram: seq<u8>, q: Queue, id: u16, len: u32): (r: seq<u8>)
    requires InRam(q, |ram|)
    ensures |r| == |ram|
  {
    if q.used.None? then ram
    else
      var idx := UsedIdx(ram, q);
      Blit(Blit(ram, UsedSlot(q, idx as int), UsedElem(id, len)),
           q.used.value + 2, Le16((idx as int + 1) % TWO16))
  }

  // ---- Driver and device over shared memory -------------------------------

  datatype Used = Used(id: u32, len: u32)

  /** Shared memory and both sides' cursors, with the histories of all operations so far. */
  datatype Sys = Sys(ram: seq<u8>, q: Queue, lastUsed: u16,
                     posted: seq<u16>, taken: seq<u16>, done: seq<Used>, reaped: seq<Used>)

  datatype Step =
    | Post(head: u16)            // driver: put a head on the available ring
    | Take                       // device: virtio_get_avail
    | Finish(id: u16, len: u32)  // device: virtio_put_used
    | Reap                       // driver: read the used ring
    | Buffers(ram: seq<u8>)      // either side: any stores outside the two rings

  /** The memory layout the driver chose; a legal queue size is a power of two, so it divides 2^16. */
  predicate Layout(ramSize: nat, q: Queue) {
    && q.ready && InRam(q, ramSize)
    && q.avail.Some? && q.used.Some?
    && q.size as int <= 0x8000 && 0x1_0000 % q.size as int == 0
    && Apart(q.avail.value, 4 + 2 * q.size as int, q.used.value, 4 + 8 * q.size as int)
  }

  /** A descriptor as the driver lays it out (section 2.7.5). */
  function DescBytes(addr: u64, len: u32, flags: u16, next: u16): (bs: seq<u8>)
    ensures |bs| == 16
  {
    Le64(addr) + Le32(len) + Le16(flags) + Le16(next)
  }

  /** The driver has written this descriptor into entry `idx` of the table. */
  ghost predicate Entry(ram: seq<u8>, q: Queue, idx: u16, d: Desc) {
    q.desc.Some? && idx < q.size && At(ram, q.desc.value + 16 * idx as int, DescBytes(d.addr, d.len, d.flags, d.next))
  }

  /** A descriptor reads back as the driver laid it out, and continues exactly when VRING_DESC_F_NEXT is set. */
  lemma DescReads(ram: seq<u8>, q: Queue, idx: u16, addr: u64, len: u32, flags: u16, next: u16)
    requires InRam(q, |ram|) && q.desc.Some? && idx < q.size
    requires At(ram, q.desc.value + 16 * idx as int, Le64(addr) + Le32(len) + Le16(flags) + Le16(next))
    ensures GetDesc(ram, q, idx) == Some(Desc(addr, len, flags, next))
    ensures Desc(addr, len, flags, next).HasNext() <==> exists k: nat :: flags as int == 2 * k + 1
  {
    hide At, Le64, Le32, Le16, Le64At, Le32At, Le16At;
    var at := q.desc.value + 16 * idx as int;
    AtConcat(ram, at, Le64(addr) + Le32(len) + Le16(flags), Le16(next));
    AtConcat(ram, at, Le64(addr) + Le32(len), Le16(flags));
    AtConcat(ram, at, Le64(addr), Le32(len));
    Le64RoundTrip(ram, at, addr);
    Le32RoundTrip(ram, at + 8, len);
    Le16RoundTrip(ram, at + 12, flags);
    Le16RoundTrip(ram, at + 14, next);
    assert flags as int == 2 * (flags as int / 2) + flags as int % 2;
  }

  lemma EntryReads(ram: seq<u8>, q: Queue, idx: u16, d: Desc)
    requires InRam(q, |ram|) && Entry(ram, q, idx, d)
    ensures GetDesc(ram, q, idx) == Some(d)
  {
    hide At, GetDesc;
    DescReads(ram, q, idx, d.addr, d.len, d.flags, d.next);
  }

  /** Whatever descriptor the driver laid out there is the one that comes out. */
  ghost predicate Shows(ram: seq<u8>, q: Queue, idx: u16, d: Option<Desc>) {
    forall e :: Entry(ram, q, idx, e) ==> d == Some(e)
  }

  lemma EntryShows(ram: seq<u8>, q: Queue, idx: u16)
    requires InRam(q, |ram|)
    ensures Shows(ram, q, idx, GetDesc(ram, q, idx))
  {
    hide Entry, GetDesc, InRam;
    forall e | Entry(ram, q, idx, e) ensures GetDesc(ram, q, idx) == Some(e) {
      EntryReads(ram, q, idx, e);
    }
  }

  /** The device sees a head exactly when the queue is ready, its available ring is known, and the index in the
      ring's third and fourth byte differs from the cursor; it is the entry that the cursor selects. */
  lemma OffersExactly(ram: seq<u8>, q: Queue)
    requires InRam(q, |ram|)
    ensures GetAvail(ram, q).0.Some? <==>
              q.ready && q.avail.Some? && ram[q.avail.value + 2] as int + 0x100 * ram[q.avail.value + 3] as int != q.lastAvail as int
    ensures GetAvail(ram, q).0.Some? ==>
              var at := q.avail.value + 4 + 2 * (q.lastAvail as int % q.size as int);
              GetAvail(ram, q).0.value as int == ram[at] as int + 0x100 * ram[at + 1] as int
    ensures GetAvail(ram, q).1 == if GetAvail(ram, q).0.None? then q else q.(lastAvail := (q.lastAvail as int + 1) % TWO16)
  {
  }

  /** The driver's write of a head: ring entry, then index. */
  function DriverPost(ram: seq<u8>, q: Queue, head: u16): (r: seq<u8>)
    requires Layout(|ram|, q)
    ensures |r| == |ram|
  {
    var ring, idx := q.avail.value, AvailIdx(ram, q);
    Blit(Blit(ram, ring + 4 + 2 * (idx as int % q.size as int), Le16(head)), ring + 2, Le16((idx as int + 1) % TWO16))
  }

  lemma PostSlot(ram: seq<u8>, q: Queue, head: u16)
    requires Layout(|ram|, q)
    ensures var idx := AvailIdx(ram, q);
            && AvailSlot(q, idx as int) + 2 <= |ram|
            && DriverPost(ram, q, head) == Blit(Blit(ram, AvailSlot(q, idx as int), Le16(head)), q.avail.value + 2, Le16((idx as int + 1) % TWO16))
  {
    hide Blit, Le16, Le16At;
  }

  /** The driver's read of a used element: identifier, then length. */
  function UsedAt(ram: seq<u8>, q: Queue, idx: nat): Used
    requires InRam(q, |ram|) && q.used.Some?
  {
    var at := q.used.value + 4 + 8 * (idx % q.size as int);
    Used(Le32At(ram, at), Le32At(ram, at + 4))
  }

  lemma UsedWhere(ram: seq<u8>, q: Queue, idx: nat)
    requires InRam(q, |ram|) && q.used.Some?
    ensures UsedSlot(q, idx) + 8 <= |ram|
    ensures UsedAt(ram, q, idx) == Used(Le32At(ram, UsedSlot(q, idx)), Le32At(ram, UsedSlot(q, idx) + 4))
  {
    hide Le32At;
  }

  /** What each side may do: the driver keeps at most `size` buffers in flight and reaps only
      published elements; the device finishes only what it took. */
  ghost predicate Enabled(s: Sys, step: Step)
    requires Layout(|s.ram|, s.q)
  {
    match step
    case Post(_) => |s.posted| - |s.reaped| < s.q.size as int
    case Take => GetAvail(s.ram, s.q).0.Some?
    case Finish(_, _) => |s.done| < |s.taken|
    case Reap => s.lastUsed != UsedIdx(s.ram, s.q)
    case Buffers(ram) =>
      && SameIn(ram, s.ram, s.q.avail.value, AvailSize(s.q))
      && SameIn(ram, s.ram, s.q.used.value, UsedSize(s.q))
  }

  function Next(s: Sys, step: Step): Sys
    requires Layout(|s.ram|, s.q) && Enabled(s, step)
  {
    match step
    case Post(h) => s.(ram := DriverPost(s.ram, s.q, h), posted := s.posted + [h])
    case Take =>
      var (h, q) := GetAvail(s.ram, s.q);
      s.(q := q, taken := s.taken + [h.value])
    case Finish(id, len) =>
      s.(ram := PutUsed(s.ram, s.q, id, len), done := s.done + [Used(id as u32, len)])
    case Reap =>
      s.(lastUsed := (s.lastUsed as int + 1) % TWO16,
         reaped := s.reaped + [UsedAt(s.ram, s.q, s.lastUsed as int)])
    case Buffers(ram) => s.(ram := ram)
  }

  /** The queue refines a pair of unbounded FIFOs: `taken` runs along `posted` and `reaped` along
      `done`; the rings hold what is still between them; indices are the counts modulo 2^16. */
  ghost predicate Inv(s: Sys) {
    && Layout(|s.ram|, s.q)
    && |s.reaped| <= |s.done| <= |s.taken| <= |s.posted| <= |s.reaped| + s.q.size as int
    && s.taken == s.posted[..|s.taken|]
    && s.reaped == s.done[..|s.reaped|]
    && AvailIdx(s.ram, s.q) as int == |s.posted| % TWO16
    && s.q.lastAvail as int == |s.taken| % TWO16
    && UsedIdx(s.ram, s.q) as int == |s.done| % TWO16
    && s.lastUsed as int == |s.reaped| % TWO16
    && (forall i :: |s.taken| <= i < |s.posted| ==> AvailHolds(s, i))
    && (forall i :: |s.reaped| <= i < |s.done| ==> UsedHolds(s, i))
  }

  predicate AvailHolds(s: Sys, i: nat)
    requires Layout(|s.ram|, s.q) && i < |s.posted|
  {
    Le16At(s.ram, AvailSlot(s.q, i)) == s.posted[i]
  }

  predicate UsedHolds(s: Sys, i: nat)
    requires Layout(|s.ram|, s.q) && i < |s.done|
  {
    UsedAt(s.ram, s.q, i) == s.done[i]
  }

  /** Slots computed from 16-bit indices are the slots of the unbounded counters for every count
      exactly when the size divides 2^16. */
  lemma SlotsAgreeExactly(size: nat)
    requires size > 0
    ensures (forall i: nat :: i % TWO16 % size == i % size) <==> TWO16 % size == 0
  {
    if TWO16 % size == 0 {
      forall i: nat ensures i % TWO16 % size == i % size {
        ModOfMod(i, TWO16, size);
      }
    } else {
      assert TWO16 % TWO16 % size == 0;
    }
  }

  // ---- The refinement -----------------------------------------------------

  ghost predicate Start(s: Sys) {
    && Layout(|s.ram|, s.q)
    && s.posted == [] && s.taken == [] && s.done == [] && s.reaped == []
    && AvailIdx(s.ram, s.q) == 0 && UsedIdx(s.ram, s.q) == 0 && s.q.lastAvail == 0 && s.lastUsed == 0
  }

  /** The slots of one ring stand inside it, each in its own place. */
  lemma SlotBounds(q: Queue, i: nat)
    requires q.avail.Some? && q.used.Some? && q.size > 0
    ensures q.avail.value + 4 <= AvailSlot(q, i) <= q.avail.value + 2 + 2 * q.size as int
    ensures q.used.value + 4 <= UsedSlot(q, i) <= q.used.value - 4 + 8 * q.size as int
  {
  }

  lemma SlotsApart(q: Queue, i: nat, j: nat)
    requires q.avail.Some? && q.used.Some? && q.size > 0
    requires i < j < i + q.size as int
    ensures Apart(AvailSlot(q, i), 2, AvailSlot(q, j), 2) && Apart(UsedSlot(q, i), 8, UsedSlot(q, j), 8)
  {
    ModDistinct(i, j, q.size as int);
  }

  /** A 16-bit index selects the slot of the unbounded counter it came from. */
  lemma SlotOfIndex(ramSize: nat, q: Queue, i: nat)
    requires Layout(ramSize, q)
    ensures AvailSlot(q, i % TWO16) == AvailSlot(q, i) && UsedSlot(q, i % TWO16) == UsedSlot(q, i)
  {
    ModOfMod(i, TWO16, q.size as int);
  }

  /** Moving a cursor changes no ring entry. */
  lemma SameRam(s: Sys, t: Sys)
    requires Layout(|s.ram|, s.q) && t.ram == s.ram && t.posted == s.posted && t.done == s.done
    requires t.q == s.q.(lastAvail := t.q.lastAvail)
    ensures Layout(|t.ram|, t.q) && AvailIdx(t.ram, t.q) == AvailIdx(s.ram, s.q) && UsedIdx(t.ram, t.q) == UsedIdx(s.ram, s.q)
    ensures forall i :: 0 <= i < |s.posted| ==> AvailHolds(t, i) == AvailHolds(s, i)
    ensures forall i :: 0 <= i < |s.done| ==> UsedHolds(t, i) == UsedHolds(s, i)
  {
    hide Le16At, Le32At;
  }

  lemma StepTake(s: Sys)
    requires Inv(s) && Enabled(s, Take)
    ensures Inv(Next(s, Take)) && Next(s, Take).taken == s.taken + [s.posted[|s.taken|]]
  {
    hide Le16At, Le32At, UsedHolds, UsedAt, AvailIdx, UsedIdx;
    var n := |s.taken|;
    ModSame(n, |s.posted|, TWO16);
    SlotOfIndex(|s.ram|, s.q, n);
    ModNext(n, TWO16);
    assert AvailHolds(s, n);
    var t := Next(s, Take);
    assert s.posted[..n + 1] == s.posted[..n] + [s.posted[n]];
    SameRam(s, t);
  }

  lemma StepReap(s: Sys)
    requires Inv(s) && Enabled(s, Reap)
    ensures Inv(Next(s, Reap)) && Next(s, Reap).reaped == s.reaped + [s.done[|s.reaped|]]
  {
    hide Le16At, Le32At, AvailHolds, AvailIdx, UsedIdx;
    var n := |s.reaped|;
    ModSame(n, |s.done|, TWO16);
    SlotOfIndex(|s.ram|, s.q, n);
    ModNext(n, TWO16);
    assert UsedHolds(s, n);
    var t := Next(s, Reap);
    assert s.done[..n + 1] == s.done[..n] + [s.done[n]];
    SameRam(s, t);
  }

  /** What a two-part ring update (entry `x` at `slot`, index at `at`) leaves readable. */
  lemma UpdateReads16(ram: seq<u8>, slot: nat, x: seq<u8>, at: nat, idx: u16, a: nat)
    requires slot + |x| <= |ram| && at + 2 <= |ram| && a + 2 <= |ram|
    ensures Le16At(Blit(Blit(ram, slot, x), at, Le16(idx)), at) == idx
    ensures Apart(slot, |x|, a, 2) && Apart(at, 2, a, 2) ==> Le16At(Blit(Blit(ram, slot, x), at, Le16(idx)), a) == Le16At(ram, a)
    ensures Apart(at, 2, slot, |x|) ==> At(Blit(Blit(ram, slot, x), at, Le16(idx)), slot, x)
  {
    hide Blit, Le16, Le16At, At;
    var r1 := Blit(ram, slot, x);
    Le16RoundTrip(Blit(r1, at, Le16(idx)), at, idx);
    if Apart(slot, |x|, a, 2) && Apart(at, 2, a, 2) {
      Le16Kept(ram, slot, x, a);
      Le16Kept(r1, at, Le16(idx), a);
    }
    if Apart(at, 2, slot, |x|) {
      BlitKeepsAt(r1, at, Le16(idx), slot, x);
    }
  }

  lemma UpdateReads32(ram: seq<u8>, slot: nat, x: seq<u8>, at: nat, idx: u16, a: nat)
    requires slot + |x| <= |ram| && at + 2 <= |ram| && a + 4 <= |ram|
    requires Apart(slot, |x|, a, 4) && Apart(at, 2, a, 4)
    ensures Le32At(Blit(Blit(ram, slot, x), at, Le16(idx)), a) == Le32At(ram, a)
  {
    hide Blit, Le16, Le32At;
    Le32Kept(ram, slot, x, a);
    Le32Kept(Blit(ram, slot, x), at, Le16(idx), a);
  }

  lemma PostIndices(ram: seq<u8>, q: Queue, n: nat, h: u16)
    requires Layout(|ram|, q) && AvailIdx(ram, q) as int == n % TWO16
    ensures var r := DriverPost(ram, q, h);
            && AvailIdx(r, q) as int == (n + 1) % TWO16 && UsedIdx(r, q) == UsedIdx(ram, q)
            && Le16At(r, AvailSlot(q, n)) == h
  {
    hide Blit, Le16, Le16At, At, AvailSlot, UsedSlot, DriverPost;
    PostSlot(ram, q, h);
    SlotOfIndex(|ram|, q, n);
    SlotBounds(q, n);
    ModNext(n, TWO16);
    var slot, at, idx := AvailSlot(q, n), q.avail.value + 2, (n + 1) % TWO16;
    UpdateReads16(ram, slot, Le16(h), at, idx, q.used.value + 2);
    Le16RoundTrip(DriverPost(ram, q, h), slot, h);
  }

  lemma PostKeepsAvail(ram: seq<u8>, q: Queue, n: nat, h: u16, i: nat)
    requires Layout(|ram|, q) && AvailIdx(ram, q) as int == n % TWO16 && i < n < i + q.size as int
    ensures Le16At(DriverPost(ram, q, h), AvailSlot(q, i)) == Le16At(ram, AvailSlot(q, i))
  {
    hide Blit, Le16, Le16At, At, DriverPost;
    PostSlot(ram, q, h);
    SlotOfIndex(|ram|, q, n);
    ModNext(n, TWO16);
    SlotsApart(q, i, n);
    UpdateReads16(ram, AvailSlot(q, n), Le16(h), q.avail.value + 2, (n + 1) % TWO16, AvailSlot(q, i));
  }

  lemma PostKeepsUsed(ram: seq<u8>, q: Queue, n: nat, h: u16, i: nat)
    requires Layout(|ram|, q) && AvailIdx(ram, q) as int == n % TWO16
    ensures UsedAt(DriverPost(ram, q, h), q, i) == UsedAt(ram, q, i)
  {
    hide Blit, Le16, Le16At, Le32At, At, AvailSlot, UsedSlot, DriverPost, UsedAt;
    PostSlot(ram, q, h);
    UsedWhere(ram, q, i);
    UsedWhere(DriverPost(ram, q, h), q, i);
    SlotOfIndex(|ram|, q, n);
    SlotBounds(q, n);
    SlotBounds(q, i);
    ModNext(n, TWO16);
    UpdateReads32(ram, AvailSlot(q, n), Le16(h), q.avail.value + 2, (n + 1) % TWO16, UsedSlot(q, i));
    UpdateReads32(ram, AvailSlot(q, n), Le16(h), q.avail.value + 2, (n + 1) % TWO16, UsedSlot(q, i) + 4);
  }

  lemma StepPost(s: Sys, h: u16)
    requires Inv(s) && Enabled(s, Post(h))
    ensures Inv(Next(s, Post(h))) && Next(s, Post(h)).posted == s.posted + [h]
  {
    hide Le16At, Le32At, UsedAt, AvailIdx, UsedIdx, AvailSlot, DriverPost;
    var n, t := |s.posted|, Next(s, Post(h));
    PostIndices(s.ram, s.q, n, h);
    forall i | |t.taken| <= i < |t.posted| ensures AvailHolds(t, i) {
      if i < n {
        assert AvailHolds(s, i);
        PostKeepsAvail(s.ram, s.q, n, h, i);
      }
    }
    forall i | |t.reaped| <= i < |t.done| ensures UsedHolds(t, i) {
      assert UsedHolds(s, i);
      PostKeepsUsed(s.ram, s.q, n, h, i);
    }
    assert t.posted[..|s.taken|] == s.posted[..|s.taken|];
  }

  function UsedElem(id: u16, len: u32): (x: seq<u8>)
    ensures |x| == 8
  {
    Le32(id as u32) + Le32(len)
  }

  lemma FinishIndices(ram: seq<u8>, q: Queue, n: nat, id: u16, len: u32)
    requires Layout(|ram|, q) && UsedIdx(ram, q) as int == n % TWO16
    ensures var r := PutUsed(ram, q, id, len);
            && UsedIdx(r, q) as int == (n + 1) % TWO16 && AvailIdx(r, q) == AvailIdx(ram, q)
            && At(r, UsedSlot(q, n), UsedElem(id, len))
  {
    hide Blit, Le16, Le32, Le16At, At, AvailSlot, UsedSlot;
    SlotOfIndex(|ram|, q, n);
    SlotBounds(q, n);
    ModNext(n, TWO16);
    UpdateReads16(ram, UsedSlot(q, n), UsedElem(id, len), q.used.value + 2, (n + 1) % TWO16, q.avail.value + 2);
  }

  lemma ElemReads(ram: seq<u8>, q: Queue, n: nat, id: u16, len: u32)
    requires Layout(|ram|, q) && At(ram, UsedSlot(q, n), UsedElem(id, len))
    ensures UsedAt(ram, q, n) == Used(id as u32, len)
  {
    hide Le32, Le32At, At, UsedAt;
    UsedWhere(ram, q, n);
    AtConcat(ram, UsedSlot(q, n), Le32(id as u32), Le32(len));
    Le32RoundTrip(ram, UsedSlot(q, n), id as u32);
    Le32RoundTrip(ram, UsedSlot(q, n) + 4, len);
  }

  lemma FinishKeepsUsed(ram: seq<u8>, q: Queue, n: nat, id: u16, len: u32, i: nat)
    requires Layout(|ram|, q) && UsedIdx(ram, q) as int == n % TWO16 && i < n < i + q.size as int
    ensures UsedAt(PutUsed(ram, q, id, len), q, i) == UsedAt(ram, q, i)
  {
    hide Blit, Le16, Le32, Le16At, Le32At, At, UsedAt;
    UsedWhere(ram, q, i);
    UsedWhere(PutUsed(ram, q, id, len), q, i);
    SlotOfIndex(|ram|, q, n);
    ModNext(n, TWO16);
    SlotsApart(q, i, n);
    UpdateReads32(ram, UsedSlot(q, n), UsedElem(id, len), q.used.value + 2, (n + 1) % TWO16, UsedSlot(q, i));
    UpdateReads32(ram, UsedSlot(q, n), UsedElem(id, len), q.used.value + 2, (n + 1) % TWO16, UsedSlot(q, i) + 4);
  }

  lemma FinishKeepsAvail(ram: seq<u8>, q: Queue, n: nat, id: u16, len: u32, i: nat)
    requires Layout(|ram|, q) && UsedIdx(ram, q) as int == n % TWO16
    ensures Le16At(PutUsed(ram, q, id, len), AvailSlot(q, i)) == Le16At(ram, AvailSlot(q, i))
  {
    hide Blit, Le16, Le32, Le16At, At, AvailSlot, UsedSlot;
    SlotOfIndex(|ram|, q, n);
    SlotBounds(q, n);
    SlotBounds(q, i);
    ModNext(n, TWO16);
    UpdateReads16(ram, UsedSlot(q, n), UsedElem(id, len), q.used.value + 2, (n + 1) % TWO16, AvailSlot(q, i));
  }

  lemma StepFinish(s: Sys, id: u16, len: u32)
    requires Inv(s) && Enabled(s, Finish(id, len))
    ensures Inv(Next(s, Finish(id, len))) && Next(s, Finish(id, len)).done == s.done + [Used(id as u32, len)]
  {
    hide Le16At, Le32At, UsedAt, AvailIdx, UsedIdx, AvailSlot, UsedSlot, PutUsed, At;
    var n, t := |s.done|, Next(s, Finish(id, len));
    FinishIndices(s.ram, s.q, n, id, len);
    ElemReads(t.ram, s.q, n, id, len);
    forall i | |t.taken| <= i < |t.posted| ensures AvailHolds(t, i) {
      assert AvailHolds(s, i);
      FinishKeepsAvail(s.ram, s.q, n, id, len, i);
    }
    forall i | |t.reaped| <= i < |t.done| ensures UsedHolds(t, i) {
      if i < n {
        assert UsedHolds(s, i);
        FinishKeepsUsed(s.ram, s.q, n, id, len, i);
      }
    }
    assert t.done[..|s.reaped|] == s.done[..|s.reaped|];
  }

  /** Stores outside the rings leave everything that the rings say. */
  lemma StepBuffers(s: Sys, ram: seq<u8>)
    requires Inv(s) && Enabled(s, Buffers(ram))
    ensures Inv(Next(s, Buffers(ram)))
  {
    hide Le16At, Le32At, SameIn, AvailSlot, UsedSlot;
    var t, q := Next(s, Buffers(ram)), s.q;
    SameSize(ram, s.ram, q.avail.value, AvailSize(q));
    SameInReads(ram, s.ram, q.avail.value, AvailSize(q));
    SameInReads(ram, s.ram, q.used.value, UsedSize(q));
    forall i | |t.taken| <= i < |t.posted| ensures AvailHolds(t, i) {
      assert AvailHolds(s, i);
      SlotBounds(q, i);
    }
    forall i | |t.reaped| <= i < |t.done| ensures UsedHolds(t, i) {
      assert UsedHolds(s, i);
      SlotBounds(q, i);
    }
  }

  lemma SameSize(a: seq<u8>, b: seq<u8>, lo: nat, n: nat)
    requires SameIn(a, b, lo, n)
    ensures |a| == |b|
  {
  }

  // ---- Whole runs ---------------------------------------------------------

  /** A legal run, step by step. */
  ghost predicate Legal(s: Sys, run: seq<Step>)
    decreases |run|
  {
    run != [] ==> Layout(|s.ram|, s.q) && Enabled(s, run[0]) && Legal(Next(s, run[0]), run[1..])
  }

  ghost function Run(s: Sys, run: seq<Step>): Sys
    requires Legal(s, run)
    decreases |run|
  {
    if run == [] then s else Run(Next(s, run[0]), run[1..])
  }

  lemma StepInv(s: Sys, step: Step)
    requires Inv(s) && Enabled(s, step)
    ensures Inv(Next(s, step))
  {
    hide *;
    match step
    case Post(h) => StepPost(s, h);
    case Take => StepTake(s);
    case Finish(id, len) => StepFinish(s, id, len);
    case Reap => StepReap(s);
    case Buffers(ram) => StepBuffers(s, ram);
  }

  lemma {:induction false} RunInv(s: Sys, run: seq<Step>)
    requires Inv(s) && Legal(s, run)
    ensures Inv(Run(s, run))
    decreases |run|
  {
    hide Inv, Enabled, Next, Layout;
    if run != [] {
      StepInv(s, run[0]);
      RunInv(Next(s, run[0]), run[1..]);
    }
  }

  /** For every interleaving of driver and device, over any number of index wrap-arounds: heads come
      out exactly once in posting order, completions come back exactly once in finishing order, and
      each side sees work exactly when there is some. */
  lemma Refinement(s: Sys, run: seq<Step>)
    requires Start(s) && Legal(s, run)
    ensures var t := Run(s, run);
            && Layout(|t.ram|, t.q)
            && |t.reaped| <= |t.done| <= |t.taken| <= |t.posted|
            && t.taken == t.posted[..|t.taken|] && t.reaped == t.done[..|t.reaped|]
            && (Enabled(t, Take) <==> |t.taken| < |t.posted|)
            && (Enabled(t, Reap) <==> |t.reaped| < |t.done|)
  {
    hide Le16At, Le32At, UsedAt, AvailHolds, UsedHolds, AvailIdx, UsedIdx, AvailSlot, Next, Legal, Run;
    RunInv(s, run);
    var t := Run(s, run);
    ModSame(|t.taken|, |t.posted|, TWO16);
    ModSame(|t.reaped|, |t.done|, TWO16);
  }

  /** A completion never lands on a used element that the driver has not read yet, nor on either
      ring's index or on the available ring. */
  lemma FinishIsSafe(s: Sys, run: seq<Step>)
    requires Start(s) && Legal(s, run)
    ensures var t := Run(s, run);
            |t.done| < |t.taken| ==>
              && Layout(|t.ram|, t.q)
              && var slot := UsedSlot(t.q, UsedIdx(t.ram, t.q) as int);
              && (forall i :: |t.reaped| <= i < |t.done| ==> Apart(slot, 8, UsedSlot(t.q, i), 8))
              && Apart(slot, 8, t.q.used.value, 4)
              && Apart(slot, 8, t.q.avail.value, AvailSize(t.q))
  {
    hide Start, Legal, Run, Le16At, AvailHolds, UsedHolds;
    RunFrom(s, run);
    var t := Run(s, run);
    if |t.done| < |t.taken| {
      SlotOfIndex(|t.ram|, t.q, |t.done|);
      SlotBounds(t.q, |t.done|);
      forall i | |t.reaped| <= i < |t.done| ensures Apart(UsedSlot(t.q, |t.done|), 8, UsedSlot(t.q, i), 8) {
        SlotsApart(t.q, i, |t.done|);
      }
    }
  }

  lemma RunFrom(s: Sys, run: seq<Step>)
    requires Start(s) && Legal(s, run)
    ensures Inv(Run(s, run))
  {
    hide Legal, Run;
    RunInv(s, run);
  }

  // ---- A device that serves heads one after another ------------------------------

  lemma {:induction false} RunConcat(s: Sys, a: seq<Step>, b: seq<Step>)
    requires Legal(s, a) && Legal(Run(s, a), b)
    ensures Legal(s, a + b) && Run(s, a + b) == Run(Run(s, a), b)
    decreases |a|
  {
    hide Enabled, Next, Layout;
    if a == [] {
      assert a + b == b;
    } else {
      assert (a + b)[1..] == a[1..] + b;
      RunConcat(Next(s, a[0]), a[1..], b);
    }
  }

  /** One head served: memory once its buffers are written, and the length to report. */
  datatype Round = Round(head: u16, ram: seq<u8>, len: u32)

  /** The device serves the head that it is offered and writes outside the rings only. */
  ghost predicate Fits(s: Sys, r: Round) {
    && Layout(|s.ram|, s.q)
    && GetAvail(s.ram, s.q).0 == Some(r.head)
    && Enabled(s, Buffers(r.ram)) && |r.ram| == |s.ram|
    && |s.done| <= |s.taken|
  }

  /** What a round leaves. */
  function Served(s: Sys, r: Round): Sys
    requires Fits(s, r)
  {
    var q := GetAvail(s.ram, s.q).1;
    s.(ram := PutUsed(r.ram, q, r.head, r.len), q := q,
       taken := s.taken + [r.head], done := s.done + [Used(r.head as u32, r.len)])
  }

  function RoundSteps(r: Round): seq<Step> { [Take, Buffers(r.ram), Finish(r.head, r.len)] }

  /** A round is a legal run of the queue's own steps. */
  lemma RoundIsRun(s: Sys, r: Round)
    requires Fits(s, r)
    ensures Legal(s, RoundSteps(r)) && Run(s, RoundSteps(r)) == Served(s, r)
  {
    hide SameIn, PutUsed, AvailIdx, Le16At;
    var steps := RoundSteps(r);
    var rest := steps[1..];
    var last := rest[1..];
    assert rest[0] == Buffers(r.ram) && last[0] == Finish(r.head, r.len) && last[1..] == [];
    var s1 := Next(s, Take);
    var s2 := Next(s1, Buffers(r.ram));
    var s3 := Next(s2, Finish(r.head, r.len));
    assert Legal(s2, last) && Run(s2, last) == s3 by { assert Legal(s3, []) && Run(s3, []) == s3; }
    assert Legal(s1, rest) && Run(s1, rest) == s3;
    assert Legal(s, steps) && Run(s, steps) == s3;
    assert s3 == Served(s, r);
  }

  ghost predicate FitAll(s: Sys, rs: seq<Round>)
    decreases |rs|, 0
  {
    rs != [] ==> FitAll(s, rs[..|rs| - 1]) && Fits(ServedAll(s, rs[..|rs| - 1]), rs[|rs| - 1])
  }

  ghost function ServedAll(s: Sys, rs: seq<Round>): Sys
    requires FitAll(s, rs)
    decreases |rs|, 1
  {
    if rs == [] then s else Served(ServedAll(s, rs[..|rs| - 1]), rs[|rs| - 1])
  }

  function AllSteps(rs: seq<Round>): seq<Step> {
    if rs == [] then [] else AllSteps(rs[..|rs| - 1]) + RoundSteps(rs[|rs| - 1])
  }

  /** A notification that serves these rounds is a legal run of Take, Buffers and Finish steps. */
  lemma {:induction false} ServiceIsRun(s: Sys, rs: seq<Round>)
    requires FitAll(s, rs)
    ensures Legal(s, AllSteps(rs)) && Run(s, AllSteps(rs)) == ServedAll(s, rs)
    decreases |rs|
  {
    hide Fits, Served, RoundSteps;
    if rs != [] {
      var init, last := rs[..|rs| - 1], rs[|rs| - 1];
      ServiceIsRun(s, init);
      RoundIsRun(ServedAll(s, init), last);
      RunConcat(s, AllSteps(init), RoundSteps(last));
    }
  }

  /** Every completion so far names the head taken at its place, and nothing taken is left unfinished. */
  ghost predicate InOrder(s: Sys) {
    |s.done| == |s.taken| && forall i :: 0 <= i < |s.done| ==> s.done[i].id as int == s.taken[i] as int
  }

  lemma {:induction false} ServiceInOrder(s: Sys, rs: seq<Round>)
    requires Inv(s) && InOrder(s) && FitAll(s, rs)
    ensures Inv(ServedAll(s, rs)) && InOrder(ServedAll(s, rs))
    decreases |rs|
  {
    ServiceIsRun(s, rs);
    RunInv(s, AllSteps(rs));
    OrderKept(s, rs);
  }

  lemma {:induction false} OrderKept(s: Sys, rs: seq<Round>)
    requires InOrder(s) && FitAll(s, rs)
    ensures InOrder(ServedAll(s, rs))
    decreases |rs|
  {
    hide Fits;
    if rs != [] {
      OrderKept(s, rs[..|rs| - 1]);
    }
  }

  /** The driver's steps, and notifications that each serve some rounds. */
  datatype Event = Driver(step: Step) | Notify(rounds: seq<Round>)

  ghost predicate Plays(s: Sys, es: seq<Event>)
    decreases |es|
  {
    es != [] ==>
      match es[0]
      case Driver(step) =>
        (step.Post? || step.Reap? || step.Buffers?) && Layout(|s.ram|, s.q) && Enabled(s, step) && Plays(Next(s, step), es[1..])
      case Notify(rs) => FitAll(s, rs) && Plays(ServedAll(s, rs), es[1..])
  }

  ghost function Played(s: Sys, es: seq<Event>): Sys
    requires Plays(s, es)
    decreases |es|
  {
    if es == [] then s
    else
      match es[0]
      case Driver(step) => Played(Next(s, step), es[1..])
      case Notify(rs) => Played(ServedAll(s, rs), es[1..])
  }

  /** Over any number of notifications, interleaved with the driver's steps and across any number of index
      wrap-arounds, heads are served in posting order, each exactly once. */
  lemma {:induction false} PlayInOrder(s: Sys, es: seq<Event>)
    requires Inv(s) && InOrder(s) && Plays(s, es)
    ensures Inv(Played(s, es)) && InOrder(Played(s, es))
    decreases |es|
  {
    hide Inv, FitAll, ServedAll, Layout, Enabled;
    if es != [] {
      match es[0]
      case Driver(step) =>
        StepInv(s, step);
        DriverKeepsOrder(s, step);
        PlayInOrder(Next(s, step), es[1..]);
      case Notify(rs) =>
        ServiceInOrder(s, rs);
        PlayInOrder(ServedAll(s, rs), es[1..]);
    }
  }

  lemma DriverKeepsOrder(s: Sys, step: Step)
    requires InOrder(s) && (step.Post? || step.Reap? || step.Buffers?) && Layout(|s.ram|, s.q) && Enabled(s, step)
    ensures InOrder(Next(s, step))
  {
    hide DriverPost, UsedAt;
  }

  /** From the start: completions are the posted heads, in order. */
  lemma ServedInPostingOrder(s: Sys, es: seq<Event>)
    requires Start(s) && Plays(s, es)
    ensures var t := Played(s, es);
            |t.done| <= |t.posted| && forall i :: 0 <= i < |t.done| ==> t.done[i].id as int == t.posted[i] as int
  {
    hide Plays, Played, Layout;
    PlayInOrder(s, es);
  }

  // ---- Reading the queue while memory around it changes --------------------

  /** `n` bytes at guest address `a` of the RAM that starts at `base`. */
  predicate InGuest(base: u64, ramSize: nat, a: u64, n: nat) {
    base <= a && a as int - base as int + n <= ramSize
  }

  /** How many heads the driver has published beyond the device's cursor. */
  function Pending(ram: seq<u8>, q: Queue): nat
    requires Layout(|ram|, q)
  {
    (AvailIdx(ram, q) as int - q.lastAvail as int) % TWO16
  }

  function Head(ram: seq<u8>, q: Queue, k: nat): u16
    requires Layout(|ram|, q)
  {
    Le16At(ram, AvailSlot(q, (q.lastAvail as int + k) % TWO16))
  }

  function AvailSize(q: Queue): nat { 4 + 2 * q.size as int }
  function UsedSize(q: Queue): nat { 4 + 8 * q.size as int }
  function TableSize(q: Queue): nat { DESC_SIZE * q.size as int }

  lemma SameHead(ram: seq<u8>, was: seq<u8>, q: Queue, k: nat)
    requires |ram| == |was| && Layout(|was|, q) && SameIn(ram, was, q.avail.value, AvailSize(q))
    ensures AvailIdx(ram, q) == AvailIdx(was, q)
    ensures var c := q.(lastAvail := (q.lastAvail as int + k) % TWO16);
            Head(ram, c, 0) == Head(was, q, k)
  {
    hide Le16At, AvailSlot, SameIn;
    var at := (q.lastAvail as int + k) % TWO16;
    SameInReads(ram, was, q.avail.value, AvailSize(q));
    SlotBounds(q, at);
    assert AvailSlot(q.(lastAvail := at), at) == AvailSlot(q, at) by { SlotCursor(q, at); }
  }

  lemma SlotCursor(q: Queue, at: u16)
    requires q.avail.Some? && q.size > 0
    ensures AvailSlot(q.(lastAvail := at), at as int) == AvailSlot(q, at as int)
  {
  }

  lemma SameTable(ram: seq<u8>, was: seq<u8>, q: Queue, idx: u16)
    requires |ram| == |was| && InRam(q, |was|) && q.desc.Some? && SameIn(ram, was, q.desc.value, TableSize(q))
    ensures GetDesc(ram, q, idx) == GetDesc(was, q, idx)
  {
    hide Le16At, Le32At, Le64At;
    SameInReads(ram, was, q.desc.value, TableSize(q));
  }

  lemma PutUsedOutside(ram: seq<u8>, q: Queue, n: nat, id: u16, len: u32)
    requires Layout(|ram|, q) && UsedIdx(ram, q) as int == n % TWO16
    ensures SameOutside(PutUsed(ram, q, id, len), ram, q.used.value, UsedSize(q))
  {
    hide Le16At, UsedElem, Le16;
    SlotOfIndex(|ram|, q, n);
    SlotBounds(q, n);
  }

  /** The used ring lists these elements from position `u` on. */
  ghost predicate Lists(ram: seq<u8>, q: Queue, u: nat, dues: seq<Used>)
    requires Layout(|ram|, q)
  {
    forall i :: 0 <= i < |dues| ==> UsedAt(ram, q, u + i) == dues[i]
  }

  /** Publishing one more element, up to a full ring of them, keeps the earlier ones. */
  lemma ListsNext(ram: seq<u8>, q: Queue, u: nat, dues: seq<Used>, id: u16, len: u32)
    requires Layout(|ram|, q) && UsedIdx(ram, q) as int == (u + |dues|) % TWO16
    requires |dues| < q.size as int && Lists(ram, q, u, dues)
    ensures var out := PutUsed(ram, q, id, len);
            && Lists(out, q, u, dues + [Used(id as u32, len)])
            && UsedIdx(out, q) as int == (u + |dues| + 1) % TWO16
            && SameOutside(out, ram, q.used.value, UsedSize(q))
  {
    hide PutUsed, UsedAt, UsedIdx, At, UsedElem, SameOutside;
    var n := u + |dues|;
    FinishIndices(ram, q, n, id, len);
    ElemReads(PutUsed(ram, q, id, len), q, n, id, len);
    PutUsedOutside(ram, q, n, id, len);
    forall i | 0 <= i < |dues| ensures UsedAt(PutUsed(ram, q, id, len), q, u + i) == dues[i] {
      FinishKeepsUsed(ram, q, n, id, len, u + i);
    }
  }

  /** The queue with the device's cursor `k` heads further on. */
  function CursorAt(q: Queue, k: nat): Queue {
    q.(lastAvail := (q.lastAvail as int + k) % TWO16)
  }

  /** While the available ring stays as it was, virtio_get_avail hands out the pending heads one by one, then nothing. */
  lemma AvailOffers(was: seq<u8>, now: seq<u8>, q: Queue, k: nat)
    requires |now| == |was| && Layout(|was|, q) && SameIn(now, was, q.avail.value, AvailSize(q))
    requires k <= Pending(was, q)
    ensures k < Pending(was, q) ==> GetAvail(now, CursorAt(q, k)) == (Some(Head(was, q, k)), CursorAt(q, k + 1))
    ensures k == Pending(was, q) ==>
              GetAvail(now, CursorAt(q, k)) == (None, CursorAt(q, k)) && CursorAt(q, k).lastAvail == AvailIdx(now, CursorAt(q, k))
  {
    hide SameIn, AvailIdx, AvailSlot, Head, Le16At;
    SameHead(now, was, q, k);
    PendingLeft(was, q, k);
    CursorReads(now, q, k);
  }

  /** The cursor meets the driver's index exactly after the pending heads. */
  lemma PendingLeft(was: seq<u8>, q: Queue, k: nat)
    requires Layout(|was|, q) && k <= Pending(was, q)
    ensures CursorAt(q, k).lastAvail == AvailIdx(was, q) <==> k == Pending(was, q)
    ensures (CursorAt(q, k).lastAvail as int + 1) % TWO16 == CursorAt(q, k + 1).lastAvail as int
  {
    hide AvailIdx;
    var last, n := q.lastAvail as int, Pending(was, q);
    PendingSum(last, AvailIdx(was, q) as int, n);
    ModSame(last + k, last + n, TWO16);
    ModNext(last + k, TWO16);
  }

  /** What the indices say is pending is what has been posted and not taken. */
  lemma PendingCount(s: Sys)
    requires Inv(s)
    ensures Pending(s.ram, s.q) == |s.posted| - |s.taken|
  {
    hide AvailHolds, UsedHolds, AvailIdx, UsedIdx;
    var a, b := |s.posted|, |s.taken|;
    ModGap(b, a, TWO16);
  }

  lemma PendingSum(last: nat, idx: nat, n: nat)
    requires last < TWO16 && idx < TWO16 && n == (idx - last) % TWO16
    ensures (last + n) % TWO16 == idx
  {
  }

  lemma CursorReads(ram: seq<u8>, q: Queue, k: nat)
    requires Layout(|ram|, q)
    ensures var c := CursorAt(q, k);
            && Layout(|ram|, c) && AvailIdx(ram, c) == AvailIdx(ram, q)
            && Head(ram, c, 0) == Le16At(ram, AvailSlot(c, c.lastAvail as int))
  {
    hide Le16At;
  }

  /** The device's cursor plays no part in reading descriptors or publishing heads. */
  lemma CursorUnread(ram: seq<u8>, q: Queue, c: u16, idx: u16, id: u16, len: u32)
    requires InRam(q, |ram|)
    ensures InRam(q.(lastAvail := c), |ram|)
    ensures GetDesc(ram, q.(lastAvail := c), idx) == GetDesc(ram, q, idx)
    ensures PutUsed(ram, q.(lastAvail := c), id, len) == PutUsed(ram, q, id, len)
  {
    hide Le16At, Le32At, Le64At, Blit, UsedElem;
  }
}
