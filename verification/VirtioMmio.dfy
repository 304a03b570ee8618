/** The virtio-mmio transport of devices/transport/virtio_mmio.c (Virtio 1.2, section 4.2.2):
    queue registers written in 32-bit halves, and ring pointers cached at each write.
 */
module VirtioMmio {
  import opened Bytes
  import opened Options
  import opened Virtqueue

  const QUEUE_SEL: u64 := 0x030
  const QUEUE_NUM: u64 := 0x038
  const QUEUE_READY: u64 := 0x044
  const STATUS: u64 := 0x070
  const DESC_LOW: u64 := 0x080
  const DESC_HIGH: u64 := 0x084
  const AVAIL_LOW: u64 := 0x090
  const AVAIL_HIGH: u64 := 0x094
  const USED_LOW: u64 := 0x0A0
  const USED_HIGH: u64 := 0x0A4

  const MAX_QUEUES: nat := 16

  /** The transport registers that steer the queues. */
  datatype Regs = Regs(queueSel: int, status: u32, queues: seq<Queue>)

  /** Guest RAM as the device sees it: `size` bytes at guest address `base`. */
  datatype Window = Window(base: u64, size: nat)
  {
    predicate Valid() { base as int + size < TWO64 }

    /** `n` bytes at guest address `a` lie in guest RAM. */
    predicate Holds(a: u64, n: nat) { base <= a && a as int + n <= base as int + size }
  }

  /** Conversion of a 64-bit value to C `int`. */
  function ToInt(v: u64): int {
    var w := v % 0x1_0000_0000;
    if w < 0x8000_0000 then w else w - 0x1_0000_0000
  }

  /** The caching condition for a ring: its first four bytes pass the 64-bit bounds test. */
  predicate RingPasses(w: Window, a: u64) {
    w.base <= a && (a as int + 4) % TWO64 <= w.base as int + w.size
  }

  /** A ring is cached exactly when its first four bytes lie in guest RAM, or run past the top of the address space to an
      end not above RAM's. */
  lemma PassesExactly(w: Window, a: u64)
    requires w.Valid()
    ensures RingPasses(w, a) <==>
              w.Holds(a, 4) || (w.base <= a && a as int + 4 >= TWO64 && a as int + 4 - TWO64 <= w.base as int + w.size)
  {
    assert (a as int + 4) % TWO64 == if a as int + 4 < TWO64 then a as int + 4 else a as int + 4 - TWO64;
  }

  function SetDesc(w: Window, q: Queue, a: u64): Queue {
    q.(descAddr := a, desc := if w.base <= a && (a as int) < w.base as int + w.size then Some((a - w.base) as nat) else q.desc)
  }

  function SetAvail(w: Window, q: Queue, a: u64): Queue {
    q.(availAddr := a, avail := if RingPasses(w, a) then Some((a - w.base) as nat) else q.avail)
  }

  function SetUsed(w: Window, q: Queue, a: u64): Queue {
    q.(usedAddr := a, used := if RingPasses(w, a) then Some((a - w.base) as nat) else q.used)
  }

  /** An address register keeps what is written; the pointer behind it moves only to addresses that pass: for the
      descriptor table those in guest RAM, for the rings those of `PassesExactly`. */
  lemma PointersMove(w: Window, q: Queue, a: u64)
    ensures SetDesc(w, q, a) == q.(descAddr := a, desc := if w.Holds(a, 1) then Some((a - w.base) as nat) else q.desc)
    ensures SetAvail(w, q, a) == q.(availAddr := a, avail := if RingPasses(w, a) then Some((a - w.base) as nat) else q.avail)
    ensures SetUsed(w, q, a) == q.(usedAddr := a, used := if RingPasses(w, a) then Some((a - w.base) as nat) else q.used)
  {
  }

  /** Queue selection is a signed index that the source uses unchecked in some cases. */
  predicate Selects(r: Regs, numQueues: nat, offset: u64) {
    && (offset in {DESC_LOW, DESC_HIGH, AVAIL_LOW, AVAIL_HIGH, USED_LOW, USED_HIGH} ==> 0 <= r.queueSel < |r.queues|)
    && (offset in {QUEUE_NUM, QUEUE_READY} && r.queueSel < numQueues ==> 0 <= r.queueSel)
  }

  /** The effect of virtio_mmio_write on these registers. */
  function Write(w: Window, numQueues: nat, r: Regs, offset: u64, v: u64): (r': Regs)
    requires numQueues <= |r.queues| && Selects(r, numQueues, offset)
    ensures |r'.queues| == |r.queues|
  {
    if offset == QUEUE_SEL then r.(queueSel := ToInt(v))
    else if offset == QUEUE_NUM then
      if r.queueSel < numQueues then WithSelected(r, Selected(r).(size := v % 0x1_0000)) else r
    else if offset == QUEUE_READY then
      if r.queueSel < numQueues then WithSelected(r, Selected(r).(ready := v % 2 == 1)) else r
    else if offset == STATUS then
      if v == 0 && r.status != 0 then Regs(r.queueSel, 0, seq(|r.queues|, _ => ZERO_QUEUE))
      else r.(status := v % 0x1_0000_0000)
    else if offset == DESC_LOW then WithSelected(r, SetDesc(w, Selected(r), SetLow(Selected(r).descAddr, v)))
    else if offset == DESC_HIGH then WithSelected(r, SetDesc(w, Selected(r), SetHigh(Selected(r).descAddr, v)))
    else if offset == AVAIL_LOW then WithSelected(r, SetAvail(w, Selected(r), SetLow(Selected(r).availAddr, v)))
    else if offset == AVAIL_HIGH then WithSelected(r, SetAvail(w, Selected(r), SetHigh(Selected(r).availAddr, v)))
    else if offset == USED_LOW then WithSelected(r, SetUsed(w, Selected(r), SetLow(Selected(r).usedAddr, v)))
    else if offset == USED_HIGH then WithSelected(r, SetUsed(w, Selected(r), SetHigh(Selected(r).usedAddr, v)))
    else r
  }

  function Selected(r: Regs): Queue
    requires 0 <= r.queueSel < |r.queues|
  {
    r.queues[r.queueSel]
  }

  function WithSelected(r: Regs, q: Queue): Regs
    requires 0 <= r.queueSel < |r.queues|
  {
    r.(queues := r.queues[r.queueSel := q])
  }

  // ---- Cached pointers ----------------------------------------------------

  /** A queue address that lies in guest RAM has its pointer cached as that address's RAM offset. */
  predicate Agrees(w: Window, q: Queue) {
    && (w.Holds(q.descAddr, 1) ==> q.desc == Some((q.descAddr - w.base) as nat))
    && (w.Holds(q.availAddr, 4) ==> q.avail == Some((q.availAddr - w.base) as nat))
    && (w.Holds(q.usedAddr, 4) ==> q.used == Some((q.usedAddr - w.base) as nat))
  }

  ghost predicate AllAgree(w: Window, r: Regs) {
    forall i :: 0 <= i < |r.queues| ==> Agrees(w, r.queues[i])
  }

  function InitRegs(): (r: Regs) {
    Regs(0, 0, seq(MAX_QUEUES, _ => ZERO_QUEUE))
  }

  ghost predicate LegalWrites(w: Window, numQueues: nat, r: Regs, ws: seq<(u64, u64)>)
    requires numQueues <= |r.queues|
    decreases |ws|
  {
    ws != [] ==> Selects(r, numQueues, ws[0].0) && LegalWrites(w, numQueues, Write(w, numQueues, r, ws[0].0, ws[0].1), ws[1..])
  }

  ghost function Writes(w: Window, numQueues: nat, r: Regs, ws: seq<(u64, u64)>): Regs
    requires numQueues <= |r.queues| && LegalWrites(w, numQueues, r, ws)
    decreases |ws|
  {
    if ws == [] then r else Writes(w, numQueues, Write(w, numQueues, r, ws[0].0, ws[0].1), ws[1..])
  }

  lemma WriteAgrees(w: Window, numQueues: nat, r: Regs, offset: u64, v: u64)
    requires w.Valid() && w.base > 0 && numQueues <= |r.queues| && Selects(r, numQueues, offset)
    requires AllAgree(w, r)
    ensures AllAgree(w, Write(w, numQueues, r, offset, v))
  {
  }

  lemma {:induction false} WritesAgree(w: Window, numQueues: nat, r: Regs, ws: seq<(u64, u64)>)
    requires w.Valid() && w.base > 0 && numQueues <= |r.queues| && LegalWrites(w, numQueues, r, ws)
    requires AllAgree(w, r)
    ensures AllAgree(w, Writes(w, numQueues, r, ws))
    decreases |ws|
  {
    hide Write, AllAgree, Selects;
    if ws != [] {
      WriteAgrees(w, numQueues, r, ws[0].0, ws[0].1);
      WritesAgree(w, numQueues, Write(w, numQueues, r, ws[0].0, ws[0].1), ws[1..]);
    }
  }

  /** After every sequence of register writes the cached pointers agree with the addresses, for every
      RAM window exactly when its base is not zero (or it is empty): a zero base makes the reset
      address 0 look like RAM while its pointer is still unset. */
  lemma CachedPointersAgree(w: Window, numQueues: nat)
    requires w.Valid() && numQueues <= MAX_QUEUES
    ensures (forall ws :: LegalWrites(w, numQueues, InitRegs(), ws) ==> AllAgree(w, Writes(w, numQueues, InitRegs(), ws)))
       <==> w.base > 0 || w.size == 0
  {
    if w.base > 0 || w.size == 0 {
      forall ws | LegalWrites(w, numQueues, InitRegs(), ws) ensures AllAgree(w, Writes(w, numQueues, InitRegs(), ws)) {
        if w.base > 0 {
          WritesAgree(w, numQueues, InitRegs(), ws);
        }
      }
    } else {
      assert LegalWrites(w, numQueues, InitRegs(), []);
      assert !Agrees(w, Writes(w, numQueues, InitRegs(), []).queues[0]);
    }
  }

  // ---- The used ring's pointer and its address ------------------------------------

  /** virtio_put_used takes the element's place from the address and the index's from the pointer: they name the
      same ring when the pointer, if there is one, is the address's RAM offset. */
  predicate Tied(w: Window, q: Queue) {
    q.used.Some? ==> q.used.value == q.usedAddr as int - w.base as int
  }

  /** Whether, since the last reset, some write has left queue `i` with a used address that passes the caching
      test; `ever` is the answer so far. */
  ghost function EverPassed(w: Window, numQueues: nat, r: Regs, ws: seq<(u64, u64)>, i: nat, ever: bool): bool
    requires numQueues <= |r.queues| && i < |r.queues| && LegalWrites(w, numQueues, r, ws)
    decreases |ws|
  {
    if ws == [] then ever
    else
      var r1 := Write(w, numQueues, r, ws[0].0, ws[0].1);
      EverPassed(w, numQueues, r1, ws[1..], i, StillPassed(w, r, ws[0].0, ws[0].1, r1, i, ever))
  }

  /** The same across one write that takes `r` to `r1`. */
  predicate StillPassed(w: Window, r: Regs, offset: u64, v: u64, r1: Regs, i: nat, ever: bool)
    requires i < |r1.queues|
  {
    if offset == STATUS && v == 0 && r.status != 0 then false
    else ever || ((offset == USED_LOW || offset == USED_HIGH) && r.queueSel == i && RingPasses(w, r1.queues[i].usedAddr))
  }

  /** What the cached pointer remembers: an address that passed; the present one if that passes. */
  predicate Remembers(w: Window, q: Queue, ever: bool) {
    && (q.used.Some? <==> ever)
    && (q.used.Some? ==> w.base as int + q.used.value < TWO64 && RingPasses(w, w.base as int + q.used.value))
    && (q.used.Some? && RingPasses(w, q.usedAddr) ==> q.used.value == q.usedAddr as int - w.base as int)
  }

  lemma WriteRemembers(w: Window, numQueues: nat, r: Regs, offset: u64, v: u64, i: nat, ever: bool)
    requires w.Valid() && numQueues <= |r.queues| && Selects(r, numQueues, offset) && i < |r.queues|
    requires Remembers(w, r.queues[i], ever)
    ensures var r1 := Write(w, numQueues, r, offset, v);
            Remembers(w, r1.queues[i], StillPassed(w, r, offset, v, r1, i, ever))
  {
    hide SetLow, SetHigh, RingPasses;
    assert forall a: u64 :: RingPasses(w, a) ==> w.base <= a by { PassesAbove(w); }
  }

  lemma PassesAbove(w: Window)
    ensures forall a: u64 :: RingPasses(w, a) ==> w.base <= a
  {
  }

  lemma {:induction false} WritesRemember(w: Window, numQueues: nat, r: Regs, ws: seq<(u64, u64)>, i: nat, ever: bool)
    requires w.Valid() && numQueues <= |r.queues| && i < |r.queues| && LegalWrites(w, numQueues, r, ws)
    requires Remembers(w, r.queues[i], ever)
    ensures |Writes(w, numQueues, r, ws).queues| == |r.queues|
    ensures Remembers(w, Writes(w, numQueues, r, ws).queues[i], EverPassed(w, numQueues, r, ws, i, ever))
    decreases |ws|
  {
    hide Write, Remembers, Selects, StillPassed;
    if ws != [] {
      WriteRemembers(w, numQueues, r, ws[0].0, ws[0].1, i, ever);
      var r1 := Write(w, numQueues, r, ws[0].0, ws[0].1);
      WritesRemember(w, numQueues, r1, ws[1..], i, StillPassed(w, r, ws[0].0, ws[0].1, r1, i, ever));
    }
  }

  /** Over every sequence of register writes, a queue's used pointer and used address agree exactly when no address
      since the last reset has passed the caching test or the present one does. */
  lemma UsedTiedExactly(w: Window, numQueues: nat, ws: seq<(u64, u64)>, i: nat)
    requires w.Valid() && numQueues <= MAX_QUEUES && i < MAX_QUEUES && LegalWrites(w, numQueues, InitRegs(), ws)
    ensures |Writes(w, numQueues, InitRegs(), ws).queues| == MAX_QUEUES
    ensures var q := Writes(w, numQueues, InitRegs(), ws).queues[i];
            Tied(w, q) <==> !EverPassed(w, numQueues, InitRegs(), ws, i, false) || RingPasses(w, q.usedAddr)
  {
    hide RingPasses, Writes, LegalWrites, EverPassed;
    WritesRemember(w, numQueues, InitRegs(), ws, i, false);
  }

  /** The two halves of an address may be written in either order. */
  lemma HalvesCommute(a: u64, lo: u64, hi: u64)
    requires lo < 0x1_0000_0000 && hi < 0x1_0000_0000
    ensures SetHigh(SetLow(a, lo), hi) == SetLow(SetHigh(a, hi), lo)
    ensures SetHigh(SetLow(a, lo), hi) as int == hi as int * 0x1_0000_0000 + lo as int
  {
    WordsOf(a / 0x1_0000_0000, lo as nat);
    WordsOf(hi as nat, a % 0x1_0000_0000);
  }

  /** A driver's writes that set up queue `i`: its number, its size, three addresses in halves, and ready. */
  function Setup(i: u16, size: u16, desc: u64, avail: u64, used: u64): seq<(u64, u64)> {
    [(0x30, i as u64), (0x38, size as u64),
     (0x80, desc % 0x1_0000_0000), (0x84, desc / 0x1_0000_0000),
     (0x90, avail % 0x1_0000_0000), (0x94, avail / 0x1_0000_0000),
     (0xA0, used % 0x1_0000_0000), (0xA4, used / 0x1_0000_0000), (0x44, 1)]
  }

  /** Where the queue that is set up points, given where it pointed. */
  predicate PointsTo(w: Window, q: Queue, size: u16, desc: u64, avail: u64, used: u64) {
    && q.size == size && q.ready && q.descAddr == desc && q.availAddr == avail && q.usedAddr == used
    && (w.Holds(desc, 1) ==> q.desc == Some((desc - w.base) as nat))
    && (w.Holds(avail, 4) ==> q.avail == Some((avail - w.base) as nat))
    && (w.Holds(used, 4) ==> q.used == Some((used - w.base) as nat))
  }

  /** `rs` are the states that the writes pass through. */
  ghost predicate Path(w: Window, numQueues: nat, rs: seq<Regs>, ws: seq<(u64, u64)>) {
    && |rs| == |ws| + 1
    && (forall k :: 0 <= k < |rs| ==> numQueues <= |rs[k].queues|)
    && forall k :: 0 <= k < |ws| ==> Selects(rs[k], numQueues, ws[k].0) && rs[k + 1] == Write(w, numQueues, rs[k], ws[k].0, ws[k].1)
  }

  lemma {:induction false} PathEnds(w: Window, numQueues: nat, rs: seq<Regs>, ws: seq<(u64, u64)>)
    requires Path(w, numQueues, rs, ws)
    ensures LegalWrites(w, numQueues, rs[0], ws) && Writes(w, numQueues, rs[0], ws) == rs[|ws|]
    decreases |ws|
  {
    hide Write, Selects;
    if ws != [] {
      assert forall k :: 0 <= k < |ws| - 1 ==> rs[1..][k] == rs[k + 1] && ws[1..][k] == ws[k + 1];
      PathEnds(w, numQueues, rs[1..], ws[1..]);
    }
  }

  /** The two halves of an address register, while queue `i` is selected. */
  lemma AddressWritten(w: Window, numQueues: nat, r: Regs, low: u64, a: u64) returns (mid: Regs, end: Regs)
    requires w.Valid() && numQueues <= |r.queues| && 0 <= r.queueSel < |r.queues| && low in {0x80, 0x90, 0xA0}
    ensures Selects(r, numQueues, low) && mid == Write(w, numQueues, r, low, a % 0x1_0000_0000)
    ensures numQueues <= |mid.queues| && Selects(mid, numQueues, low + 4)
    ensures end == Write(w, numQueues, mid, low + 4, a / 0x1_0000_0000)
    ensures |end.queues| == |r.queues| && end == r.(queues := r.queues[r.queueSel := end.queues[r.queueSel]])
    ensures var p, q := r.queues[r.queueSel], end.queues[r.queueSel];
            && (low == 0x80 ==> q == p.(descAddr := a, desc := q.desc) && (w.Holds(a, 1) ==> q.desc == Some((a - w.base) as nat)))
            && (low == 0x90 ==> q == p.(availAddr := a, avail := q.avail) && (w.Holds(a, 4) ==> q.avail == Some((a - w.base) as nat)))
            && (low == 0xA0 ==> q == p.(usedAddr := a, used := q.used) && (w.Holds(a, 4) ==> q.used == Some((a - w.base) as nat)))
  {
    hide SetLow, SetHigh;
    var p := r.queues[r.queueSel];
    HalvesMeet(a, if low == 0x80 then p.descAddr else if low == 0x90 then p.availAddr else p.usedAddr);
    mid := Write(w, numQueues, r, low, a % 0x1_0000_0000);
    end := Write(w, numQueues, mid, low + 4, a / 0x1_0000_0000);
  }

  lemma SizeWritten(w: Window, numQueues: nat, r: Regs, i: u16, size: u16) returns (mid: Regs, end: Regs)
    requires (i as int) < numQueues <= |r.queues|
    ensures Selects(r, numQueues, 0x30) && mid == Write(w, numQueues, r, 0x30, i as u64)
    ensures numQueues <= |mid.queues| && Selects(mid, numQueues, 0x38) && end == Write(w, numQueues, mid, 0x38, size as u64)
    ensures end == r.(queueSel := i as int, queues := r.queues[i := r.queues[i].(size := size)])
  {
    mid := Write(w, numQueues, r, 0x30, i as u64);
    end := Write(w, numQueues, mid, 0x38, size as u64);
  }

  lemma ReadyWritten(w: Window, numQueues: nat, r: Regs) returns (end: Regs)
    requires numQueues <= |r.queues| && 0 <= r.queueSel < numQueues
    ensures Selects(r, numQueues, 0x44) && end == Write(w, numQueues, r, 0x44, 1)
    ensures end == r.(queues := r.queues[r.queueSel := r.queues[r.queueSel].(ready := true)])
  {
    end := Write(w, numQueues, r, 0x44, 1);
  }

  lemma SetupPath(w: Window, numQueues: nat, r: Regs, i: u16, size: u16, desc: u64, avail: u64, used: u64) returns (rs: seq<Regs>)
    requires w.Valid() && (i as int) < numQueues <= |r.queues|
    ensures Path(w, numQueues, rs, Setup(i, size, desc, avail, used)) && rs[0] == r
    ensures |rs[9].queues| == |r.queues| && rs[9].status == r.status
    ensures forall j :: 0 <= j < |r.queues| && j != i as int ==> rs[9].queues[j] == r.queues[j]
    ensures PointsTo(w, rs[9].queues[i], size, desc, avail, used) && rs[9].queues[i].lastAvail == r.queues[i].lastAvail
  {
    hide Write, Selects;
    var r1, r2 := SizeWritten(w, numQueues, r, i, size);
    var r3, r4 := AddressWritten(w, numQueues, r2, 0x80, desc);
    var r5, r6 := AddressWritten(w, numQueues, r4, 0x90, avail);
    var r7, r8 := AddressWritten(w, numQueues, r6, 0xA0, used);
    hide Window.Holds;
    var r9 := ReadyWritten(w, numQueues, r8);
    rs := [r, r1, r2, r3, r4, r5, r6, r7, r8, r9];
  }

  /** After these writes the queue has that size and those addresses, with the rings' RAM offsets cached, is ready,
      and no other queue has changed. */
  lemma SetupReaches(w: Window, numQueues: nat, r: Regs, i: u16, size: u16, desc: u64, avail: u64, used: u64)
    requires w.Valid() && (i as int) < numQueues <= |r.queues|
    ensures var ws := Setup(i, size, desc, avail, used);
            && LegalWrites(w, numQueues, r, ws)
            && var r1 := Writes(w, numQueues, r, ws);
               && |r1.queues| == |r.queues| && r1.status == r.status
               && PointsTo(w, r1.queues[i], size, desc, avail, used) && r1.queues[i].lastAvail == r.queues[i].lastAvail
               && forall j :: 0 <= j < |r.queues| && j != i as int ==> r1.queues[j] == r.queues[j]
  {
    hide Path, PointsTo, Writes, LegalWrites, Setup;
    var rs := SetupPath(w, numQueues, r, i, size, desc, avail, used);
    PathEnds(w, numQueues, rs, Setup(i, size, desc, avail, used));
    SetupLength(i, size, desc, avail, used);
  }

  /** Bit 0 of QueueReady decides, and no other queue or field changes. */
  lemma ReadyBit(w: Window, numQueues: nat, r: Regs, v: u64)
    requires 0 <= r.queueSel < numQueues <= |r.queues|
    ensures Write(w, numQueues, r, 0x44, v)
         == r.(queues := r.queues[r.queueSel := r.queues[r.queueSel].(ready := v as int % 2 == 1)])
  {
  }

  lemma SetupLength(i: u16, size: u16, desc: u64, avail: u64, used: u64)
    ensures |Setup(i, size, desc, avail, used)| == 9
  {
  }

  // ---- The device object --------------------------------------------------

  class VirtioDevice {
    const ram: array<u8>
    const ramBase: u64
    const numQueues: nat
    const queues: array<Queue>
    var queueSel: int
    var status: u32

    constructor (ram: array<u8>, ramBase: u64, numQueues: nat)
      requires numQueues <= MAX_QUEUES
      ensures this.ram == ram && this.ramBase == ramBase && this.numQueues == numQueues
      ensures fresh(queues) && State() == InitRegs()
    {
      this.ram, this.ramBase, this.numQueues := ram, ramBase, numQueues;
      queues := new Queue[MAX_QUEUES](_ => ZERO_QUEUE);
      queueSel, status := 0, 0;
    }

    function State(): Regs
      reads this, queues
    {
      Regs(queueSel, status, queues[..])
    }

    function RamWindow(): Window {
      Window(ramBase, ram.Length)
    }

    /** The queue cases of virtio_mmio_write: each changes the selected queue in place. */
    method MmioWrite(offset: u64, value: u64)
      requires numQueues <= queues.Length && Selects(State(), numQueues, offset)
      modifies this`queueSel, this`status, queues
      ensures State() == Write(RamWindow(), numQueues, old(State()), offset, value)
      ensures old(AllAgree(RamWindow(), State())) && RamWindow().Valid() && ramBase > 0 ==> AllAgree(RamWindow(), State())
    {
      ghost var was := State();
      if offset == QUEUE_SEL {
        queueSel := ToInt(value);
      } else if offset == QUEUE_NUM {
        if queueSel < numQueues {
          queues[queueSel] := queues[queueSel].(size := value % 0x1_0000);
        }
      } else if offset == QUEUE_READY {
        if queueSel < numQueues {
          queues[queueSel] := queues[queueSel].(ready := value % 2 == 1);
        }
      } else if offset == STATUS {
        var old_ := status;
        status := value % 0x1_0000_0000;
        if value == 0 && old_ != 0 {
          forall i | 0 <= i < queues.Length {
            queues[i] := ZERO_QUEUE;
          }
        }
      } else if offset == DESC_LOW || offset == DESC_HIGH {
        var q := queues[queueSel];
        var a := if offset == DESC_LOW then SetLow(q.descAddr, value) else SetHigh(q.descAddr, value);
        queues[queueSel] := SetDesc(RamWindow(), q, a);
      } else if offset == AVAIL_LOW || offset == AVAIL_HIGH {
        var q := queues[queueSel];
        var a := if offset == AVAIL_LOW then SetLow(q.availAddr, value) else SetHigh(q.availAddr, value);
        queues[queueSel] := SetAvail(RamWindow(), q, a);
      } else if offset == USED_LOW || offset == USED_HIGH {
        var q := queues[queueSel];
        var a := if offset == USED_LOW then SetLow(q.usedAddr, value) else SetHigh(q.usedAddr, value);
        queues[queueSel] := SetUsed(RamWindow(), q, a);
      }
      if old(AllAgree(RamWindow(), State())) && RamWindow().Valid() && ramBase > 0 {
        WriteAgrees(RamWindow(), numQueues, was, offset, value);
      }
    }

    /** virtio_get_desc */
    method GetDesc(queueIdx: nat, idx: u16) returns (d: Option<Desc>)
      requires queueIdx < queues.Length && InRam(queues[queueIdx], ram.Length)
      ensures d == if queueIdx >= numQueues then None else Virtqueue.GetDesc(ram[..], queues[queueIdx], idx)
      ensures queueIdx < numQueues ==> Shows(ram[..], queues[queueIdx], idx, d)
    {
      hide Shows;
      if queueIdx >= numQueues { return None; }
      d := Virtqueue.GetDesc(ram[..], queues[queueIdx], idx);
      EntryShows(ram[..], queues[queueIdx], idx);
    }

    /** virtio_get_avail */
    method GetAvail(queueIdx: nat) returns (head: Option<u16>)
      requires queueIdx < queues.Length && InRam(queues[queueIdx], ram.Length)
      modifies queues
      ensures queueIdx >= numQueues ==> head == None && queues[..] == old(queues[..])
      ensures queueIdx < numQueues ==>
                && head == Virtqueue.GetAvail(ram[..], old(queues[queueIdx])).0
                && queues[..] == old(queues[..])[queueIdx := Virtqueue.GetAvail(ram[..], old(queues[queueIdx])).1]
    {
      head := None;
      if queueIdx >= numQueues { return; }
      var q := queues[queueIdx];
      if !q.ready || q.avail.None? { return; }
      var availIdx := AvailIdx(ram[..], q);
      if q.lastAvail == availIdx { return; }
      head := Some(Le16At(ram[..], AvailSlot(q, q.lastAvail as int)));
      queues[queueIdx] := q.(lastAvail := (q.lastAvail as int + 1) % TWO16);
    }

    /** virtio_put_used: the element's address comes from `used_addr`, the index's from the cached
        pointer; they name the same ring when the two agree. */
    method PutUsed(queueIdx: nat, id: u16, len: u32)
      requires queueIdx < queues.Length && InRam(queues[queueIdx], ram.Length)
      requires Tied(RamWindow(), queues[queueIdx])
      modifies ram
      ensures ram[..] == if queueIdx >= numQueues then old(ram[..]) else Virtqueue.PutUsed(old(ram[..]), queues[queueIdx], id, len)
    {
      hide Blit, Le16At, Le16, UsedElem;
      if queueIdx >= numQueues { return; }
      var q := queues[queueIdx];
      if q.used.None? { return; }
      var usedIdx := UsedIdx(ram[..], q);
      var ringIdx := usedIdx % q.size;
      Store(ram, (q.usedAddr as int - ramBase as int) + 4 + ringIdx as int * 8, UsedElem(id, len));
      Store(ram, q.used.value + 2, Le16((usedIdx as int + 1) % TWO16));
    }
  }
}
