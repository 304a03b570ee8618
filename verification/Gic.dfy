/** The GICv3 distributor of core/irq/gic.c (Arm IHI 0069): priority selection over 1024 interrupts,
    the pending/active state machine, and its 32-bit register views.
 */
module Gic {
  import opened Bytes
  import opened Bits
  import opened Options

  const MAX_IRQ: nat := 1024
  const SPI_BASE: nat := 32
  const SPURIOUS: nat := 1023
  const MAX_CPU: nat := 8

  datatype IrqState = Inactive | Pending | Active | ActivePending

  datatype Irq = Irq(state: IrqState, priority: u8, targets: u8, enabled: bool, route: u64)

  // ---- Acknowledge and drain -------------------------------------------------

  /** The CPUs an SPI goes to; with affinity routing its route register decides. */
  function Targets(p: Irq, are: bool): nat {
    if are then (if p.route == 0 then 1 else Pow2(p.route % 8)) else p.targets
  }

  /** Whether the scan of gic_acknowledge_irq considers interrupt `i` for this CPU at all. */
  predicate Eligible(irq: seq<Irq>, i: nat, are: bool, cpu: nat) {
    && i < |irq| && irq[i].state == Pending && irq[i].enabled && irq[i].priority < 0xFF
    && (i < SPI_BASE || Bit(Targets(irq[i], are), cpu))
  }

  /** Delivery order: by priority, then by number. */
  predicate Before(irq: seq<Irq>, i: nat, j: nat)
    requires i < |irq| && j < |irq|
  {
    irq[i].priority < irq[j].priority || (irq[i].priority == irq[j].priority && i < j)
  }

  /** `r` is the first in delivery order among the eligible interrupts below `n`. */
  ghost predicate First(irq: seq<Irq>, are: bool, cpu: nat, n: nat, r: nat) {
    && n <= |irq| && r < n && Eligible(irq, r, are, cpu)
    && forall j :: 0 <= j < n && j != r && Eligible(irq, j, are, cpu) ==> Before(irq, r, j)
  }

  ghost predicate NoneEligible(irq: seq<Irq>, are: bool, cpu: nat, n: nat) {
    forall j :: 0 <= j < n ==> !Eligible(irq, j, are, cpu)
  }

  /** The scan's cursor: what best_irq and best_prio hold after the first `n` interrupts. */
  ghost predicate Scanned(irq: seq<Irq>, are: bool, cpu: nat, n: nat, bestIrq: nat, bestPrio: u8) {
    && (NoneEligible(irq, are, cpu, n) ==> bestIrq == SPURIOUS && bestPrio == 0xFF)
    && (!NoneEligible(irq, are, cpu, n) ==> First(irq, are, cpu, n, bestIrq) && bestPrio == irq[bestIrq].priority)
  }

  lemma ScanStep(irq: seq<Irq>, are: bool, cpu: nat, n: nat, bestIrq: nat, bestPrio: u8)
    requires n < |irq| && Scanned(irq, are, cpu, n, bestIrq, bestPrio)
    ensures Eligible(irq, n, are, cpu) && irq[n].priority < bestPrio ==> Scanned(irq, are, cpu, n + 1, n, irq[n].priority)
    ensures !(Eligible(irq, n, are, cpu) && irq[n].priority < bestPrio) ==> Scanned(irq, are, cpu, n + 1, bestIrq, bestPrio)
  {
    hide Eligible;
    if !NoneEligible(irq, are, cpu, n) {
      assert !NoneEligible(irq, are, cpu, n + 1);
    }
    if Eligible(irq, n, are, cpu) {
      assert !NoneEligible(irq, are, cpu, n + 1);
      EligiblePriority(irq, n, are, cpu);
    }
  }

  lemma EligiblePriority(irq: seq<Irq>, i: nat, are: bool, cpu: nat)
    requires Eligible(irq, i, are, cpu)
    ensures i < |irq| && irq[i].priority < 0xFF && irq[i].state == Pending
  {
  }

  /** The answer to an acknowledge: the first eligible interrupt, or the spurious number. */
  ghost predicate Answers(irq: seq<Irq>, are: bool, cpu: nat, r: nat) {
    && (NoneEligible(irq, are, cpu, MAX_IRQ) ==> r == SPURIOUS)
    && (!NoneEligible(irq, are, cpu, MAX_IRQ) ==> First(irq, are, cpu, MAX_IRQ, r))
  }

  /** Which interrupts a CPU can be given: pending, enabled, above the lowest priority, and, for an SPI, sent to it: by
      the low three bits of its route with affinity routing, by its target byte without. */
  lemma EligibleExactly(irq: seq<Irq>, i: nat, are: bool, cpu: nat)
    requires i < |irq| && cpu < 8
    ensures i < 32 ==>
              (Eligible(irq, i, are, cpu) <==> irq[i].state == Pending && irq[i].enabled && irq[i].priority < 255)
    ensures i >= 32 && are ==>
              (Eligible(irq, i, are, cpu) <==>
                 irq[i].state == Pending && irq[i].enabled && irq[i].priority < 255 && cpu == irq[i].route as nat % 8)
    ensures i >= 32 && !are ==>
              (Eligible(irq, i, are, cpu) <==>
                 irq[i].state == Pending && irq[i].enabled && irq[i].priority < 255 && Bit(irq[i].targets as nat, cpu))
  {
    hide Bit;
    var route := irq[i].route as nat % 8;
    BitPow2(route, cpu);
    assert Pow2(0) == 1;
  }

  /** Acknowledged interrupts become active; nothing else changes. */
  ghost function Activated(irq: seq<Irq>, acked: seq<nat>): (r: seq<Irq>)
    ensures |r| == |irq|
    ensures forall i :: 0 <= i < |irq| ==> r[i] == if i in acked then irq[i].(state := Active) else irq[i]
  {
    seq(|irq|, i requires 0 <= i < |irq| => if i in acked then irq[i].(state := Active) else irq[i])
  }

  /** What draining delivers: everything eligible, up to the spurious number if that is itself eligible. */
  ghost predicate Delivered(irq: seq<Irq>, are: bool, cpu: nat, i: nat) {
    && |irq| == MAX_IRQ && Eligible(irq, i, are, cpu) && i != SPURIOUS
    && (Eligible(irq, SPURIOUS, are, cpu) ==> Before(irq, i, SPURIOUS))
  }

  // ---- Register views: definitions ---------------------------------------------

  const BANKS: nat := 32

  /** The three per-interrupt bits that registers show. */
  datatype View = PendingView | ActiveView | EnabledView

  /** ISENABLER, ICENABLER, ISPENDR, ICPENDR, ISACTIVER */
  datatype Op = SetEnable | ClearEnable | SetPending | ClearPending | SetActive

  predicate Has(view: View, p: Irq) {
    match view
    case PendingView => p.state == Pending || p.state == ActivePending
    case ActiveView => p.state == Active || p.state == ActivePending
    case EnabledView => p.enabled
  }

  /** The effect on one selected interrupt. */
  function Hit(op: Op, p: Irq): Irq {
    match op
    case SetEnable => p.(enabled := true)
    case ClearEnable => p.(enabled := false)
    case SetPending =>
      if p.state == Inactive then p.(state := Pending) else if p.state == Active then p.(state := ActivePending) else p
    case ClearPending =>
      if p.state == Pending then p.(state := Inactive) else if p.state == ActivePending then p.(state := Active) else p
    case SetActive =>
      if p.state == Inactive then p.(state := Active) else if p.state == Pending then p.(state := ActivePending) else p
  }

  /** `value & (1 << i)` with a 64-bit value and an `int` mask: bit 31's mask is sign-extended, so any
      higher bit of the value selects interrupt 31 of the bank as well. */
  predicate Selected(value: u64, i: nat) {
    if i < 31 then Bit(value, i) else value >= 0x8000_0000
  }

  /** The bank after the loop has looked at its first `n` interrupts. */
  function Written(irq: seq<Irq>, op: Op, reg: nat, value: u64, n: nat): (r: seq<Irq>)
    requires |irq| == MAX_IRQ && reg < BANKS && n <= 32
    ensures |r| == MAX_IRQ
    ensures forall k :: 0 <= k < MAX_IRQ ==>
              r[k] == if reg * 32 <= k < reg * 32 + n && Selected(value, k - reg * 32) then Hit(op, irq[k]) else irq[k]
  {
    seq(MAX_IRQ, k requires 0 <= k < MAX_IRQ =>
      if reg * 32 <= k < reg * 32 + n && Selected(value, k - reg * 32) then Hit(op, irq[k]) else irq[k])
  }

  function Ended(irq: seq<Irq>, n: nat): (r: seq<Irq>)
    requires |irq| == MAX_IRQ
    ensures |r| == MAX_IRQ
  {
    if n >= MAX_IRQ then irq
    else if irq[n].state == Active then irq[n := irq[n].(state := Inactive)]
    else if irq[n].state == ActivePending then irq[n := irq[n].(state := Pending)]
    else irq
  }

  /** The value that the read loop has built from the bank's first `n` interrupts. */
  function Read(irq: seq<Irq>, view: View, reg: nat, n: nat): nat
    requires |irq| == MAX_IRQ && reg < BANKS && n <= 32
  {
    if n == 0 then 0
    else
      var v := Read(irq, view, reg, n - 1);
      if Has(view, irq[reg * 32 + n - 1]) then Or(v, Pow2(n - 1)) else v
  }

  /** Where the register family of an operation starts; each family holds one 32-bit word per bank. */
  function Family(op: Op): nat {
    match op
    case SetEnable => 0x100
    case ClearEnable => 0x180
    case SetPending => 0x200
    case ClearPending => 0x280
    case SetActive => 0x300
  }

  /** The operation and bank that a written offset selects. */
  function DecodeWrite(offset: u64): (r: Option<(Op, nat)>)
    ensures r.Some? ==> r.value.1 < BANKS
  {
    if 0x100 <= offset < 0x180 then Some((SetEnable, (offset as int - 0x100) / 4))
    else if 0x180 <= offset < 0x200 then Some((ClearEnable, (offset as int - 0x180) / 4))
    else if 0x200 <= offset < 0x280 then Some((SetPending, (offset as int - 0x200) / 4))
    else if 0x280 <= offset < 0x300 then Some((ClearPending, (offset as int - 0x280) / 4))
    else if 0x300 <= offset < 0x380 then Some((SetActive, (offset as int - 0x300) / 4))
    else None
  }

  /** The property that a family shows when it is read. */
  function Shows(op: Op): View {
    match op
    case SetEnable => EnabledView
    case ClearEnable => EnabledView
    case SetPending => PendingView
    case ClearPending => PendingView
    case SetActive => ActiveView
  }

  /** Each bank of each family has its own word of the register map, and the map has no other words. */
  lemma DecodesExactly(offset: u64, op: Op, g: nat)
    requires g < BANKS
    ensures DecodeWrite(offset) == Some((op, g)) <==> Family(op) + 4 * g <= offset as nat < Family(op) + 4 * g + 4
    ensures DecodeWrite(offset).None? <==> offset < 0x100 || offset >= 0x380
  {
  }

  /** Byte `i` of a register value. */
  function ByteOf(v: u64, i: nat): u8 {
    if i == 0 then v % 0x100 else ByteOf(v / 0x100, i - 1)
  }

  /** IPRIORITYR: four priorities to a word; words past the last interrupt reach none. */
  function Prioritised(irq: seq<Irq>, reg: nat, value: u64, n: nat): (r: seq<Irq>)
    requires |irq| == MAX_IRQ && n <= 4
    ensures |r| == MAX_IRQ
    ensures forall k :: 0 <= k < MAX_IRQ ==>
              r[k] == if reg * 4 <= k < reg * 4 + n then irq[k].(priority := ByteOf(value, k - reg * 4)) else irq[k]
  {
    seq(MAX_IRQ, k requires 0 <= k < MAX_IRQ =>
      if reg * 4 <= k < reg * 4 + n then irq[k].(priority := ByteOf(value, k - reg * 4)) else irq[k])
  }

  const IPRIORITYR: u64 := 0x400
  const IPRIORITYR_END: u64 := 0x1400
  const IROUTER: u64 := 0x6000
  const IROUTER_END: u64 := 0x8000

  /** gicd_mmio_write on the interrupts' states, enables, priorities and routes. */
  function Stored(irq: seq<Irq>, offset: u64, value: u64): (r: seq<Irq>)
    requires |irq| == MAX_IRQ
    ensures |r| == MAX_IRQ
  {
    if IROUTER <= offset < IROUTER_END then
      var i := (offset - IROUTER) as int / 8; irq[i := irq[i].(route := value)]
    else
      match DecodeWrite(offset)
      case Some((op, g)) => Written(irq, op, g, value, 32)
      case None =>
        if IPRIORITYR <= offset < IPRIORITYR_END then Prioritised(irq, (offset - IPRIORITYR) as int / 4, value, 4) else irq
  }

  /** Outside the five families no write changes an interrupt's pending, active or enabled bit or its targets;
      outside the priority and route registers none changes a priority or a route. */
  lemma StoredKeeps(irq: seq<Irq>, offset: u64, value: u64, k: nat)
    requires |irq| == MAX_IRQ && k < MAX_IRQ
    ensures var p, r := irq[k], Stored(irq, offset, value)[k];
            && r.targets == p.targets
            && (DecodeWrite(offset).None? ==> r.state == p.state && r.enabled == p.enabled)
            && (!(IPRIORITYR <= offset < IPRIORITYR_END) ==> r.priority == p.priority)
            && (!(IROUTER <= offset < IROUTER_END) ==> r.route == p.route)
  {
    hide Selected, ByteOf;
  }

  /** An IROUTER write decides which CPU gets the interrupt, and nothing about any other interrupt. */
  lemma RouteDecides(irq: seq<Irq>, i: nat, value: u64, cpu: nat, j: nat)
    requires |irq| == MAX_IRQ && 32 <= i < MAX_IRQ && j < MAX_IRQ && cpu < 8
    ensures var now := Stored(irq, 0x6000 + 8 * i, value);
            && (Eligible(now, i, true, cpu) <==>
                  irq[i].state == Pending && irq[i].enabled && irq[i].priority < 255 && cpu == value as nat % 8)
            && (j != i ==> (Eligible(now, j, true, cpu) <==> Eligible(irq, j, true, cpu)))
            && now[j].priority == irq[j].priority
  {
    hide Bit;
    EligibleExactly(Stored(irq, 0x6000 + 8 * i, value), i, true, cpu);
  }

  /** Routing an interrupt and then acknowledging: no other CPU is given it, and the chosen one is if it is the most
      urgent of what that CPU could be given. */
  lemma RouteThenAcknowledge(irq: seq<Irq>, i: nat, value: u64, cpu: nat, r: nat)
    requires |irq| == MAX_IRQ && 32 <= i < SPURIOUS && cpu < 8
    requires Answers(Stored(irq, 0x6000 + 8 * i, value), true, cpu, r)
    ensures cpu != value as nat % 8 ==> r != i
    ensures (&& cpu == value as nat % 8 && irq[i].state == Pending && irq[i].enabled && irq[i].priority < 255
             && forall j :: 0 <= j < MAX_IRQ && j != i && Eligible(irq, j, true, cpu) ==> Before(irq, i, j)) ==> r == i
  {
    hide Eligible, Stored;
    var now := Stored(irq, 0x6000 + 8 * i, value);
    forall j | 0 <= j < MAX_IRQ
      ensures j != i ==> (Eligible(now, j, true, cpu) <==> Eligible(irq, j, true, cpu))
      ensures now[j].priority == irq[j].priority
    {
      RouteDecides(irq, i, value, cpu, j);
    }
    RouteDecides(irq, i, value, cpu, i);
  }

  lemma FourBytes(v: u64)
    ensures ByteOf(v, 0) as nat == v as nat % 0x100 && ByteOf(v, 1) as nat == v as nat / 0x100 % 0x100
    ensures ByteOf(v, 2) as nat == v as nat / 0x1_0000 % 0x100 && ByteOf(v, 3) as nat == v as nat / 0x100_0000 % 0x100
  {
    ByteShift(v, 0x100, 1);
    ByteShift(v, 0x1_0000, 2);
    ByteShift(v, 0x100_0000, 3);
  }

  /** Byte `i` after `i` shifts by a byte. */
  lemma ByteShift(v: u64, unit: nat, i: nat)
    requires (unit == 0x100 && i == 1) || (unit == 0x1_0000 && i == 2) || (unit == 0x100_0000 && i == 3)
    ensures ByteOf(v, i) as nat == v as nat / unit % 0x100
  {
    if i > 1 {
      ByteShift(v / 0x100, unit / 0x100, i - 1);
      assert v / 0x100 / (unit / 0x100) == v / unit;
    }
  }

  /** An IPRIORITYR word sets the priorities of four interrupts from its four bytes, lowest first. */
  lemma PriorityBytes(irq: seq<Irq>, reg: nat, value: u64)
    requires |irq| == MAX_IRQ && 4 * reg + 3 < MAX_IRQ
    ensures var now, v := Stored(irq, 0x400 + 4 * reg, value), value as nat;
            && now[4 * reg].priority as nat == v % 0x100
            && now[4 * reg + 1].priority as nat == v / 0x100 % 0x100
            && now[4 * reg + 2].priority as nat == v / 0x1_0000 % 0x100
            && now[4 * reg + 3].priority as nat == v / 0x100_0000 % 0x100
            && forall k :: 0 <= k < MAX_IRQ && k / 4 != reg ==> now[k] == irq[k]
  {
    hide ByteOf, Prioritised;
    FourBytes(value);
  }

  class Distributor {
    const irq: array<Irq>
    const numCpus: nat
    var are: bool

    constructor (numCpus: nat)
      requires numCpus <= MAX_CPU
      ensures fresh(irq) && irq.Length == MAX_IRQ && this.numCpus == numCpus && !are
      ensures forall i :: 0 <= i < MAX_IRQ ==> irq[i].state == Inactive && irq[i].priority == 0xA0 && irq[i].enabled == (i < 16)
    {
      this.numCpus, are := numCpus, false;
      irq := new Irq[MAX_IRQ](i => Irq(Inactive, 0xA0, if i < 16 then 0xFF else 0, i < 16, 0));
    }

    /** gic_eoi */
    method Eoi(n: nat)
      requires irq.Length == MAX_IRQ
      modifies irq
      ensures irq[..] == Ended(old(irq[..]), n)
    {
      if n >= MAX_IRQ { return; }
      if irq[n].state == Active {
        irq[n] := irq[n].(state := Inactive);
      } else if irq[n].state == ActivePending {
        irq[n] := irq[n].(state := Pending);
      }
    }

    /** A write of `value` to register `reg` of one family of gicd_mmio_write: every selected interrupt of the
        bank takes the operation. */
    method WriteRegister(op: Op, reg: nat, value: u64)
      requires irq.Length == MAX_IRQ && reg < BANKS
      modifies irq
      ensures irq[..] == Written(old(irq[..]), op, reg, value, 32)
    {
      ghost var was := irq[..];
      var i := 0;
      while i < 32
        invariant 0 <= i <= 32 && irq[..] == Written(was, op, reg, value, i)
      {
        var n := reg * 32 + i;
        if Selected(value, i) {
          irq[n] := Hit(op, irq[n]);
        }
        i := i + 1;
      }
    }

    /** A read of register `reg` of one family of gicd_mmio_read. */
    method ReadRegister(view: View, reg: nat) returns (val: nat)
      requires irq.Length == MAX_IRQ && reg < BANKS
      ensures val == Read(irq[..], view, reg, 32)
    {
      val := 0;
      var i := 0;
      while i < 32
        invariant 0 <= i <= 32 && val == Read(irq[..], view, reg, i)
      {
        if Has(view, irq[reg * 32 + i]) {
          val := Or(val, Pow2(i));
        }
        i := i + 1;
      }
    }

    /** The four priorities of an IPRIORITYR word. */
    method WritePriorities(reg: nat, value: u64)
      requires irq.Length == MAX_IRQ
      modifies irq
      ensures irq[..] == Prioritised(old(irq[..]), reg, value, 4)
    {
      hide ByteOf;
      ghost var was := irq[..];
      for i := 0 to 4
        invariant irq[..] == Prioritised(was, reg, value, i)
      {
        if reg * 4 + i < MAX_IRQ {
          irq[reg * 4 + i] := irq[reg * 4 + i].(priority := ByteOf(value, i));
        }
      }
    }

    /** gicd_mmio_write: routes, affinity routing, the five families of bits, and priorities. */
    method MmioWrite(offset: u64, value: u64)
      requires irq.Length == MAX_IRQ
      modifies this`are, irq
      ensures irq[..] == Stored(old(irq[..]), offset, value)
      ensures are == if offset == 0 then value as int / 16 % 2 == 1 else old(are)
    {
      hide Written, Prioritised;
      if IROUTER <= offset < IROUTER_END {
        var i := (offset - IROUTER) as int / 8;
        irq[i] := irq[i].(route := value);
      } else if offset == 0 {
        are := value as int / 16 % 2 == 1;
      } else if 0x100 <= offset < 0x180 {
        WriteRegister(SetEnable, (offset as int - 0x100) / 4, value);
      } else if 0x180 <= offset < 0x200 {
        WriteRegister(ClearEnable, (offset as int - 0x180) / 4, value);
      } else if 0x200 <= offset < 0x280 {
        WriteRegister(SetPending, (offset as int - 0x200) / 4, value);
      } else if 0x280 <= offset < 0x300 {
        WriteRegister(ClearPending, (offset as int - 0x280) / 4, value);
      } else if 0x300 <= offset < 0x380 {
        WriteRegister(SetActive, (offset as int - 0x300) / 4, value);
      } else if IPRIORITYR <= offset < IPRIORITYR_END {
        WritePriorities((offset - IPRIORITYR) as int / 4, value);
      }
    }

    /** The enable, pending and active cases of gicd_mmio_read. */
    method MmioRead(offset: u64) returns (val: nat)
      requires irq.Length == MAX_IRQ && DecodeWrite(offset).Some?
      ensures var (op, g) := DecodeWrite(offset).value; val == Read(irq[..], Shows(op), g, 32)
    {
      if offset < 0x180 {
        val := ReadRegister(EnabledView, (offset as int - 0x100) / 4);
      } else if offset < 0x200 {
        val := ReadRegister(EnabledView, (offset as int - 0x180) / 4);
      } else if offset < 0x280 {
        val := ReadRegister(PendingView, (offset as int - 0x200) / 4);
      } else if offset < 0x300 {
        val := ReadRegister(PendingView, (offset as int - 0x280) / 4);
      } else {
        val := ReadRegister(ActiveView, (offset as int - 0x300) / 4);
      }
    }

    /** gic_acknowledge_irq: two scans, SGI/PPI first, then the SPIs routed to this CPU. */
    method Acknowledge(cpu: nat) returns (r: nat)
      requires irq.Length == MAX_IRQ && cpu < MAX_CPU
      modifies irq
      ensures Answers(old(irq[..]), are, cpu, r)
      ensures irq[..] == if r == SPURIOUS then old(irq[..]) else Activated(old(irq[..]), [r])
    {
      hide Eligible, First, NoneEligible;
      var bestIrq: nat, bestPrio: u8 := SPURIOUS, 0xFF;
      ghost var was := irq[..];
      ScanNothing(was, are, cpu);
      var i := 0;
      while i < SPI_BASE
        invariant 0 <= i <= SPI_BASE && irq[..] == was
        invariant Scanned(was, are, cpu, i, bestIrq, bestPrio)
      {
        ScanStep(was, are, cpu, i, bestIrq, bestPrio);
        ScanTest(was, i, are, cpu);
        if irq[i].state == Pending && irq[i].enabled {
          if irq[i].priority < bestPrio {
            bestPrio := irq[i].priority;
            bestIrq := i;
          }
        }
        i := i + 1;
      }
      while i < MAX_IRQ
        invariant SPI_BASE <= i <= MAX_IRQ && irq[..] == was
        invariant Scanned(was, are, cpu, i, bestIrq, bestPrio)
      {
        ScanStep(was, are, cpu, i, bestIrq, bestPrio);
        ScanTest(was, i, are, cpu);
        if irq[i].state == Pending && irq[i].enabled {
          var targets := Targets(irq[i], are);
          if Bit(targets, cpu) && irq[i].priority < bestPrio {
            bestPrio := irq[i].priority;
            bestIrq := i;
          }
        }
        i := i + 1;
      }
      r := bestIrq;
      if bestIrq != SPURIOUS {
        FirstEligible(was, are, cpu, bestIrq);
        irq[bestIrq] := irq[bestIrq].(state := Active);
      }
    }

    /** Reading the acknowledge register until it answers with the spurious number delivers every eligible
        interrupt exactly once, by priority and then by number, and makes exactly those active.  Only an
        eligible interrupt 1023 cuts this short, for it is indistinguishable from "none". */
    method Drain(cpu: nat) returns (order: seq<nat>)
      requires irq.Length == MAX_IRQ && cpu < MAX_CPU
      modifies irq
      ensures forall i :: i in order <==> Delivered(old(irq[..]), are, cpu, i)
      ensures Sorted(old(irq[..]), order)
      ensures irq[..] == Activated(old(irq[..]), order)
    {
      hide Eligible, First, NoneEligible, Before, Drained, Activated, Left, Delivered;
      ghost var was := irq[..];
      order := [];
      DrainStart(was, are, cpu);
      while true
        invariant irq[..] == Activated(was, order)
        invariant Drained(was, are, cpu, order)
        decreases Left(was, are, cpu, order)
      {
        var r := Acknowledge(cpu);
        if r == SPURIOUS {
          DrainEnd(was, are, cpu, order);
          break;
        }
        DrainStep(was, are, cpu, order, r);
        order := order + [r];
      }
    }
  }

  // ---- Draining, step by step --------------------------------------------------

  /** The eligible interrupts not acknowledged yet. */
  ghost function Left(was: seq<Irq>, are: bool, cpu: nat, order: seq<nat>): set<nat> {
    set i | 0 <= i < |was| && Eligible(was, i, are, cpu) && i !in order
  }

  ghost predicate Sorted(was: seq<Irq>, order: seq<nat>)
    requires |was| == MAX_IRQ
  {
    forall a, b :: 0 <= a < b < |order| ==> order[a] < MAX_IRQ && order[b] < MAX_IRQ && Before(was, order[a], order[b])
  }

  /** Everything acknowledged so far comes before everything still eligible. */
  ghost predicate Ahead(was: seq<Irq>, are: bool, cpu: nat, order: seq<nat>)
    requires |was| == MAX_IRQ
  {
    forall a, j :: 0 <= a < |order| && 0 <= j < MAX_IRQ && j !in order && Eligible(was, j, are, cpu) ==>
      order[a] < MAX_IRQ && Before(was, order[a], j)
  }

  ghost predicate Drained(was: seq<Irq>, are: bool, cpu: nat, order: seq<nat>) {
    && |was| == MAX_IRQ
    && (forall a :: 0 <= a < |order| ==> Delivered(was, are, cpu, order[a]))
    && Sorted(was, order)
    && Ahead(was, are, cpu, order)
  }

  lemma DrainStart(was: seq<Irq>, are: bool, cpu: nat)
    requires |was| == MAX_IRQ
    ensures Activated(was, []) == was
    ensures Drained(was, are, cpu, [])
  {
  }

  lemma StillEligible(was: seq<Irq>, are: bool, cpu: nat, order: seq<nat>, j: nat)
    requires j < |was|
    ensures Eligible(Activated(was, order), j, are, cpu) <==> Eligible(was, j, are, cpu) && j !in order
  {
  }

  lemma SameOrder(was: seq<Irq>, order: seq<nat>, i: nat, j: nat)
    requires i < |was| && j < |was|
    ensures Before(Activated(was, order), i, j) == Before(was, i, j)
  {
  }

  lemma ActivatedMore(was: seq<Irq>, order: seq<nat>, r: nat)
    ensures Activated(Activated(was, order), [r]) == Activated(was, order + [r])
  {
  }

  /** The acknowledged interrupt precedes everything else that is left. */
  lemma AckedFirst(was: seq<Irq>, are: bool, cpu: nat, order: seq<nat>, r: nat, j: nat)
    requires |was| == MAX_IRQ && First(Activated(was, order), are, cpu, MAX_IRQ, r)
    requires j < MAX_IRQ && j != r && j !in order && Eligible(was, j, are, cpu)
    ensures Before(was, r, j)
  {
    hide Eligible, Before, Activated;
    StillEligible(was, are, cpu, order, j);
    SameOrder(was, order, r, j);
  }

  lemma DrainStep(was: seq<Irq>, are: bool, cpu: nat, order: seq<nat>, r: nat)
    requires Drained(was, are, cpu, order) && r != SPURIOUS
    requires First(Activated(was, order), are, cpu, MAX_IRQ, r)
    ensures Drained(was, are, cpu, order + [r])
    ensures Left(was, are, cpu, order + [r]) < Left(was, are, cpu, order)
    ensures Activated(Activated(was, order), [r]) == Activated(was, order + [r])
  {
    hide Eligible, Before, Activated;
    ActivatedMore(was, order, r);
    StillEligible(was, are, cpu, order, r);
    assert r in Left(was, are, cpu, order) && r !in Left(was, are, cpu, order + [r]);
    assert Sorted(was, order + [r]);
    forall a, j | 0 <= a < |order + [r]| && 0 <= j < MAX_IRQ && j !in order + [r] && Eligible(was, j, are, cpu)
      ensures (order + [r])[a] < MAX_IRQ && Before(was, (order + [r])[a], j)
    {
      AckedFirst(was, are, cpu, order, r, j);
    }
    if Eligible(was, SPURIOUS, are, cpu) {
      SpuriousStays(was, are, cpu, order);
      AckedFirst(was, are, cpu, order, r, SPURIOUS);
    }
  }

  lemma SpuriousStays(was: seq<Irq>, are: bool, cpu: nat, order: seq<nat>)
    requires Drained(was, are, cpu, order)
    ensures SPURIOUS !in order
  {
    hide Eligible, Before;
  }

  lemma DrainEnd(was: seq<Irq>, are: bool, cpu: nat, order: seq<nat>)
    requires Drained(was, are, cpu, order)
    requires var now := Activated(was, order);
             NoneEligible(now, are, cpu, MAX_IRQ) || First(now, are, cpu, MAX_IRQ, SPURIOUS)
    ensures forall i :: i in order <==> Delivered(was, are, cpu, i)
    ensures Sorted(was, order)
  {
    hide Eligible, Activated;
    forall i | Delivered(was, are, cpu, i) ensures i in order {
      EligiblePriority(was, i, are, cpu);
      StillEligible(was, are, cpu, order, i);
      StillEligible(was, are, cpu, order, SPURIOUS);
      SameOrder(was, order, SPURIOUS, i);
    }
  }

  lemma ScanNothing(irq: seq<Irq>, are: bool, cpu: nat)
    ensures Scanned(irq, are, cpu, 0, SPURIOUS, 0xFF)
  {
  }

  lemma ScanTest(irq: seq<Irq>, i: nat, are: bool, cpu: nat)
    requires i < |irq|
    ensures Eligible(irq, i, are, cpu) <==>
              irq[i].state == Pending && irq[i].enabled && irq[i].priority < 0xFF && (i < SPI_BASE || Bit(Targets(irq[i], are), cpu))
  {
  }

  lemma FirstEligible(irq: seq<Irq>, are: bool, cpu: nat, r: nat)
    requires |irq| == MAX_IRQ && r != SPURIOUS && exists p: u8 :: Scanned(irq, are, cpu, MAX_IRQ, r, p)
    ensures r < MAX_IRQ && Eligible(irq, r, are, cpu)
  {
  }
}
