/** The interrupt controller object of devices/apple-aic/apple_aic.c: per-interrupt and per-CPU arrays changed
    in place by the loops and handlers, each proved against the functions of `Aic`.
 */
module AicDevice {
  import opened Aic
  import opened Bits
  import opened Bytes
  import opened Options

  class Controller {
    const irq: array<Irq>
    const cpu: array<Cpu>
    const pending: array<int>
    const active: array<int>
    const numCpus: nat

    /** apple_aic_init */
    constructor (n: nat)
      ensures Valid() && View() == Init(n)
      ensures fresh(irq) && fresh(cpu) && fresh(pending) && fresh(active)
    {
      var count: nat := if n < MAX_CPU then n else MAX_CPU;
      numCpus := count;
      irq := new Irq[NUM_IRQ](_ => IDLE);
      cpu := new Cpu[MAX_CPU](c => Cpu(c < count, false));
      pending := new int[MAX_CPU](c => if c < count then NONE_PENDING else 0);
      active := new int[MAX_CPU](c => if c < count then NONE_PENDING else 0);
    }

    ghost predicate Valid() {
      && irq.Length == NUM_IRQ && cpu.Length == MAX_CPU && pending.Length == MAX_CPU && active.Length == MAX_CPU
      && numCpus <= MAX_CPU && pending != active
    }

    ghost function View(): Aic
      reads irq, cpu, pending, active
    {
      Aic(irq[..], cpu[..], pending[..], active[..], numCpus)
    }

    /** aic_find_target_cpu */
    method FindTargetCpu(i: nat) returns (c: nat)
      requires Valid() && i < NUM_IRQ
      ensures c == FindTarget(View(), i)
    {
      if (irq[i].target as int) < numCpus {
        return irq[i].target as nat;
      }
      for k := 0 to numCpus
        invariant FirstOpen(View(), 0) == FirstOpen(View(), k)
      {
        if cpu[k].enabled && !cpu[k].maskAll {
          return k;
        }
      }
      return 0;
    }

    /** aic_update: each CPU in turn gets its lowest ready interrupt; the first one that has any ends the
        search and is signalled. */
    method UpdatePending() returns (signal: Option<(nat, nat)>)
      requires Valid()
      modifies pending
      ensures View() == Update(old(View()), 0)
      ensures signal.Some? ==>
                var (c, i) := signal.value;
                && c < numCpus && i < NUM_IRQ && AllQuiet(old(View()), 0, c)
                && FirstReady(old(View()), c, IRQ_BASE) == i
      ensures signal.None? ==> AllQuiet(old(View()), 0, numCpus)
    {
      hide Ready, FindTarget, Quiet;
      ghost var a := View();
      for c := 0 to numCpus
        invariant View() == a.(pending := pending[..])
        invariant Update(a, 0) == Update(View(), c)
        invariant AllQuiet(a, 0, c)
      {
        CacheIrrelevant(a, View(), c);
        QuietExactly(View(), c);
        for i := IRQ_BASE to NUM_IRQ
          invariant View() == a.(pending := pending[..])
          invariant Update(a, 0) == Update(View(), c)
          invariant FirstReady(View(), c, IRQ_BASE) == FirstReady(View(), c, i)
          invariant FirstReady(a, c, IRQ_BASE) == FirstReady(View(), c, IRQ_BASE)
        {
          var ready := IsReady(c, i);
          if ready {
            pending[c] := i;
            return Some((c, i));
          }
        }
        pending[c] := NONE_PENDING;
      }
      return None;
    }

    /** The tests of the inner loop of aic_update. */
    method IsReady(c: nat, i: nat) returns (ready: bool)
      requires Valid() && i < NUM_IRQ
      ensures ready == Ready(View(), c, i)
    {
      hide FindTarget;
      var p := irq[i];
      if p.state == Pending || p.state == ActivePending {
        if !p.enabled || p.masked {
          return false;
        }
        var target := FindTargetCpu(i);
        return target == c || p.target as int >= numCpus;
      }
      return false;
    }

    /** apple_aic_raise_irq */
    method RaiseIrq(i: int)
      requires Valid()
      modifies irq, pending
      ensures View() == Raise(old(View()), i)
    {
      hide Update;
      if i < 0 || i >= NUM_IRQ { return; }
      ghost var a := View();
      if !irq[i].enabled {
        irq[i] := irq[i].(enabled := true);
      }
      assert irq[..] == a.irq[i := a.irq[i].(enabled := true)];
      if irq[i].state == Inactive {
        irq[i] := irq[i].(state := Pending);
        assert irq[..] == a.irq[i := a.irq[i].(enabled := true, state := Pending)];
        var _ := UpdatePending();
      } else if irq[i].state == Active {
        irq[i] := irq[i].(state := ActivePending);
        assert irq[..] == a.irq[i := a.irq[i].(enabled := true, state := ActivePending)];
      }
    }

    /** apple_aic_lower_irq */
    method LowerIrq(i: int)
      requires Valid()
      modifies irq, pending
      ensures View() == Lower(old(View()), i)
    {
      hide Update;
      if i < 0 || i >= NUM_IRQ { return; }
      if irq[i].level {
        if irq[i].state == Pending {
          irq[i] := irq[i].(state := Inactive);
          var _ := UpdatePending();
        } else if irq[i].state == ActivePending {
          irq[i] := irq[i].(state := Active);
        }
      }
    }

    /** apple_aic_acknowledge, with no IPI pending */
    method AcknowledgeIrq(c: int) returns (i: int)
      requires Valid()
      modifies irq, pending, active
      ensures (View(), i) == Acknowledge(old(View()), c)
    {
      if c < 0 || c >= numCpus { return NONE_PENDING; }
      i := pending[c];
      ghost var a := View();
      if 0 <= i < NUM_IRQ && irq[i].state != Inactive {
        if irq[i].state == Pending {
          irq[i] := irq[i].(state := Active);
        } else if irq[i].state == ActivePending {
          irq[i] := irq[i].(state := Active);
        }
        assert irq[..] == a.irq[i := a.irq[i].(state := Active)];
        active[c] := i;
        pending[c] := NONE_PENDING;
        return i;
      }
      return NONE_PENDING;
    }

    /** apple_aic_eoi */
    method EndOfInterrupt(c: int, i: int)
      requires Valid()
      modifies irq, pending, active
      ensures View() == Eoi(old(View()), c, i)
    {
      hide Update;
      if c < 0 || c >= numCpus || i < 0 || i >= NUM_IRQ { return; }
      ghost var s := irq[i].state;
      ghost var a := View();
      if active[c] == i {
        if irq[i].state == Active {
          irq[i] := irq[i].(state := Inactive);
        } else if irq[i].state == ActivePending {
          irq[i] := irq[i].(state := Pending);
        }
        assert irq[..] == a.irq[i := a.irq[i].(state := if s == Active then Inactive else if s == ActivePending then Pending else s)];
        active[c] := NONE_PENDING;
        var _ := UpdatePending();
      }
    }

    /** The MASK_SET loop over one bank. */
    method UnmaskBank(offset: u64, v: u64)
      requires Valid() && offset >= BANKS
      modifies irq
      ensures irq[..] == Unmasked(old(View()), offset, v)
    {
      hide Bit;
      var start := BankStart(offset);
      for k := 0 to 32
        invariant forall i :: 0 <= i < NUM_IRQ ==>
          irq[i] == if i < start + k && Selects(offset, v, i) then old(irq[i]).(enabled := true, masked := false) else old(irq[i])
      {
        if start + k < NUM_IRQ && Bit(v as nat % 0x1_0000_0000, k) {
          irq[start + k] := irq[start + k].(enabled := true, masked := false);
        }
      }
    }

    /** The MASK_CLR loop over one bank. */
    method MaskBank(offset: u64, v: u64)
      requires Valid() && offset >= BANKS
      modifies irq
      ensures irq[..] == Masked(old(View()), offset, v)
    {
      hide Bit;
      var start := BankStart(offset);
      for k := 0 to 32
        invariant forall i :: 0 <= i < NUM_IRQ ==>
          irq[i] == if i < start + k && Selects(offset, v, i) then old(irq[i]).(masked := true) else old(irq[i])
      {
        if start + k < NUM_IRQ && Bit(v as nat % 0x1_0000_0000, k) {
          irq[start + k] := irq[start + k].(masked := true);
        }
      }
    }

    /** The SW_SET and SW_CLR loops over one bank. */
    method EachOfBank(offset: u64, v: u64, up: bool)
      requires Valid() && offset >= BANKS
      modifies irq, pending
      ensures View() == Each(old(View()), offset, v, 0, up)
    {
      hide Raise, Lower, Bit;
      var start := BankStart(offset);
      var k := 0;
      while k < 32 && start + k < NUM_IRQ
        invariant 0 <= k <= 32
        invariant Each(old(View()), offset, v, 0, up) == Each(View(), offset, v, k, up)
      {
        if Selects(offset, v, start + k) {
          if up {
            RaiseIrq(start + k);
          } else {
            LowerIrq(start + k);
          }
        }
        k := k + 1;
      }
    }

    /** The soft reset. */
    method Reset()
      requires Valid()
      modifies irq, cpu, pending, active
      ensures View() == Init(numCpus)
    {
      forall i | 0 <= i < NUM_IRQ { irq[i] := IDLE; }
      forall c | 0 <= c < MAX_CPU { cpu[c] := Cpu(c < numCpus, false); }
      forall c | 0 <= c < MAX_CPU { pending[c] := if c < numCpus then NONE_PENDING else 0; }
      forall c | 0 <= c < MAX_CPU { active[c] := if c < numCpus then NONE_PENDING else 0; }
    }

    /** apple_aic_mmio_write outside the IPI registers: it does what `Write` says, so it keeps every CPU's cache
        on a waiting interrupt of its own. */
    method MmioWrite(offset: u64, v: u64)
      requires Valid() && offset != REG_IPI_SET && offset != REG_IPI_CLR
      modifies irq, cpu, pending, active
      ensures View() == Write(old(View()), offset, v)
      ensures old(Sound(View())) ==> Sound(View())
    {
      hide Update, Eoi, Each, Init, Sound, Selects;
      ghost var a := View();
      if offset == REG_RST {
        Reset();
      } else if offset >= CPUS && CpuOf(offset) < numCpus {
        var c, reg := CpuOf(offset), (offset - CPUS) as int % CPU_STRIDE as int;
        if reg == 0 {
          cpu[c] := Cpu(v % 2 == 1, v / 2 % 2 == 1);
          var _ := UpdatePending();
        } else if reg == 8 {
          EndOfInterrupt(c, Signed(v));
        }
      } else if BANKS <= offset < MASK_CLR {
        UnmaskBank(offset, v);
        var _ := UpdatePending();
      } else if MASK_CLR <= offset < SW_SET {
        MaskBank(offset, v);
        var _ := UpdatePending();
      } else if SW_SET <= offset < BANKS_END {
        EachOfBank(offset, v, offset < SW_CLR);
      }
      if Sound(a) {
        WriteSound(a, offset, v);
      }
    }
  }
}
