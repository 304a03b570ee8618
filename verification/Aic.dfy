/** Apple's interrupt controller as devices/apple-aic/apple_aic.c emulates it: one cached pending interrupt per
    CPU beside the per-interrupt state machine, and what ties the two together over whole runs.
    Inter-processor interrupts are not part of this model.
 */
module Aic {
  import opened Bits
  import opened Bytes

  const NUM_IRQ: nat := 576
  const IRQ_BASE: nat := 32
  const MAX_CPU: nat := 8
  const NONE_PENDING: int := -1

  const REG_RST: u64 := 0x0C
  const REG_IPI_SET: u64 := 0x2008
  const REG_IPI_CLR: u64 := 0x200C
  const BANKS: u64 := 0x4000
  const MASK_CLR: u64 := 0x4080
  const SW_SET: u64 := 0x4100
  const SW_CLR: u64 := 0x4180
  const BANKS_END: u64 := 0x4200
  const CPUS: u64 := 0x5000
  const CPU_STRIDE: u64 := 0x80

  datatype IrqState = Inactive | Pending | Active | ActivePending

  datatype Irq = Irq(state: IrqState, enabled: bool, masked: bool, level: bool, target: u8)

  datatype Cpu = Cpu(enabled: bool, maskAll: bool)

  /** The controller of `n` CPUs: `pending` caches what each CPU would acknowledge. */
  datatype Aic = Aic(irq: seq<Irq>, cpu: seq<Cpu>, pending: seq<int>, active: seq<int>, n: nat)
  {
    predicate Shaped() {
      |irq| == NUM_IRQ && |cpu| == MAX_CPU && |pending| == MAX_CPU && |active| == MAX_CPU && n <= MAX_CPU
    }
  }

  predicate Waiting(s: IrqState) { s == Pending || s == ActivePending }

  const IDLE := Irq(Inactive, false, false, false, 0)

  /** apple_aic_init */
  function Init(numCpus: nat): (a: Aic)
    ensures a.Shaped()
  {
    var n := if numCpus < MAX_CPU then numCpus else MAX_CPU;
    Aic(seq(NUM_IRQ, _ => IDLE), seq(MAX_CPU, c => Cpu(c < n, false)),
        seq(MAX_CPU, c => if c < n then NONE_PENDING else 0), seq(MAX_CPU, c => if c < n then NONE_PENDING else 0), n)
  }

  // ---- Recomputing the cache --------------------------------------------------------

  /** The first CPU that takes interrupts, or CPU 0. */
  function FirstOpen(a: Aic, c: nat): (r: nat)
    requires a.Shaped()
    ensures r == 0 || r < a.n
    decreases a.n - c
  {
    if c >= a.n then 0 else if a.cpu[c].enabled && !a.cpu[c].maskAll then c else FirstOpen(a, c + 1)
  }

  /** aic_find_target_cpu */
  function FindTarget(a: Aic, i: nat): nat
    requires a.Shaped() && i < NUM_IRQ
  {
    if (a.irq[i].target as int) < a.n then a.irq[i].target as nat else FirstOpen(a, 0)
  }

  predicate Ready(a: Aic, c: nat, i: nat)
    requires a.Shaped() && i < NUM_IRQ
  {
    && Waiting(a.irq[i].state) && a.irq[i].enabled && !a.irq[i].masked
    && (FindTarget(a, i) == c || a.irq[i].target as int >= a.n)
  }

  /** The lowest ready interrupt from number `i` on. */
  function FirstReady(a: Aic, c: nat, i: nat): (r: int)
    requires a.Shaped() && i <= NUM_IRQ
    ensures r == NONE_PENDING || i <= r < NUM_IRQ
    ensures r != NONE_PENDING ==> Ready(a, c, r) && forall j :: i <= j < r ==> !Ready(a, c, j)
    ensures r == NONE_PENDING ==> forall j :: i <= j < NUM_IRQ ==> !Ready(a, c, j)
    decreases NUM_IRQ - i
  {
    if i == NUM_IRQ then NONE_PENDING else if Ready(a, c, i) then i else FirstReady(a, c, i + 1)
  }

  /** aic_update from CPU `c` on: it stops at the first CPU with something ready. */
  function Update(a: Aic, c: nat): (r: Aic)
    requires a.Shaped()
    ensures r.Shaped() && r == a.(pending := r.pending)
    decreases a.n - c
  {
    if c >= a.n then a
    else
      var i := FirstReady(a, c, IRQ_BASE);
      if i != NONE_PENDING then a.(pending := a.pending[c := i]) else Update(a.(pending := a.pending[c := NONE_PENDING]), c + 1)
  }

  ghost predicate Quiet(a: Aic, c: nat)
    requires a.Shaped()
  {
    forall i :: IRQ_BASE <= i < NUM_IRQ ==> !Ready(a, c, i)
  }

  ghost predicate AllQuiet(a: Aic, lo: nat, hi: nat)
    requires a.Shaped()
  {
    forall j :: lo <= j < hi ==> Quiet(a, j)
  }

  lemma NoneBeyond(a: Aic, c: nat)
    requires a.Shaped() && !Quiet(a, c)
    ensures forall k :: c < k ==> !AllQuiet(a, c, k)
  {
    hide Quiet;
  }

  /** aic_update, declaratively: CPUs before the first with something ready have nothing cached, that CPU caches
      its lowest ready interrupt, and the CPUs after it keep what they had. */
  lemma {:induction false} UpdateExactly(a: Aic, c: nat)
    requires a.Shaped() && c <= a.n
    ensures var b := Update(a, c);
            forall k :: 0 <= k < MAX_CPU ==>
              b.pending[k] ==
                if c <= k < a.n && AllQuiet(a, c, k) then
                  FirstReady(a, k, IRQ_BASE)
                else a.pending[k]
    decreases a.n - c
  {
    hide Ready, Quiet, FirstReady;
    if c < a.n {
      var i := FirstReady(a, c, IRQ_BASE);
      QuietExactly(a, c);
      if i == NONE_PENDING {
        var a1 := a.(pending := a.pending[c := NONE_PENDING]);
        UpdateExactly(a1, c + 1);
        forall k | 0 <= k < MAX_CPU ensures FirstReady(a1, k, IRQ_BASE) == FirstReady(a, k, IRQ_BASE) && (Quiet(a1, k) <==> Quiet(a, k)) {
          CacheIrrelevant(a, a1, k);
        }
        forall k: nat | c < k ensures AllQuiet(a1, c + 1, k) <==> AllQuiet(a, c, k) {
          AllIrrelevant(a, a1, c, k);
        }
      } else {
        NoneBeyond(a, c);
      }
    }
  }

  lemma QuietExactly(a: Aic, c: nat)
    requires a.Shaped()
    ensures Quiet(a, c) <==> FirstReady(a, c, IRQ_BASE) == NONE_PENDING
  {
  }

  lemma ReadyIrrelevant(a: Aic, b: Aic, c: nat, i: nat)
    requires a.Shaped() && b.Shaped() && b == a.(pending := b.pending) && i < NUM_IRQ
    ensures Ready(b, c, i) == Ready(a, c, i)
  {
    OpenIrrelevant(a, b, 0);
  }

  lemma {:induction false} OpenIrrelevant(a: Aic, b: Aic, c: nat)
    requires a.Shaped() && b.Shaped() && b == a.(pending := b.pending)
    ensures FirstOpen(b, c) == FirstOpen(a, c)
    decreases a.n - c
  {
    if c < a.n {
      OpenIrrelevant(a, b, c + 1);
    }
  }

  /** The cache plays no part in what is ready. */
  lemma CacheIrrelevant(a: Aic, b: Aic, c: nat)
    requires a.Shaped() && b.Shaped() && b == a.(pending := b.pending)
    ensures FirstReady(b, c, IRQ_BASE) == FirstReady(a, c, IRQ_BASE)
    ensures Quiet(b, c) <==> Quiet(a, c)
  {
    hide Ready;
    forall i | 0 <= i < NUM_IRQ ensures Ready(b, c, i) == Ready(a, c, i) {
      ReadyIrrelevant(a, b, c, i);
    }
  }

  lemma AllIrrelevant(a: Aic, b: Aic, lo: nat, hi: nat)
    requires a.Shaped() && b.Shaped() && b == a.(pending := b.pending)
    ensures forall j :: lo <= j < hi ==> (Quiet(a, j) <==> Quiet(b, j))
  {
    hide Quiet;
    forall j | lo <= j < hi ensures Quiet(a, j) <==> Quiet(b, j) {
      CacheIrrelevant(a, b, j);
    }
  }

  // ---- Operations ----------------------------------------------------------------------

  /** apple_aic_raise_irq */
  function Raise(a: Aic, i: int): (r: Aic)
    requires a.Shaped()
    ensures r.Shaped()
  {
    if i < 0 || i >= NUM_IRQ then a
    else
      var p := a.irq[i].(enabled := true);
      if p.state == Inactive then Update(a.(irq := a.irq[i := p.(state := Pending)]), 0)
      else if p.state == Active then a.(irq := a.irq[i := p.(state := ActivePending)])
      else a.(irq := a.irq[i := p])
  }

  /** apple_aic_lower_irq */
  function Lower(a: Aic, i: int): (r: Aic)
    requires a.Shaped()
    ensures r.Shaped()
  {
    if i < 0 || i >= NUM_IRQ || !a.irq[i].level then a
    else if a.irq[i].state == Pending then Update(a.(irq := a.irq[i := a.irq[i].(state := Inactive)]), 0)
    else if a.irq[i].state == ActivePending then a.(irq := a.irq[i := a.irq[i].(state := Active)])
    else a
  }

  /** apple_aic_acknowledge without pending IPIs: the new state and the answer. */
  function Acknowledge(a: Aic, c: int): (r: (Aic, int))
    requires a.Shaped()
    ensures r.0.Shaped()
  {
    if c < 0 || c >= a.n then (a, NONE_PENDING)
    else
      var i := a.pending[c];
      if 0 <= i < NUM_IRQ && a.irq[i].state != Inactive then
        (a.(irq := a.irq[i := a.irq[i].(state := Active)], active := a.active[c := i], pending := a.pending[c := NONE_PENDING]), i)
      else (a, NONE_PENDING)
  }

  /** apple_aic_eoi */
  function Eoi(a: Aic, c: int, i: int): (r: Aic)
    requires a.Shaped()
    ensures r.Shaped()
  {
    if c < 0 || c >= a.n || i < 0 || i >= NUM_IRQ || a.active[c] != i then a
    else
      var s := a.irq[i].state;
      var t := if s == Active then Inactive else if s == ActivePending then Pending else s;
      Update(a.(irq := a.irq[i := a.irq[i].(state := t)], active := a.active[c := NONE_PENDING]), 0)
  }

  // ---- Registers ------------------------------------------------------------------------

  /** First interrupt of the bank that a register write selects; the source counts banks from 0x4000 for all
      four kinds of register. */
  function BankStart(offset: u64): nat
    requires offset >= BANKS
  {
    IRQ_BASE + (offset - BANKS) as int / 4 * 32
  }

  predicate Selects(offset: u64, v: u64, i: nat)
    requires offset >= BANKS
  {
    BankStart(offset) <= i < BankStart(offset) + 32 && i < NUM_IRQ && Bit(v as nat % 0x1_0000_0000, i - BankStart(offset))
  }

  function Unmasked(a: Aic, offset: u64, v: u64): (r: seq<Irq>)
    requires a.Shaped() && offset >= BANKS
    ensures |r| == NUM_IRQ
    ensures forall i :: 0 <= i < NUM_IRQ ==> r[i] == if Selects(offset, v, i) then a.irq[i].(enabled := true, masked := false) else a.irq[i]
  {
    seq(NUM_IRQ, i requires 0 <= i < NUM_IRQ => if Selects(offset, v, i) then a.irq[i].(enabled := true, masked := false) else a.irq[i])
  }

  function Masked(a: Aic, offset: u64, v: u64): (r: seq<Irq>)
    requires a.Shaped() && offset >= BANKS
    ensures |r| == NUM_IRQ
    ensures forall i :: 0 <= i < NUM_IRQ ==> r[i] == if Selects(offset, v, i) then a.irq[i].(masked := true) else a.irq[i]
  {
    seq(NUM_IRQ, i requires 0 <= i < NUM_IRQ => if Selects(offset, v, i) then a.irq[i].(masked := true) else a.irq[i])
  }

  /** Raising or lowering, one after another, the selected interrupts from the bank's bit `k` on. */
  function Each(a: Aic, offset: u64, v: u64, k: nat, up: bool): (r: Aic)
    requires a.Shaped() && offset >= BANKS
    ensures r.Shaped()
    decreases 32 - k
  {
    var i := BankStart(offset) + k;
    if k >= 32 || i >= NUM_IRQ then a
    else Each(if Selects(offset, v, i) then (if up then Raise(a, i) else Lower(a, i)) else a, offset, v, k + 1, up)
  }

  /** The CPU whose register bank holds the offset. */
  function CpuOf(offset: u64): nat
    requires offset >= CPUS
  {
    (offset - CPUS) as int / CPU_STRIDE as int
  }

  /** C's conversion of the low 32 bits to `int`. */
  function Signed(v: u64): int {
    var w := v as int % TWO32;
    if w < TWO31 then w else w - TWO32
  }

  /** apple_aic_mmio_write, leaving out the IPI registers and the global enable bit, which this state does not hold. */
  function Write(a: Aic, offset: u64, v: u64): (r: Aic)
    requires a.Shaped()
    ensures r.Shaped()
  {
    if offset == REG_RST then Init(a.n)
    else if offset >= CPUS && CpuOf(offset) < a.n then
      var c, reg := CpuOf(offset), (offset - CPUS) as int % CPU_STRIDE as int;
      if reg == 0 then Update(a.(cpu := a.cpu[c := Cpu(v % 2 == 1, v / 2 % 2 == 1)]), 0)
      else if reg == 8 then Eoi(a, c, Signed(v))
      else a
    else if offset < BANKS || offset >= BANKS_END then a
    else if offset < MASK_CLR then Update(a.(irq := Unmasked(a, offset, v)), 0)
    else if offset < SW_SET then Update(a.(irq := Masked(a, offset, v)), 0)
    else Each(a, offset, v, 0, offset < SW_CLR)
  }

  /** A write to a bank register can reach some interrupt exactly when it is one of the first 17 MASK_SET words:
      the mask-clear, software-set and software-clear registers reach none. */
  lemma BanksReachExactly(offset: u64)
    requires BANKS <= offset < BANKS_END
    ensures (exists v: u64, i: nat :: Selects(offset, v, i)) <==> offset < BANKS + 17 * 4
  {
    hide Bit;
    if offset < BANKS + 17 * 4 {
      Pow2Values();
      BitPow2(0, 0);
      assert Selects(offset, 1, BankStart(offset));
    }
  }

  lemma DeadRegisters(a: Aic, offset: u64, v: u64)
    requires a.Shaped() && MASK_CLR <= offset < BANKS_END
    ensures Write(a, offset, v) == if offset < SW_SET then Update(a, 0) else a
  {
    hide Update;
    BanksReachExactly(offset);
    assert Masked(a, offset, v) == a.irq;
  }

  // ---- The cache and the state machine ------------------------------------------------------

  /** The CPU that an interrupt is offered to: its target, or CPU 0 for a target that does not exist. */
  function Owner(a: Aic, i: nat): nat
    requires a.Shaped() && i < NUM_IRQ
  {
    if (a.irq[i].target as int) < a.n then a.irq[i].target as nat else 0
  }

  /** What CPU `c` has cached is nothing, or an interrupt of its own that is still waiting. */
  predicate Cached(a: Aic, c: nat)
    requires a.Shaped() && c < MAX_CPU
  {
    a.pending[c] == NONE_PENDING ||
    (IRQ_BASE <= a.pending[c] < NUM_IRQ && Waiting(a.irq[a.pending[c]].state) && Owner(a, a.pending[c]) == c)
  }

  ghost predicate Sound(a: Aic) {
    && a.Shaped()
    && (forall i :: 0 <= i < NUM_IRQ ==> !a.irq[i].level)
    && forall c :: 0 <= c < a.n ==> Cached(a, c)
  }

  /** What aic_update caches for a CPU belongs to it. */
  lemma ReadyOwned(a: Aic, c: nat)
    requires a.Shaped() && c < a.n && AllQuiet(a, 0, c) && FirstReady(a, c, IRQ_BASE) != NONE_PENDING
    ensures var i := FirstReady(a, c, IRQ_BASE); Waiting(a.irq[i].state) && Owner(a, i) == c
  {
    var i := FirstReady(a, c, IRQ_BASE);
    if a.irq[i].target as int >= a.n && c > 0 {
      assert Quiet(a, 0);
      assert Ready(a, 0, i);
    }
  }

  lemma UpdateSound(a: Aic)
    requires Sound(a)
    ensures Sound(Update(a, 0))
  {
    hide Ready, FirstReady, Update;
    UpdateExactly(a, 0);
    var b := Update(a, 0);
    forall c | 0 <= c < b.n ensures Cached(b, c) {
      assert Cached(a, c);
      if AllQuiet(a, 0, c) && FirstReady(a, c, IRQ_BASE) != NONE_PENDING {
        ReadyOwned(a, c);
      }
    }
  }

  /** Events of a run: device lines, a CPU's acknowledge and end of interrupt, and register writes. */
  datatype Event =
    | RaiseLine(i: int)
    | LowerLine(i: int)
    | Ack(c: int)
    | End(c: int, i: int)
    | Store(offset: u64, v: u64)

  function Step(a: Aic, e: Event): (r: Aic)
    requires a.Shaped()
    ensures r.Shaped()
  {
    match e
    case RaiseLine(i) => Raise(a, i)
    case LowerLine(i) => Lower(a, i)
    case Ack(c) => Acknowledge(a, c).0
    case End(c, i) => Eoi(a, c, i)
    case Store(offset, v) => Write(a, offset, v)
  }

  /** Changing interrupts without taking any out of waiting or moving its target keeps what CPUs have cached. */
  lemma StillSound(a: Aic, b: Aic)
    requires Sound(a) && b.Shaped() && b.n == a.n && b.pending == a.pending
    requires forall i :: 0 <= i < NUM_IRQ ==>
               !b.irq[i].level && b.irq[i].target == a.irq[i].target && (Waiting(a.irq[i].state) ==> Waiting(b.irq[i].state))
    ensures Sound(b)
  {
    forall c | 0 <= c < b.n ensures Cached(b, c) {
      assert Cached(a, c);
    }
  }

  lemma RaiseSound(a: Aic, i: int)
    requires Sound(a)
    ensures Sound(Raise(a, i))
  {
    hide Update, Sound, Cached;
    assert a.Shaped() by { SoundShape(a); }
    SoundShape(a);
    if 0 <= i < NUM_IRQ {
      var p := a.irq[i].(enabled := true);
      var s := if p.state == Inactive then Pending else if p.state == Active then ActivePending else p.state;
      var b := a.(irq := a.irq[i := p.(state := s)]);
      StillSound(a, b);
      UpdateSound(b);
    }
  }

  lemma SoundShape(a: Aic)
    requires Sound(a)
    ensures a.Shaped() && forall i :: 0 <= i < NUM_IRQ ==> !a.irq[i].level
  {
  }

  lemma EoiSound(a: Aic, c: int, i: int)
    requires Sound(a)
    ensures Sound(Eoi(a, c, i))
  {
    hide Update, Sound, Cached;
    SoundShape(a);
    if 0 <= c < a.n && 0 <= i < NUM_IRQ && a.active[c] == i {
      var s := a.irq[i].state;
      var t := if s == Active then Inactive else if s == ActivePending then Pending else s;
      var b := a.(irq := a.irq[i := a.irq[i].(state := t)], active := a.active[c := NONE_PENDING]);
      StillSound(a, b);
      UpdateSound(b);
    }
  }

  /** Only the owner has an interrupt cached, so its acknowledge leaves the other CPUs' caches true. */
  lemma AckSound(a: Aic, c: int)
    requires Sound(a)
    ensures Sound(Acknowledge(a, c).0)
  {
    var b := Acknowledge(a, c).0;
    forall k | 0 <= k < b.n ensures Cached(b, k) {
      assert Cached(a, k);
      if 0 <= c < a.n {
        assert Cached(a, c);
      }
    }
  }

  lemma WriteSound(a: Aic, offset: u64, v: u64)
    requires Sound(a)
    ensures Sound(Write(a, offset, v))
  {
    hide Update, Sound, Cached, Selects, Eoi, Each, Init;
    SoundShape(a);
    if offset == REG_RST {
      InitSound(a.n);
    } else if offset >= CPUS && CpuOf(offset) < a.n {
      EoiSound(a, CpuOf(offset), Signed(v));
      var b := a.(cpu := a.cpu[CpuOf(offset) := Cpu(v % 2 == 1, v / 2 % 2 == 1)]);
      StillSound(a, b);
      UpdateSound(b);
    } else if BANKS <= offset < MASK_CLR {
      var b := a.(irq := Unmasked(a, offset, v));
      StillSound(a, b);
      UpdateSound(b);
    } else if MASK_CLR <= offset < BANKS_END {
      DeadRegisters(a, offset, v);
      UpdateSound(a);
    }
  }

  lemma InitSound(numCpus: nat)
    ensures Sound(Init(numCpus))
  {
  }

  /** Every step keeps each CPU's cache on an interrupt of its own that is still waiting. */
  lemma StepSound(a: Aic, e: Event)
    requires Sound(a)
    ensures Sound(Step(a, e))
  {
    hide Sound, Raise, Lower, Acknowledge, Eoi, Write;
    SoundShape(a);
    match e
    case RaiseLine(i) => RaiseSound(a, i);
    case LowerLine(i) => LowerIdle(a, i);
    case Ack(c) => AckSound(a, c);
    case End(c, i) => EoiSound(a, c, i);
    case Store(offset, v) => WriteSound(a, offset, v);
  }

  /** Lowering an edge-triggered line does nothing. */
  lemma LowerIdle(a: Aic, i: int)
    requires Sound(a)
    ensures Lower(a, i) == a
  {
  }

  // ---- Whole runs ------------------------------------------------------------------------------

  function Run(a: Aic, es: seq<Event>): (r: Aic)
    requires a.Shaped()
    ensures r.Shaped()
    decreases |es|
  {
    if es == [] then a else Run(Step(a, es[0]), es[1..])
  }

  /** The event is a raise that makes interrupt `i` waiting. */
  predicate Makes(a: Aic, e: Event, i: nat)
    requires a.Shaped() && i < NUM_IRQ
  {
    e == RaiseLine(i) && !Waiting(a.irq[i].state)
  }

  /** The event is an acknowledge that answers `i`. */
  predicate Takes(a: Aic, e: Event, i: nat)
    requires a.Shaped()
  {
    e.Ack? && Acknowledge(a, e.c).1 == i
  }

  /** The event is a soft reset that forgets `i` waiting. */
  predicate Drops(a: Aic, e: Event, i: nat)
    requires a.Shaped() && i < NUM_IRQ
  {
    e.Store? && e.offset == REG_RST && Waiting(a.irq[i].state)
  }

  /** How often each of the three happens to `i` along a run. */
  function Counts(a: Aic, es: seq<Event>, i: nat): (nat, nat, nat)
    requires a.Shaped() && i < NUM_IRQ
    decreases |es|
  {
    if es == [] then (0, 0, 0)
    else
      var (m, t, d) := Counts(Step(a, es[0]), es[1..], i);
      (m + One(Makes(a, es[0], i)), t + One(Takes(a, es[0], i)), d + One(Drops(a, es[0], i)))
  }

  lemma EoiKeepsWaiting(a: Aic, c: int, n: int, i: nat)
    requires a.Shaped() && i < NUM_IRQ
    ensures Waiting(Eoi(a, c, n).irq[i].state) == Waiting(a.irq[i].state)
  {
    hide Update;
  }

  lemma WriteKeepsWaiting(a: Aic, offset: u64, v: u64, i: nat)
    requires a.Shaped() && i < NUM_IRQ && offset != REG_RST
    ensures Waiting(Write(a, offset, v).irq[i].state) == Waiting(a.irq[i].state)
  {
    hide Update, Eoi, Each, Selects;
    if offset >= CPUS && CpuOf(offset) < a.n {
      EoiKeepsWaiting(a, CpuOf(offset), Signed(v), i);
    } else if MASK_CLR <= offset < BANKS_END {
      DeadRegisters(a, offset, v);
    }
  }

  /** One event: what waits afterwards is what waited, plus what was made, less what was taken or dropped. */
  lemma StepConserves(a: Aic, e: Event, i: nat)
    requires Sound(a) && i < NUM_IRQ
    ensures One(Waiting(a.irq[i].state)) + One(Makes(a, e, i))
         == One(Takes(a, e, i)) + One(Drops(a, e, i)) + One(Waiting(Step(a, e).irq[i].state))
  {
    hide Update, Write, Eoi, Lower;
    match e
    case RaiseLine(_) =>
    case LowerLine(n) => LowerIdle(a, n);
    case Ack(c) =>
      if 0 <= c < a.n {
        assert Cached(a, c);
      }
    case End(c, n) => EoiKeepsWaiting(a, c, n, i);
    case Store(offset, v) =>
      if offset == REG_RST {
        ResetIdle(a, v, i);
      } else {
        WriteKeepsWaiting(a, offset, v, i);
      }
  }

  lemma ResetIdle(a: Aic, v: u64, i: nat)
    requires a.Shaped() && i < NUM_IRQ
    ensures !Waiting(Write(a, REG_RST, v).irq[i].state)
  {
  }

  lemma {:induction false} RunConserves(a: Aic, es: seq<Event>, i: nat)
    requires Sound(a) && i < NUM_IRQ
    ensures Sound(Run(a, es))
    ensures var (m, t, d) := Counts(a, es, i);
            One(Waiting(a.irq[i].state)) + m == t + d + One(Waiting(Run(a, es).irq[i].state))
    decreases |es|
  {
    hide Sound, Step, Makes, Takes, Drops, Waiting;
    SoundShape(a);
    if es != [] {
      StepSound(a, es[0]);
      SoundShape(Step(a, es[0]));
      StepConserves(a, es[0], i);
      RunConserves(Step(a, es[0]), es[1..], i);
    }
  }

  /** Over every run from reset of a controller without level lines: each CPU has nothing cached or a waiting
      interrupt of its own, and for each interrupt the raises that made it waiting are its acknowledges, plus those
      that a soft reset forgot, plus one if it waits now. */
  lemma Conservation(numCpus: nat, es: seq<Event>, i: nat)
    requires i < NUM_IRQ
    ensures var a := Run(Init(numCpus), es);
            && (forall c :: 0 <= c < a.n ==> Cached(a, c))
            && var (made, taken, dropped) := Counts(Init(numCpus), es, i);
               made == taken + dropped + One(Waiting(a.irq[i].state))
  {
    hide Run, Counts, Cached;
    InitSound(numCpus);
    RunConserves(Init(numCpus), es, i);
  }
}
