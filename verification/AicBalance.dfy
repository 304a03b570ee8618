/** What Apple's interrupt controller does between an acknowledge and its end of interrupt: a second balance over whole
    runs, of acknowledges against ends of interrupt, and how long a CPU holds what it acknowledged.
 */
module AicBalance {
  import opened Aic
  import opened Bits
  import opened Bytes

  // ---- From acknowledge to end of interrupt ---------------------------------------------------

  predicate Running(s: IrqState) { s == Active || s == ActivePending }

  /** An end of interrupt by the CPU that holds `i` stops it running and keeps whether it waits; it frees the CPU and
      touches no other interrupt and no other CPU's held interrupt.  By anyone else it does nothing. */
  lemma EoiEnds(a: Aic, c: int, i: int, j: nat)
    requires a.Shaped() && j < NUM_IRQ
    ensures var b := Eoi(a, c, i);
            && (0 <= c < a.n && 0 <= i < NUM_IRQ && a.active[c] == i ==>
                  && !Running(b.irq[i].state) && Waiting(b.irq[i].state) == Waiting(a.irq[i].state)
                  && b.irq[i] == a.irq[i].(state := b.irq[i].state)
                  && b.active == a.active[c := -1]
                  && (j != i ==> b.irq[j] == a.irq[j]))
            && (!(0 <= c < a.n && 0 <= i < NUM_IRQ && a.active[c] == i) ==> b == a)
  {
    hide Update;
  }

  /** A raise enables the interrupt and makes it wait, whether or not it runs; out of range it does nothing. */
  lemma RaiseWaits(a: Aic, i: int, j: nat)
    requires a.Shaped() && j < NUM_IRQ
    ensures var b := Raise(a, i);
            && b.active == a.active && b.cpu == a.cpu && b.n == a.n
            && (0 <= i < NUM_IRQ ==>
                  && Waiting(b.irq[i].state) && Running(b.irq[i].state) == Running(a.irq[i].state)
                  && b.irq[i] == a.irq[i].(state := b.irq[i].state, enabled := true))
            && (j != i ==> b.irq[j] == a.irq[j])
            && (!(0 <= i < NUM_IRQ) ==> b == a)
  {
    hide Update;
  }

  /** An answering acknowledge makes the cached interrupt run, no longer wait, and held by the CPU. */
  lemma AckRuns(a: Aic, c: int, j: nat)
    requires Sound(a) && j < NUM_IRQ
    ensures var (b, i) := Acknowledge(a, c);
            && b.n == a.n
            && (i != -1 ==>
                  && 0 <= c < a.n && 32 <= i < NUM_IRQ && i == a.pending[c]
                  && Waiting(a.irq[i].state) && Running(b.irq[i].state) && !Waiting(b.irq[i].state)
                  && b.active == a.active[c := i] && b.pending == a.pending[c := -1]
                  && (j != i ==> b.irq[j] == a.irq[j]))
            && (i == -1 ==> b == a && (0 <= c < a.n ==> a.pending[c] == -1))
  {
    if 0 <= c < a.n {
      assert Cached(a, c);
    }
  }

  /** The event is an end of interrupt for `i`, by call or through a CPU's EOI register, by a CPU that holds `i`, while
      `i` runs. */
  predicate Ends(a: Aic, e: Event, i: nat)
    requires a.Shaped() && i < NUM_IRQ
  {
    && Running(a.irq[i].state)
    && match e
       case End(c, n) => 0 <= c < a.n && n == i && a.active[c] == i
       case Store(offset, v) =>
         && offset >= 0x5000 && (offset - 0x5000) as int % 0x80 == 8 && (offset - 0x5000) as int / 0x80 < a.n
         && v as int % 0x1_0000_0000 == i && a.active[(offset - 0x5000) as int / 0x80] == i
       case _ => false
  }

  /** The event acknowledges `i` while it still runs. */
  predicate Again(a: Aic, e: Event, i: nat)
    requires a.Shaped() && i < NUM_IRQ
  {
    Takes(a, e, i) && Running(a.irq[i].state)
  }

  /** The event is a soft reset that forgets `i` running. */
  predicate Forgets(a: Aic, e: Event, i: nat)
    requires a.Shaped() && i < NUM_IRQ
  {
    e.Store? && e.offset == REG_RST && Running(a.irq[i].state)
  }

  /** How often along a run `i` is acknowledged, acknowledged while running, ended, and forgotten running. */
  function Served(a: Aic, es: seq<Event>, i: nat): (nat, nat, nat, nat)
    requires a.Shaped() && i < NUM_IRQ
    decreases |es|
  {
    if es == [] then (0, 0, 0, 0)
    else
      var (t, g, d, f) := Served(Step(a, es[0]), es[1..], i);
      (t + One(Takes(a, es[0], i)), g + One(Again(a, es[0], i)), d + One(Ends(a, es[0], i)), f + One(Forgets(a, es[0], i)))
  }

  /** An end-of-interrupt event's effect on whether `i` runs. */
  lemma EoiBalances(a: Aic, c: int, n: int, i: nat)
    requires a.Shaped() && i < NUM_IRQ
    ensures Running(Eoi(a, c, n).irq[i].state) <==>
              Running(a.irq[i].state) && !(0 <= c < a.n && n == i && a.active[c] == i)
  {
    hide Update;
  }

  lemma WriteBalances(a: Aic, offset: u64, v: u64, i: nat)
    requires a.Shaped() && i < NUM_IRQ && offset != REG_RST
    ensures Running(Write(a, offset, v).irq[i].state) <==> Running(a.irq[i].state) && !Ends(a, Store(offset, v), i)
  {
    hide Update, Eoi, Each, Selects;
    if offset >= CPUS && CpuOf(offset) < a.n {
      EoiBalances(a, CpuOf(offset), Signed(v), i);
    } else if MASK_CLR <= offset < BANKS_END {
      DeadRegisters(a, offset, v);
    }
  }

  lemma ResetRuns(a: Aic, v: u64, i: nat)
    requires a.Shaped() && i < NUM_IRQ
    ensures !Running(Write(a, REG_RST, v).irq[i].state)
  {
  }

  /** One event: what runs afterwards is what ran, plus what was acknowledged anew, less what was ended or forgotten. */
  lemma StepBalances(a: Aic, e: Event, i: nat)
    requires Sound(a) && i < NUM_IRQ
    ensures One(Running(a.irq[i].state)) + One(Takes(a, e, i))
         == One(Again(a, e, i)) + One(Ends(a, e, i)) + One(Forgets(a, e, i)) + One(Running(Step(a, e).irq[i].state))
  {
    hide Update, Write, Eoi, Lower, Sound, Raise, Acknowledge;
    SoundShape(a);
    match e
    case RaiseLine(n) => RaiseWaits(a, n, i);
    case LowerLine(n) => LowerIdle(a, n);
    case Ack(c) => AckRuns(a, c, i);
    case End(c, n) => EoiBalances(a, c, n, i);
    case Store(offset, v) =>
      if offset == REG_RST {
        ResetRuns(a, v, i);
      } else {
        WriteBalances(a, offset, v, i);
      }
  }

  lemma {:induction false} RunBalances(a: Aic, es: seq<Event>, i: nat)
    requires Sound(a) && i < NUM_IRQ
    ensures var (t, g, d, f) := Served(a, es, i);
            One(Running(a.irq[i].state)) + t == g + d + f + One(Running(Run(a, es).irq[i].state))
    decreases |es|
  {
    hide Sound, Step, Takes, Again, Ends, Forgets, Running;
    SoundShape(a);
    if es != [] {
      StepSound(a, es[0]);
      SoundShape(Step(a, es[0]));
      StepBalances(a, es[0], i);
      RunBalances(Step(a, es[0]), es[1..], i);
    }
  }

  /** Over every run from reset, the acknowledges that answer `i` are the ends of interrupt that stopped it, plus those
      that a soft reset forgot, plus one if it runs now, plus those that came while it still ran; so the first three
      account for all of them exactly when it was never acknowledged while running. */
  lemma Balance(numCpus: nat, es: seq<Event>, i: nat)
    requires i < NUM_IRQ
    ensures var (taken, again, ended, forgot) := Served(Init(numCpus), es, i);
            var now := One(Running(Run(Init(numCpus), es).irq[i].state));
            && taken == again + ended + forgot + now
            && (taken == ended + forgot + now <==> again == 0)
  {
    hide Run, Served;
    InitSound(numCpus);
    RunBalances(Init(numCpus), es, i);
  }

  // ---- Holding an interrupt ---------------------------------------------------------------------

  /** Events that leave CPU `c` holding interrupt `i`: no reset, no end of `i` by `c`, and no other acknowledge by `c`. */
  predicate Leaves(a: Aic, e: Event, c: nat, i: nat)
    requires a.Shaped()
  {
    match e
    case Ack(k) => k == c ==> Acknowledge(a, k).1 == NONE_PENDING
    case End(k, n) => k == c ==> n != i
    case Store(offset, v) => offset != REG_RST && (offset == 0x5000 + 0x80 * c + 8 ==> v as int % 0x1_0000_0000 != i)
    case _ => true
  }

  ghost predicate LeavesAll(a: Aic, es: seq<Event>, c: nat, i: nat)
    requires a.Shaped()
    decreases |es|
  {
    es != [] ==> Leaves(a, es[0], c, i) && LeavesAll(Step(a, es[0]), es[1..], c, i)
  }

  lemma EachKeepsHolders(a: Aic, offset: u64, v: u64)
    requires a.Shaped() && MASK_CLR <= offset < BANKS_END
    ensures Write(a, offset, v).active == a.active && Write(a, offset, v).n == a.n
  {
    hide Update, Each;
    DeadRegisters(a, offset, v);
  }

  lemma StepHolds(a: Aic, e: Event, c: nat, i: nat)
    requires Sound(a) && c < a.n && i < NUM_IRQ && a.active[c] == i && Leaves(a, e, c, i)
    ensures Step(a, e).n == a.n && Step(a, e).active[c] == i
  {
    hide Update, Lower, Sound, Each, Selects;
    SoundShape(a);
    match e
    case RaiseLine(_) =>
    case LowerLine(n) => LowerIdle(a, n);
    case Ack(_) =>
    case End(_, _) =>
    case Store(offset, v) =>
      if MASK_CLR <= offset < BANKS_END {
        EachKeepsHolders(a, offset, v);
      }
  }

  lemma {:induction false} RunHolds(a: Aic, es: seq<Event>, c: nat, i: nat)
    requires Sound(a) && c < a.n && i < NUM_IRQ && a.active[c] == i && LeavesAll(a, es, c, i)
    ensures Sound(Run(a, es)) && Run(a, es).n == a.n && Run(a, es).active[c] == i
    decreases |es|
  {
    hide Sound, Step, Leaves;
    SoundShape(a);
    if es != [] {
      StepSound(a, es[0]);
      SoundShape(Step(a, es[0]));
      StepHolds(a, es[0], c, i);
      RunHolds(Step(a, es[0]), es[1..], c, i);
    }
  }

  /** Whatever happens in between, short of a reset or another acknowledge by the same CPU, the end of interrupt by the
      CPU that acknowledged an interrupt stops it. */
  lemma AckThenEoi(a: Aic, c: nat, es: seq<Event>)
    requires Sound(a) && c < a.n && Acknowledge(a, c).1 != NONE_PENDING
    requires LeavesAll(Acknowledge(a, c).0, es, c, Acknowledge(a, c).1 as nat)
    ensures var i := Acknowledge(a, c).1;
            var z := Run(Acknowledge(a, c).0, es);
            && !Running(Eoi(z, c, i).irq[i].state) && Waiting(Eoi(z, c, i).irq[i].state) == Waiting(z.irq[i].state)
            && Eoi(z, c, i).active[c] == NONE_PENDING
  {
    hide Run, LeavesAll, Sound, Acknowledge, Eoi;
    SoundShape(a);
    var (b, i) := Acknowledge(a, c);
    AckSound(a, c);
    SoundShape(b);
    AckRuns(a, c, 0);
    RunHolds(b, es, c, i);
    var z := Run(b, es);
    SoundShape(z);
    EoiEnds(z, c, i, 0);
  }

  /** A CPU that acknowledges another interrupt first can no longer end the one it held: that end of interrupt is
      ignored, and the interrupt goes on running. */
  lemma NestedAckLosesEoi(a: Aic, c: nat, i: nat)
    requires Sound(a) && c < a.n && i < NUM_IRQ && a.active[c] == i && Running(a.irq[i].state)
    requires Acknowledge(a, c).1 != NONE_PENDING && Acknowledge(a, c).1 != i
    ensures var b := Acknowledge(a, c).0;
            Eoi(b, c, i) == b && Running(b.irq[i].state)
  {
    hide Sound, Acknowledge, Eoi;
    SoundShape(a);
    AckRuns(a, c, i);
    EoiEnds(Acknowledge(a, c).0, c, i, 0);
  }

  /** The register at 0x5000 + 0x80 * c turns CPU `c` on by bit 0 and masks it by bit 1; no other CPU and no interrupt
      changes. */
  lemma CpuControl(a: Aic, c: nat, v: u64)
    requires a.Shaped() && c < a.n
    ensures var b := Write(a, 0x5000 + 0x80 * c, v);
            && b.cpu == a.cpu[c := Cpu(v as int % 2 == 1, v as int / 2 % 2 == 1)] && b.irq == a.irq && b.active == a.active
  {
    hide Update;
  }

  /** An update offers a CPU exactly the interrupts that wait, are enabled and not masked, and belong to it, as far as the
      CPUs before it have nothing to take. */
  lemma OfferedExactly(a: Aic, c: nat, i: nat)
    requires a.Shaped() && c < a.n && AllQuiet(a, 0, c) && 32 <= i < NUM_IRQ
    ensures Ready(a, c, i) <==> Waiting(a.irq[i].state) && a.irq[i].enabled && !a.irq[i].masked && Owner(a, i) == c
  {
    if a.irq[i].target as int >= a.n && c > 0 {
      assert Quiet(a, 0);
      assert Ready(a, 0, i) <==> Ready(a, c, i);
    }
  }

  /** The MASK_SET word at 0x4000 + 4 * b enables and unmasks exactly the interrupts that its bits name, 32 to a word from
      number 32 on; nothing else about any interrupt changes. */
  lemma UnmaskWord(a: Aic, b: nat, v: u64, i: nat)
    requires a.Shaped() && b < 17 && i < NUM_IRQ
    ensures var r := Write(a, 0x4000 + 4 * b, v).irq[i];
            if 32 + 32 * b <= i < 64 + 32 * b && Bit(v as nat % 0x1_0000_0000, i - 32 - 32 * b)
            then r == a.irq[i].(enabled := true, masked := false) else r == a.irq[i]
  {
    hide Update, Bit;
  }

  /** An interrupt whose target does not exist goes to the first CPU that is on and not masked, or to CPU 0 if none is. */
  lemma {:induction false} FirstOpenExactly(a: Aic, from: nat)
    requires a.Shaped() && from <= a.n
    ensures var c := FirstOpen(a, from);
            && ((exists k :: from <= k < a.n && a.cpu[k].enabled && !a.cpu[k].maskAll) ==>
                  from <= c < a.n && a.cpu[c].enabled && !a.cpu[c].maskAll
                  && forall k :: from <= k < c ==> !(a.cpu[k].enabled && !a.cpu[k].maskAll))
            && (!(exists k :: from <= k < a.n && a.cpu[k].enabled && !a.cpu[k].maskAll) ==> c == 0)
    decreases a.n - from
  {
    if from < a.n {
      FirstOpenExactly(a, from + 1);
    }
  }
}
