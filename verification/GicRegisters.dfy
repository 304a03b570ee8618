/** The distributor's registers as bit vectors: what a guest that only reads and writes 32-bit registers
    of core/irq/gic.c observes over any run.
 */
module GicRegisters {
  import opened Bytes
  import opened Bits
  import opened Gic

  /** Bit i of a read is set exactly when interrupt i of the bank has the property. */
  lemma {:induction false} ReadBit(irq: seq<Irq>, view: View, reg: nat, n: nat, i: nat)
    requires |irq| == MAX_IRQ && reg < BANKS && n <= 32
    ensures Bit(Read(irq, view, reg, n), i) <==> i < n && Has(view, irq[reg * 32 + i])
    decreases n
  {
    hide Bit, Has, Or, Pow2;
    if n == 0 {
      ZeroBits(i);
    } else {
      ReadBit(irq, view, reg, n - 1, i);
      BitOr(Read(irq, view, reg, n - 1), Pow2(n - 1), i);
      BitPow2(n - 1, i);
    }
  }

  lemma {:induction false} ReadBound(irq: seq<Irq>, view: View, reg: nat, n: nat, m: nat)
    requires |irq| == MAX_IRQ && reg < BANKS && n <= 32 && n <= m
    ensures Read(irq, view, reg, n) < Pow2(m)
    decreases n
  {
    hide Or, Has;
    if n > 0 {
      ReadBound(irq, view, reg, n - 1, m);
      Pow2Less(n - 1, m);
      OrBound(Read(irq, view, reg, n - 1), Pow2(n - 1), m);
    }
  }

  // ---- The abstract registers --------------------------------------------------

  /** One 32-bit word per bank and view. */
  datatype Regs = Regs(pending: seq<nat>, active: seq<nat>, enabled: seq<nat>)
  {
    ghost predicate Valid() {
      |pending| == BANKS && |active| == BANKS && |enabled| == BANKS
    }

    function Of(view: View): seq<nat> {
      match view case PendingView => pending case ActiveView => active case EnabledView => enabled
    }
  }

  datatype Event = Write(op: Op, reg: nat, value: u64) | Eoi(irq: nat)
  {
    predicate Legal() { Write? ==> reg < BANKS }
  }

  /** The 32 interrupts that a written 64-bit value selects. */
  function Mask(value: u64): nat {
    if value < 0x8000_0000 then value else value % 0x8000_0000 + 0x8000_0000
  }

  /** Set registers take the or of what is written, clear registers the and-not, EOI clears one active bit. */
  function Step(r: Regs, e: Event): (r': Regs)
    requires r.Valid() && e.Legal()
    ensures r'.Valid()
  {
    match e
    case Write(SetEnable, g, v) => r.(enabled := r.enabled[g := Or(r.enabled[g], Mask(v))])
    case Write(ClearEnable, g, v) => r.(enabled := r.enabled[g := AndNot(r.enabled[g], Mask(v))])
    case Write(SetPending, g, v) => r.(pending := r.pending[g := Or(r.pending[g], Mask(v))])
    case Write(ClearPending, g, v) => r.(pending := r.pending[g := AndNot(r.pending[g], Mask(v))])
    case Write(SetActive, g, v) => r.(active := r.active[g := Or(r.active[g], Mask(v))])
    case Eoi(n) =>
      if n >= MAX_IRQ then r
      else r.(active := r.active[n / 32 := AndNot(r.active[n / 32], Pow2(n % 32))])
  }

  function Steps(r: Regs, es: seq<Event>): (r': Regs)
    requires r.Valid() && forall e :: e in es ==> e.Legal()
    ensures r'.Valid()
    decreases |es|
  {
    if es == [] then r else Steps(Step(r, es[0]), es[1..])
  }

  // ---- The distributor's own steps -----------------------------------------------

  function Apply(irq: seq<Irq>, e: Event): (irq': seq<Irq>)
    requires |irq| == MAX_IRQ && e.Legal()
    ensures |irq'| == MAX_IRQ
  {
    match e
    case Write(op, g, v) => Written(irq, op, g, v, 32)
    case Eoi(n) => Ended(irq, n)
  }

  function Run(irq: seq<Irq>, es: seq<Event>): (irq': seq<Irq>)
    requires |irq| == MAX_IRQ && forall e :: e in es ==> e.Legal()
    ensures |irq'| == MAX_IRQ
    decreases |es|
  {
    if es == [] then irq else Run(Apply(irq, es[0]), es[1..])
  }

  /** What reading every register returns. */
  function Reads(irq: seq<Irq>): (r: Regs)
    requires |irq| == MAX_IRQ
    ensures r.Valid()
    ensures forall view, g :: 0 <= g < BANKS ==> r.Of(view)[g] == Read(irq, view, g, 32)
  {
    Regs(seq(BANKS, g requires 0 <= g < BANKS => Read(irq, PendingView, g, 32)),
         seq(BANKS, g requires 0 <= g < BANKS => Read(irq, ActiveView, g, 32)),
         seq(BANKS, g requires 0 <= g < BANKS => Read(irq, EnabledView, g, 32)))
  }

  // ---- Refinement ----------------------------------------------------------------

  lemma MaskBit(value: u64, i: nat)
    requires i < 32
    ensures Bit(Mask(value), i) <==> Selected(value, i)
    ensures Mask(value) < Pow2(32)
  {
    hide Bit, Pow2;
    Pow2Values();
    if value >= 0x8000_0000 {
      BitSplit(1, value % 0x8000_0000, 31, i);
      BitMod(value, 31, i);
      if i == 31 {
        BitHead(1);
      }
    } else if i == 31 {
      HighBits(value, 31, 31);
    }
  }

  /** The sign extension is invisible exactly for values that fit 32 bits or have bit 31 set. */
  lemma MaskIsTruncationExactly(value: u64)
    ensures Mask(value) == value % 0x1_0000_0000 <==> value < 0x1_0000_0000 || value / 0x8000_0000 % 2 == 1
  {
  }

  /** An operation changes one property of the selected interrupts and no other property of any. */
  lemma HitHas(op: Op, p: Irq, view: View)
    ensures Has(view, Hit(op, p)) <==>
              match (op, view)
              case (SetEnable, EnabledView) => true
              case (ClearEnable, EnabledView) => false
              case (SetPending, PendingView) => true
              case (ClearPending, PendingView) => false
              case (SetActive, ActiveView) => true
              case _ => Has(view, p)
  {
  }

  /** What a register write does to one word of one view. */
  function Word(op: Op, view: View, w: nat, m: nat): nat {
    match (op, view)
    case (SetEnable, EnabledView) => Or(w, m)
    case (ClearEnable, EnabledView) => AndNot(w, m)
    case (SetPending, PendingView) => Or(w, m)
    case (ClearPending, PendingView) => AndNot(w, m)
    case (SetActive, ActiveView) => Or(w, m)
    case _ => w
  }

  lemma StepWord(r: Regs, op: Op, g: nat, v: u64, view: View, h: nat)
    requires r.Valid() && g < BANKS && h < BANKS
    ensures Step(r, Write(op, g, v)).Of(view)[h] == if h == g then Word(op, view, r.Of(view)[h], Mask(v)) else r.Of(view)[h]
  {
    hide Mask, Or, AndNot;
  }

  lemma WordBit(op: Op, p: Irq, view: View, w: nat, m: nat, i: nat)
    requires Bit(w, i) <==> Has(view, p)
    ensures Bit(Word(op, view, w, m), i) <==> if Bit(m, i) then Has(view, Hit(op, p)) else Has(view, p)
  {
    hide Bit, Hit, Has, Or, AndNot;
    HitHas(op, p, view);
    BitOr(w, m, i);
    BitAndNot(w, m, i);
  }

  lemma WrittenWordBit(irq: seq<Irq>, op: Op, g: nat, v: u64, view: View, h: nat, i: nat)
    requires |irq| == MAX_IRQ && g < BANKS && h < BANKS && i < 32
    ensures Bit(Step(Reads(irq), Write(op, g, v)).Of(view)[h], i) <==> Has(view, Written(irq, op, g, v, 32)[h * 32 + i])
  {
    hide Bit, Read, Mask, Selected, Hit, Has, Step, Word;
    StepWord(Reads(irq), op, g, v, view, h);
    ReadBit(irq, view, h, 32, i);
    if h == g {
      MaskBit(v, i);
      WordBit(op, irq[h * 32 + i], view, Reads(irq).Of(view)[h], Mask(v), i);
    }
  }

  lemma EndedWordBit(irq: seq<Irq>, n: nat, view: View, h: nat, i: nat)
    requires |irq| == MAX_IRQ && h < BANKS && i < 32
    ensures Bit(Step(Reads(irq), Eoi(n)).Of(view)[h], i) <==> Has(view, Ended(irq, n)[h * 32 + i])
  {
    hide Bit, Read, AndNot, Pow2;
    var w := Reads(irq).Of(view)[h];
    ReadBit(irq, view, h, 32, i);
    if n < MAX_IRQ && h == n / 32 {
      BitPow2(n % 32, i);
      BitAndNot(w, Pow2(n % 32), i);
    }
  }

  lemma StepBound(irq: seq<Irq>, e: Event, view: View, h: nat)
    requires |irq| == MAX_IRQ && e.Legal() && h < BANKS
    ensures Step(Reads(irq), e).Of(view)[h] < Pow2(32)
  {
    hide Read, Mask, Or, AndNot, Pow2;
    var w := Reads(irq).Of(view)[h];
    ReadBound(irq, view, h, 32, 32);
    if e.Write? {
      MaskBit(e.value, 0);
      OrBound(w, Mask(e.value), 32);
      AndNotBound(w, Mask(e.value));
    } else {
      AndNotBound(w, Pow2(e.irq % 32));
    }
  }

  /** One event: every register reads as the abstract register says. */
  lemma WordAfter(irq: seq<Irq>, e: Event, view: View, g: nat)
    requires |irq| == MAX_IRQ && e.Legal() && g < BANKS
    ensures Read(Apply(irq, e), view, g, 32) == Step(Reads(irq), e).Of(view)[g]
  {
    hide Bit, Read, Step, Pow2, Has, Written, Ended;
    var a, b := Read(Apply(irq, e), view, g, 32), Step(Reads(irq), e).Of(view)[g];
    forall i | 0 <= i < 32 ensures Bit(a, i) == Bit(b, i) {
      ReadBit(Apply(irq, e), view, g, 32, i);
      match e
      case Write(op, h, v) => WrittenWordBit(irq, op, h, v, view, g, i);
      case Eoi(n) => EndedWordBit(irq, n, view, g, i);
    }
    ReadBound(Apply(irq, e), view, g, 32, 32);
    StepBound(irq, e, view, g);
    SameBits(a, b, 32);
  }

  lemma StepRefines(irq: seq<Irq>, e: Event)
    requires |irq| == MAX_IRQ && e.Legal()
    ensures Reads(Apply(irq, e)) == Step(Reads(irq), e)
  {
    hide Step, Read, Apply;
    var a, b := Reads(Apply(irq, e)), Step(Reads(irq), e);
    forall view, g | 0 <= g < BANKS ensures a.Of(view)[g] == b.Of(view)[g] {
      WordAfter(irq, e, view, g);
    }
    assert a.pending == b.pending by { assert forall g :: 0 <= g < BANKS ==> a.Of(PendingView)[g] == b.Of(PendingView)[g]; }
    assert a.active == b.active by { assert forall g :: 0 <= g < BANKS ==> a.Of(ActiveView)[g] == b.Of(ActiveView)[g]; }
    assert a.enabled == b.enabled by { assert forall g :: 0 <= g < BANKS ==> a.Of(EnabledView)[g] == b.Of(EnabledView)[g]; }
  }

  /** Over any sequence of register writes and end-of-interrupts, reads return the running or / and-not of
      the written words: each event changes exactly the selected bits of one view. */
  lemma {:induction false} RegistersRefine(irq: seq<Irq>, es: seq<Event>)
    requires |irq| == MAX_IRQ && forall e :: e in es ==> e.Legal()
    ensures Reads(Run(irq, es)) == Steps(Reads(irq), es)
    decreases |es|
  {
    hide Reads, Step, Apply;
    if es != [] {
      StepRefines(irq, es[0]);
      RegistersRefine(Apply(irq, es[0]), es[1..]);
    }
  }

  /** One register access after another, by their offsets: a read shows the or / and-not of what was written to
      its own bank and property, and is otherwise unaffected. */
  lemma WriteThenRead(irq: seq<Irq>, offset: u64, value: u64, from: u64)
    requires |irq| == MAX_IRQ && DecodeWrite(offset).Some? && DecodeWrite(from).Some?
    ensures var ((op, g), (shown, h)) := (DecodeWrite(offset).value, DecodeWrite(from).value);
            var view := Shows(shown);
            Read(Written(irq, op, g, value, 32), view, h, 32) ==
            if h == g then Word(op, view, Read(irq, view, h, 32), Mask(value)) else Read(irq, view, h, 32)
  {
    hide Read, Mask, Word, Step, Written;
    var ((op, g), (shown, h)) := (DecodeWrite(offset).value, DecodeWrite(from).value);
    WordAfter(irq, Write(op, g, value), Shows(shown), h);
    StepWord(Reads(irq), op, g, value, Shows(shown), h);
  }
}
