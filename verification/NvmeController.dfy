/** The register interface of devices/apple-nvme/apple_nvme.c (NVMe 1.4, sections 3.1.5 and 3.1.6):
    enabling, disabling and doorbells, and what holds over every run of register writes by a driver
    that also changes guest memory as it likes.
 */
module NvmeController {
  import opened Bits
  import opened Bytes
  import opened NvmeDrain
  import opened NvmeStore

  const REG_CC: u64 := 0x14
  const REG_AQA: u64 := 0x24
  const REG_ASQ: u64 := 0x28
  const REG_ASQ_HIGH: u64 := 0x2C
  const REG_ACQ: u64 := 0x30
  const REG_ACQ_HIGH: u64 := 0x34
  const DOORBELLS: u64 := 0x1000
  const STRIDE: u64 := 4

  /** The controller's registers, flags and queues, with memory and disk. */
  datatype Ctl = Ctl(cc: u32, csts: u32, aqa: u32, asq: u64, acq: u64, enabled: bool, ready: bool,
                     adminSq: Queue, adminCq: Queue, s: Sys)

  const ZERO_QUEUE := Queue(0, 0, 0, 0, false, 0)

  /** apple_nvme_init */
  function Init(ram: seq<u8>, disk: seq<u8>): Ctl {
    var qs := seq(MAX_QUEUES, _ => ZERO_QUEUE);
    Ctl(0, 0, 0, 0, 0, false, false, ZERO_QUEUE, ZERO_QUEUE, Sys(ram, disk, Queues(qs, qs, 0), false))
  }

  // ---- Configuration --------------------------------------------------------------

  /** CC.EN going up: the admin pair from AQA, ASQ and ACQ. */
  function Enable(x: Ctl): Ctl {
    x.(enabled := true, ready := true, csts := x.csts - x.csts % 2 + 1,
       adminSq := x.adminSq.(base := x.asq, size := x.aqa % 0x1000, head := 0, tail := 0, valid := true),
       adminCq := x.adminCq.(base := x.acq, size := x.aqa / 0x1_0000 % 0x1000, head := 0, valid := true))
  }

  function Invalidated(qs: seq<Queue>): (r: seq<Queue>)
    ensures |r| == |qs| && forall i :: 0 <= i < |qs| ==> r[i] == qs[i].(valid := false)
  {
    seq(|qs|, i requires 0 <= i < |qs| => qs[i].(valid := false))
  }

  /** CC.EN going down: every queue invalid. */
  function Disable(x: Ctl): Ctl {
    x.(enabled := false, ready := false, csts := x.csts - x.csts % 2,
       adminSq := x.adminSq.(valid := false), adminCq := x.adminCq.(valid := false),
       s := x.s.(queues := Queues(Invalidated(x.s.queues.sq), Invalidated(x.s.queues.cq), 0)))
  }

  /** A shutdown notification in CC is or-ed into CSTS.SHST. */
  function Shutdown(csts: u32, cc: u32): u32 {
    Pow2Values();
    OrBound(csts, cc / 0x4000 % 4 * 4, 32);
    Or(csts, cc / 0x4000 % 4 * 4)
  }

  function WriteCc(x: Ctl, v: u32): Ctl {
    var y := x.(cc := v);
    var z := if x.cc % 2 == 0 && v % 2 == 1 then Enable(y) else if x.cc % 2 == 1 && v % 2 == 0 then Disable(y) else y;
    z.(csts := Shutdown(z.csts, v))
  }

  // ---- Doorbells ----------------------------------------------------------------

  function DoorbellIndex(offset: u64): nat
    requires offset >= DOORBELLS
  {
    (offset - DOORBELLS) as int / STRIDE as int % TWO32
  }

  function AdminSq(x: Ctl, tail: u16): Queue { x.adminSq.(tail := tail) }

  /** nvme_process_admin_cmd after the tail doorbell */
  function RingAdmin(env: Env, x: Ctl, tail: u16): Ctl
    requires x.s.queues.Shaped() && x.adminSq.head <= x.adminSq.size && Halts(env, AdminSq(x, tail), |x.s.ram|)
  {
    var sq := AdminSq(x, tail);
    var (y, head) := Loop(env, Admin, sq, sq.head, Live(x.s, x.adminCq));
    x.(adminSq := sq.(head := head), adminCq := y.cq, s := y.s)
  }

  /** nvme_process_io_sq after the tail doorbell */
  function RingIo(env: Env, x: Ctl, qid: nat, tail: u16): Ctl
    requires x.s.queues.Shaped() && qid < MAX_QUEUES
    requires x.s.queues.cq[qid].valid ==>
               && x.s.queues.sq[qid].head <= x.s.queues.sq[qid].size
               && Halts(env, x.s.queues.sq[qid].(tail := tail), |x.s.ram|)
  {
    var s := WithTail(x.s, qid, tail);
    var sq, cq := s.queues.sq[qid], s.queues.cq[qid];
    if !sq.valid || !cq.valid then x.(s := s)
    else
      var (y, head) := Loop(env, Io(sq.id), sq, sq.head, Live(s, cq));
      x.(s := y.s.(queues := Queues(s.queues.sq[qid := sq.(head := head)], s.queues.cq[qid := y.cq], s.queues.count)))
  }

  function WithTail(s: Sys, qid: nat, tail: u16): (r: Sys)
    requires s.queues.Shaped() && qid < MAX_QUEUES
    ensures r.queues.Shaped()
  {
    s.(queues := s.queues.(sq := s.queues.sq[qid := s.queues.sq[qid].(tail := tail)]))
  }

  /** A tail doorbell that starts a loop starts one that comes to a stop: by `HaltsExactly`, its tail lies in
      the ring or DMA does not deliver some entry of the ring. */
  ghost predicate Ends(env: Env, x: Ctl, offset: u64, value: u64)
    requires x.s.queues.Shaped()
  {
    offset >= DOORBELLS && x.enabled && DoorbellIndex(offset) % 2 == 0 ==>
      var qid, tail := DoorbellIndex(offset) / 2, value % 0x1_0000;
      && (qid == 0 ==> x.adminSq.head <= x.adminSq.size && Halts(env, AdminSq(x, tail), |x.s.ram|))
      && (0 < qid < MAX_QUEUES && x.s.queues.sq[qid].valid && x.s.queues.cq[qid].valid ==>
            && x.s.queues.sq[qid].head <= x.s.queues.sq[qid].size
            && Halts(env, x.s.queues.sq[qid].(tail := tail), |x.s.ram|))
  }

  /** apple_nvme_mmio_write, without the interrupt mask registers. */
  function Write(env: Env, x: Ctl, offset: u64, value: u64): (y: Ctl)
    requires x.s.queues.Shaped() && Ends(env, x, offset, value)
  {
    if offset < DOORBELLS then
      if offset == REG_CC then WriteCc(x, value % 0x1_0000_0000)
      else if offset == REG_AQA then x.(aqa := value % 0x1_0000_0000)
      else if offset == REG_ASQ then x.(asq := SetLow(x.asq, value))
      else if offset == REG_ASQ_HIGH then x.(asq := SetHigh(x.asq, value))
      else if offset == REG_ACQ then x.(acq := SetLow(x.acq, value))
      else if offset == REG_ACQ_HIGH then x.(acq := SetHigh(x.acq, value))
      else x
    else if !x.enabled then x
    else
      var qid, tail := DoorbellIndex(offset) / 2, value % 0x1_0000;
      if DoorbellIndex(offset) % 2 == 1 then
        if qid == 0 then x.(adminCq := x.adminCq.(head := tail))
        else if qid < MAX_QUEUES && x.s.queues.cq[qid].valid then
          x.(s := x.s.(queues := x.s.queues.(cq := x.s.queues.cq[qid := x.s.queues.cq[qid].(head := tail)])))
        else x
      else if qid == 0 then RingAdmin(env, x, tail)
      else if qid < MAX_QUEUES && x.s.queues.sq[qid].valid then RingIo(env, x, qid, tail)
      else x
  }

  /** Queue `qid`'s tail doorbell is the register at 0x1000 + 8 * qid, its completion queue's the one four bytes on. */
  lemma DoorbellsDecode(offset: u64, qid: nat)
    requires 0x1000 <= offset < 0x1_0000_0000
    ensures DoorbellIndex(offset) / 2 == qid && DoorbellIndex(offset) % 2 == 0 <==> 0x1000 + 8 * qid <= offset as int < 0x1004 + 8 * qid
    ensures DoorbellIndex(offset) / 2 == qid && DoorbellIndex(offset) % 2 == 1 <==> 0x1004 + 8 * qid <= offset as int < 0x1008 + 8 * qid
  {
  }

  /** A completion queue's head doorbell moves the position at which the controller posts its own next completion. */
  lemma HeadDoorbellMoves(env: Env, x: Ctl, qid: nat, value: u64)
    requires x.s.queues.Shaped() && x.enabled && qid < 0x1000
    ensures Ends(env, x, 0x1004 + 8 * qid, value)
    ensures var y, head: u16 := Write(env, x, 0x1004 + 8 * qid, value), value as int % 0x1_0000;
            && (qid == 0 ==> y == x.(adminCq := x.adminCq.(head := head)))
            && (0 < qid < 4 && x.s.queues.cq[qid].valid ==>
                  y == x.(s := x.s.(queues := x.s.queues.(cq := x.s.queues.cq[qid := x.s.queues.cq[qid].(head := head)]))))
            && (qid >= 4 || (qid > 0 && !x.s.queues.cq[qid].valid) ==> y == x)
  {
    hide Halts, Loop;
    DoorbellsDecode(0x1004 + 8 * qid, qid);
  }

  /** A tail doorbell works only for a valid pair of an enabled controller: without the submission queue nothing happens,
      without the completion queue the tail is stored and the commands wait. */
  lemma TailDoorbellStarts(env: Env, x: Ctl, qid: nat, value: u64)
    requires x.s.queues.Shaped() && 0 < qid < 0x1000 && Ends(env, x, 0x1000 + 8 * qid, value)
    ensures var y, tail: u16 := Write(env, x, 0x1000 + 8 * qid, value), value as int % 0x1_0000;
            && (!x.enabled || qid >= 4 || !x.s.queues.sq[qid].valid ==> y == x)
            && (x.enabled && qid < 4 && x.s.queues.sq[qid].valid && !x.s.queues.cq[qid].valid ==>
                  y == x.(s := x.s.(queues := x.s.queues.(sq := x.s.queues.sq[qid := x.s.queues.sq[qid].(tail := tail)]))))
            && (x.enabled && qid < 4 && x.s.queues.sq[qid].valid && x.s.queues.cq[qid].valid ==>
                  var sq := x.s.queues.sq[qid].(tail := tail);
                  sq.head <= sq.size && Halts(env, sq, |x.s.ram|)
                  && y.s.ram == Loop(env, Io(sq.id), sq, sq.head, Live(WithTail(x.s, qid, tail), x.s.queues.cq[qid])).0.s.ram)
  {
    hide Halts, Loop;
    DoorbellsDecode(0x1000 + 8 * qid, qid);
  }

  // ---- Bringing the controller up ---------------------------------------------------

  /** A driver's writes: sizes and addresses of the admin pair, then CC with its enable bit. */
  function Bringup(sqSize: u16, cqSize: u16, asq: u64, acq: u64, cc: u32): seq<(u64, u64)>
    requires sqSize < 0x1000 && cqSize < 0x1000
  {
    [(0x24, sqSize as int + 0x1_0000 * cqSize as int),
     (0x28, asq % 0x1_0000_0000), (0x2C, asq / 0x1_0000_0000),
     (0x30, acq % 0x1_0000_0000), (0x34, acq / 0x1_0000_0000), (0x14, cc as u64)]
  }

  /** `xs` are the states that these writes below the doorbells pass through. */
  ghost predicate Follows(env: Env, xs: seq<Ctl>, ws: seq<(u64, u64)>) {
    && |xs| == |ws| + 1
    && forall k :: 0 <= k < |ws| ==>
         xs[k].s.queues.Shaped() && ws[k].0 < 0x1000 && xs[k + 1] == Write(env, xs[k], ws[k].0, ws[k].1)
  }

  lemma AddressSet(env: Env, x: Ctl, low: u64, a: u64)
    requires x.s.queues.Shaped() && low in {0x28, 0x30}
    ensures Write(env, x, low, a % 0x1_0000_0000).s == x.s
    ensures Write(env, Write(env, x, low, a % 0x1_0000_0000), low + 4, a / 0x1_0000_0000) == if low == 0x28 then x.(asq := a) else x.(acq := a)
  {
    hide SetLow, SetHigh;
    HalvesMeet(a, if low == 0x28 then x.asq else x.acq);
  }

  lemma EnableWritten(env: Env, x: Ctl, cc: u32)
    requires x.s.queues.Shaped() && x.cc % 2 == 0 && cc % 2 == 1
    ensures var y := Write(env, x, 0x14, cc as u64);
            && y.cc == cc && y.enabled && y.ready && Bit(y.csts, 0) && y.s == x.s
            && y.adminSq == Queue(x.asq, x.aqa % 0x1000, 0, 0, true, x.adminSq.id)
            && y.adminCq == Queue(x.acq, x.aqa / 0x1_0000 % 0x1000, 0, x.adminCq.tail, true, x.adminCq.id)
  {
    hide Shutdown;
    ShutdownKeepsReady(Enable(x.(cc := cc)).csts, cc);
    BitHead(Write(env, x, 0x14, cc as u64).csts);
  }

  /** The five writes before CC set the three registers and nothing else. */
  lemma BringupRegisters(env: Env, xs: seq<Ctl>, sqSize: u16, cqSize: u16, asq: u64, acq: u64, cc: u32)
    requires sqSize < 0x1000 && cqSize < 0x1000 && Follows(env, xs, Bringup(sqSize, cqSize, asq, acq, cc))
    ensures |xs| == 7 && xs[0].s.queues.Shaped()
    ensures xs[5] == xs[0].(aqa := sqSize as int + 0x1_0000 * cqSize as int, asq := asq, acq := acq)
    ensures xs[6] == Write(env, xs[5], 0x14, cc as u64)
  {
    var x := xs[0];
    assert x.s.queues.Shaped() && xs[1] == x.(aqa := sqSize as int + 0x1_0000 * cqSize as int);
    hide Write;
    var ws := Bringup(sqSize, cqSize, asq, acq, cc);
    assert xs[2] == Write(env, xs[1], ws[1].0, ws[1].1) && xs[3] == Write(env, xs[2], ws[2].0, ws[2].1);
    AddressSet(env, xs[1], 0x28, asq);
    assert xs[3] == xs[1].(asq := asq);
    assert xs[4] == Write(env, xs[3], ws[3].0, ws[3].1) && xs[5] == Write(env, xs[4], ws[4].0, ws[4].1);
    AddressSet(env, xs[3], 0x30, acq);
    assert xs[5] == xs[3].(acq := acq);
    assert xs[6] == Write(env, xs[5], ws[5].0, ws[5].1);
  }

  /** Whatever the registers held, the admin pair of a disabled controller comes up as these writes say: empty rings of
      `size + 1` entries at the two addresses, ready to be used. */
  lemma BringupReaches(env: Env, xs: seq<Ctl>, sqSize: u16, cqSize: u16, asq: u64, acq: u64, cc: u32)
    requires sqSize < 0x1000 && cqSize < 0x1000 && Follows(env, xs, Bringup(sqSize, cqSize, asq, acq, cc))
    requires xs[0].cc % 2 == 0 && cc % 2 == 1
    ensures var x, y := xs[0], xs[6];
            && y.cc == cc && y.enabled && y.ready && Bit(y.csts, 0) && y.s == x.s
            && y.adminSq == Queue(asq, sqSize, 0, 0, true, x.adminSq.id)
            && y.adminCq == Queue(acq, cqSize, 0, x.adminCq.tail, true, x.adminCq.id)
  {
    hide Bit, Write, Follows;
    BringupRegisters(env, xs, sqSize, cqSize, asq, acq, cc);
    EnableWritten(env, xs[5], cc);
  }

  // ---- Lifecycle ------------------------------------------------------------------

  /** CC.EN, the two flags, CSTS.RDY and both admin queues tell the same story; a disabled controller has
      no I/O queue; pair 0 is never an I/O queue; every loop starts inside its ring. */
  ghost predicate Lifecycle(x: Ctl) {
    && (x.enabled <==> x.cc % 2 == 1)
    && (x.ready <==> x.enabled)
    && (x.csts % 2 == 1 <==> x.enabled)
    && (x.adminSq.valid <==> x.enabled) && (x.adminCq.valid <==> x.enabled)
    && NoPairZero(x.s.queues)
    && (!x.enabled ==> x.s.queues.count == 0 && forall i :: 0 <= i < MAX_QUEUES ==> !x.s.queues.sq[i].valid && !x.s.queues.cq[i].valid)
    && x.adminSq.head <= x.adminSq.size
    && HeadsInside(x.s.queues)
  }

  ghost predicate HeadsInside(q: Queues)
    requires q.Shaped()
  {
    forall i :: 0 <= i < MAX_QUEUES ==> q.sq[i].head <= q.sq[i].size
  }

  lemma ShutdownKeepsReady(csts: u32, cc: u32)
    ensures Shutdown(csts, cc) % 2 == csts % 2
  {
    hide Or;
    var shn := cc / 0x4000 % 4 * 4;
    BitOr(csts, shn, 0);
    BitHead(csts);
    BitHead(shn);
    BitHead(Shutdown(csts, cc));
  }

  /** The shutdown notification in bits 14 and 15 of CC turns up in bits 2 and 3 of CSTS, where it stays; no other bit
      of CSTS changes. */
  lemma ShutdownBits(csts: u32, cc: u32, i: nat)
    ensures Bit(Shutdown(csts, cc), i) <==> Bit(csts, i) || (2 <= i <= 3 && Bit(cc, i + 12))
  {
    hide Or, Bit;
    Pow2Values();
    assert Pow2(14) == 0x4000 by { Pow2Add(8, 6); }
    var m := Shr(cc, 14) % Pow2(2);
    BitOr(csts, cc / 0x4000 % 4 * 4, i);
    BitSplit(m, 0, 2, i);
    ZeroBits(i);
    if i >= 2 {
      BitMod(Shr(cc, 14), 2, i - 2);
      BitDiv(cc, 14, i - 2);
    }
  }

  /** CC acts only when its enable bit changes: otherwise only CC and the shutdown bits of CSTS do; going down makes every
      queue invalid and keeps where each one is. */
  lemma CcTransitions(x: Ctl, v: u32)
    requires x.s.queues.Shaped()
    ensures x.cc % 2 == v % 2 ==> WriteCc(x, v) == x.(cc := v, csts := Shutdown(x.csts, v))
    ensures x.cc % 2 == 1 && v % 2 == 0 ==>
              var y := WriteCc(x, v);
              && !y.enabled && !y.ready && y.s.ram == x.s.ram && y.s.disk == x.s.disk && y.s.queues.Shaped() && y.s.queues.count == 0
              && y.adminSq == x.adminSq.(valid := false) && y.adminCq == x.adminCq.(valid := false)
              && forall i :: 0 <= i < 4 ==>
                   && y.s.queues.sq[i] == x.s.queues.sq[i].(valid := false)
                   && y.s.queues.cq[i] == x.s.queues.cq[i].(valid := false)
  {
    hide Shutdown;
  }

  lemma CcKeepsLifecycle(x: Ctl, v: u32)
    requires Lifecycle(x)
    ensures Lifecycle(WriteCc(x, v))
  {
    hide Shutdown;
    ShutdownKeepsReady(x.csts, v);
    ShutdownKeepsReady(Enable(x).csts, v);
    ShutdownKeepsReady(Disable(x).csts, v);
  }

  lemma ExecKeepsHeads(env: Env, src: Source, c: Cmd, s: Sys)
    requires NoPairZero(s.queues) && HeadsInside(s.queues)
    ensures NoPairZero(Exec(env, src, c, s).0.queues) && HeadsInside(Exec(env, src, c, s).0.queues)
  {
    hide Blit, Transfer, Feature, Identify;
  }

  /** The loops keep the queue table sound, and change of the completion queue only its position. */
  lemma {:induction false} LoopKeeps(env: Env, src: Source, sq: Queue, head: u16, x: Live)
    requires head <= sq.size && Halts(env, sq, |x.s.ram|) && NoPairZero(x.s.queues) && HeadsInside(x.s.queues)
    ensures var y := Loop(env, src, sq, head, x).0;
            && NoPairZero(y.s.queues) && HeadsInside(y.s.queues)
            && y.cq == x.cq.(head := y.cq.head)
    decreases Turns(env, sq, head, |x.s.ram|)
  {
    hide NoPairZero, HeadsInside, Exec, CmdAt, Dma, Strays, Halts, CqeBytes, Blit;
    assert x.s.queues.Shaped() by { PairZeroShaped(x.s.queues); }
    var addr := EntryAddr(sq, head, SQE);
    if head != sq.tail && Dma(env, |x.s.ram|, addr, SQE) {
      DmaInside(env, |x.s.ram|, addr, SQE);
      var c := CmdAt(x.s.ram, addr as int - env.ramBase as int);
      TurnsNext(env, sq, head, |x.s.ram|);
      ExecKeepsHeads(env, src, c, x.s);
      LoopKeeps(env, src, sq, NextIndex(sq, head), Turn(env, src, c, x));
    }
  }

  lemma PairZeroShaped(q: Queues)
    requires NoPairZero(q)
    ensures q.Shaped()
  {
  }

  lemma DoorbellKeepsLifecycle(env: Env, x: Ctl, offset: u64, value: u64)
    requires Lifecycle(x) && offset >= DOORBELLS && Ends(env, x, offset, value)
    ensures Lifecycle(Write(env, x, offset, value))
  {
    hide Loop;
    var qid, tail := DoorbellIndex(offset) / 2, value % 0x1_0000;
    if x.enabled && DoorbellIndex(offset) % 2 == 0 {
      if qid == 0 {
        LoopKeeps(env, Admin, AdminSq(x, tail), x.adminSq.head, Live(x.s, x.adminCq));
      } else if qid < MAX_QUEUES && x.s.queues.sq[qid].valid && x.s.queues.cq[qid].valid {
        var s := WithTail(x.s, qid, tail);
        LoopKeeps(env, Io(s.queues.sq[qid].id), s.queues.sq[qid], s.queues.sq[qid].head, Live(s, s.queues.cq[qid]));
      }
    }
  }

  lemma WriteKeepsLifecycle(env: Env, x: Ctl, offset: u64, value: u64)
    requires Lifecycle(x) && Ends(env, x, offset, value)
    ensures Lifecycle(Write(env, x, offset, value))
  {
    hide Loop, WriteCc;
    if offset >= DOORBELLS {
      DoorbellKeepsLifecycle(env, x, offset, value);
    } else if offset == REG_CC {
      CcKeepsLifecycle(x, value % 0x1_0000_0000);
    }
  }

  // ---- Runs ------------------------------------------------------------------------

  /** Register writes, and a guest that stores whatever it likes in its own memory. */
  datatype Event = Mmio(offset: u64, value: u64) | Guest(ram: seq<u8>)

  ghost predicate Legal(env: Env, x: Ctl, e: Event)
    requires x.s.queues.Shaped()
  {
    match e
    case Mmio(offset, value) => Ends(env, x, offset, value)
    case Guest(ram) => |ram| == |x.s.ram|
  }

  function Step(env: Env, x: Ctl, e: Event): Ctl
    requires x.s.queues.Shaped() && Legal(env, x, e)
  {
    match e
    case Mmio(offset, value) => Write(env, x, offset, value)
    case Guest(ram) => x.(s := x.s.(ram := ram))
  }

  lemma StepKeepsLifecycle(env: Env, x: Ctl, e: Event)
    requires Lifecycle(x) && Legal(env, x, e)
    ensures Lifecycle(Step(env, x, e))
  {
    hide Write;
    if e.Mmio? {
      WriteKeepsLifecycle(env, x, e.offset, e.value);
    }
  }

  ghost predicate LegalRun(env: Env, x: Ctl, es: seq<Event>)
    decreases |es|
  {
    es != [] ==> x.s.queues.Shaped() && Legal(env, x, es[0]) && LegalRun(env, Step(env, x, es[0]), es[1..])
  }

  ghost function Run(env: Env, x: Ctl, es: seq<Event>): Ctl
    requires LegalRun(env, x, es)
    decreases |es|
  {
    if es == [] then x else Run(env, Step(env, x, es[0]), es[1..])
  }

  lemma {:induction false} RunKeepsLifecycle(env: Env, x: Ctl, es: seq<Event>)
    requires Lifecycle(x) && LegalRun(env, x, es)
    ensures Lifecycle(Run(env, x, es))
    decreases |es|
  {
    hide Lifecycle, Step, Legal;
    if es != [] {
      StepKeepsLifecycle(env, x, es[0]);
      RunKeepsLifecycle(env, Step(env, x, es[0]), es[1..]);
    }
  }

  /** In every state reachable from power-on the lifecycle facts hold. */
  lemma LifecycleAlways(env: Env, ram: seq<u8>, disk: seq<u8>, es: seq<Event>)
    requires LegalRun(env, Init(ram, disk), es)
    ensures Lifecycle(Run(env, Init(ram, disk), es))
  {
    hide LegalRun, Run;
    RunKeepsLifecycle(env, Init(ram, disk), es);
  }
}
