/** The disk behind the NVMe controller over whole runs: a history of the successful reads and writes, in
    submission order, that explains every byte.
 */
module NvmeHistory {
  import opened Bytes
  import opened DiskFile
  import opened NvmeController
  import opened NvmeDrain
  import opened NvmeStore
  import opened NvmeTidy
  import opened Options

  /** A write that succeeded, or the bytes that a successful read left in the guest's buffer. */
  datatype Op = Wrote(off: nat, data: seq<u8>) | Fetched(off: nat, data: seq<u8>)

  /** The history is a legal run of a plain byte store from `disk` to `final`: writes patch their range, and
      each read got what the store held at that point. */
  ghost predicate Explains(disk: seq<u8>, ops: seq<Op>, final: seq<u8>)
    decreases |ops|
  {
    if ops == [] then disk == final
    else
      ops[0].off + |ops[0].data| <= |disk| &&
      match ops[0]
      case Wrote(off, data) => Explains(Blit(disk, off, data), ops[1..], final)
      case Fetched(off, data) => At(disk, off, data) && Explains(disk, ops[1..], final)
  }

  lemma {:induction false} ExplainsConcat(disk: seq<u8>, a: seq<Op>, mid: seq<u8>, b: seq<Op>, final: seq<u8>)
    requires Explains(disk, a, mid) && Explains(mid, b, final)
    ensures Explains(disk, a + b, final)
    decreases |a|
  {
    hide Blit, At;
    if a == [] {
      assert a + b == b;
    } else {
      assert (a + b)[1..] == a[1..] + b;
      ExplainsConcat(if a[0].Wrote? then Blit(disk, a[0].off, a[0].data) else disk, a[1..], mid, b, final);
    }
  }

  // ---- Histories of the controller -----------------------------------------------------

  /** What one command adds to the history. */
  ghost function CommandOps(env: Env, src: Source, c: Cmd, s: Sys): seq<Op>
    requires Backed(env, s.disk)
  {
    if src.Admin? || Transfer(env, c, s).1 != OK || Strays(env, |s.ram|, c.dptr, ByteCount(c)) then []
    else
      SucceedsExactly(env, c, s);
      if c.opcode == OP_WRITE then [Wrote(ByteOffset(c) as nat, Payload(env, c, s.ram))]
      else if c.opcode == OP_READ then [Fetched(ByteOffset(c) as nat, Payload(env, c, Transfer(env, c, s).0.ram))]
      else []
  }

  /** Every command keeps the size of the disk and, unless its buffer strayed, is explained by what it adds. */
  lemma CommandExplained(env: Env, src: Source, c: Cmd, s: Sys)
    requires s.queues.Shaped() && Backed(env, s.disk)
    ensures |Exec(env, src, c, s).0.disk| == |s.disk|
    ensures !Exec(env, src, c, s).0.lost ==> Explains(s.disk, CommandOps(env, src, c, s), Exec(env, src, c, s).0.disk)
    ensures env.readOnly ==> Exec(env, src, c, s).0.disk == s.disk
  {
    hide ExecAdmin, Slba, Nlb, Payload, FileRead, FileWrite, Passes, Inside, Blit, CanSeek;
    if src.Io? {
      SucceedsExactly(env, c, s);
    }
    if src.Io? && !Strays(env, |s.ram|, c.dptr, ByteCount(c)) {
      if c.opcode == OP_WRITE && Transfer(env, c, s).1 == OK {
        WriteStores(env, c, s);
      } else if c.opcode == OP_READ && Transfer(env, c, s).1 == OK {
        ReadDelivers(env, c, s);
      }
    }
  }

  ghost function LoopOps(env: Env, src: Source, sq: Queue, head: u16, x: Live): seq<Op>
    requires head <= sq.size && Halts(env, sq, |x.s.ram|) && x.s.queues.Shaped() && Backed(env, x.s.disk)
    decreases Turns(env, sq, head, |x.s.ram|)
  {
    var addr := EntryAddr(sq, head, SQE);
    if head == sq.tail || !Dma(env, |x.s.ram|, addr, SQE) then []
    else
      var c := CmdAt(x.s.ram, addr as int - env.ramBase as int);
      TurnsNext(env, sq, head, |x.s.ram|);
      CommandExplained(env, src, c, x.s);
      CommandOps(env, src, c, x.s) + LoopOps(env, src, sq, NextIndex(sq, head), Turn(env, src, c, x))
  }

  lemma {:induction false} LoopExplained(env: Env, src: Source, sq: Queue, head: u16, x: Live)
    requires head <= sq.size && Halts(env, sq, |x.s.ram|) && x.s.queues.Shaped() && Backed(env, x.s.disk)
    ensures var y := Loop(env, src, sq, head, x).0;
            && |y.s.disk| == |x.s.disk| && (!y.s.lost ==> Explains(x.s.disk, LoopOps(env, src, sq, head, x), y.s.disk))
            && (env.readOnly ==> y.s.disk == x.s.disk)
    decreases Turns(env, sq, head, |x.s.ram|)
  {
    hide Exec, CommandOps, CmdAt, Dma, Strays, Halts, Turns, NextIndex, CqeBytes, Blit, Explains;
    ExplainsNothing(x.s.disk);
    var addr := EntryAddr(sq, head, SQE);
    if head != sq.tail && Dma(env, |x.s.ram|, addr, SQE) {
      DmaInside(env, |x.s.ram|, addr, SQE);
      var c := CmdAt(x.s.ram, addr as int - env.ramBase as int);
      TurnsNext(env, sq, head, |x.s.ram|);
      CommandExplained(env, src, c, x.s);
      var y := Turn(env, src, c, x);
      LoopExplained(env, src, sq, NextIndex(sq, head), y);
      if !Loop(env, src, sq, head, x).0.s.lost {
        ExplainsConcat(x.s.disk, CommandOps(env, src, c, x.s), y.s.disk,
                       LoopOps(env, src, sq, NextIndex(sq, head), y), Loop(env, src, sq, NextIndex(sq, head), y).0.s.disk);
      }
    }
  }

  /** The loop, if any, that a register write starts: its source, its submission queue and the state it starts in. */
  function Starts(x: Ctl, offset: u64, value: u64): (r: Option<(Source, Queue, Live)>)
    requires x.s.queues.Shaped()
    ensures r.Some? ==> r.value.2.s.queues.Shaped() && r.value.2.s.disk == x.s.disk && r.value.2.s.lost == x.s.lost
  {
    if offset < DOORBELLS || !x.enabled || DoorbellIndex(offset) % 2 == 1 then None
    else
      var qid, tail := DoorbellIndex(offset) / 2, value % 0x1_0000;
      if qid == 0 then Some((Admin, AdminSq(x, tail), Live(x.s, x.adminCq)))
      else if qid < MAX_QUEUES && x.s.queues.sq[qid].valid && x.s.queues.cq[qid].valid then
        var s := WithTail(x.s, qid, tail);
        Some((Io(s.queues.sq[qid].id), s.queues.sq[qid], Live(s, s.queues.cq[qid])))
      else None
  }

  ghost function StepOps(env: Env, x: Ctl, e: Event): seq<Op>
    requires x.s.queues.Shaped() && Legal(env, x, e) && Backed(env, x.s.disk)
  {
    if e.Guest? then []
    else
      match Starts(x, e.offset, e.value)
      case None => []
      case Some((src, sq, y)) => LoopOps(env, src, sq, sq.head, y)
  }

  lemma StepExplained(env: Env, x: Ctl, e: Event)
    requires x.s.queues.Shaped() && Legal(env, x, e) && Backed(env, x.s.disk)
    ensures var y := Step(env, x, e);
            && |y.s.disk| == |x.s.disk| && (!y.s.lost ==> Explains(x.s.disk, StepOps(env, x, e), y.s.disk))
            && (env.readOnly ==> y.s.disk == x.s.disk) && (x.s.lost ==> y.s.lost)
  {
    hide Loop, LoopOps;
    if e.Mmio? && Starts(x, e.offset, e.value).Some? {
      var (src, sq, y) := Starts(x, e.offset, e.value).value;
      LoopExplained(env, src, sq, sq.head, y);
    }
  }

  ghost function RunOps(env: Env, x: Ctl, es: seq<Event>): seq<Op>
    requires LegalRun(env, x, es) && Backed(env, x.s.disk)
    decreases |es|
  {
    if es == [] then []
    else
      StepExplained(env, x, es[0]);
      StepOps(env, x, es[0]) + RunOps(env, Step(env, x, es[0]), es[1..])
  }

  /** Over any run of doorbells and other register writes, with guest memory changing in between, and as long as no
      DMA copy has left guest RAM, the history explains the disk: it is the fold of the successful writes in submission
      order, and every successful read delivered the bytes of its point in that fold. */
  lemma {:induction false} ExplainedUnlessLost(env: Env, x: Ctl, es: seq<Event>)
    requires LegalRun(env, x, es) && Backed(env, x.s.disk)
    ensures !Run(env, x, es).s.lost ==> Explains(x.s.disk, RunOps(env, x, es), Run(env, x, es).s.disk)
    ensures env.readOnly ==> Run(env, x, es).s.disk == x.s.disk
    ensures x.s.lost ==> Run(env, x, es).s.lost
    decreases |es|
  {
    hide Step, StepOps, Legal, Explains, Backed;
    if es == [] {
      ExplainsNothing(x.s.disk);
    } else {
      var y := Step(env, x, es[0]);
      StepExplained(env, x, es[0]);
      BackedSize(env, x.s.disk, y.s.disk);
      ExplainedUnlessLost(env, y, es[1..]);
      if !Run(env, x, es).s.lost {
        ExplainsConcat(x.s.disk, StepOps(env, x, es[0]), y.s.disk, RunOps(env, y, es[1..]), Run(env, y, es[1..]).s.disk);
      }
    }
  }

  /** Every doorbell of the run is tidy: rings below the top of the address space, data pointers that do not
      stray, and nothing that overlaps the entries still to be fetched. */
  ghost predicate TidyRun(env: Env, x: Ctl, es: seq<Event>)
    requires LegalRun(env, x, es)
    decreases |es|
  {
    es != [] ==>
      && (es[0].Mmio? && Starts(x, es[0].offset, es[0].value).Some? ==>
            var (src, sq, y) := Starts(x, es[0].offset, es[0].value).value; Tidy(env, src, sq, y.cq, y.s.ram))
      && TidyRun(env, Step(env, x, es[0]), es[1..])
  }

  lemma StepTidy(env: Env, x: Ctl, e: Event)
    requires x.s.queues.Shaped() && Legal(env, x, e) && !x.s.lost
    requires e.Mmio? && Starts(x, e.offset, e.value).Some? ==>
               var (src, sq, y) := Starts(x, e.offset, e.value).value; Tidy(env, src, sq, y.cq, y.s.ram)
    ensures !Step(env, x, e).s.lost
  {
    hide Loop, Tidy;
    if e.Mmio? && Starts(x, e.offset, e.value).Some? {
      var (src, sq, y) := Starts(x, e.offset, e.value).value;
      TidyHolds(env, src, sq, y);
    }
  }

  lemma {:induction false} TidyRunHolds(env: Env, x: Ctl, es: seq<Event>)
    requires LegalRun(env, x, es) && TidyRun(env, x, es) && !x.s.lost
    ensures !Run(env, x, es).s.lost
    decreases |es|
  {
    hide Step, Legal, Tidy;
    if es != [] {
      StepTidy(env, x, es[0]);
      TidyRunHolds(env, Step(env, x, es[0]), es[1..]);
    }
  }

  /** Over every run whose doorbells are tidy, the disk is the fold of the successful writes in submission order, every
      successful read delivered the bytes of its point in that fold, and a read-only disk never changes. */
  lemma StoreExplained(env: Env, x: Ctl, es: seq<Event>)
    requires LegalRun(env, x, es) && TidyRun(env, x, es) && !x.s.lost && Backed(env, x.s.disk)
    ensures Explains(x.s.disk, RunOps(env, x, es), Run(env, x, es).s.disk)
    ensures env.readOnly ==> Run(env, x, es).s.disk == x.s.disk
  {
    hide *;
    TidyRunHolds(env, x, es);
    ExplainedUnlessLost(env, x, es);
  }

  lemma ExplainsNothing(disk: seq<u8>)
    ensures Explains(disk, [], disk)
  {
  }

  lemma BackedSize(env: Env, a: seq<u8>, b: seq<u8>)
    requires Backed(env, a) && |b| == |a|
    ensures Backed(env, b)
  {
  }
}
