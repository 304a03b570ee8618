/** NVMe's memory formats as a driver writes and reads them (NVMe 1.4, sections 4.2, 4.6.1, 5.3, 5.4 and 6.9): every
    field is named by its byte offset, and tied to what the controller does with it.
 */
module NvmeWire {
  import opened Bytes
  import opened DiskFile
  import opened NvmeDrain
  import opened NvmeStore
  import opened Options

  // ---- Commands -----------------------------------------------------------------

  /** A driver has filled in the 64-byte entry at `off`; bytes that are not named here are arbitrary. */
  ghost predicate Filed(ram: seq<u8>, off: nat, c: Cmd, flags: u8) {
    && off + 64 <= |ram|
    && At(ram, off, [c.opcode, flags] + Le16(c.cid) + Le32(c.nsid))
    && At(ram, off + 24, Le64(c.dptr))
    && At(ram, off + 40, Le32(c.cdw10) + Le32(c.cdw11) + Le32(c.cdw12))
  }

  /** The controller reads the command that the driver filed. */
  lemma CmdReads(ram: seq<u8>, off: nat, c: Cmd, flags: u8)
    requires Filed(ram, off, c, flags)
    ensures CmdAt(ram, off) == c
  {
    hide Le16, Le32, Le64, Le64At, At;
    AtConcat(ram, off, [c.opcode, flags] + Le16(c.cid), Le32(c.nsid));
    AtConcat(ram, off, [c.opcode, flags], Le16(c.cid));
    Le32RoundTrip(ram, off + 4, c.nsid);
    Le64RoundTrip(ram, off + 24, c.dptr);
    AtConcat(ram, off + 40, Le32(c.cdw10) + Le32(c.cdw11), Le32(c.cdw12));
    AtConcat(ram, off + 40, Le32(c.cdw10), Le32(c.cdw11));
    Le32RoundTrip(ram, off + 40, c.cdw10);
    Le32RoundTrip(ram, off + 44, c.cdw11);
    Le32RoundTrip(ram, off + 48, c.cdw12);
    Le16RoundTrip(ram, off + 2, c.cid);
    FirstDword(ram, off, c.opcode, flags);
  }

  lemma FirstDword(ram: seq<u8>, off: nat, opcode: u8, flags: u8)
    requires off + 4 <= |ram| && At(ram, off, [opcode, flags])
    ensures Le32At(ram, off) % 0x100 == opcode as int && Le32At(ram, off) / 0x1_0000 == Le16At(ram, off + 2) as int
  {
    var s := ram[off..off + 2];
    assert ram[off] == s[0] && ram[off + 1] == s[1];
  }

  /** The entry that stands `k` places after `head` in the ring at `sq.base`. */
  function EntryOffset(env: Env, sq: Queue, head: u16, k: nat): nat
    requires env.ramBase <= sq.base
  {
    sq.base as int - env.ramBase as int + 64 * ((head as int + k) % (sq.size as int + 1))
  }

  /** The commands that wait between head and tail are those that the driver filed there, in order. */
  lemma {:induction false} WaitingFiled(env: Env, sq: Queue, head: u16, ram: seq<u8>, cs: seq<Cmd>, flags: seq<u8>)
    requires InRing(sq, head) && RingInRam(env, sq, SQE, |ram|)
    requires |cs| == |flags| == (sq.tail as int - head as int) % (sq.size as int + 1)
    requires forall k :: 0 <= k < |cs| ==> Filed(ram, EntryOffset(env, sq, head, k), cs[k], flags[k])
    ensures Waiting(env, sq, head, ram) == cs
    decreases |cs|
  {
    hide CmdAt, Filed, Window, Slot, NextIndex, EntryOffset;
    if head == sq.tail {
      EmptyLeft(sq);
    } else {
      LeftNext(sq, head);
      EntryHere(env, sq, head, 0);
      CmdReads(ram, EntryOffset(env, sq, head, 0), cs[0], flags[0]);
      forall k | 0 <= k < |cs| - 1 ensures EntryOffset(env, sq, NextIndex(sq, head), k) == EntryOffset(env, sq, head, k + 1) {
        EntryHere(env, sq, head, k);
      }
      WaitingFiled(env, sq, NextIndex(sq, head), ram, cs[1..], flags[1..]);
      assert cs == [cs[0]] + cs[1..];
    }
  }

  lemma EntryHere(env: Env, sq: Queue, head: u16, k: nat)
    requires head <= sq.size && env.ramBase <= sq.base
    ensures EntryOffset(env, sq, head, 0) == Slot(env, sq, head, SQE)
    ensures EntryOffset(env, sq, NextIndex(sq, head), k) == EntryOffset(env, sq, head, k + 1)
  {
    PositionNext(sq, head, k);
    SlotHere(env, sq, head, SQE);
  }

  // ---- Completions ----------------------------------------------------------------

  /** What a driver finds at a posted completion: DW0, the submission queue's identifier, the command's identifier,
      the phase bit set, and the status behind it. */
  ghost predicate Tells(ram: seq<u8>, slot: nat, dw0: u32, sqId: u16, cid: u16, status: u16) {
    && slot + 16 <= |ram|
    && Le32At(ram, slot) == dw0
    && Le16At(ram, slot + 10) == sqId
    && Le16At(ram, slot + 12) == cid
    && Le16At(ram, slot + 14) as int % 2 == 1
    && Le16At(ram, slot + 14) as int / 2 == status as int / 2
  }

  lemma CqeTells(ram: seq<u8>, slot: nat, c: Cqe)
    requires At(ram, slot, CqeBytes(c))
    ensures Tells(ram, slot, c.cdw0, c.sqId, c.cid, c.status)
    ensures Le32At(ram, slot + 4) == 0 && Le16At(ram, slot + 8) == 0
  {
    hide Le16, Le32, At, Le16At, Le32At;
    var last: u16 := if c.status % 2 == 1 then c.status else c.status + 1;
    var a := Le32(c.cdw0) + Le32(0) + Le16(0);
    AtConcat(ram, slot, a + Le16(c.sqId) + Le16(c.cid), Le16(last));
    AtConcat(ram, slot, a + Le16(c.sqId), Le16(c.cid));
    AtConcat(ram, slot, a, Le16(c.sqId));
    AtConcat(ram, slot, Le32(c.cdw0) + Le32(0), Le16(0));
    AtConcat(ram, slot, Le32(c.cdw0), Le32(0));
    Le32RoundTrip(ram, slot, c.cdw0);
    Le32RoundTrip(ram, slot + 4, 0);
    Le16RoundTrip(ram, slot + 8, 0);
    Le16RoundTrip(ram, slot + 10, c.sqId);
    Le16RoundTrip(ram, slot + 12, c.cid);
    Le16RoundTrip(ram, slot + 14, last);
  }

  /** After a doorbell is drained, the `i`-th completion from the queue's position on tells the driver the identifier of
      the `i`-th completing command that waited, the queue it waited in, and what executing it produced. */
  lemma DrainTells(env: Env, src: Source, sq: Queue, x: Live, i: nat)
    requires InRing(sq, sq.head) && Rings(env, sq, x.cq, |x.s.ram|) && x.s.queues.Shaped()
    requires AllClear(env, src, sq, x.cq, Waiting(env, sq, sq.head, x.s.ram), |x.s.ram|)
    requires var n := |CompletingCids(src, Waiting(env, sq, sq.head, x.s.ram))|; i < n <= i + x.cq.size as int + 1
    ensures var cmds, now := Waiting(env, sq, sq.head, x.s.ram), Loop(env, src, sq, sq.head, x).0.s.ram;
            var (_, done) := Outcome(env, src, cmds, x.s);
            var slot: nat := x.cq.base as int - env.ramBase as int + 16 * ((x.cq.head as int + i) % (x.cq.size as int + 1));
            && |done| == |CompletingCids(src, cmds)|
            && Tells(now, slot, done[i].cdw0, if src.Io? then src.sqId else 0, CompletingCids(src, cmds)[i], done[i].status)
  {
    hide Loop, Waiting, CompletingCids, AllClear, Mirrors, Beyond, Outcome, CqeBytes, Tells, Slot, Position, Dma, RingInRam;
    Drains(env, src, sq, x);
    var cmds := Waiting(env, sq, sq.head, x.s.ram);
    OutcomeCids(env, src, cmds, x.s);
    var (t, done) := Outcome(env, src, cmds, x.s);
    assert done[i] in done && Cids(done)[i] == done[i].cid;
    var at := Position(x.cq, x.cq.head, i);
    SlotHere(env, x.cq, at, CQE);
    PositionIs(x.cq, i);
    CqeTells(Loop(env, src, sq, sq.head, x).0.s.ram, Slot(env, x.cq, at, CQE), done[i]);
  }

  lemma PositionIs(q: Queue, i: nat)
    ensures Position(q, q.head, i) as int == (q.head as int + i) % (q.size as int + 1)
  {
  }

  // ---- Reads and writes ------------------------------------------------------------

  /** A driver's read (opcode 2) or write (opcode 1) of `n` blocks of namespace 1 from block `lba` on. */
  function BlockCmd(opcode: u8, cid: u16, lba: u64, n: nat, addr: u64): Cmd
    requires 1 <= n <= 256
  {
    Cmd(opcode, cid, 1, addr, lba % 0x1_0000_0000, lba / 0x1_0000_0000, n - 1)
  }

  /** The controller is attached to an image, the blocks lie in the namespace and the buffer in guest RAM. */
  predicate Serves(env: Env, ramSize: nat, diskSize: nat, lba: u64, n: nat, addr: u64) {
    && env.active && env.present && env.blocks as int * 512 <= diskSize < TWO63 && lba as int + n <= env.blocks as int
    && env.ramBase <= addr && addr as int - env.ramBase as int + 512 * n <= ramSize && env.ramBase as int + ramSize < TWO64
  }

  lemma BlockFields(opcode: u8, cid: u16, lba: u64, n: nat, addr: u64)
    requires 1 <= n <= 256
    ensures var c := BlockCmd(opcode, cid, lba, n, addr); Slba(c) == lba && Nlb(c) == n && ByteCount(c) == 512 * n
  {
  }

  lemma BlockMoves(env: Env, opcode: u8, cid: u16, lba: u64, n: nat, addr: u64, s: Sys)
    requires 1 <= n <= 256 && opcode in {1, 2} && Serves(env, |s.ram|, |s.disk|, lba, n, addr)
    ensures var c := BlockCmd(opcode, cid, lba, n, addr);
            && Backed(env, s.disk) && Eligible(env, c) && ByteOffset(c) as int == 512 * lba as int
            && Dma(env, |s.ram|, addr, 512 * n) && !Strays(env, |s.ram|, addr, 512 * n)
            && (opcode == 2 || !env.readOnly ==> Transfer(env, c, s).1 == OK)
  {
    hide Transfer, Passes, Inside;
    var c := BlockCmd(opcode, cid, lba, n, addr);
    BlockFields(opcode, cid, lba, n, addr);
    StraysExactly(env, |s.ram|, addr, 512 * n);
    RangeInside(env, |s.ram|, addr, 512 * n);
    SucceedsExactly(env, c, s);
  }

  lemma RangeInside(env: Env, ramSize: nat, addr: u64, n: nat)
    requires env.ramBase <= addr && addr as int - env.ramBase as int + n <= ramSize && env.ramBase as int + ramSize < TWO64
    ensures Inside(env, ramSize, addr, n) && Passes(env, ramSize, addr, n) && !Strays(env, ramSize, addr, n)
  {
  }

  /** A driver's read: the buffer holds the blocks' bytes, the rest of memory and the disk are as they were, and the
      completion reports success. */
  lemma DriverReads(env: Env, sqId: u16, ram: seq<u8>, off: nat, flags: u8, cid: u16, lba: u64, n: nat, addr: u64, s: Sys)
    requires 1 <= n <= 256 && Serves(env, |s.ram|, |s.disk|, lba, n, addr)
    requires Filed(ram, off, BlockCmd(2, cid, lba, n, addr), flags)
    ensures var (t, done) := ExecIo(env, sqId, CmdAt(ram, off), s);
            var at: nat, from: nat := addr as int - env.ramBase as int, 512 * lba as int;
            && done == Some(Cqe(0, sqId, cid, 0)) && t.disk == s.disk && t.lost == s.lost
            && t.ram[at..at + 512 * n] == s.disk[from..from + 512 * n]
            && SameOutside(t.ram, s.ram, at, 512 * n)
  {
    hide Transfer, Backed, Eligible, Passes, Inside, Strays, Dma, Filed, Slba, Nlb, ByteOffset, ByteCount, SameOutside;
    var c := BlockCmd(2, cid, lba, n, addr);
    CmdReads(ram, off, c, flags);
    BlockFields(2, cid, lba, n, addr);
    BlockMoves(env, 2, cid, lba, n, addr, s);
    ReadDelivers(env, c, s);
  }

  /** A driver's write: the blocks hold the buffer's bytes, the rest of the disk and all of memory are as they were, and
      the completion reports success; on a read-only image nothing changes and the completion reports an invalid opcode. */
  lemma DriverWrites(env: Env, sqId: u16, ram: seq<u8>, off: nat, flags: u8, cid: u16, lba: u64, n: nat, addr: u64, s: Sys)
    requires 1 <= n <= 256 && Serves(env, |s.ram|, |s.disk|, lba, n, addr)
    requires Filed(ram, off, BlockCmd(1, cid, lba, n, addr), flags)
    ensures var (t, done) := ExecIo(env, sqId, CmdAt(ram, off), s);
            var at: nat, from: nat := addr as int - env.ramBase as int, 512 * lba as int;
            && t.ram == s.ram && |t.disk| == |s.disk| && t.lost == s.lost
            && (env.readOnly ==> done == Some(Cqe(0, sqId, cid, 2)) && t.disk == s.disk)
            && (!env.readOnly ==>
                  && done == Some(Cqe(0, sqId, cid, 0))
                  && t.disk[from..from + 512 * n] == s.ram[at..at + 512 * n]
                  && forall i :: 0 <= i < |s.disk| && !(from <= i < from + 512 * n) ==> t.disk[i] == s.disk[i])
  {
    hide Transfer, Backed, Passes, Inside, Strays, Dma, Filed, Slba, Nlb, ByteOffset, ByteCount;
    var c := BlockCmd(1, cid, lba, n, addr);
    CmdReads(ram, off, c, flags);
    BlockFields(1, cid, lba, n, addr);
    BlockMoves(env, 1, cid, lba, n, addr, s);
    if env.readOnly {
      ReadOnlyRefuses(env, c, s);
    } else {
      WriteStores(env, c, s);
    }
  }

  lemma ReadOnlyRefuses(env: Env, c: Cmd, s: Sys)
    requires env.readOnly && c.opcode == 1 && Eligible(env, c)
    ensures Transfer(env, c, s) == (s, 2)
  {
    hide Slba, ByteOffset;
  }

  /** Why a transfer is refused at once: no such namespace, or blocks outside it. */
  lemma RefusalTells(env: Env, c: Cmd, s: Sys)
    ensures Transfer(env, c, s).1 == 0x16 <==> c.nsid != 1 || !env.active
    ensures Transfer(env, c, s).1 == 0x100 <==>
              c.nsid == 1 && env.active && (Slba(c) as int + Nlb(c)) % TWO64 > env.blocks as int
  {
    hide Slba, Nlb, FileRead, FileWrite, Blit, Strays, Dma, CanSeek, ByteCount, ByteOffset, Payload;
  }

  /** What a transfer inside the namespace reports, in the order in which the controller looks: no image, a write to a
      read-only one, more than 128 KiB, a buffer that DMA refuses. */
  lemma StatusTells(env: Env, c: Cmd, s: Sys)
    requires Backed(env, s.disk) && c.nsid == 1 && env.active && Slba(c) as int + Nlb(c) <= env.blocks as int
    requires c.opcode == 1 || c.opcode == 2
    ensures Transfer(env, c, s).1 ==
              if !env.present then 0xC
              else if c.opcode == 1 && env.readOnly then 0x2
              else if Nlb(c) * 512 > 131072 || !Passes(env, |s.ram|, c.dptr, Nlb(c) * 512) then 0x8
              else 0
  {
    hide Slba, Nlb, FileWrite, Blit, Passes, Inside, Payload;
    SucceedsExactly(env, c, s);
  }

  // ---- Queues ------------------------------------------------------------------------

  /** Only the named queue of `q` may differ in `r`. */
  ghost predicate OnlySq(r: Queues, q: Queues, k: nat) {
    |r.sq| == |q.sq| && r.cq == q.cq && forall i :: 0 <= i < |q.sq| && i != k ==> r.sq[i] == q.sq[i]
  }

  ghost predicate OnlyCq(r: Queues, q: Queues, k: nat) {
    |r.cq| == |q.cq| && r.sq == q.sq && r.count == q.count && forall i :: 0 <= i < |q.cq| && i != k ==> r.cq[i] == q.cq[i]
  }

  /** A driver's Create I/O Completion Queue (opcode 5) with identifier `qid`, `size + 1` entries at `base`. */
  lemma DriverCreatesCq(env: Env, ram: seq<u8>, off: nat, flags: u8, cid: u16, qid: u16, size: u16, base: u64, cdw11: u32, c: Cmd, s: Sys)
    requires s.queues.Shaped() && Filed(ram, off, c, flags)
    requires c.opcode == 5 && c.cid == cid && c.dptr == base && c.cdw10 as int == qid as int + 0x1_0000 * size as int && c.cdw11 == cdw11
    ensures var (t, done) := ExecAdmin(env, CmdAt(ram, off), s);
            && t == s.(queues := t.queues) && OnlyCq(t.queues, s.queues, qid as nat)
            && (1 <= qid <= 3 ==>
                  && done == Some(Cqe(0, 0, cid, 0))
                  && t.queues.cq[qid] == Queue(base, size, 0, s.queues.cq[qid].tail, true, qid))
            && (!(1 <= qid <= 3) ==> done == Some(Cqe(0, 0, cid, 4)) && t == s)
  {
    hide Filed, CmdAt;
    CmdReads(ram, off, c, flags);
  }

  /** A driver's Create I/O Submission Queue (opcode 1) names its completion queue in the upper half of CDW11 and sets bit
      0, "physically contiguous".  The controller looks up the lower half, so it asks for completion queue 1, whichever
      the driver named. */
  lemma DriverCreatesSq(env: Env, ram: seq<u8>, off: nat, flags: u8, cid: u16, qid: u16, size: u16, base: u64, cqid: u16, c: Cmd, s: Sys)
    requires s.queues.Shaped() && Filed(ram, off, c, flags)
    requires c.opcode == 1 && c.cid == cid && c.dptr == base && c.cdw10 as int == qid as int + 0x1_0000 * size as int
    requires c.cdw11 as int == 1 + 0x1_0000 * cqid as int
    ensures var (t, done) := ExecAdmin(env, CmdAt(ram, off), s);
            && t == s.(queues := t.queues) && OnlySq(t.queues, s.queues, qid as nat)
            && (1 <= qid <= 3 && s.queues.cq[1].valid ==>
                  && done == Some(Cqe(0, 0, cid, 0)) && t.queues.count == s.queues.count + 1
                  && t.queues.sq[qid] == Queue(base, size, 0, 0, true, qid))
            && (!(1 <= qid <= 3 && s.queues.cq[1].valid) ==> done == Some(Cqe(0, 0, cid, 4)) && t == s)
  {
    hide Filed, CmdAt;
    CmdReads(ram, off, c, flags);
  }

  /** A driver's Delete I/O Submission Queue (opcode 0) or Completion Queue (opcode 4). */
  lemma DriverDeletes(env: Env, ram: seq<u8>, off: nat, flags: u8, cid: u16, qid: u16, c: Cmd, s: Sys)
    requires s.queues.Shaped() && Filed(ram, off, c, flags)
    requires c.opcode in {0, 4} && c.cid == cid && c.cdw10 as int % 0x1_0000 == qid as int
    ensures var (t, done) := ExecAdmin(env, CmdAt(ram, off), s);
            && t == s.(queues := t.queues)
            && (if c.opcode == 0 then OnlySq(t.queues, s.queues, qid as nat) else OnlyCq(t.queues, s.queues, qid as nat))
            && (1 <= qid <= 3 ==>
                  && done == Some(Cqe(0, 0, cid, 0))
                  && (c.opcode == 0 ==> t.queues.sq[qid] == s.queues.sq[qid].(valid := false))
                  && (c.opcode == 4 ==> t.queues.cq[qid] == s.queues.cq[qid].(valid := false)))
            && (!(1 <= qid <= 3) ==> done == Some(Cqe(0, 0, cid, 4)) && t == s)
  {
    hide Filed, CmdAt;
    CmdReads(ram, off, c, flags);
  }

  // ---- Identify and features ----------------------------------------------------------

  /** A driver's Identify (opcode 6) of the controller (structure 1), namespace 1 (0) or the namespace list (2) leaves the
      page in its buffer and reports success; any other structure is refused as an invalid field. */
  lemma DriverIdentifies(env: Env, ram: seq<u8>, off: nat, flags: u8, c: Cmd, s: Sys)
    requires s.queues.Shaped() && Filed(ram, off, c, flags) && c.opcode == 6 && env.ramBase as int + |s.ram| < TWO64
    ensures var (t, done) := ExecAdmin(env, CmdAt(ram, off), s);
            var cns := c.cdw10 as int % 0x100;
            var page := if cns == 1 then env.ctrlPage else if cns == 0 && c.nsid == 1 && env.active then env.nsPage
                        else if cns == 0 then Zeros(|env.nsPage|) else Zeros(4096);
            && (cns > 2 ==> t == s && done == Some(Cqe(0, 0, c.cid, 4)))
            && (cns <= 2 && !Passes(env, |s.ram|, c.dptr, |page|) ==> t == s && done == Some(Cqe(0, 0, c.cid, if cns == 2 then 0 else 0xC)))
            && (cns <= 2 && env.ramBase <= c.dptr && c.dptr as int - env.ramBase as int + |page| <= |s.ram| ==>
                  && done == Some(Cqe(0, 0, c.cid, 0))
                  && t == s.(ram := t.ram)
                  && t.ram[c.dptr as int - env.ramBase as int..c.dptr as int - env.ramBase as int + |page|] == page
                  && SameOutside(t.ram, s.ram, c.dptr as int - env.ramBase as int, |page|))
  {
    hide Filed, CmdAt, Passes, Inside;
    CmdReads(ram, off, c, flags);
    var cns := c.cdw10 as int % 0x100;
    if cns <= 2 {
      var page := IdentifyPage(env, c).value;
      if env.ramBase <= c.dptr && c.dptr as int - env.ramBase as int + |page| <= |s.ram| {
        RangeInside(env, |s.ram|, c.dptr, |page|);
      }
    }
  }

  /** Set and Get Features (opcodes 9 and 10): four queues of each kind, always; the write cache reported as on; every
      other feature an invalid field.  Nothing changes. */
  lemma DriverAsksFeature(env: Env, ram: seq<u8>, off: nat, flags: u8, c: Cmd, s: Sys)
    requires s.queues.Shaped() && Filed(ram, off, c, flags) && c.opcode in {9, 10}
    ensures var (t, done) := ExecAdmin(env, CmdAt(ram, off), s);
            && t == s
            && done == Some(if c.cdw10 as int % 0x100 == 7 then Cqe(0x0003_0003, 0, c.cid, 0)
                            else if c.cdw10 as int % 0x100 == 6 then Cqe(if c.opcode == 10 then 1 else 0, 0, c.cid, 0)
                            else Cqe(0, 0, c.cid, 4))
  {
    hide Filed, CmdAt;
    CmdReads(ram, off, c, flags);
  }

  /** Abort (opcode 8) always reports an aborted command and aborts nothing; opcodes that the controller does not know, such
      as 2 and 3, get no completion at all. */
  lemma DriverAborts(env: Env, ram: seq<u8>, off: nat, flags: u8, c: Cmd, s: Sys)
    requires s.queues.Shaped() && Filed(ram, off, c, flags)
    ensures c.opcode == 8 ==> ExecAdmin(env, CmdAt(ram, off), s) == (s, Some(Cqe(0, 0, c.cid, 0xE)))
    ensures c.opcode !in {0, 1, 4, 5, 6, 8, 9, 10} ==> ExecAdmin(env, CmdAt(ram, off), s) == (s, None)
  {
    hide Filed, CmdAt;
    CmdReads(ram, off, c, flags);
  }

  /** A flush (opcode 0) changes nothing, and succeeds exactly when its namespace exists, is backed, and the block range
      that its unused fields happen to spell passes the bounds check. */
  lemma DriverFlushes(env: Env, sqId: u16, ram: seq<u8>, off: nat, flags: u8, c: Cmd, s: Sys)
    requires Filed(ram, off, c, flags) && c.opcode == 0
    ensures var (t, done) := ExecIo(env, sqId, CmdAt(ram, off), s);
            && t == s && done.Some? && done.value == Cqe(0, sqId, c.cid, done.value.status)
            && (done.value.status == 0 <==>
                  c.nsid == 1 && env.active && env.present && (Slba(c) as int + Nlb(c)) % TWO64 <= env.blocks as int)
  {
    hide Filed, CmdAt, Slba, Nlb;
    CmdReads(ram, off, c, flags);
  }
}
