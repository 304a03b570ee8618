/** The controller object of devices/apple-nvme/apple_nvme.c: registers, queues and memory changed in
    place, each method proved against the functions that specify it.
 */
module NvmeDevice {
  import opened Bytes
  import opened DiskFile
  import opened NvmeController
  import opened NvmeDrain
  import opened NvmeStore
  import opened NvmeWire
  import opened Options

  class Controller {
    const env: Env
    const ram: array<u8>
    var disk: seq<u8>
    ghost var lost: bool

    var cc: u32
    var csts: u32
    var aqa: u32
    var asq: u64
    var acq: u64
    var enabled: bool
    var ready: bool
    var adminSq: Queue
    var adminCq: Queue
    const ioSq: array<Queue>
    const ioCq: array<Queue>
    var numIo: int

    /** apple_nvme_init with the disk attached */
    constructor (env: Env, ram: array<u8>, disk: seq<u8>)
      ensures Valid() && this.env == env && this.ram == ram && View() == Init(ram[..], disk)
      ensures fresh(ioSq) && fresh(ioCq)
    {
      this.env, this.ram, this.disk, lost := env, ram, disk, false;
      cc, csts, aqa, asq, acq, enabled, ready := 0, 0, 0, 0, 0, false, false;
      adminSq, adminCq, numIo := ZERO_QUEUE, ZERO_QUEUE, 0;
      ioSq := new Queue[MAX_QUEUES](_ => ZERO_QUEUE);
      ioCq := new Queue[MAX_QUEUES](_ => ZERO_QUEUE);
    }

    ghost predicate Valid() {
      ioSq.Length == MAX_QUEUES && ioCq.Length == MAX_QUEUES && ioSq != ioCq
    }

    ghost function State(): Sys
      reads this, ram, ioSq, ioCq
    {
      Sys(ram[..], disk, Queues(ioSq[..], ioCq[..], numIo), lost)
    }

    ghost function View(): Ctl
      reads this, ram, ioSq, ioCq
    {
      Ctl(cc, csts, aqa, asq, acq, enabled, ready, adminSq, adminCq, State())
    }

    // ---- DMA ------------------------------------------------------------------------

    /** The write callback: success exactly when its 64-bit test passes; the bytes arrive when they lie in RAM, and
        nothing else changes unless the copy strays. */
    method GuestWrite(addr: u64, bs: seq<u8>) returns (ok: bool)
      modifies ram, this`lost
      ensures ok == Passes(env, ram.Length, addr, |bs|)
      ensures lost == (old(lost) || Strays(env, ram.Length, addr, |bs|))
      ensures ram[..] == if Dma(env, ram.Length, addr, |bs|) then Blit(old(ram[..]), addr as int - env.ramBase as int, bs) else old(ram[..])
    {
      ok := Passes(env, ram.Length, addr, |bs|);
      if ok {
        if Inside(env, ram.Length, addr, |bs|) {
          Store(ram, addr as int - env.ramBase as int, bs);
        } else {
          lost := true;
        }
      }
    }

    /** The read callback; what a copy that strays delivers is not known. */
    method GuestRead(addr: u64, n: nat) returns (ok: bool, bs: seq<u8>)
      modifies this`lost
      ensures ok == Passes(env, ram.Length, addr, n)
      ensures lost == (old(lost) || Strays(env, ram.Length, addr, n))
      ensures Dma(env, ram.Length, addr, n) ==>
                bs == ram[..][addr as int - env.ramBase as int..addr as int - env.ramBase as int + n]
    {
      ok, bs := Passes(env, ram.Length, addr, n), [];
      if ok {
        if Inside(env, ram.Length, addr, n) {
          var off := addr as int - env.ramBase as int;
          bs := ram[off..off + n];
        } else {
          lost := true;
        }
      }
    }

    /** The `post_cqe` tail that every handler ends with. */
    method PostCompletion(cq: Queue, cqe: Cqe) returns (r: Queue)
      modifies ram, this`lost
      ensures Live(State(), r) == Post(env, Live(old(State()), cq), Some(cqe))
      ensures !cq.valid ==> r == cq && ram[..] == old(ram[..]) && lost == old(lost)
      ensures cq.valid ==> r == cq.(head := (cq.head as int + 1) % (cq.size as int + 1))
      ensures cq.valid && Dma(env, ram.Length, EntryAddr(cq, cq.head, CQE), CQE) ==>
                Tells(ram[..], EntryAddr(cq, cq.head, CQE) as int - env.ramBase as int, cqe.cdw0, cqe.sqId, cqe.cid, cqe.status)
    {
      hide Blit, CqeBytes, Tells;
      r := cq;
      if cq.valid {
        var _ := GuestWrite(EntryAddr(cq, cq.head, CQE), CqeBytes(cqe));
        if Dma(env, ram.Length, EntryAddr(cq, cq.head, CQE), CQE) {
          CqeTells(ram[..], EntryAddr(cq, cq.head, CQE) as int - env.ramBase as int, cqe);
        }
        r := cq.(head := NextIndex(cq, cq.head));
      }
    }

    // ---- I/O commands -----------------------------------------------------------------

    /** nvme_io_rw up to the completion */
    method IoRw(c: Cmd) returns (status: u16)
      modifies this`disk, this`lost, ram
      ensures (State(), status) == Transfer(env, c, old(State()))
    {
      hide Blit, Slba, Nlb, FileRead, FileWrite, ByteCount, ByteOffset;
      if c.nsid != 1 || !env.active {
        return INVALID_NS;
      }
      if (Slba(c) as int + Nlb(c)) % TWO64 > env.blocks as int {
        return LBA_RANGE;
      }
      if !env.present {
        return INTERNAL;
      }
      if c.opcode == OP_READ {
        if ByteCount(c) > MAX_TRANSFER {
          return DATA_TRANSFER;
        }
        if !CanSeek(ByteOffset(c)) {
          return INTERNAL;
        }
        var got := FileRead(disk, ByteOffset(c) as nat, ByteCount(c));
        if |got| != ByteCount(c) {
          return INTERNAL;
        }
        var ok := GuestWrite(c.dptr, got);
        if !ok {
          return DATA_TRANSFER;
        }
      } else if c.opcode == OP_WRITE {
        if env.readOnly {
          return INVALID_OPCODE;
        }
        if ByteCount(c) > MAX_TRANSFER {
          return DATA_TRANSFER;
        }
        var ok, buf := GuestRead(c.dptr, ByteCount(c));
        if !ok {
          return DATA_TRANSFER;
        }
        if !CanSeek(ByteOffset(c)) {
          return INTERNAL;
        }
        if Inside(env, ram.Length, c.dptr, ByteCount(c)) {
          disk := FileWrite(disk, ByteOffset(c) as nat, buf);
        }
      }
      return OK;
    }

    // ---- Admin commands ---------------------------------------------------------------

    method AdminIdentify(c: Cmd) returns (status: u16)
      modifies ram, this`lost
      ensures (State(), status) == Identify(env, c, old(State()))
    {
      hide Blit;
      var cns := c.cdw10 % 0x100;
      if cns == 1 {
        var ok := GuestWrite(c.dptr, env.ctrlPage);
        return if ok then OK else INTERNAL;
      } else if cns == 0 {
        var ok := GuestWrite(c.dptr, if c.nsid == 1 && env.active then env.nsPage else Zeros(|env.nsPage|));
        return if ok then OK else INTERNAL;
      } else if cns == 2 {
        var _ := GuestWrite(c.dptr, Zeros(4096));
        return OK;
      }
      return INVALID_FIELD;
    }

    method CreateIoCq(c: Cmd) returns (status: u16)
      requires Valid()
      modifies ioCq
      ensures (State().queues, status) == CreateCq(c, old(State().queues))
    {
      var qid := Qid(c);
      if !UsableQid(qid) {
        return INVALID_FIELD;
      }
      ioCq[qid] := Queue(c.dptr, Qsize(c), 0, ioCq[qid].tail, true, qid);
      return OK;
    }

    method CreateIoSq(c: Cmd) returns (status: u16)
      requires Valid()
      modifies ioSq, this`numIo
      ensures (State().queues, status) == CreateSq(env, c, old(State().queues))
    {
      var qid, cqid := Qid(c), c.cdw11 % 0x1_0000;
      if !UsableQid(qid) {
        return INVALID_FIELD;
      }
      var found := if cqid < 4 then ioCq[cqid].valid else env.stray;
      if !found {
        return INVALID_FIELD;
      }
      ioSq[qid] := Queue(c.dptr, Qsize(c), 0, 0, true, qid);
      numIo := numIo + 1;
      return OK;
    }

    method DeleteIoQueue(c: Cmd, isSq: bool) returns (status: u16)
      requires Valid()
      modifies ioSq, ioCq, this`numIo
      ensures (State().queues, status) == DeleteQueue(c, isSq, old(State().queues))
    {
      var qid := Qid(c);
      if !UsableQid(qid) {
        return INVALID_FIELD;
      }
      if isSq {
        ioSq[qid] := ioSq[qid].(valid := false);
        if numIo > 0 {
          numIo := numIo - 1;
        }
      } else {
        ioCq[qid] := ioCq[qid].(valid := false);
      }
      return OK;
    }

    /** One turn of the admin loop: the switch on the opcode, then the completion. */
    method AdminCommand(c: Cmd)
      requires Valid()
      modifies ram, ioSq, ioCq, this`numIo, this`adminCq, this`lost
      ensures Live(State(), adminCq) == Turn(env, Admin, c, old(Live(State(), adminCq)))
      ensures adminCq == old(adminCq).(head := adminCq.head)
    {
      hide Blit, CqeBytes, CreateCq, CreateSq, DeleteQueue, Identify, EntryAddr, NextIndex;
      var status, dw0 := OK, 0;
      if c.opcode == ADM_IDENTIFY {
        status := AdminIdentify(c);
      } else if c.opcode == ADM_CREATE_CQ {
        status := CreateIoCq(c);
      } else if c.opcode == ADM_CREATE_SQ {
        status := CreateIoSq(c);
      } else if c.opcode == ADM_DELETE_SQ || c.opcode == ADM_DELETE_CQ {
        status := DeleteIoQueue(c, c.opcode == ADM_DELETE_SQ);
      } else if c.opcode == ADM_SET_FEATURES || c.opcode == ADM_GET_FEATURES {
        var feature := Feature(c, c.opcode == ADM_SET_FEATURES);
        status, dw0 := feature.0, feature.1;
      } else if c.opcode == ADM_ABORT {
        status := ABORT_REQUESTED;
      } else {
        return;
      }
      adminCq := PostCompletion(adminCq, Cqe(dw0, 0, c.cid, status));
    }

    /** nvme_process_admin_cmd */
    method ProcessAdmin()
      requires Valid() && adminSq.head <= adminSq.size && Halts(env, adminSq, ram.Length)
      modifies this`adminSq, this`adminCq, this`numIo, this`lost, ram, ioSq, ioCq
      ensures var (y, head) := Loop(env, Admin, old(adminSq), old(adminSq.head), Live(old(State()), old(adminCq)));
              State() == y.s && adminCq == y.cq && adminSq == old(adminSq).(head := head)
    {
      hide Turn, CmdAt, Turns, Halts, Passes, Inside, NextIndex, EntryAddr, Loop;
      var head: u16 := adminSq.head;
      ghost var x := Live(State(), adminCq);
      while head != adminSq.tail
        invariant head <= adminSq.size && Halts(env, adminSq, ram.Length) && adminSq == old(adminSq)
        invariant Loop(env, Admin, adminSq, adminSq.head, x) == Loop(env, Admin, adminSq, head, Live(State(), adminCq))
        decreases Turns(env, adminSq, head, ram.Length)
      {
        var addr := EntryAddr(adminSq, head, SQE);
        LoopTurn(env, Admin, adminSq, head, Live(State(), adminCq));
        var ok, entry := GuestRead(addr, SQE);
        if !ok || !Inside(env, ram.Length, addr, SQE) { break; }
        DmaInside(env, ram.Length, addr, SQE);
        CmdInPlace(ram[..], addr as int - env.ramBase as int);
        var c := CmdAt(entry, 0);
        AdminCommand(c);
        head := NextIndex(adminSq, head);
      }
      if head == adminSq.tail {
        LoopAtTail(env, Admin, adminSq, Live(State(), adminCq));
      }
      adminSq := adminSq.(head := head);
    }

    // ---- I/O queues -------------------------------------------------------------------

    /** The state seen by the loop of one I/O queue pair: the completion queue's own entry stands apart. */
    ghost function IoView(qid: nat, q: Queues): Live
      requires ioCq.Length == MAX_QUEUES && qid < MAX_QUEUES
      reads this, ram, ioSq, ioCq
    {
      Live(Sys(ram[..], disk, q, lost), ioCq[qid])
    }

    /** One turn of an I/O queue's loop. */
    method IoCommand(qid: nat, sqId: u16, c: Cmd, ghost q: Queues)
      requires Valid() && qid < MAX_QUEUES && q.Shaped()
      modifies this`disk, this`lost, ram, ioCq
      ensures IoView(qid, q) == Turn(env, Io(sqId), c, old(IoView(qid, q)))
      ensures ioCq[..] == old(ioCq[..])[qid := ioCq[qid]]
      ensures ioCq[qid] == old(ioCq[qid]).(head := ioCq[qid].head)
    {
      hide Blit, CqeBytes, Transfer, Post;
      if c.opcode == OP_READ || c.opcode == OP_WRITE || c.opcode == OP_FLUSH {
        ghost var s, cq := State(), ioCq[qid];
        assert s.(queues := q) == IoView(qid, q).s;
        var status := IoRw(c);
        QueuesIrrelevant(env, c, s, q);
        ghost var mid := State();
        PostIrrelevant(env, mid, q, cq, Cqe(0, sqId, c.cid, status));
        var r := PostCompletion(ioCq[qid], Cqe(0, sqId, c.cid, status));
        ghost var end := State();
        ioCq[qid] := r;
        assert IoView(qid, q) == Live(end.(queues := q), r);
      } else {
        PostNothing(env, IoView(qid, q));
      }
    }

    /** nvme_process_io_sq */
    method ProcessIo(qid: nat)
      requires Valid() && qid < MAX_QUEUES
      requires ioSq[qid].valid && ioCq[qid].valid ==> ioSq[qid].head <= ioSq[qid].size && Halts(env, ioSq[qid], ram.Length)
      modifies this`disk, this`lost, ram, ioSq, ioCq
      ensures !(old(ioSq[qid]).valid && old(ioCq[qid]).valid) ==> State() == old(State())
      ensures old(ioSq[qid]).valid && old(ioCq[qid]).valid ==>
                var sq := old(ioSq[qid]);
                var (y, head) := Loop(env, Io(sq.id), sq, sq.head, Live(old(State()), old(ioCq[qid])));
                && ram[..] == y.s.ram && disk == y.s.disk && lost == y.s.lost
                && ioSq[..] == old(ioSq[..])[qid := sq.(head := head)] && ioCq[..] == old(ioCq[..])[qid := y.cq]
    {
      hide Turn, CmdAt, Turns, Halts, Passes, Inside, NextIndex, EntryAddr, Loop;
      if !ioSq[qid].valid || !ioCq[qid].valid { return; }
      var sq, head: u16 := ioSq[qid], ioSq[qid].head;
      ghost var q, x := State().queues, Live(State(), ioCq[qid]);
      while head != sq.tail
        invariant head <= sq.size && Halts(env, sq, ram.Length) && ioSq[..] == old(ioSq[..]) && ioCq[..] == old(ioCq[..])[qid := ioCq[qid]]
        invariant Loop(env, Io(sq.id), sq, sq.head, x) == Loop(env, Io(sq.id), sq, head, IoView(qid, q))
        decreases Turns(env, sq, head, ram.Length)
      {
        var addr := EntryAddr(sq, head, SQE);
        LoopTurn(env, Io(sq.id), sq, head, IoView(qid, q));
        var ok, entry := GuestRead(addr, SQE);
        if !ok || !Inside(env, ram.Length, addr, SQE) { break; }
        DmaInside(env, ram.Length, addr, SQE);
        CmdInPlace(ram[..], addr as int - env.ramBase as int);
        var c := CmdAt(entry, 0);
        IoCommand(qid, sq.id, c, q);
        head := NextIndex(sq, head);
      }
      if head == sq.tail {
        LoopAtTail(env, Io(sq.id), sq, IoView(qid, q));
      }
      ioSq[qid] := sq.(head := head);
    }

    // ---- Registers ----------------------------------------------------------------------

    /** The loop that disables every I/O queue. */
    method InvalidateQueues()
      requires Valid()
      modifies ioSq, ioCq
      ensures ioSq[..] == Invalidated(old(ioSq[..])) && ioCq[..] == Invalidated(old(ioCq[..]))
    {
      for i := 0 to MAX_QUEUES
        invariant forall j :: 0 <= j < MAX_QUEUES ==> ioSq[j] == if j < i then old(ioSq[j]).(valid := false) else old(ioSq[j])
        invariant forall j :: 0 <= j < MAX_QUEUES ==> ioCq[j] == if j < i then old(ioCq[j]).(valid := false) else old(ioCq[j])
      {
        ioSq[i] := ioSq[i].(valid := false);
        ioCq[i] := ioCq[i].(valid := false);
      }
    }

    /** CC.EN has gone up. */
    method Start()
      modifies this
      ensures View() == Enable(old(View()))
    {
      enabled := true;
      adminSq := adminSq.(base := asq, size := aqa % 0x1000, head := 0, tail := 0, valid := true);
      adminCq := adminCq.(base := acq, size := aqa / 0x1_0000 % 0x1000, head := 0, valid := true);
      csts := csts - csts % 2 + 1;
      ready := true;
    }

    /** CC.EN has gone down. */
    method Stop()
      requires Valid()
      modifies this, ioSq, ioCq
      ensures View() == Disable(old(View()))
    {
      hide Invalidated;
      enabled := false;
      ready := false;
      csts := csts - csts % 2;
      adminSq := adminSq.(valid := false);
      adminCq := adminCq.(valid := false);
      InvalidateQueues();
      numIo := 0;
    }

    /** The CC case of apple_nvme_mmio_write. */
    method WriteConfiguration(v: u32)
      requires Valid()
      modifies this, ioSq, ioCq
      ensures View() == WriteCc(old(View()), v)
    {
      hide Shutdown, Enable, Disable;
      var was := cc;
      cc := v;
      if was % 2 == 0 && cc % 2 == 1 {
        Start();
      } else if was % 2 == 1 && cc % 2 == 0 {
        Stop();
      }
      csts := Shutdown(csts, v);
    }

    /** apple_nvme_mmio_write keeps the lifecycle, and does to the controller what `Write` says. */
    method MmioWrite(offset: u64, value: u64)
      requires Valid() && Ends(env, View(), offset, value)
      modifies this, ram, ioSq, ioCq
      ensures View() == Write(env, old(View()), offset, value)
      ensures old(Lifecycle(View())) ==> Lifecycle(View())
    {
      hide Loop, WriteCc, Lifecycle;
      ghost var x := View();
      if offset < DOORBELLS {
        if offset == REG_CC {
          WriteConfiguration(value % 0x1_0000_0000);
        } else if offset == REG_AQA {
          aqa := value % 0x1_0000_0000;
        } else if offset == REG_ASQ {
          asq := SetLow(asq, value);
        } else if offset == REG_ASQ_HIGH {
          asq := SetHigh(asq, value);
        } else if offset == REG_ACQ {
          acq := SetLow(acq, value);
        } else if offset == REG_ACQ_HIGH {
          acq := SetHigh(acq, value);
        }
      } else if enabled {
        Doorbell(DoorbellIndex(offset) / 2, DoorbellIndex(offset) % 2 == 1, value % 0x1_0000);
      }
      if Lifecycle(x) {
        WriteKeepsLifecycle(env, x, offset, value);
      }
    }

    /** The doorbell cases of an enabled controller. */
    method Doorbell(qid: nat, isCq: bool, value: u16)
      requires Valid()
      requires !isCq && qid == 0 ==> adminSq.head <= adminSq.size && Halts(env, adminSq.(tail := value), ram.Length)
      requires !isCq && 0 < qid < MAX_QUEUES && ioSq[qid].valid && ioCq[qid].valid ==>
                 ioSq[qid].head <= ioSq[qid].size && Halts(env, ioSq[qid].(tail := value), ram.Length)
      modifies this, ram, ioSq, ioCq
      ensures !isCq && qid == 0 ==> View() == RingAdmin(env, old(View()), value)
      ensures !isCq && 0 < qid < MAX_QUEUES && old(ioSq[qid]).valid ==> View() == RingIo(env, old(View()), qid, value)
      ensures !isCq && 0 < qid && !(qid < MAX_QUEUES && old(ioSq[qid]).valid) ==> View() == old(View())
      ensures isCq && qid == 0 ==> View() == old(View()).(adminCq := old(adminCq).(head := value))
      ensures isCq && qid > 0 ==> View() == old(View()).(s :=
                if qid < MAX_QUEUES && old(ioCq[qid]).valid then
                  old(State()).(queues := old(State()).queues.(cq := old(ioCq[..])[qid := old(ioCq[qid]).(head := value)]))
                else old(State()))
    {
      hide Loop;
      if qid == 0 {
        if isCq {
          adminCq := adminCq.(head := value);
        } else {
          adminSq := adminSq.(tail := value);
          ProcessAdmin();
        }
      } else if qid < MAX_QUEUES {
        if isCq {
          if ioCq[qid].valid {
            ioCq[qid] := ioCq[qid].(head := value);
          }
        } else if ioSq[qid].valid {
          ioSq[qid] := ioSq[qid].(tail := value);
          ProcessIo(qid);
        }
      }
    }
  }

  /** Posting a completion neither reads nor changes the queue table. */
  lemma PostIrrelevant(env: Env, s: Sys, q: Queues, cq: Queue, done: Cqe)
    ensures var y := Post(env, Live(s, cq), Some(done));
            Post(env, Live(s.(queues := q), cq), Some(done)) == y.(s := y.s.(queues := q))
    ensures Post(env, Live(s, cq), Some(done)).cq == cq.(head := Post(env, Live(s, cq), Some(done)).cq.head)
  {
    hide Blit, CqeBytes, Passes, Inside;
  }

  lemma PostNothing(env: Env, x: Live)
    ensures Post(env, x, None) == x
  {
  }

  lemma LoopAtTail(env: Env, src: Source, sq: Queue, x: Live)
    requires sq.tail <= sq.size && x.s.queues.Shaped()
    ensures Loop(env, src, sq, sq.tail, x) == (x, sq.tail)
  {
  }

  /** A command reads the same from its copied entry. */
  lemma CmdInPlace(ram: seq<u8>, off: nat)
    requires off + SQE <= |ram|
    ensures CmdAt(ram[off..off + SQE], 0) == CmdAt(ram, off)
  {
  }

  /** I/O commands neither read nor change the queue table. */
  lemma QueuesIrrelevant(env: Env, c: Cmd, s: Sys, q: Queues)
    ensures Transfer(env, c, s.(queues := q)).1 == Transfer(env, c, s).1
    ensures Transfer(env, c, s.(queues := q)).0 == Transfer(env, c, s).0.(queues := q)
  {
    hide Blit, FileRead, FileWrite, Slba, Nlb;
  }
}
