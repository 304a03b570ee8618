/** Command execution in devices/apple-nvme/apple_nvme.c (NVMe 1.4): the block store behind the I/O queues,
    and the queue table behind the admin queue.
 */
module NvmeStore {
  import opened Bytes
  import opened DiskFile
  import opened Options

  const OP_FLUSH: u8 := 0x00
  const OP_WRITE: u8 := 0x01
  const OP_READ: u8 := 0x02

  const BLOCK: nat := 512
  const MAX_TRANSFER: nat := 131072
  const MAX_QUEUES: nat := 4
  const SQE: nat := 64
  const CQE: nat := 16

  // Status codes, already shifted past the phase bit.
  const OK: u16 := 0x00
  const INVALID_OPCODE: u16 := 0x02
  const INVALID_FIELD: u16 := 0x04
  const DATA_TRANSFER: u16 := 0x08
  const INTERNAL: u16 := 0x0C
  const ABORT_REQUESTED: u16 := 0x0E
  const INVALID_NS: u16 := 0x16
  const LBA_RANGE: u16 := 0x100

  /** A submission queue entry's fields that the controller looks at. */
  datatype Cmd = Cmd(opcode: u8, cid: u16, nsid: u32, dptr: u64, cdw10: u32, cdw11: u32, cdw12: u32)

  /** A completion queue entry; `status` is without the phase bit. */
  datatype Cqe = Cqe(cdw0: u32, sqId: u16, cid: u16, status: u16)

  datatype Queue = Queue(base: u64, size: u16, head: u16, tail: u16, valid: bool, id: u16)

  /** The I/O queue pairs and the controller's count of them. */
  datatype Queues = Queues(sq: seq<Queue>, cq: seq<Queue>, count: int)
  {
    ghost predicate Shaped() { |sq| == MAX_QUEUES && |cq| == MAX_QUEUES }
  }

  /** What commands change.  `lost` records that a DMA copy has left guest RAM: what C's memory and disk hold
      from then on is undefined, and the other components say nothing about them any more. */
  datatype Sys = Sys(ram: seq<u8>, disk: seq<u8>, queues: Queues, lost: bool)

  /** What they do not change: guest RAM's address, the namespace and its image, the identify pages, and
      what reading a completion queue's `valid` flag beyond the array of four happens to find. */
  datatype Env = Env(ramBase: u64, active: bool, blocks: u64, present: bool, readOnly: bool,
                     ctrlPage: seq<u8>, nsPage: seq<u8>, stray: bool)

  /** Which queue a command came from. */
  datatype Source = Admin | Io(sqId: u16)

  // ---- Commands in memory ------------------------------------------------------

  function CmdAt(ram: seq<u8>, off: nat): Cmd
    requires off + SQE <= |ram|
  {
    var cdw0 := Le32At(ram, off);
    Cmd(cdw0 % 0x100, cdw0 / 0x1_0000, Le32At(ram, off + 4), Le64At(ram, off + 24),
        Le32At(ram, off + 40), Le32At(ram, off + 44), Le32At(ram, off + 48))
  }

  /** The bytes of a completion; the phase bit is always set and the queue head always zero. */
  function CqeBytes(c: Cqe): (s: seq<u8>)
    ensures |s| == CQE
  {
    Le32(c.cdw0) + Le32(0) + Le16(0) + Le16(c.sqId) + Le16(c.cid) + Le16(if c.status % 2 == 1 then c.status else c.status + 1)
  }

  /** The range lies in guest RAM. */
  predicate Inside(env: Env, ramSize: nat, addr: u64, len: nat) {
    env.ramBase <= addr && addr as int - env.ramBase as int + len <= ramSize
  }

  /** The test of the DMA callbacks, whose sums are 64 bits wide. */
  predicate Passes(env: Env, ramSize: nat, addr: u64, len: nat) {
    env.ramBase <= addr && (addr as int + len) % TWO64 <= (env.ramBase as int + ramSize) % TWO64
  }

  /** A DMA access that is served. */
  predicate Dma(env: Env, ramSize: nat, addr: u64, len: nat) {
    Passes(env, ramSize, addr, len) && Inside(env, ramSize, addr, len)
  }

  /** A DMA access that passes the test and yet leaves guest RAM. */
  predicate Strays(env: Env, ramSize: nat, addr: u64, len: nat) {
    Passes(env, ramSize, addr, len) && !Inside(env, ramSize, addr, len)
  }

  /** Guest RAM ends below the top of the address space. */
  predicate Window(env: Env, ramSize: nat) { env.ramBase as int + ramSize < TWO64 }

  /** A range passes although it lies outside exactly when its end wraps around to an address not above RAM's
      end; every range inside passes. */
  lemma StraysExactly(env: Env, ramSize: nat, addr: u64, len: nat)
    requires Window(env, ramSize) && len <= TWO64
    ensures Strays(env, ramSize, addr, len) <==>
              env.ramBase <= addr && addr as int + len >= TWO64 && addr as int + len - TWO64 <= env.ramBase as int + ramSize
    ensures Dma(env, ramSize, addr, len) <==> Inside(env, ramSize, addr, len)
  {
    var end := addr as int + len;
    assert end % TWO64 == if end < TWO64 then end else if end < 2 * TWO64 then end - TWO64 else end - 2 * TWO64;
  }

  // ---- I/O commands ------------------------------------------------------------

  function Slba(c: Cmd): u64 {
    c.cdw11 as int * TWO32 + c.cdw10 as int
  }

  /** The 16-bit block count: the field is zero-based and its largest value wraps to no blocks. */
  function Nlb(c: Cmd): (n: nat)
    ensures n < TWO16
  {
    (c.cdw12 as int % TWO16 + 1) % TWO16
  }

  function ByteOffset(c: Cmd): u64 { Slba(c) as int * BLOCK % TWO64 }

  function ByteCount(c: Cmd): nat { Nlb(c) * BLOCK }

  /** nvme_io_rw up to the completion: the new state and the status. */
  function Transfer(env: Env, c: Cmd, s: Sys): (r: (Sys, u16))
    ensures |r.0.ram| == |s.ram| && r.0.queues == s.queues && (s.lost ==> r.0.lost)
  {
    if c.nsid != 1 || !env.active then (s, INVALID_NS)
    else if (Slba(c) as int + Nlb(c)) % TWO64 > env.blocks as int then (s, LBA_RANGE)
    else if !env.present then (s, INTERNAL)
    else if c.opcode == OP_READ then
      if ByteCount(c) > MAX_TRANSFER then (s, DATA_TRANSFER)
      else if !CanSeek(ByteOffset(c)) || |FileRead(s.disk, ByteOffset(c) as nat, ByteCount(c))| != ByteCount(c) then (s, INTERNAL)
      else if Strays(env, |s.ram|, c.dptr, ByteCount(c)) then (s.(lost := true), OK)
      else if !Dma(env, |s.ram|, c.dptr, ByteCount(c)) then (s, DATA_TRANSFER)
      else (s.(ram := Blit(s.ram, c.dptr as int - env.ramBase as int, FileRead(s.disk, ByteOffset(c) as nat, ByteCount(c)))), OK)
    else if c.opcode == OP_WRITE then
      if env.readOnly then (s, INVALID_OPCODE)
      else if ByteCount(c) > MAX_TRANSFER then (s, DATA_TRANSFER)
      else if Strays(env, |s.ram|, c.dptr, ByteCount(c)) then (s.(lost := true), if CanSeek(ByteOffset(c)) then OK else INTERNAL)
      else if !Dma(env, |s.ram|, c.dptr, ByteCount(c)) then (s, DATA_TRANSFER)
      else if !CanSeek(ByteOffset(c)) then (s, INTERNAL)
      else (s.(disk := FileWrite(s.disk, ByteOffset(c) as nat, Payload(env, c, s.ram))), OK)
    else (s, OK)
  }

  /** The guest buffer of a transfer. */
  function Payload(env: Env, c: Cmd, ram: seq<u8>): seq<u8>
    requires Dma(env, |ram|, c.dptr, ByteCount(c))
  {
    var off := c.dptr as int - env.ramBase as int;
    ram[off..off + ByteCount(c)]
  }

  function ExecIo(env: Env, sqId: u16, c: Cmd, s: Sys): (r: (Sys, Option<Cqe>))
    ensures |r.0.ram| == |s.ram| && r.0.queues == s.queues && (s.lost ==> r.0.lost)
  {
    if c.opcode == OP_READ || c.opcode == OP_WRITE || c.opcode == OP_FLUSH then
      var (t, status) := Transfer(env, c, s);
      (t, Some(Cqe(0, sqId, c.cid, status)))
    else (s, None)
  }

  // ---- Admin commands ----------------------------------------------------------

  const ADM_DELETE_SQ: u8 := 0x00
  const ADM_CREATE_SQ: u8 := 0x01
  const ADM_DELETE_CQ: u8 := 0x04
  const ADM_CREATE_CQ: u8 := 0x05
  const ADM_IDENTIFY: u8 := 0x06
  const ADM_ABORT: u8 := 0x08
  const ADM_SET_FEATURES: u8 := 0x09
  const ADM_GET_FEATURES: u8 := 0x0A

  /** The page that an Identify command writes, if its structure is known; a namespace that does not exist or
      is not attached has a page of zeros. */
  function IdentifyPage(env: Env, c: Cmd): Option<seq<u8>> {
    var cns := c.cdw10 % 0x100;
    if cns == 1 then Some(env.ctrlPage)
    else if cns == 0 then Some(if c.nsid == 1 && env.active then env.nsPage else Zeros(|env.nsPage|))
    else if cns == 2 then Some(Zeros(4096)) else None
  }

  /** A page that cannot be delivered is an internal error, except for the empty namespace list. */
  function Identify(env: Env, c: Cmd, s: Sys): (r: (Sys, u16))
    ensures |r.0.ram| == |s.ram| && r.0.disk == s.disk && r.0.queues == s.queues && (s.lost ==> r.0.lost)
  {
    var page := IdentifyPage(env, c);
    if page.None? then (s, INVALID_FIELD)
    else if Strays(env, |s.ram|, c.dptr, |page.value|) then (s.(lost := true), OK)
    else if Dma(env, |s.ram|, c.dptr, |page.value|) then
      (s.(ram := Blit(s.ram, c.dptr as int - env.ramBase as int, page.value)), OK)
    else (s, if c.cdw10 % 0x100 == 2 then OK else INTERNAL)
  }

  function Qid(c: Cmd): u16 { c.cdw10 % 0x1_0000 }
  function Qsize(c: Cmd): u16 { c.cdw10 / 0x1_0000 }

  predicate UsableQid(qid: u16) { 0 < qid && (qid as int) < MAX_QUEUES }

  function CreateCq(c: Cmd, q: Queues): (r: (Queues, u16))
    requires q.Shaped()
    ensures r.0.Shaped()
  {
    if !UsableQid(Qid(c)) then (q, INVALID_FIELD)
    else (q.(cq := q.cq[Qid(c) := Queue(c.dptr, Qsize(c), 0, q.cq[Qid(c)].tail, true, Qid(c))]), OK)
  }

  /** The completion queue is looked up under the low half of CDW11. */
  function CreateSq(env: Env, c: Cmd, q: Queues): (r: (Queues, u16))
    requires q.Shaped()
    ensures r.0.Shaped()
  {
    var cqid := c.cdw11 % 0x1_0000;
    if !UsableQid(Qid(c)) then (q, INVALID_FIELD)
    else if !(if cqid < 4 then q.cq[cqid].valid else env.stray) then (q, INVALID_FIELD)
    else (Queues(q.sq[Qid(c) := Queue(c.dptr, Qsize(c), 0, 0, true, Qid(c))], q.cq, q.count + 1), OK)
  }

  function DeleteQueue(c: Cmd, isSq: bool, q: Queues): (r: (Queues, u16))
    requires q.Shaped()
    ensures r.0.Shaped()
  {
    if !UsableQid(Qid(c)) then (q, INVALID_FIELD)
    else if isSq then
      (Queues(q.sq[Qid(c) := q.sq[Qid(c)].(valid := false)], q.cq, if q.count > 0 then q.count - 1 else q.count), OK)
    else (q.(cq := q.cq[Qid(c) := q.cq[Qid(c)].(valid := false)]), OK)
  }

  /** Set/Get Features: queue count (7) and write cache (6); the status and the returned word. */
  function Feature(c: Cmd, isSet: bool): (u16, u32) {
    var fid := c.cdw10 % 0x100;
    if fid == 7 then (OK, 3 * 0x1_0000 + 3)
    else if fid == 6 then (OK, if isSet then 0 else 1)
    else (INVALID_FIELD, 0)
  }

  function ExecAdmin(env: Env, c: Cmd, s: Sys): (r: (Sys, Option<Cqe>))
    requires s.queues.Shaped()
    ensures |r.0.ram| == |s.ram| && r.0.disk == s.disk && r.0.queues.Shaped() && (s.lost ==> r.0.lost)
  {
    if c.opcode == ADM_IDENTIFY then
      var (t, status) := Identify(env, c, s); (t, Some(Cqe(0, 0, c.cid, status)))
    else if c.opcode == ADM_CREATE_CQ then
      var (q, status) := CreateCq(c, s.queues); (s.(queues := q), Some(Cqe(0, 0, c.cid, status)))
    else if c.opcode == ADM_CREATE_SQ then
      var (q, status) := CreateSq(env, c, s.queues); (s.(queues := q), Some(Cqe(0, 0, c.cid, status)))
    else if c.opcode == ADM_DELETE_SQ || c.opcode == ADM_DELETE_CQ then
      var (q, status) := DeleteQueue(c, c.opcode == ADM_DELETE_SQ, s.queues); (s.(queues := q), Some(Cqe(0, 0, c.cid, status)))
    else if c.opcode == ADM_SET_FEATURES || c.opcode == ADM_GET_FEATURES then
      var (status, dw0) := Feature(c, c.opcode == ADM_SET_FEATURES); (s, Some(Cqe(dw0, 0, c.cid, status)))
    else if c.opcode == ADM_ABORT then (s, Some(Cqe(0, 0, c.cid, ABORT_REQUESTED)))
    else (s, None)
  }

  /** One command from either kind of queue. */
  function Exec(env: Env, src: Source, c: Cmd, s: Sys): (r: (Sys, Option<Cqe>))
    requires s.queues.Shaped()
    ensures |r.0.ram| == |s.ram| && r.0.queues.Shaped() && (s.lost ==> r.0.lost)
    ensures src.Io? ==> r.0.queues == s.queues
    ensures src.Admin? ==> r.0.disk == s.disk
    ensures r.1.Some? ==> r.1.value.cid == c.cid
  {
    match src
    case Admin => ExecAdmin(env, c, s)
    case Io(id) => ExecIo(env, id, c, s)
  }

  /** I/O queue pair 0 is never in use. */
  ghost predicate NoPairZero(q: Queues) {
    q.Shaped() && !q.sq[0].valid && !q.cq[0].valid && q.count >= 0
  }

  lemma ExecKeepsPairZero(env: Env, src: Source, c: Cmd, s: Sys)
    requires NoPairZero(s.queues)
    ensures NoPairZero(Exec(env, src, c, s).0.queues)
  {
    hide Blit, Transfer, Feature;
  }

  /** How many I/O submission queues are valid. */
  function ValidSqs(q: Queues): nat
    requires q.Shaped()
  {
    One(q.sq[0].valid) + One(q.sq[1].valid) + One(q.sq[2].valid) + One(q.sq[3].valid)
  }

  /** The guards of the two admin commands that change the count. */
  predicate Creates(env: Env, c: Cmd, q: Queues)
    requires q.Shaped()
  {
    var cqid := c.cdw11 % 0x1_0000;
    c.opcode == ADM_CREATE_SQ && UsableQid(Qid(c)) && (if cqid < 4 then q.cq[cqid].valid else env.stray)
  }

  predicate Deletes(c: Cmd) {
    c.opcode == ADM_DELETE_SQ && UsableQid(Qid(c))
  }

  /** The controller's queue count stays the number of valid submission queues exactly when the command neither
      creates a queue that is valid already nor deletes one that is not while others are. */
  lemma CountAgreesExactly(env: Env, c: Cmd, s: Sys)
    requires NoPairZero(s.queues) && s.queues.count == ValidSqs(s.queues)
    ensures var q := ExecAdmin(env, c, s).0.queues;
            q.count == ValidSqs(q) <==>
              && !(Creates(env, c, s.queues) && s.queues.sq[Qid(c)].valid)
              && !(Deletes(c) && !s.queues.sq[Qid(c)].valid && s.queues.count > 0)
  {
    hide Identify, Feature;
  }

  // ---- Laws of the store ---------------------------------------------------------

  /** The attached image backs every block of the namespace and is a file of ordinary size. */
  ghost predicate Backed(env: Env, disk: seq<u8>) {
    env.present ==> env.blocks as int * BLOCK <= |disk| < TWO63
  }

  /** The conditions under which NVMe lets a transfer of Nlb blocks happen, in unbounded arithmetic. */
  predicate Eligible(env: Env, c: Cmd) {
    && c.nsid == 1 && env.active && env.present
    && Slba(c) as int + Nlb(c) <= env.blocks as int
    && ByteCount(c) <= 131072
  }

  /** The same with the source's wrapping sum. */
  predicate Reaches(env: Env, c: Cmd) {
    && c.nsid == 1 && env.active && env.present
    && (Slba(c) as int + Nlb(c)) % TWO64 <= env.blocks as int
    && ByteCount(c) <= 131072
  }

  /** Despite the wrapping 64-bit bounds check on blocks, a read or write succeeds exactly when it lies in the
      namespace and its buffer passes the callbacks' test: a block address that wraps past the check is refused by
      the seek.  A buffer that passes without lying in RAM is copied all the same, and then nothing is known. */
  lemma SucceedsExactly(env: Env, c: Cmd, s: Sys)
    requires Backed(env, s.disk)
    ensures c.opcode == OP_READ ==>
              (Transfer(env, c, s).1 == OK <==> Eligible(env, c) && Passes(env, |s.ram|, c.dptr, ByteCount(c)))
    ensures c.opcode == OP_READ ==>
              (Transfer(env, c, s).0.lost <==> s.lost || (Eligible(env, c) && Strays(env, |s.ram|, c.dptr, ByteCount(c))))
    ensures c.opcode == OP_WRITE ==>
              (Transfer(env, c, s).1 == OK <==> Eligible(env, c) && !env.readOnly && Passes(env, |s.ram|, c.dptr, ByteCount(c)))
    ensures c.opcode == OP_WRITE ==>
              (Transfer(env, c, s).0.lost <==>
                 s.lost || (Reaches(env, c) && !env.readOnly && Strays(env, |s.ram|, c.dptr, ByteCount(c))))
    ensures Eligible(env, c) ==> ByteOffset(c) as int == Slba(c) as int * BLOCK && CanSeek(ByteOffset(c))
  {
    hide FileRead, FileWrite, Blit, Payload, Passes, Inside;
    var slba, nlb := Slba(c) as int, Nlb(c);
    if slba + nlb >= TWO64 {
      assert slba * BLOCK % TWO64 == slba * BLOCK - (BLOCK - 1) * TWO64 >= TWO63;
    }
  }

  /** A successful write whose buffer does not stray stores exactly its blocks, taken from guest memory. */
  lemma WriteStores(env: Env, c: Cmd, s: Sys)
    requires Backed(env, s.disk) && c.opcode == OP_WRITE && Transfer(env, c, s).1 == OK
    requires !Strays(env, |s.ram|, c.dptr, ByteCount(c))
    ensures var (t, _) := Transfer(env, c, s);
            && t.ram == s.ram && |t.disk| == |s.disk| && t.lost == s.lost
            && ByteOffset(c) as int + ByteCount(c) <= |s.disk|
            && Dma(env, |s.ram|, c.dptr, ByteCount(c))
            && t.disk[ByteOffset(c) as int..ByteOffset(c) as int + ByteCount(c)] == Payload(env, c, s.ram)
            && (forall i :: 0 <= i < |s.disk| && !(ByteOffset(c) as int <= i < ByteOffset(c) as int + ByteCount(c)) ==> t.disk[i] == s.disk[i])
  {
    hide FileRead, Blit, Slba, Nlb, Passes, Inside;
    SucceedsExactly(env, c, s);
    DmaInside(env, |s.ram|, c.dptr, ByteCount(c));
  }

  /** A successful read whose buffer does not stray delivers exactly the disk's bytes and changes no other memory. */
  lemma ReadDelivers(env: Env, c: Cmd, s: Sys)
    requires Backed(env, s.disk) && c.opcode == OP_READ && Transfer(env, c, s).1 == OK
    requires !Strays(env, |s.ram|, c.dptr, ByteCount(c))
    ensures var (t, _) := Transfer(env, c, s);
            && t.disk == s.disk && t.lost == s.lost
            && ByteOffset(c) as int + ByteCount(c) <= |s.disk|
            && Dma(env, |s.ram|, c.dptr, ByteCount(c))
            && Payload(env, c, t.ram) == s.disk[ByteOffset(c) as int..ByteOffset(c) as int + ByteCount(c)]
            && var off: nat := c.dptr as int - env.ramBase as int;
               SameOutside(t.ram, s.ram, off, ByteCount(c))
  {
    hide FileWrite, Slba, Nlb, Passes, Inside;
    SucceedsExactly(env, c, s);
    DmaInside(env, |s.ram|, c.dptr, ByteCount(c));
  }

  lemma DmaInside(env: Env, ramSize: nat, addr: u64, n: nat)
    requires Dma(env, ramSize, addr, n)
    ensures env.ramBase <= addr && addr as int - env.ramBase as int + n <= ramSize
  {
  }

  /** The block count is the zero-based field plus one exactly when the field is not 0xFFFF. */
  lemma CountsBlocksExactly(c: Cmd)
    ensures Nlb(c) == c.cdw12 as int % TWO16 + 1 <==> c.cdw12 as int % TWO16 != 0xFFFF
  {
  }
}
