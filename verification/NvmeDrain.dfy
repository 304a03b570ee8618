/** The loops of devices/apple-nvme/apple_nvme.c that drain a submission queue and post completions,
    and what they amount to: the commands in order, and their completions in consecutive slots.
 */
module NvmeDrain {
  import opened Bytes
  import opened DiskFile
  import opened ModArith
  import opened NvmeStore
  import opened Options

  /** What draining changes: memory, disk and queue table, and the completion queue's position. */
  datatype Live = Live(s: Sys, cq: Queue)

  /** `phys_base + index * sizeof(entry)` in 64 bits. */
  function EntryAddr(q: Queue, index: u16, entry: nat): u64 {
    (q.base as int + index as int * entry) % TWO64
  }

  /** The position after `index` in a ring of `q.size + 1` entries. */
  function NextIndex(q: Queue, index: u16): (r: u16)
    ensures r <= q.size
  {
    (index as int + 1) % (q.size as int + 1)
  }

  /** The tail of every command handler: a completion goes to a valid queue's slot, delivered or not. */
  function Post(env: Env, x: Live, c: Option<Cqe>): (r: Live)
    ensures |r.s.ram| == |x.s.ram| && r.s.disk == x.s.disk && r.s.queues == x.s.queues && (x.s.lost ==> r.s.lost)
  {
    if c.None? || !x.cq.valid then x
    else
      var addr := EntryAddr(x.cq, x.cq.head, CQE);
      Live(if Strays(env, |x.s.ram|, addr, CQE) then x.s.(lost := true)
           else if Dma(env, |x.s.ram|, addr, CQE) then
             x.s.(ram := Blit(x.s.ram, addr as int - env.ramBase as int, CqeBytes(c.value)))
           else x.s,
           x.cq.(head := NextIndex(x.cq, x.cq.head)))
  }

  function Turn(env: Env, src: Source, c: Cmd, x: Live): (r: Live)
    requires x.s.queues.Shaped()
    ensures r.s.queues.Shaped() && |r.s.ram| == |x.s.ram| && (x.s.lost ==> r.s.lost)
  {
    var (t, done) := Exec(env, src, c, x.s);
    Post(env, x.(s := t), done)
  }

  /** How many entries stand between `head` and the tail. */
  function Left(sq: Queue, head: u16): nat {
    (sq.tail as int - head as int) % (sq.size as int + 1)
  }

  predicate InRing(sq: Queue, head: u16) {
    head <= sq.size && sq.tail <= sq.size
  }

  lemma LeftNext(sq: Queue, head: u16)
    requires InRing(sq, head) && head != sq.tail
    ensures InRing(sq, NextIndex(sq, head)) && Left(sq, NextIndex(sq, head)) == Left(sq, head) - 1
  {
    var n := sq.size as int + 1;
    if head < sq.size {
      DivModUnique(head as int + 1, n, 0, head as int + 1);
    } else {
      DivModUnique(head as int + 1, n, 1, 0);
    }
    var d, e := sq.tail as int - head as int, sq.tail as int - NextIndex(sq, head) as int;
    DivModUnique(d, n, if d < 0 then -1 else 0, if d < 0 then d + n else d);
    DivModUnique(e, n, if e < 0 then -1 else 0, if e < 0 then e + n else e);
  }

  /** The position `k` entries past `start`. */
  function Position(q: Queue, start: u16, k: nat): (r: u16)
    ensures r <= q.size
  {
    (start as int + k) % (q.size as int + 1)
  }

  /** What ends the loop at entry `i`: the tail, or a fetch that is refused; a fetch that strays ends what the
      model follows. */
  predicate Stops(env: Env, sq: Queue, ramSize: nat, i: u16) {
    i == sq.tail || !Dma(env, ramSize, EntryAddr(sq, i, SQE), SQE)
  }

  /** The tail lies in the ring, or DMA does not deliver some entry of the ring. */
  ghost predicate Halts(env: Env, sq: Queue, ramSize: nat) {
    sq.tail <= sq.size || exists i: u16 :: i <= sq.size && !Dma(env, ramSize, EntryAddr(sq, i, SQE), SQE)
  }

  /** Some number of steps gets from `a` to `b` around the ring. */
  lemma Around(sq: Queue, a: u16, b: u16) returns (k: nat)
    requires a <= sq.size && b <= sq.size
    ensures Position(sq, a, k) == b && k == (b as int - a as int) % (sq.size as int + 1)
  {
    var n := sq.size as int + 1;
    k := b as int - a as int + if b < a then n else 0;
    DivModUnique(a as int + k, n, if b < a then 1 else 0, b as int);
    DivModUnique(b as int - a as int, n, if b < a then -1 else 0, k);
  }

  /** From inside the ring the loop comes to a stop exactly when the tail lies in the ring or some entry is not
      delivered; any other doorbell would be chased forever. */
  lemma HaltsExactly(env: Env, sq: Queue, head: u16, ramSize: nat)
    requires head <= sq.size
    ensures (exists k: nat :: Stops(env, sq, ramSize, Position(sq, head, k))) <==> Halts(env, sq, ramSize)
  {
    hide Dma, Position;
    if sq.tail <= sq.size {
      var k := Around(sq, head, sq.tail);
      assert Stops(env, sq, ramSize, Position(sq, head, k));
    } else if Halts(env, sq, ramSize) {
      var i: u16 :| i <= sq.size && !Dma(env, ramSize, EntryAddr(sq, i, SQE), SQE);
      var k := Around(sq, head, i);
      assert Stops(env, sq, ramSize, Position(sq, head, k));
    }
  }

  /** How many turns the loop takes from `head`. */
  ghost function Turns(env: Env, sq: Queue, head: u16, ramSize: nat): (r: nat)
    requires head <= sq.size && Halts(env, sq, ramSize)
    ensures Stops(env, sq, ramSize, Position(sq, head, r))
    ensures forall j: nat :: j < r ==> !Stops(env, sq, ramSize, Position(sq, head, j))
  {
    HaltsExactly(env, sq, head, ramSize);
    var k: nat :| Stops(env, sq, ramSize, Position(sq, head, k));
    FirstStop(env, sq, head, ramSize, 0, k)
  }

  ghost function FirstStop(env: Env, sq: Queue, head: u16, ramSize: nat, from: nat, k: nat): (r: nat)
    requires from <= k && Stops(env, sq, ramSize, Position(sq, head, k))
    requires forall j: nat :: j < from ==> !Stops(env, sq, ramSize, Position(sq, head, j))
    ensures Stops(env, sq, ramSize, Position(sq, head, r))
    ensures forall j: nat :: j < r ==> !Stops(env, sq, ramSize, Position(sq, head, j))
    decreases k - from
  {
    if Stops(env, sq, ramSize, Position(sq, head, from)) then from else FirstStop(env, sq, head, ramSize, from + 1, k)
  }

  lemma SmallMod(h: nat, n: nat)
    requires h < n
    ensures h % n == h
  {
    DivModUnique(h, n, 0, h);
  }

  /** Positions counted from the next entry. */
  lemma PositionNext(q: Queue, h: u16, k: nat)
    requires h <= q.size
    ensures Position(q, NextIndex(q, h), k) == Position(q, h, k + 1)
    ensures Position(q, h, 0) == h
  {
    var n := q.size as int + 1;
    ModCarry(h as int, k, n);
    SmallMod(h as int, n);
    assert (h as int + 1 + k) % n == (h as int + (k + 1)) % n;
  }

  lemma TurnsNext(env: Env, sq: Queue, head: u16, ramSize: nat)
    requires head <= sq.size && Halts(env, sq, ramSize) && !Stops(env, sq, ramSize, head)
    ensures Turns(env, sq, NextIndex(sq, head), ramSize) == Turns(env, sq, head, ramSize) - 1
  {
    hide Stops, Halts, NextIndex, Position, Turns;
    var r, t := Turns(env, sq, head, ramSize), Turns(env, sq, NextIndex(sq, head), ramSize);
    PositionNext(sq, head, t);
    var late := Stops(env, sq, ramSize, Position(sq, head, t + 1));
    if r > 0 {
      PositionNext(sq, head, r - 1);
      var early := Stops(env, sq, ramSize, Position(sq, NextIndex(sq, head), r - 1));
    }
  }

  /** With the tail in the ring and every entry delivered the loop turns once for each waiting entry. */
  lemma TurnsAreLeft(env: Env, sq: Queue, head: u16, ramSize: nat)
    requires InRing(sq, head)
    ensures Turns(env, sq, head, ramSize) <= Left(sq, head)
    ensures (forall i: u16 :: i <= sq.size ==> Dma(env, ramSize, EntryAddr(sq, i, SQE), SQE)) ==>
              Turns(env, sq, head, ramSize) == Left(sq, head)
  {
    hide Dma;
    var r := Turns(env, sq, head, ramSize);
    var k := Around(sq, head, sq.tail);
    assert k < r ==> !Stops(env, sq, ramSize, Position(sq, head, k));
    if (forall i: u16 :: i <= sq.size ==> Dma(env, ramSize, EntryAddr(sq, i, SQE), SQE)) && r < k {
      ModDistinct(head as int + r, head as int + k, sq.size as int + 1);
    }
  }

  /** The loop of nvme_process_admin_cmd and of nvme_process_io_sq from `head` on, and where it stops. */
  function Loop(env: Env, src: Source, sq: Queue, head: u16, x: Live): (r: (Live, u16))
    requires head <= sq.size && Halts(env, sq, |x.s.ram|) && x.s.queues.Shaped()
    ensures r.0.s.queues.Shaped() && |r.0.s.ram| == |x.s.ram| && r.1 <= sq.size && (x.s.lost ==> r.0.s.lost)
    decreases Turns(env, sq, head, |x.s.ram|)
  {
    var addr := EntryAddr(sq, head, SQE);
    if head == sq.tail then (x, head)
    else if Strays(env, |x.s.ram|, addr, SQE) then (x.(s := x.s.(lost := true)), head)
    else if !Dma(env, |x.s.ram|, addr, SQE) then (x, head)
    else
      var c := CmdAt(x.s.ram, addr as int - env.ramBase as int);
      TurnsNext(env, sq, head, |x.s.ram|);
      Loop(env, src, sq, NextIndex(sq, head), Turn(env, src, c, x))
  }

  /** One turn of the loop, by what the fetch does. */
  lemma LoopTurn(env: Env, src: Source, sq: Queue, head: u16, x: Live)
    requires head <= sq.size && Halts(env, sq, |x.s.ram|) && x.s.queues.Shaped() && head != sq.tail
    ensures var addr := EntryAddr(sq, head, SQE);
            && (!Passes(env, |x.s.ram|, addr, SQE) ==> Loop(env, src, sq, head, x) == (x, head))
            && (Strays(env, |x.s.ram|, addr, SQE) ==> Loop(env, src, sq, head, x) == (x.(s := x.s.(lost := true)), head))
            && (Dma(env, |x.s.ram|, addr, SQE) ==>
                  && Loop(env, src, sq, head, x)
                     == Loop(env, src, sq, NextIndex(sq, head), Turn(env, src, CmdAt(x.s.ram, addr as int - env.ramBase as int), x))
                  && Turns(env, sq, NextIndex(sq, head), |x.s.ram|) < Turns(env, sq, head, |x.s.ram|))
  {
    hide Halts, Turn, CmdAt, NextIndex, EntryAddr, Turns;
    if Dma(env, |x.s.ram|, EntryAddr(sq, head, SQE), SQE) {
      TurnsNext(env, sq, head, |x.s.ram|);
    }
  }

  // ---- What the loop should do ----------------------------------------------------

  /** The commands waiting between `head` and the tail, as memory describes them. */
  function Waiting(env: Env, sq: Queue, head: u16, ram: seq<u8>): (cs: seq<Cmd>)
    requires InRing(sq, head) && RingInRam(env, sq, SQE, |ram|)
    ensures |cs| == Left(sq, head)
    decreases Left(sq, head)
  {
    if head == sq.tail then EmptyLeft(sq); []
    else
      LeftNext(sq, head);
      [CmdAt(ram, Slot(env, sq, head, SQE))] + Waiting(env, sq, NextIndex(sq, head), ram)
  }

  lemma EmptyLeft(sq: Queue)
    ensures Left(sq, sq.tail) == 0
  {
  }

  /** Working DMA: the ring lies in guest RAM. */
  predicate RingInRam(env: Env, q: Queue, entry: nat, ramSize: nat) {
    && env.ramBase <= q.base
    && q.base as int - env.ramBase as int + (q.size as int + 1) * entry <= ramSize
    && Window(env, ramSize)
  }

  function RingStart(env: Env, q: Queue): nat
    requires env.ramBase <= q.base
  {
    q.base - env.ramBase
  }

  function RingSize(q: Queue, entry: nat): nat {
    (q.size as int + 1) * entry
  }

  /** Offset in RAM of an entry. */
  function Slot(env: Env, q: Queue, index: u16, entry: nat): (off: nat)
    requires index <= q.size && env.ramBase <= q.base
    ensures RingStart(env, q) <= off && off + entry <= RingStart(env, q) + RingSize(q, entry)
  {
    assert (q.size - index) as int * entry >= 0;
    RingStart(env, q) + index as int * entry
  }

  lemma EntryBelow(i: nat, size: nat, entry: nat)
    requires i <= size
    ensures i * entry + entry <= (size + 1) * entry
  {
    if i < size {
      EntryBelow(i, size - 1, entry);
    }
  }

  lemma SlotAddr(env: Env, q: Queue, index: u16, entry: nat, ramSize: nat)
    requires RingInRam(env, q, entry, ramSize) && index <= q.size && entry > 0
    ensures Dma(env, ramSize, EntryAddr(q, index, entry), entry) && !Strays(env, ramSize, EntryAddr(q, index, entry), entry)
    ensures EntryAddr(q, index, entry) as int - env.ramBase as int == Slot(env, q, index, entry)
  {
    hide Passes, Slot;
    EntryBelow(index as nat, q.size as nat, entry);
    SlotHere(env, q, index, entry);
    StraysExactly(env, ramSize, EntryAddr(q, index, entry), entry);
  }

  /** With working DMA for the whole ring, a doorbell beyond it never comes to a stop. */
  lemma ChasedForever(env: Env, sq: Queue, ramSize: nat)
    requires RingInRam(env, sq, SQE, ramSize)
    ensures Halts(env, sq, ramSize) <==> sq.tail <= sq.size
  {
    hide Dma, RingInRam;
    forall i: u16 | i <= sq.size ensures Dma(env, ramSize, EntryAddr(sq, i, SQE), SQE) {
      SlotAddr(env, sq, i, SQE, ramSize);
    }
  }

  lemma SlotHere(env: Env, q: Queue, index: u16, entry: nat)
    requires index <= q.size && env.ramBase <= q.base
    ensures Slot(env, q, index, entry) == q.base as int - env.ramBase as int + index as int * entry
  {
  }

  /** Executing the commands one after another, and the completions they produce. */
  function Outcome(env: Env, src: Source, cs: seq<Cmd>, s: Sys): (r: (Sys, seq<Cqe>))
    requires s.queues.Shaped()
    ensures |r.0.ram| == |s.ram| && r.0.queues.Shaped()
    decreases |cs|
  {
    if cs == [] then (s, [])
    else
      var (t, done) := Exec(env, src, cs[0], s);
      var (u, rest) := Outcome(env, src, cs[1..], t);
      (u, if done.Some? then [done.value] + rest else rest)
  }

  /** The commands that produce a completion. */
  predicate Completes(src: Source, c: Cmd) {
    match src
    case Admin => c.opcode <= ADM_CREATE_SQ || ADM_DELETE_CQ <= c.opcode <= ADM_IDENTIFY || ADM_ABORT <= c.opcode <= ADM_GET_FEATURES
    case Io(_) => c.opcode <= OP_READ
  }

  function CompletingCids(src: Source, cs: seq<Cmd>): seq<u16> {
    if cs == [] then []
    else if Completes(src, cs[0]) then [cs[0].cid] + CompletingCids(src, cs[1..])
    else CompletingCids(src, cs[1..])
  }

  function Cids(done: seq<Cqe>): (r: seq<u16>)
    ensures |r| == |done| && forall i :: 0 <= i < |r| ==> r[i] == done[i].cid
  {
    seq(|done|, i requires 0 <= i < |done| => done[i].cid)
  }

  /** Completions carry the command identifiers of exactly the completing commands, in order, and the
      queue they came from. */
  lemma {:induction false} OutcomeCids(env: Env, src: Source, cs: seq<Cmd>, s: Sys)
    requires s.queues.Shaped()
    ensures Cids(Outcome(env, src, cs, s).1) == CompletingCids(src, cs)
    ensures forall c :: c in Outcome(env, src, cs, s).1 ==> c.sqId == (if src.Io? then src.sqId else 0)
    decreases |cs|
  {
    hide Transfer, Identify, CreateCq, CreateSq, DeleteQueue, Feature;
    if cs != [] {
      OutcomeCids(env, src, cs[1..], Exec(env, src, cs[0], s).0);
    }
  }

  // ---- Commands and the rings they came from ------------------------------------------

  /** How many bytes of guest memory at its data pointer a command may access. */
  function BufferSize(env: Env, src: Source, c: Cmd): nat {
    match src
    case Io(_) => if c.opcode == OP_READ || c.opcode == OP_WRITE then ByteCount(c) else 0
    case Admin =>
      if c.opcode == ADM_IDENTIFY && IdentifyPage(env, c).Some? then |IdentifyPage(env, c).value| else 0
  }

  /** The command's buffer, if DMA reaches it, keeps clear of the range. */
  predicate Clear(env: Env, src: Source, c: Cmd, ramSize: nat, lo: nat, n: nat) {
    Dma(env, ramSize, c.dptr, BufferSize(env, src, c)) ==>
      Apart(c.dptr as int - env.ramBase as int, BufferSize(env, src, c), lo, n)
  }

  lemma ExecKeeps(env: Env, src: Source, c: Cmd, s: Sys, lo: nat, n: nat)
    requires s.queues.Shaped() && Clear(env, src, c, |s.ram|, lo, n) && lo + n <= |s.ram|
    ensures SameIn(Exec(env, src, c, s).0.ram, s.ram, lo, n)
  {
    hide ByteCount, FileRead, FileWrite, CreateCq, CreateSq, DeleteQueue, Feature, Slba, Nlb, IdentifyPage;
  }

  lemma TransferIgnores(env: Env, c: Cmd, s: Sys, t: Sys, lo: nat, n: nat)
    requires s.disk == t.disk && s.queues == t.queues && s.lost == t.lost && SameOutside(s.ram, t.ram, lo, n)
    requires Dma(env, |s.ram|, c.dptr, ByteCount(c)) ==> Apart(c.dptr as int - env.ramBase as int, ByteCount(c), lo, n)
    ensures var (u, v) := (Transfer(env, c, s), Transfer(env, c, t));
            u.1 == v.1 && u.0.disk == v.0.disk && u.0.queues == v.0.queues && u.0.lost == v.0.lost && SameOutside(u.0.ram, v.0.ram, lo, n)
  {
    hide ByteCount, ByteOffset, FileRead, FileWrite, Slba, Nlb, SameOutside, Blit, CanSeek, Apart;
    assert |s.ram| == |t.ram| by { SizeAlike(s.ram, t.ram, lo, n); }
    if Dma(env, |s.ram|, c.dptr, ByteCount(c)) {
      var off := c.dptr as int - env.ramBase as int;
      SliceOutside(s.ram, t.ram, off, ByteCount(c), lo, n);
      var got := FileRead(s.disk, ByteOffset(c) as nat, ByteCount(c));
      if |got| == ByteCount(c) {
        BlitOutside(s.ram, t.ram, off, got, lo, n);
      }
    }
  }

  lemma IdentifyIgnores(env: Env, c: Cmd, s: Sys, t: Sys, lo: nat, n: nat)
    requires s.disk == t.disk && s.queues == t.queues && s.lost == t.lost && SameOutside(s.ram, t.ram, lo, n)
    ensures var (u, v) := (Identify(env, c, s), Identify(env, c, t));
            u.1 == v.1 && u.0.lost == v.0.lost && SameOutside(u.0.ram, v.0.ram, lo, n)
  {
    hide SameOutside, Blit, IdentifyPage;
    SizeAlike(s.ram, t.ram, lo, n);
    var page := IdentifyPage(env, c);
    if page.Some? && Dma(env, |s.ram|, c.dptr, |page.value|) {
      BlitOutside(s.ram, t.ram, c.dptr as int - env.ramBase as int, page.value, lo, n);
    }
  }

  /** Executing a command whose buffer keeps clear of a range does not depend on what the range holds. */
  lemma ExecIgnores(env: Env, src: Source, c: Cmd, s: Sys, t: Sys, lo: nat, n: nat)
    requires s.queues.Shaped() && s.disk == t.disk && s.queues == t.queues && s.lost == t.lost && SameOutside(s.ram, t.ram, lo, n)
    requires Clear(env, src, c, |s.ram|, lo, n)
    ensures var (u, v) := (Exec(env, src, c, s), Exec(env, src, c, t));
            u.1 == v.1 && u.0.disk == v.0.disk && u.0.queues == v.0.queues && u.0.lost == v.0.lost && SameOutside(u.0.ram, v.0.ram, lo, n)
  {
    hide ByteCount, SameOutside, Transfer, Identify, CreateCq, CreateSq, DeleteQueue, Feature, Apart, IdentifyPage;
    match src
    case Admin => IdentifyIgnores(env, c, s, t, lo, n);
    case Io(_) =>
      if c.opcode == OP_READ || c.opcode == OP_WRITE {
        TransferIgnores(env, c, s, t, lo, n);
      } else if c.opcode == OP_FLUSH {
        FlushIgnores(env, c, s, t);
      }
  }

  lemma FlushIgnores(env: Env, c: Cmd, s: Sys, t: Sys)
    requires c.opcode == OP_FLUSH
    ensures Transfer(env, c, s).0 == s && Transfer(env, c, s).1 == Transfer(env, c, t).1 && Transfer(env, c, t).0 == t
  {
  }

  // ---- The loop does what it should -----------------------------------------------------

  /** Both rings in guest RAM, apart from each other, and a working completion queue. */
  predicate Rings(env: Env, sq: Queue, cq: Queue, ramSize: nat) {
    && RingInRam(env, sq, SQE, ramSize) && RingInRam(env, cq, CQE, ramSize)
    && Apart(RingStart(env, sq), RingSize(sq, SQE), RingStart(env, cq), RingSize(cq, CQE))
    && cq.valid && cq.head <= cq.size
  }

  /** No command's buffer overlaps either ring. */
  predicate AllClear(env: Env, src: Source, sq: Queue, cq: Queue, cs: seq<Cmd>, ramSize: nat)
    requires env.ramBase <= sq.base && env.ramBase <= cq.base
  {
    forall c :: c in cs ==>
      && Clear(env, src, c, ramSize, RingStart(env, sq), RingSize(sq, SQE))
      && Clear(env, src, c, ramSize, RingStart(env, cq), RingSize(cq, CQE))
  }

  /** Real memory is the abstract memory except for the completion ring. */
  ghost predicate Mirrors(env: Env, cq: Queue, live: Sys, p: Sys)
    requires env.ramBase <= cq.base
  {
    && live.disk == p.disk && live.queues == p.queues && live.lost == p.lost && p.queues.Shaped()
    && SameOutside(live.ram, p.ram, RingStart(env, cq), RingSize(cq, CQE))
  }

  /** Every completion that the ring has room for stands in its slot, from the queue's position on. */
  ghost predicate Posted(env: Env, cq: Queue, ram: seq<u8>, done: seq<Cqe>)
    requires env.ramBase <= cq.base
  {
    forall i :: 0 <= i < |done| <= i + cq.size as int + 1 ==>
      At(ram, Slot(env, cq, Position(cq, cq.head, i), CQE), CqeBytes(done[i]))
  }

  /** The slots after the first `m` are as they were. */
  ghost predicate Beyond(env: Env, cq: Queue, ram: seq<u8>, was: seq<u8>, m: nat)
    requires env.ramBase <= cq.base
  {
    forall j :: m <= j <= cq.size as int ==> SameIn(ram, was, Slot(env, cq, Position(cq, cq.head, j), CQE), CQE)
  }

  /** Commands are read the same from memories that agree on the submission ring. */
  lemma {:induction false} WaitingSame(env: Env, sq: Queue, head: u16, a: seq<u8>, b: seq<u8>)
    requires InRing(sq, head) && RingInRam(env, sq, SQE, |a|) && SameIn(a, b, RingStart(env, sq), RingSize(sq, SQE))
    ensures |a| == |b| && Waiting(env, sq, head, a) == Waiting(env, sq, head, b)
    decreases Left(sq, head)
  {
    hide CmdAt, SameIn, RingSize;
    CmdSame(env, sq, head, a, b);
    if head != sq.tail {
      LeftNext(sq, head);
      WaitingSame(env, sq, NextIndex(sq, head), a, b);
    }
  }

  lemma CmdSame(env: Env, sq: Queue, index: u16, a: seq<u8>, b: seq<u8>)
    requires index <= sq.size && RingInRam(env, sq, SQE, |a|) && SameIn(a, b, RingStart(env, sq), RingSize(sq, SQE))
    ensures |a| == |b|
    ensures CmdAt(a, Slot(env, sq, index, SQE)) == CmdAt(b, Slot(env, sq, index, SQE))
  {
    hide Le32At, Le64At, Slot;
    SameInReads(a, b, RingStart(env, sq), RingSize(sq, SQE));
  }

  /** The real turn against the abstract command: same outcome, one more completion at most, and the
      submission ring untouched. */
  lemma TurnMirrors(env: Env, src: Source, sq: Queue, c: Cmd, x: Live, p: Sys)
    requires Rings(env, sq, x.cq, |p.ram|) && x.s.queues.Shaped() && Mirrors(env, x.cq, x.s, p)
    requires AllClear(env, src, sq, x.cq, [c], |p.ram|)
    ensures var (t, done) := Exec(env, src, c, p);
            var y := Turn(env, src, c, x);
            && Mirrors(env, x.cq, y.s, t)
            && SameIn(t.ram, p.ram, RingStart(env, sq), RingSize(sq, SQE))
            && y.cq == x.cq.(head := if done.Some? then NextIndex(x.cq, x.cq.head) else x.cq.head)
            && (forall i :: 0 <= i <= x.cq.size && (done.Some? ==> i != x.cq.head) ==>
                  SameIn(y.s.ram, x.s.ram, Slot(env, x.cq, i, CQE), CQE))
            && (done.Some? ==> At(y.s.ram, Slot(env, x.cq, x.cq.head, CQE), CqeBytes(done.value)))
  {
    hide Exec, Clear, CqeBytes, At, Apart, EntryAddr, Slot, Post;
    assert c in [c];
    var lo, n := RingStart(env, x.cq), RingSize(x.cq, CQE);
    SizeAlike(x.s.ram, p.ram, lo, n);
    ExecKeeps(env, src, c, p, RingStart(env, sq), RingSize(sq, SQE));
    ExecIgnores(env, src, c, x.s, p, lo, n);
    ExecKeeps(env, src, c, x.s, lo, n);
    var (t, done) := Exec(env, src, c, x.s);
    PostMirrors(env, Live(t, x.cq), done);
  }

  lemma PostMirrors(env: Env, x: Live, done: Option<Cqe>)
    requires RingInRam(env, x.cq, CQE, |x.s.ram|) && x.cq.valid && x.cq.head <= x.cq.size
    ensures var y := Post(env, x, done);
            && SameOutside(y.s.ram, x.s.ram, RingStart(env, x.cq), RingSize(x.cq, CQE))
            && y.cq == x.cq.(head := if done.Some? then NextIndex(x.cq, x.cq.head) else x.cq.head)
            && y.s.lost == x.s.lost
            && (forall i :: 0 <= i <= x.cq.size && (done.Some? ==> i != x.cq.head) ==>
                  SameIn(y.s.ram, x.s.ram, Slot(env, x.cq, i, CQE), CQE))
            && (done.Some? ==> At(y.s.ram, Slot(env, x.cq, x.cq.head, CQE), CqeBytes(done.value)))
  {
    hide CqeBytes, At, EntryAddr;
    SlotAddr(env, x.cq, x.cq.head, CQE, |x.s.ram|);
  }

  /** The same for a queue whose head has moved to the next entry. */
  lemma PositionMoved(q: Queue, k: nat)
    requires q.head <= q.size
    ensures var r := q.(head := NextIndex(q, q.head)); Position(r, r.head, k) == Position(q, q.head, k + 1)
    ensures Position(q, q.head, 0) == q.head
  {
    PositionNext(q, q.head, k);
  }

  /** A round brings the position back to its start and nothing less does. */
  lemma PositionHome(q: Queue, k: nat)
    requires q.head <= q.size && k <= q.size as int + 1
    ensures Position(q, q.head, k) == q.head <==> k == 0 || k == q.size as int + 1
  {
    var n := q.size as int + 1;
    ModHome(q.head as int, k, n);
    DivModUnique(k, n, if k == n then 1 else 0, if k == n then 0 else k);
  }

  /** One more completion in front: what the ring shows afterwards. */
  lemma PostedStep(env: Env, cq: Queue, mid: seq<u8>, now: seq<u8>, d: Cqe, rest: seq<Cqe>)
    requires env.ramBase <= cq.base && cq.head <= cq.size
    requires At(mid, Slot(env, cq, cq.head, CQE), CqeBytes(d))
    requires var r := cq.(head := NextIndex(cq, cq.head));
             Posted(env, r, now, rest) && Beyond(env, r, now, mid, |rest|)
    ensures Posted(env, cq, now, [d] + rest)
  {
    hide At, CqeBytes, SameIn, Slot, Position, NextIndex;
    var r := cq.(head := NextIndex(cq, cq.head));
    SlotsAlike(env, cq, r);
    forall i | 0 <= i < |rest| + 1 <= i + cq.size as int + 1
      ensures At(now, Slot(env, cq, Position(cq, cq.head, i), CQE), CqeBytes(([d] + rest)[i]))
    {
      if i == 0 {
        PositionMoved(cq, cq.size as int);
        PositionHome(cq, cq.size as int + 1);
        PositionHome(cq, 0);
        assert SameIn(now, mid, Slot(env, r, Position(r, r.head, cq.size as int), CQE), CQE);
        SameAt(now, mid, Slot(env, cq, cq.head, CQE), CqeBytes(d));
      } else {
        PositionMoved(cq, i - 1);
        assert rest[i - 1] == ([d] + rest)[i];
      }
    }
  }

  lemma BeyondStep(env: Env, cq: Queue, was: seq<u8>, mid: seq<u8>, now: seq<u8>, m: nat)
    requires env.ramBase <= cq.base && cq.head <= cq.size
    requires forall i :: 0 <= i <= cq.size && i != cq.head ==> SameIn(mid, was, Slot(env, cq, i, CQE), CQE)
    requires Beyond(env, cq.(head := NextIndex(cq, cq.head)), now, mid, m)
    ensures Beyond(env, cq, now, was, m + 1)
  {
    hide SameIn, Slot, Position, NextIndex;
    var r := cq.(head := NextIndex(cq, cq.head));
    SlotsAlike(env, cq, r);
    forall j | m + 1 <= j <= cq.size as int ensures SameIn(now, was, Slot(env, cq, Position(cq, cq.head, j), CQE), CQE) {
      PositionMoved(cq, j - 1);
      PositionHome(cq, j);
      var at := Slot(env, cq, Position(cq, cq.head, j), CQE);
      assert SameIn(now, mid, Slot(env, r, Position(r, r.head, j - 1), CQE), CQE);
      SameInTrans(now, mid, was, at, CQE);
    }
  }

  lemma SlotsAlike(env: Env, q: Queue, r: Queue)
    requires env.ramBase <= q.base && r == q.(head := r.head)
    ensures forall i :: 0 <= i <= q.size ==> Slot(env, r, i, CQE) == Slot(env, q, i, CQE)
  {
  }

  /** What a finished loop leaves: memory like the abstract one outside the completion ring, the
      completions in consecutive slots, the other slots untouched. */
  ghost predicate Delivered(env: Env, cq: Queue, was: seq<u8>, y: Live, t: Sys, done: seq<Cqe>)
    requires env.ramBase <= cq.base
  {
    && Mirrors(env, cq, y.s, t)
    && y.cq == cq.(head := Position(cq, cq.head, |done|))
    && Posted(env, cq, y.s.ram, done)
    && Beyond(env, cq, y.s.ram, was, |done|)
  }

  lemma DeliveredNone(env: Env, x: Live, p: Sys)
    requires RingInRam(env, x.cq, CQE, |p.ram|) && x.cq.head <= x.cq.size && Mirrors(env, x.cq, x.s, p)
    ensures Delivered(env, x.cq, x.s.ram, x, p, [])
  {
    hide Position, Slot;
    SizeAlike(x.s.ram, p.ram, RingStart(env, x.cq), RingSize(x.cq, CQE));
    PositionMoved(x.cq, 0);
  }

  /** The turn `x` to `y` with its completion, if any, in front of what was delivered from `y` on. */
  lemma DeliveredMore(env: Env, x: Live, y: Live, z: Live, u: Sys, d: Option<Cqe>, rest: seq<Cqe>)
    requires env.ramBase <= x.cq.base && x.cq.head <= x.cq.size
    requires y.cq == x.cq.(head := if d.Some? then NextIndex(x.cq, x.cq.head) else x.cq.head)
    requires forall i :: 0 <= i <= x.cq.size && (d.Some? ==> i != x.cq.head) ==>
               SameIn(y.s.ram, x.s.ram, Slot(env, x.cq, i, CQE), CQE)
    requires d.Some? ==> At(y.s.ram, Slot(env, x.cq, x.cq.head, CQE), CqeBytes(d.value))
    requires Delivered(env, y.cq, y.s.ram, z, u, rest)
    ensures Delivered(env, x.cq, x.s.ram, z, u, if d.Some? then [d.value] + rest else rest)
  {
    hide At, CqeBytes, Slot, NextIndex, SameIn, SameOutside, Position;
    if d.Some? {
      PositionMoved(x.cq, |rest|);
      PostedStep(env, x.cq, y.s.ram, z.s.ram, d.value, rest);
      BeyondStep(env, x.cq, x.s.ram, y.s.ram, z.s.ram, |rest|);
    } else {
      forall j | |rest| <= j <= x.cq.size as int
        ensures SameIn(z.s.ram, x.s.ram, Slot(env, x.cq, Position(x.cq, x.cq.head, j), CQE), CQE)
      {
        SameInTrans(z.s.ram, y.s.ram, x.s.ram, Slot(env, x.cq, Position(x.cq, x.cq.head, j), CQE), CQE);
      }
    }
  }

  /** The command that the loop fetches is the one that abstract memory holds. */
  lemma CmdMirrored(env: Env, sq: Queue, head: u16, x: Live, p: Sys)
    requires head <= sq.size && Rings(env, sq, x.cq, |p.ram|) && Mirrors(env, x.cq, x.s, p)
    ensures |x.s.ram| == |p.ram|
    ensures Dma(env, |x.s.ram|, EntryAddr(sq, head, SQE), SQE) && !Strays(env, |x.s.ram|, EntryAddr(sq, head, SQE), SQE)
    ensures CmdAt(x.s.ram, EntryAddr(sq, head, SQE) as int - env.ramBase as int) == CmdAt(p.ram, Slot(env, sq, head, SQE))
  {
    hide CmdAt;
    SlotAddr(env, sq, head, SQE, |p.ram|);
    CmdSame(env, sq, head, x.s.ram, p.ram);
  }

  /** One turn of the loop, seen from both sides. */
  lemma LoopNext(env: Env, src: Source, sq: Queue, head: u16, x: Live, p: Sys)
    requires InRing(sq, head) && head != sq.tail && x.s.queues.Shaped() && p.queues.Shaped()
    requires Rings(env, sq, x.cq, |p.ram|) && Mirrors(env, x.cq, x.s, p)
    ensures InRing(sq, NextIndex(sq, head))
    ensures var c, next := CmdAt(p.ram, Slot(env, sq, head, SQE)), NextIndex(sq, head);
            && Loop(env, src, sq, head, x) == Loop(env, src, sq, next, Turn(env, src, c, x))
            && Waiting(env, sq, head, p.ram) == [c] + Waiting(env, sq, next, p.ram)
            && var (t, d) := Exec(env, src, c, p);
               var (u, rest) := Outcome(env, src, Waiting(env, sq, next, p.ram), t);
               Outcome(env, src, Waiting(env, sq, head, p.ram), p) == (u, if d.Some? then [d.value] + rest else rest)
  {
    hide Exec, Turn, Mirrors, CmdAt, EntryAddr, Dma, Strays, Left, NextIndex;
    LeftNext(sq, head);
    CmdMirrored(env, sq, head, x, p);
    var c, more := CmdAt(p.ram, Slot(env, sq, head, SQE)), Waiting(env, sq, NextIndex(sq, head), p.ram);
    assert ([c] + more)[1..] == more;
  }

  /** The completion queue's position plays no part in where the rings are and what overlaps them. */
  lemma PositionIrrelevant(env: Env, src: Source, sq: Queue, cq: Queue, h: u16, cs: seq<Cmd>, s: Sys, t: Sys)
    requires Rings(env, sq, cq, |t.ram|) && AllClear(env, src, sq, cq, cs, |t.ram|) && Mirrors(env, cq, s, t)
    requires h <= cq.size
    ensures var r := cq.(head := h);
            Rings(env, sq, r, |t.ram|) && Mirrors(env, r, s, t) && AllClear(env, src, sq, r, cs, |t.ram|)
  {
    hide Clear;
  }

  lemma AllClearSplit(env: Env, src: Source, sq: Queue, cq: Queue, c: Cmd, cs: seq<Cmd>, ramSize: nat)
    requires env.ramBase <= sq.base && env.ramBase <= cq.base && AllClear(env, src, sq, cq, [c] + cs, ramSize)
    ensures AllClear(env, src, sq, cq, [c], ramSize) && AllClear(env, src, sq, cq, cs, ramSize)
  {
    hide Clear;
  }

  lemma {:induction false} Simulates(env: Env, src: Source, sq: Queue, head: u16, x: Live, p: Sys)
    requires InRing(sq, head) && Rings(env, sq, x.cq, |p.ram|)
    requires x.s.queues.Shaped() && p.queues.Shaped() && Mirrors(env, x.cq, x.s, p)
    requires AllClear(env, src, sq, x.cq, Waiting(env, sq, head, p.ram), |p.ram|)
    ensures Loop(env, src, sq, head, x).1 == sq.tail
    ensures var (t, done) := Outcome(env, src, Waiting(env, sq, head, p.ram), p);
            Delivered(env, x.cq, x.s.ram, Loop(env, src, sq, head, x).0, t, done)
    decreases Left(sq, head)
  {
    hide Exec, Turn, Delivered, Mirrors, CmdAt, SameIn, Slot, EntryAddr, Clear, At, CqeBytes, Apart, Dma;
    if head == sq.tail {
      DeliveredNone(env, x, p);
    } else {
      var c, next := CmdAt(p.ram, Slot(env, sq, head, SQE)), NextIndex(sq, head);
      hide Loop, Waiting, Outcome, Left, NextIndex, AllClear, Posted, Beyond;
      LoopNext(env, src, sq, head, x, p);
      LeftNext(sq, head);
      var (t, d) := Exec(env, src, c, p);
      var y := Turn(env, src, c, x);
      AllClearSplit(env, src, sq, x.cq, c, Waiting(env, sq, next, p.ram), |p.ram|);
      TurnMirrors(env, src, sq, c, x, p);
      PositionIrrelevant(env, src, sq, x.cq, y.cq.head, Waiting(env, sq, next, p.ram), y.s, t);
      WaitingSame(env, sq, next, t.ram, p.ram);
      Simulates(env, src, sq, next, y, t);
      var (u, rest) := Outcome(env, src, Waiting(env, sq, next, t.ram), t);
      DeliveredMore(env, x, y, Loop(env, src, sq, next, y).0, u, d, rest);
    }
  }

  /** A doorbell with its tail in the ring, working DMA, and buffers clear of the rings: the loop ends at the
      tail; disk, queues and memory are those of the waiting commands executed in order; the completions
      stand in consecutive slots with the identifiers of exactly the completing commands. */
  lemma Drains(env: Env, src: Source, sq: Queue, x: Live)
    requires InRing(sq, sq.head) && Rings(env, sq, x.cq, |x.s.ram|) && x.s.queues.Shaped()
    requires AllClear(env, src, sq, x.cq, Waiting(env, sq, sq.head, x.s.ram), |x.s.ram|)
    ensures var cmds := Waiting(env, sq, sq.head, x.s.ram);
            var (t, done) := Outcome(env, src, cmds, x.s);
            && Loop(env, src, sq, sq.head, x).1 == sq.tail
            && Delivered(env, x.cq, x.s.ram, Loop(env, src, sq, sq.head, x).0, t, done)
            && Cids(done) == CompletingCids(src, cmds)
  {
    hide Exec, Loop, Delivered, Waiting, Outcome, CompletingCids, Clear;
    Simulates(env, src, sq, sq.head, x, x.s);
    OutcomeCids(env, src, Waiting(env, sq, sq.head, x.s.ram), x.s);
  }
}
