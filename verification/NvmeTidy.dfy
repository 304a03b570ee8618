/** When the NVMe controller's DMA stays in guest RAM: what a driver can check about its rings and its
    commands' data pointers before it rings a doorbell.
 */
module NvmeTidy {
  import opened Bytes
  import opened ModArith
  import opened NvmeDrain
  import opened NvmeStore
  import opened Options

  /** The command's buffer passes the callbacks' test without lying in RAM. */
  predicate Astray(env: Env, src: Source, c: Cmd, ramSize: nat) {
    Strays(env, ramSize, c.dptr, BufferSize(env, src, c))
  }

  /** A ring that ends below the top of the address space. */
  predicate Low(q: Queue, entry: nat) { q.base as int + RingSize(q, entry) < TWO64 }

  /** RAM offset of an entry that DMA delivers. */
  function Offset(env: Env, q: Queue, i: u16, entry: nat, ramSize: nat): (off: nat)
    requires Dma(env, ramSize, EntryAddr(q, i, entry), entry)
    ensures off + entry <= ramSize
  {
    EntryAddr(q, i, entry) as int - env.ramBase as int
  }

  /** The `k`-th entry that the loop will meet. */
  function Met(sq: Queue, k: nat): u16 { Position(sq, sq.head, k) }

  ghost predicate Delivers(env: Env, sq: Queue, ramSize: nat, k: nat) {
    Dma(env, ramSize, EntryAddr(sq, Met(sq, k), SQE), SQE)
  }

  /** Entry `k`: its command's data pointer does not stray, and neither its buffer nor the completion ring
      overlaps an entry that the loop will meet. */
  ghost predicate TidyEntry(env: Env, src: Source, sq: Queue, cq: Queue, ram: seq<u8>, n: nat, k: nat) {
    && Delivers(env, sq, |ram|, k)
    && var c := CmdAt(ram, Offset(env, sq, Met(sq, k), SQE, |ram|));
    && !Astray(env, src, c, |ram|)
    && (forall l :: 0 <= l < n && Delivers(env, sq, |ram|, l) ==> Clear(env, src, c, |ram|, Offset(env, sq, Met(sq, l), SQE, |ram|), SQE))
    && (forall i: u16 :: i <= cq.size && Dma(env, |ram|, EntryAddr(cq, i, CQE), CQE) ==>
          Apart(Offset(env, cq, i, CQE, |ram|), CQE, Offset(env, sq, Met(sq, k), SQE, |ram|), SQE))
  }

  /** What a driver checks before the doorbell. */
  ghost predicate Tidy(env: Env, src: Source, sq: Queue, cq: Queue, ram: seq<u8>) {
    && Window(env, |ram|) && Low(sq, SQE) && Low(cq, CQE)
    && sq.head <= sq.size && cq.head <= cq.size && Halts(env, sq, |ram|)
    && forall k :: 0 <= k < Turns(env, sq, sq.head, |ram|) ==> TidyEntry(env, src, sq, cq, ram, Turns(env, sq, sq.head, |ram|), k)
  }

  /** No entry of a low ring strays. */
  lemma LowKeeps(env: Env, q: Queue, i: u16, entry: nat, ramSize: nat)
    requires Window(env, ramSize) && Low(q, entry) && i <= q.size
    ensures !Strays(env, ramSize, EntryAddr(q, i, entry), entry)
  {
    EntryBelow(i as nat, q.size as nat, entry);
    StraysExactly(env, ramSize, EntryAddr(q, i, entry), entry) by { hide Passes, Inside; }
    hide Strays, Dma;
  }

  /** A command whose data pointer does not stray loses nothing. */
  lemma ExecHolds(env: Env, src: Source, c: Cmd, s: Sys)
    requires s.queues.Shaped() && !Astray(env, src, c, |s.ram|)
    ensures Exec(env, src, c, s).0.lost == s.lost
  {
    hide ByteCount, Passes, Inside, CreateCq, CreateSq, DeleteQueue, Feature, IdentifyPage, Slba, Nlb;
  }

  /** The loop's state after some turns still shows every entry that it will meet. */
  ghost predicate Shows(env: Env, sq: Queue, n: nat, now: seq<u8>, was: seq<u8>) {
    && |now| == |was|
    && forall l :: 0 <= l < n && Delivers(env, sq, |was|, l) ==> SameIn(now, was, Offset(env, sq, Met(sq, l), SQE, |was|), SQE)
  }

  /** One tidy turn. */
  lemma TidyTurn(env: Env, src: Source, sq: Queue, cq: Queue, ram: seq<u8>, n: nat, k: nat, x: Live)
    requires Window(env, |ram|) && Low(cq, CQE) && k < n && (forall l :: 0 <= l < n ==> TidyEntry(env, src, sq, cq, ram, n, l))
    requires x.s.queues.Shaped() && !x.s.lost && x.cq == cq.(head := x.cq.head) && x.cq.head <= cq.size
    requires Shows(env, sq, n, x.s.ram, ram)
    ensures Delivers(env, sq, |x.s.ram|, k)
    ensures var y := Turn(env, src, CmdAt(x.s.ram, Offset(env, sq, Met(sq, k), SQE, |x.s.ram|)), x);
            !y.s.lost && y.cq == cq.(head := y.cq.head) && y.cq.head <= cq.size && Shows(env, sq, n, y.s.ram, ram)
  {
    hide CmdAt, Clear, Apart, Exec, SameIn, Met, Dma, Strays, Low, EntryAddr, Window, CqeBytes, Offset;
    assert TidyEntry(env, src, sq, cq, ram, n, k);
    var off := Offset(env, sq, Met(sq, k), SQE, |ram|);
    var c := CmdAt(ram, off);
    SameCmd(x.s.ram, ram, off);
    ExecHolds(env, src, c, x.s);
    var (t, done) := Exec(env, src, c, x.s);
    LowKeeps(env, x.cq, x.cq.head, CQE, |ram|) by { SameLow(cq, x.cq); }
    forall l | 0 <= l < n && Delivers(env, sq, |ram|, l)
      ensures SameIn(Turn(env, src, c, x).s.ram, ram, Offset(env, sq, Met(sq, l), SQE, |ram|), SQE)
    {
      var at := Offset(env, sq, Met(sq, l), SQE, |ram|);
      ExecKeeps(env, src, c, x.s, at, SQE);
      SameInTrans(t.ram, x.s.ram, ram, at, SQE);
      assert TidyEntry(env, src, sq, cq, ram, n, l);
      PostKeeps(env, x.(s := t), cq, done, at);
      SameInTrans(Turn(env, src, c, x).s.ram, t.ram, ram, at, SQE);
    }
  }

  lemma SameCmd(a: seq<u8>, b: seq<u8>, off: nat)
    requires off + SQE <= |b| && SameIn(a, b, off, SQE)
    ensures |a| == |b| && CmdAt(a, off) == CmdAt(b, off)
  {
    hide Le32At, Le64At;
    SameInReads(a, b, off, SQE);
  }

  lemma SameLow(q: Queue, r: Queue)
    requires r == q.(head := r.head) && Low(q, CQE)
    ensures Low(r, CQE)
  {
  }

  /** A completion leaves memory apart from its slot alone. */
  lemma PostKeeps(env: Env, x: Live, cq: Queue, done: Option<Cqe>, at: nat)
    requires x.cq == cq.(head := x.cq.head) && x.cq.head <= cq.size && at + SQE <= |x.s.ram|
    requires forall i: u16 :: i <= cq.size && Dma(env, |x.s.ram|, EntryAddr(cq, i, CQE), CQE) ==>
               Apart(Offset(env, cq, i, CQE, |x.s.ram|), CQE, at, SQE)
    ensures SameIn(Post(env, x, done).s.ram, x.s.ram, at, SQE)
  {
    hide CqeBytes, Passes, Inside;
    assert EntryAddr(x.cq, x.cq.head, CQE) == EntryAddr(cq, x.cq.head, CQE);
    SameInSelf(x.s.ram, at, SQE);
  }

  /** A tidy doorbell's loop never copies outside guest RAM. */
  lemma {:induction false} TidyFrom(env: Env, src: Source, sq: Queue, cq: Queue, ram: seq<u8>, k: nat, x: Live)
    requires Tidy(env, src, sq, cq, ram) && k <= Turns(env, sq, sq.head, |ram|)
    requires x.s.queues.Shaped() && !x.s.lost && x.cq == cq.(head := x.cq.head) && x.cq.head <= cq.size
    requires Shows(env, sq, Turns(env, sq, sq.head, |ram|), x.s.ram, ram)
    ensures !Loop(env, src, sq, Met(sq, k), x).0.s.lost
    decreases Turns(env, sq, sq.head, |ram|) - k
  {
    hide CmdAt, TidyEntry, Exec, SameIn, Dma, Strays, Low, EntryAddr, Position, Halts, Turn, Turns, NextIndex;
    var n := Turns(env, sq, sq.head, |ram|);
    LowKeeps(env, sq, Met(sq, k), SQE, |ram|);
    if k < n {
      assert !Stops(env, sq, |ram|, Position(sq, sq.head, k));
      TidyTurn(env, src, sq, cq, ram, n, k, x);
      var y := Turn(env, src, CmdAt(x.s.ram, Offset(env, sq, Met(sq, k), SQE, |x.s.ram|)), x);
      MetNext(sq, k);
      TidyFrom(env, src, sq, cq, ram, k + 1, y);
    } else {
      assert Stops(env, sq, |ram|, Position(sq, sq.head, n));
    }
  }

  lemma MetNext(sq: Queue, k: nat)
    requires sq.head <= sq.size
    ensures NextIndex(sq, Met(sq, k)) == Met(sq, k + 1) && Met(sq, 0) == sq.head
  {
    ModNext(sq.head as int + k, sq.size as int + 1);
    PositionNext(sq, sq.head, 0);
  }

  lemma TidyHolds(env: Env, src: Source, sq: Queue, x: Live)
    requires x.s.queues.Shaped() && !x.s.lost && Tidy(env, src, sq, x.cq, x.s.ram)
    ensures !Loop(env, src, sq, sq.head, x).0.s.lost
  {
    hide Tidy, Loop, Position;
    assert Tidy(env, src, sq, x.cq, x.s.ram);
    TidyStart(env, src, sq, x);
    MetNext(sq, 0);
    TidyFrom(env, src, sq, x.cq, x.s.ram, 0, x);
  }

  lemma TidyStart(env: Env, src: Source, sq: Queue, x: Live)
    requires Tidy(env, src, sq, x.cq, x.s.ram)
    ensures sq.head <= sq.size && x.cq.head <= x.cq.size && Halts(env, sq, |x.s.ram|)
    ensures Shows(env, sq, Turns(env, sq, sq.head, |x.s.ram|), x.s.ram, x.s.ram)
  {
  }

  /** Two blocks at the top of the address space pass the callbacks' test of a 4 KiB RAM. */
  lemma StrayExample(env: Env, ramSize: nat)
    requires env.ramBase == 0x4000_0000 && ramSize == 0x1000
    ensures Strays(env, ramSize, 0xFFFF_FFFF_FFFF_FE00, 2 * BLOCK)
  {
  }

  lemma {:induction false} OutcomeHolds(env: Env, src: Source, cs: seq<Cmd>, s: Sys)
    requires s.queues.Shaped() && forall c :: c in cs ==> !Astray(env, src, c, |s.ram|)
    ensures Outcome(env, src, cs, s).0.lost == s.lost
    decreases |cs|
  {
    hide Exec, Astray;
    if cs != [] {
      ExecHolds(env, src, cs[0], s);
      OutcomeHolds(env, src, cs[1..], Exec(env, src, cs[0], s).0);
    }
  }

  /** A drained doorbell (`Drains`) leaves guest RAM only if one of its commands' data pointers strays. */
  lemma DrainHolds(env: Env, src: Source, sq: Queue, x: Live)
    requires InRing(sq, sq.head) && Rings(env, sq, x.cq, |x.s.ram|) && x.s.queues.Shaped() && !x.s.lost
    requires AllClear(env, src, sq, x.cq, Waiting(env, sq, sq.head, x.s.ram), |x.s.ram|)
    requires forall c :: c in Waiting(env, sq, sq.head, x.s.ram) ==> !Astray(env, src, c, |x.s.ram|)
    ensures !Loop(env, src, sq, sq.head, x).0.s.lost
  {
    hide Loop, Waiting, Outcome, Astray, Posted, Beyond, AllClear, Halts, Completes;
    Drains(env, src, sq, x);
    OutcomeHolds(env, src, Waiting(env, sq, sq.head, x.s.ram), x.s);
  }
}
