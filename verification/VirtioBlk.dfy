/** The virtio block device of devices/virtio-blk/virtio_blk.c (Virtio 1.2, section 5.2.6):
    one notification drains the available ring, serving each descriptor chain on the disk image.
 */
module VirtioBlk {
  import opened Bytes
  import opened DiskFile
  import opened Options
  import opened Virtqueue
  import opened VirtioMmio

  const T_IN: u32 := 0
  const T_OUT: u32 := 1
  const T_FLUSH: u32 := 4

  const S_OK: u8 := 0
  const S_IOERR: u8 := 1
  const S_UNSUPP: u8 := 2

  const SECTOR: nat := 512
  const HEADER: nat := 16

  /** A request as its descriptor chain describes it: header, optional data buffer, optional status byte. */
  datatype Request = Request(kind: u32, sector: u64, hdr: nat, hdrLen: u32, data: Option<Span>, status: Option<nat>)

  /** Guest memory and the disk image. */
  datatype State = State(ram: seq<u8>, disk: seq<u8>)

  datatype Backing = Backing(present: bool, readOnly: bool)

  // ---- The meaning of one request ------------------------------------------

  /** Serving a request, and the number of data bytes reported for it. */
  function Transfer(b: Backing, r: Request, s: State): (t: (State, u8, u32))
    requires Inside(r, |s.ram|)
    ensures |t.0.ram| == |s.ram|
  {
    if r.kind == T_IN then
      if r.data.None? || !b.present then (s, S_IOERR, 0)
      else
        var got := FileRead(s.disk, r.sector as int * SECTOR, r.data.value.len as int);
        (s.(ram := Blit(s.ram, r.data.value.off, got)),
         if |got| == r.data.value.len as int then S_OK else S_IOERR, |got|)
    else if r.kind == T_OUT then
      if r.data.None? || !b.present || b.readOnly then (s, S_IOERR, 0)
      else
        var d := r.data.value;
        (s.(disk := FileWrite(s.disk, r.sector as int * SECTOR, s.ram[d.off..d.off + d.len as int])), S_OK, d.len)
    else if r.kind == T_FLUSH then (s, S_OK, 0)
    else (s, S_UNSUPP, 0)
  }

  /** The whole effect of a request apart from its used-ring entry, and the length to report there. */
  function Serve(b: Backing, r: Request, s: State): (p: (State, u32))
    requires Inside(r, |s.ram|)
    ensures |p.0.ram| == |s.ram|
  {
    var (t, status, n) := Transfer(b, r, s);
    (if r.status.Some? then t.(ram := Blit(t.ram, r.status.value, [status])) else t,
     (r.hdrLen as int + n as int + 1) % TWO32)
  }

  /** The request's buffers lie in guest RAM and its sector is one a file offset can express. */
  predicate Inside(r: Request, ramSize: nat) {
    && r.hdr + HEADER <= ramSize
    && (r.data.Some? ==> r.data.value.off + r.data.value.len as int <= ramSize)
    && (r.status.Some? ==> r.status.value < ramSize)
    && r.sector as int * SECTOR < TWO63
  }

  function ServeAll(b: Backing, rs: seq<Request>, s: State): State
    requires forall r :: r in rs ==> Inside(r, |s.ram|)
    decreases |rs|
  {
    if rs == [] then s else ServeAll(b, rs[1..], Serve(b, rs[0], s).0)
  }

  /** The length reported for the k-th request of a batch. */
  function Reported(b: Backing, rs: seq<Request>, s: State, k: nat): u32
    requires k < |rs| && forall r :: r in rs ==> Inside(r, |s.ram|)
  {
    var before := ServeAll(b, rs[..k], s);
    ServeAllSize(b, rs[..k], s);
    Serve(b, rs[k], before).1
  }

  lemma {:induction false} ServeAllSize(b: Backing, rs: seq<Request>, s: State)
    requires forall r :: r in rs ==> Inside(r, |s.ram|)
    ensures |ServeAll(b, rs, s).ram| == |s.ram|
    decreases |rs|
  {
    if rs != [] {
      ServeAllSize(b, rs[1..], Serve(b, rs[0], s).0);
    }
  }

  lemma {:induction false} ServeAllNext(b: Backing, rs: seq<Request>, s: State, k: nat)
    requires k < |rs| && forall r :: r in rs ==> Inside(r, |s.ram|)
    ensures |ServeAll(b, rs[..k], s).ram| == |s.ram|
    ensures ServeAll(b, rs[..k + 1], s) == Serve(b, rs[k], ServeAll(b, rs[..k], s)).0
    decreases k
  {
    hide Serve, Inside;
    ServeAllSize(b, rs[..k], s);
    if k == 0 {
      assert rs[..1][1..] == [] && rs[..0] == [];
    } else {
      var t := Serve(b, rs[0], s).0;
      assert rs[..k + 1][1..] == rs[1..][..k] && rs[..k][1..] == rs[1..][..k - 1];
      ServeAllNext(b, rs[1..], t, k - 1);
    }
  }

  // ---- Laws of the disk ----------------------------------------------------

  /** The request does not write any of the `n` disk bytes from `lo` on. */
  predicate LeavesDisk(r: Request, lo: nat, n: nat) {
    r.kind == T_OUT && r.data.Some? ==> Apart(r.sector as int * SECTOR, r.data.value.len as int, lo, n)
  }

  /** Requests keep the part of the disk that none of them writes. */
  lemma {:induction false} DiskKept(b: Backing, rs: seq<Request>, s: State, lo: nat, n: nat)
    requires (forall r :: r in rs ==> Inside(r, |s.ram|) && LeavesDisk(r, lo, n)) && lo + n <= |s.disk|
    ensures lo + n <= |ServeAll(b, rs, s).disk| && ServeAll(b, rs, s).disk[lo..lo + n] == s.disk[lo..lo + n]
    decreases |rs|
  {
    hide Serve, Inside, LeavesDisk;
    if rs != [] {
      assert rs[0] in rs;
      DiskKeptOnce(b, rs[0], s, lo, n);
      DiskKept(b, rs[1..], Serve(b, rs[0], s).0, lo, n);
    }
  }

  lemma DiskKeptOnce(b: Backing, r: Request, s: State, lo: nat, n: nat)
    requires Inside(r, |s.ram|) && LeavesDisk(r, lo, n) && lo + n <= |s.disk|
    ensures lo + n <= |Serve(b, r, s).0.disk| && Serve(b, r, s).0.disk[lo..lo + n] == s.disk[lo..lo + n]
  {
    hide FileRead, FileWrite, Blit, Apart;
    if r.kind == T_OUT && r.data.Some? && b.present && !b.readOnly {
      var d := r.data.value;
      WriteKeeps(s.disk, r.sector as int * SECTOR, s.ram[d.off..d.off + d.len as int], lo, n);
    }
  }

  /** A served write is what any later read of the same sectors returns, whatever requests that do not write those
      sectors come in between; and the write itself changes no other byte of the disk. */
  lemma WriteThenRead(b: Backing, w: Request, between: seq<Request>, r: Request, s: State, lo: nat, n: nat)
    requires Inside(w, |s.ram|) && Inside(r, |s.ram|) && forall m :: m in between ==> Inside(m, |s.ram|)
    requires b.present && !b.readOnly
    requires w.kind == T_OUT && w.data.Some? && w.data.value.len > 0
    requires r.kind == T_IN && r.data.Some? && r.sector == w.sector && r.data.value.len == w.data.value.len
    requires forall m :: m in between ==> LeavesDisk(m, w.sector as int * SECTOR, w.data.value.len as int)
    ensures |ServeAll(b, between, Serve(b, w, s).0).ram| == |s.ram|
    ensures var s1 := ServeAll(b, between, Serve(b, w, s).0);
            var d := r.data.value;
            && Transfer(b, r, s1).0.ram[d.off..d.off + d.len as int]
               == s.ram[w.data.value.off..w.data.value.off + w.data.value.len as int]
            && Transfer(b, r, s1).1 == S_OK
    ensures lo + n <= |s.disk| && LeavesDisk(w, lo, n) ==>
              lo + n <= |Serve(b, w, s).0.disk| && Serve(b, w, s).0.disk[lo..lo + n] == s.disk[lo..lo + n]
  {
    hide FileWrite, LeavesDisk, ServeAll, Blit;
    var t := Serve(b, w, s).0;
    var off, len := w.sector as int * SECTOR, w.data.value.len as int;
    var bs := s.ram[w.data.value.off..w.data.value.off + len];
    WriteArrives(b, w, s);
    DiskKept(b, between, t, off, len);
    ServeAllSize(b, between, t);
    var s1 := ServeAll(b, between, t);
    assert FileRead(s1.disk, off, len) == bs;
    BlitShows(s1.ram, r.data.value.off, bs);
    if lo + n <= |s.disk| && LeavesDisk(w, lo, n) {
      DiskKeptOnce(b, w, s, lo, n);
    }
  }

  lemma WriteArrives(b: Backing, w: Request, s: State)
    requires Inside(w, |s.ram|) && b.present && !b.readOnly
    requires w.kind == T_OUT && w.data.Some? && w.data.value.len > 0
    ensures var off, len := w.sector as int * SECTOR, w.data.value.len as int;
            && off + len <= |Serve(b, w, s).0.disk|
            && Serve(b, w, s).0.disk[off..off + len] == s.ram[w.data.value.off..w.data.value.off + len]
  {
  }

  lemma BlitShows(mem: seq<u8>, off: nat, bs: seq<u8>)
    requires off + |bs| <= |mem|
    ensures Blit(mem, off, bs)[off..off + |bs|] == bs
  {
  }

  /** A read-only image never changes, whatever is asked. */
  lemma {:induction false} ReadOnlyKeepsDisk(b: Backing, rs: seq<Request>, s: State)
    requires b.readOnly && forall r :: r in rs ==> Inside(r, |s.ram|)
    ensures ServeAll(b, rs, s).disk == s.disk
    decreases |rs|
  {
    hide Blit, FileRead, FileWrite;
    if rs != [] {
      ReadOnlyKeepsDisk(b, rs[1..], Serve(b, rs[0], s).0);
    }
  }

  // ---- Reading requests from the queue --------------------------------------

  function DataDesc(ram: seq<u8>, q: Queue, head: u16): Option<Desc>
    requires InRam(q, |ram|) && q.desc.Some? && head < q.size
  {
    var d := GetDesc(ram, q, head).value;
    if d.HasNext() then GetDesc(ram, q, d.next) else None
  }

  function StatusDesc(ram: seq<u8>, q: Queue, head: u16): Option<Desc>
    requires InRam(q, |ram|) && q.desc.Some? && head < q.size
  {
    var d := DataDesc(ram, q, head);
    if d.Some? && d.value.HasNext() then GetDesc(ram, q, d.value.next) else None
  }

  /** The chain of `head`, of any length up to three, points into guest RAM. */
  predicate ChainOk(ram: seq<u8>, q: Queue, base: u64, head: u16) {
    && InRam(q, |ram|) && q.desc.Some? && head < q.size
    && InGuest(base, |ram|, GetDesc(ram, q, head).value.addr, HEADER)
    && (DataDesc(ram, q, head).Some? ==>
          InGuest(base, |ram|, DataDesc(ram, q, head).value.addr, DataDesc(ram, q, head).value.len as int))
    && (StatusDesc(ram, q, head).Some? ==> InGuest(base, |ram|, StatusDesc(ram, q, head).value.addr, 1))
    && Le64At(ram, GetDesc(ram, q, head).value.addr as int - base as int + 8) as int * SECTOR < TWO63
  }

  function ReadRequest(ram: seq<u8>, q: Queue, base: u64, head: u16): (r: Request)
    requires ChainOk(ram, q, base, head)
    ensures Inside(r, |ram|)
  {
    var d := GetDesc(ram, q, head).value;
    var hdr := d.addr as int - base as int;
    var data, status := DataDesc(ram, q, head), StatusDesc(ram, q, head);
    Request(Le32At(ram, hdr), Le64At(ram, hdr + 8), hdr, d.len,
            if data.Some? then Some(Span(data.value.addr as int - base as int, data.value.len)) else None,
            if status.Some? then Some((status.value.addr as int - base as int) as nat) else None)
  }

  /** The pending requests, as memory describes them now. */
  function Requests(ram: seq<u8>, q: Queue, base: u64, n: nat): (rs: seq<Request>)
    requires Layout(|ram|, q) && forall k :: 0 <= k < n ==> ChainOk(ram, q, base, Head(ram, q, k))
    ensures |rs| == n
    ensures forall k :: 0 <= k < n ==> rs[k] == ReadRequest(ram, q, base, Head(ram, q, k))
    ensures forall r :: r in rs ==> Inside(r, |ram|)
  {
    seq(n, k requires 0 <= k < n => ReadRequest(ram, q, base, Head(ram, q, k)))
  }

  // ---- Requests as a driver writes them ----------------------------------------

  /** A request of section 5.2.6: a header at guest address `hdr`, a data buffer in descriptor `at` unless there
      is none (a flush), and a status byte at `stat` in descriptor `last`. */
  datatype Order = Order(kind: u32, sector: u64, hdr: u64, data: Option<Buffer>, last: u16, stat: u64)

  datatype Buffer = Buffer(at: u16, addr: u64, len: u32)

  /** The driver has laid the request out from descriptor `head` on.  Flags: 1 continues, 2 lets the device write. */
  ghost predicate Ordered(ram: seq<u8>, q: Queue, base: u64, head: u16, o: Order) {
    && InRam(q, |ram|) && o.sector as int * 512 < TWO63
    && InGuest(base, |ram|, o.hdr, 16) && InGuest(base, |ram|, o.stat, 1)
    && At(ram, o.hdr as int - base as int, Le32(o.kind) + Le32(0) + Le64(o.sector))
    && Entry(ram, q, head, Desc(o.hdr, 16, 1, if o.data.Some? then o.data.value.at else o.last))
    && Entry(ram, q, o.last, Desc(o.stat, 1, 2, 0))
    && (o.data.Some? ==>
          && InGuest(base, |ram|, o.data.value.addr, o.data.value.len as int)
          && Entry(ram, q, o.data.value.at, Desc(o.data.value.addr, o.data.value.len, if o.kind == 0 then 3 else 1, o.last)))
  }

  /** RAM offset of a guest address. */
  function Where(base: u64, a: u64): nat { if base <= a then a as int - base as int else 0 }

  /** What the device makes of an order. */
  function Described(base: u64, o: Order): Request {
    if o.data.Some? then
      Request(o.kind, o.sector, Where(base, o.hdr), 16, Some(Span(Where(base, o.data.value.addr), o.data.value.len)), Some(Where(base, o.stat)))
    else Request(o.kind, o.sector, Where(base, o.hdr), 16, Some(Span(Where(base, o.stat), 1)), None)
  }

  /** A request with a data buffer reads as it was ordered.  Without one, as in the two-descriptor chain of a flush,
      the device takes the status byte for the data buffer and finds no status byte. */
  lemma OrderReads(ram: seq<u8>, q: Queue, base: u64, head: u16, o: Order)
    requires Ordered(ram, q, base, head, o)
    ensures ChainOk(ram, q, base, head)
    ensures ReadRequest(ram, q, base, head) == Described(base, o)
  {
    hide Virtqueue.GetDesc, At, Le64At, Le32At, Le32, Le64, InRam;
    EntryReads(ram, q, head, Desc(o.hdr, 16, 1, if o.data.Some? then o.data.value.at else o.last));
    EntryReads(ram, q, o.last, Desc(o.stat, 1, 2, 0));
    if o.data.Some? {
      EntryReads(ram, q, o.data.value.at, Desc(o.data.value.addr, o.data.value.len, if o.kind == 0 then 3 else 1, o.last));
    }
    var at: nat := o.hdr as int - base as int;
    AtConcat(ram, at, Le32(o.kind) + Le32(0), Le64(o.sector));
    AtConcat(ram, at, Le32(o.kind), Le32(0));
    Le32RoundTrip(ram, at, o.kind);
    Le64RoundTrip(ram, at + 8, o.sector);
  }

  /** A header that does not continue is a request with neither data nor status byte, whatever its `next` field says. */
  lemma LoneHeaderReads(ram: seq<u8>, q: Queue, base: u64, head: u16, kind: u32, sector: u64, hdr: u64, flags: u16, next: u16)
    requires InRam(q, |ram|) && InGuest(base, |ram|, hdr, 16) && sector as int * 512 < TWO63 && flags % 2 == 0
    requires Entry(ram, q, head, Desc(hdr, 16, flags, next))
    requires At(ram, hdr as int - base as int, Le32(kind) + Le32(0) + Le64(sector))
    ensures ChainOk(ram, q, base, head)
    ensures ReadRequest(ram, q, base, head) == Request(kind, sector, Where(base, hdr), 16, None, None)
  {
    hide Virtqueue.GetDesc, At, Le64At, Le32At, Le32, Le64, InRam;
    EntryReads(ram, q, head, Desc(hdr, 16, flags, next));
    var at: nat := hdr as int - base as int;
    AtConcat(ram, at, Le32(kind) + Le32(0), Le64(sector));
    AtConcat(ram, at, Le32(kind), Le32(0));
    Le32RoundTrip(ram, at, kind);
    Le64RoundTrip(ram, at + 8, sector);
  }

  lemma OrdersRead(ram: seq<u8>, q: Queue, base: u64, head: u16)
    ensures forall o :: Ordered(ram, q, base, head, o) ==> ChainOk(ram, q, base, head) && ReadRequest(ram, q, base, head) == Described(base, o)
  {
    hide *;
    forall o | Ordered(ram, q, base, head, o) ensures ChainOk(ram, q, base, head) && ReadRequest(ram, q, base, head) == Described(base, o) {
      OrderReads(ram, q, base, head, o);
    }
  }

  /** The request can be carried out in full. */
  predicate Whole(b: Backing, r: Request, diskSize: nat) {
    || (r.kind == 0 && r.data.Some? && b.present && (r.data.value.len == 0 || r.sector as int * 512 + r.data.value.len as int <= diskSize))
    || (r.kind == 1 && r.data.Some? && b.present && !b.readOnly)
    || r.kind == 4
  }

  /** The data bytes that a request moves: all of them, or what a short read still finds. */
  function Moved(b: Backing, r: Request, diskSize: nat): nat {
    if r.data.None? || !b.present then 0
    else if r.kind == 0 then
      var from := r.sector as int * 512;
      if from + r.data.value.len as int <= diskSize then r.data.value.len as int else if from <= diskSize then diskSize - from else 0
    else if r.kind == 1 && !b.readOnly then r.data.value.len as int
    else 0
  }

  /** The status byte in guest memory is 0 exactly when the request was carried out whole, 1 for a read or write that
      was not (a read-only image, no image, no buffer, past the end), and 2 for any other kind; the length reported
      counts the header, the bytes moved and the status byte. */
  lemma StatusTells(b: Backing, r: Request, s: State)
    requires Inside(r, |s.ram|)
    ensures var (t, len) := Serve(b, r, s);
            && len as int == (r.hdrLen as int + Moved(b, r, |s.disk|) + 1) % TWO32
            && (r.status.Some? ==> t.ram[r.status.value] == if Whole(b, r, |s.disk|) then 0 else if r.kind <= 1 then 1 else 2)
  {
    hide FileWrite;
  }

  /** A read moves the disk's bytes into its buffer, apart from the status byte, and a write the buffer's onto the disk. */
  lemma DataMoves(b: Backing, r: Request, s: State)
    requires Inside(r, |s.ram|) && r.data.Some? && r.kind <= 1 && Whole(b, r, |s.disk|)
    requires r.status.Some? ==> Apart(r.status.value, 1, r.data.value.off, r.data.value.len as int)
    ensures var t, from, d := Serve(b, r, s).0, r.sector as int * 512, r.data.value;
            && (r.kind == 0 && d.len > 0 ==> t.disk == s.disk && t.ram[d.off..d.off + d.len as int] == s.disk[from..from + d.len as int])
            && (r.kind == 1 && d.len > 0 ==> |t.disk| >= from + d.len as int && t.disk[from..from + d.len as int] == s.ram[d.off..d.off + d.len as int])
  {
    hide FileWrite, FileRead, Blit;
    var d, from := r.data.value, r.sector as int * 512;
    var t := Transfer(b, r, s).0;
    if r.kind == 0 && d.len > 0 {
      assert FileRead(s.disk, from, d.len as int) == s.disk[from..from + d.len as int] by { ReadIsSlice(s.disk, from, d.len as nat); }
      BlitShows(s.ram, d.off, s.disk[from..from + d.len as int]);
      if r.status.Some? {
        BlitKeeps(t.ram, r.status.value, [Transfer(b, r, s).1], d.off, d.len as nat);
      }
    } else if d.len > 0 {
      WriteArrives(b, r, s);
    }
  }

  lemma ReadIsSlice(disk: seq<u8>, off: nat, n: nat)
    requires off + n <= |disk| && n > 0
    ensures FileRead(disk, off, n) == disk[off..off + n]
  {
  }

  /** What a driver gets back for its order: the status byte is answered exactly when the chain has a data buffer.
      A flush ordered in two descriptors leaves memory as it was, so its status byte is never written. */
  lemma AnsweredExactly(b: Backing, ram: seq<u8>, q: Queue, base: u64, head: u16, o: Order, disk: seq<u8>)
    requires Ordered(ram, q, base, head, o)
    ensures ChainOk(ram, q, base, head)
    ensures ReadRequest(ram, q, base, head).status == Some(Where(base, o.stat)) <==> o.data.Some?
    ensures o.data.None? && o.kind == 4 ==> Serve(b, ReadRequest(ram, q, base, head), State(ram, disk)).0 == State(ram, disk)
  {
    hide ReadRequest, ChainOk, Ordered;
    OrderReads(ram, q, base, head, o);
  }

  // ---- What a batch may assume -----------------------------------------------

  /** Every byte that the device writes for `r` lies outside the range. */
  predicate Spares(r: Request, lo: nat, n: nat) {
    && (r.data.Some? ==> Apart(r.data.value.off, r.data.value.len as int, lo, n))
    && (r.status.Some? ==> Apart(r.status.value, 1, lo, n))
  }

  /** Buffers keep clear of the rings, the descriptor table and the request headers, and the used
      ring keeps clear of all of those too. */
  ghost predicate Separate(q: Queue, rs: seq<Request>, ramSize: nat) {
    && Layout(ramSize, q) && q.desc.Some?
    && Apart(q.used.value, UsedSize(q), q.desc.value, TableSize(q))
    && (forall i :: 0 <= i < |rs| ==>
          && Spares(rs[i], q.avail.value, AvailSize(q))
          && Spares(rs[i], q.used.value, UsedSize(q))
          && Spares(rs[i], q.desc.value, TableSize(q))
          && Apart(q.used.value, UsedSize(q), rs[i].hdr, HEADER))
    && (forall i, j :: 0 <= i < |rs| && 0 <= j < |rs| ==> Spares(rs[i], rs[j].hdr, HEADER))
  }

  /** Serving keeps every range that the request spares. */
  lemma ServeKeeps(b: Backing, r: Request, s: State, lo: nat, n: nat)
    requires Inside(r, |s.ram|) && Spares(r, lo, n) && lo + n <= |s.ram|
    ensures SameIn(Serve(b, r, s).0.ram, s.ram, lo, n)
  {
    hide FileRead, FileWrite;
  }

  lemma TransferIgnoresUsed(b: Backing, r: Request, s: State, t: State, lo: nat, n: nat)
    requires Inside(r, |s.ram|) && Spares(r, lo, n) && s.disk == t.disk && SameOutside(s.ram, t.ram, lo, n)
    ensures Transfer(b, r, s).1 == Transfer(b, r, t).1 && Transfer(b, r, s).2 == Transfer(b, r, t).2
    ensures Transfer(b, r, s).0.disk == Transfer(b, r, t).0.disk
    ensures SameOutside(Transfer(b, r, s).0.ram, Transfer(b, r, t).0.ram, lo, n)
  {
    hide FileRead, FileWrite, Blit, SameOutside;
    if r.data.Some? {
      var d := r.data.value;
      SliceOutside(s.ram, t.ram, d.off, d.len as int, lo, n);
      BlitOutside(s.ram, t.ram, d.off, FileRead(s.disk, r.sector as int * SECTOR, d.len as int), lo, n);
    }
  }

  /** Serving a request whose buffers keep clear of the used ring does not depend on the used ring. */
  lemma ServeIgnoresUsed(b: Backing, r: Request, s: State, t: State, lo: nat, n: nat)
    requires |s.ram| == |t.ram| && Inside(r, |s.ram|) && Spares(r, lo, n) && s.disk == t.disk && SameOutside(s.ram, t.ram, lo, n)
    ensures Serve(b, r, s).1 == Serve(b, r, t).1 && Serve(b, r, s).0.disk == Serve(b, r, t).0.disk
    ensures SameOutside(Serve(b, r, s).0.ram, Serve(b, r, t).0.ram, lo, n)
  {
    hide Transfer, Blit, SameOutside;
    TransferIgnoresUsed(b, r, s, t, lo, n);
    if r.status.Some? {
      BlitOutside(Transfer(b, r, s).0.ram, Transfer(b, r, t).0.ram, r.status.value, [Transfer(b, r, s).1], lo, n);
    }
  }

  // ---- One batch --------------------------------------------------------------

  /** The state of memory when a batch begins. */
  datatype Batch = Batch(b: Backing, s: State, q: Queue, base: u64, n: nat)
  {
    /** A driver that keeps to the protocol: chains in guest RAM, at most a ring of them, nothing overlapping
        what the device must still read. */
    ghost predicate Ok() {
      && Layout(|s.ram|, q) && q.desc.Some?
      && n == Pending(s.ram, q) <= q.size as int
      && (forall k :: 0 <= k < n ==> ChainOk(s.ram, q, base, Head(s.ram, q, k)))
      && Separate(q, Requests(s.ram, q, base, n), |s.ram|)
    }

    ghost function Reqs(): (rs: seq<Request>)
      requires Ok()
      ensures |rs| == n && forall r :: r in rs ==> Inside(r, |s.ram|)
    {
      Requests(s.ram, q, base, n)
    }

    /** The abstract result of the first `k` requests. */
    ghost function After(k: nat): (t: State)
      requires Ok() && k <= n
      ensures |t.ram| == |s.ram|
    {
      ServeAllSize(b, Reqs()[..k], s);
      ServeAll(b, Reqs()[..k], s)
    }

    ghost function Cursor(k: nat): Queue {
      CursorAt(q, k)
    }

    /** What the source's loop has established after `k` turns: memory is the abstract memory except in
        the used ring, and the used ring lists the heads served so far with their lengths. */
    ghost predicate Reached(k: nat, ram: seq<u8>, disk: seq<u8>)
      requires Ok() && k <= n
    {
      && |ram| == |s.ram|
      && disk == After(k).disk
      && SameOutside(ram, After(k).ram, q.used.value, UsedSize(q))
      && Undisturbed(After(k).ram)
      && UsedIdx(ram, q) as int == (UsedIdx(s.ram, q) as int + k) % TWO16
      && Lists(ram, q, UsedIdx(s.ram, q) as int, Dues(k))
    }

    /** The used elements due for the first `k` heads, in posting order. */
    ghost function Dues(k: nat): (r: seq<Used>)
      requires Ok() && k <= n
      ensures |r| == k
    {
      if k == 0 then [] else Dues(k - 1) + [Used(Head(s.ram, q, k - 1) as u32, Reported(b, Reqs(), s, k - 1))]
    }

    /** Memory and disk after `k` turns of the loop, used ring included. */
    ghost function Ran(k: nat): (t: State)
      requires Ok() && k <= n
      ensures |t.ram| == |s.ram|
    {
      if k == 0 then s
      else
        var (t, len) := Serve(b, Reqs()[k - 1], Ran(k - 1));
        State(PutUsed(t.ram, q, Head(s.ram, q, k - 1), len), t.disk)
    }

    /** The loop's turns as rounds of the queue. */
    ghost function Rounds(k: nat): (r: seq<Round>)
      requires Ok() && k <= n
      ensures |r| == k
    {
      if k == 0 then []
      else
        var (t, len) := Serve(b, Reqs()[k - 1], Ran(k - 1));
        Rounds(k - 1) + [Round(Head(s.ram, q, k - 1), t.ram, len)]
    }

    /** The rings, the table and the headers still read as they did. */
    ghost predicate Undisturbed(ram: seq<u8>)
      requires Ok()
    {
      && SameIn(ram, s.ram, q.avail.value, AvailSize(q))
      && SameIn(ram, s.ram, q.desc.value, TableSize(q))
      && forall i :: 0 <= i < n ==> SameIn(ram, s.ram, Reqs()[i].hdr, HEADER)
    }
  }

  lemma BatchStart(x: Batch)
    requires x.Ok()
    ensures x.Reached(0, x.s.ram, x.s.disk)
  {
    hide Requests, ChainOk, Pending, Head, UsedIdx, UsedAt, Serve, Spares, Apart;
    assert x.Reqs()[..0] == [];
  }

  /** Memory that equals undisturbed memory outside the used ring is undisturbed itself. */
  lemma UndisturbedOutside(x: Batch, p: seq<u8>, ram: seq<u8>)
    requires x.Ok() && x.Undisturbed(p) && SameOutside(ram, p, x.q.used.value, UsedSize(x.q))
    ensures x.Undisturbed(ram)
  {
    hide Requests, ChainOk, Pending, Head, ServeAll;
  }

  lemma SameChain(ram: seq<u8>, was: seq<u8>, q: Queue, base: u64, head: u16)
    requires |ram| == |was| && ChainOk(was, q, base, head)
    requires SameIn(ram, was, q.desc.value, TableSize(q))
    requires SameIn(ram, was, ReadRequest(was, q, base, head).hdr, HEADER)
    ensures ChainOk(ram, q, base, head) && ReadRequest(ram, q, base, head) == ReadRequest(was, q, base, head)
  {
    hide GetDesc, Le16At, Le32At, Le64At, SameIn;
    SameInReads(ram, was, ReadRequest(was, q, base, head).hdr, HEADER);
    SameTable(ram, was, q, head);
    var d := GetDesc(was, q, head).value;
    SameTable(ram, was, q, d.next);
    var data := DataDesc(was, q, head);
    if data.Some? {
      SameTable(ram, was, q, data.value.next);
    }
  }

  /** Undisturbed memory still offers the same head and the same request. */
  lemma SameRequest(x: Batch, k: nat, ram: seq<u8>)
    requires x.Ok() && k < x.n && |ram| == |x.s.ram| && x.Undisturbed(ram)
    ensures AvailIdx(ram, x.q) == AvailIdx(x.s.ram, x.q)
    ensures Head(ram, x.Cursor(k), 0) == Head(x.s.ram, x.q, k)
    ensures ChainOk(ram, x.q, x.base, Head(x.s.ram, x.q, k))
    ensures ReadRequest(ram, x.q, x.base, Head(x.s.ram, x.q, k)) == x.Reqs()[k]
  {
    hide GetDesc, AvailIdx, Separate, ReadRequest, SameIn, ChainOk;
    SameHead(ram, x.s.ram, x.q, k);
    assert x.Reqs()[k] == ReadRequest(x.s.ram, x.q, x.base, Head(x.s.ram, x.q, k));
    SameChain(ram, x.s.ram, x.q, x.base, Head(x.s.ram, x.q, k));
  }

  /** The abstract memory stays undisturbed, since every request spares what is still to be read. */
  lemma AfterUndisturbed(x: Batch, k: nat)
    requires x.Ok() && k < x.n && x.Undisturbed(x.After(k).ram)
    ensures x.After(k + 1) == Serve(x.b, x.Reqs()[k], x.After(k)).0
    ensures x.Undisturbed(x.After(k + 1).ram)
  {
    hide Requests, ChainOk, Pending, Head, ServeAll, Serve, Spares;
    var r, p := x.Reqs()[k], x.After(k);
    ServeAllNext(x.b, x.Reqs(), x.s, k);
    ServeKeeps(x.b, r, p, x.q.avail.value, AvailSize(x.q));
    ServeKeeps(x.b, r, p, x.q.desc.value, TableSize(x.q));
    forall i | 0 <= i < x.n ensures SameIn(x.After(k + 1).ram, x.s.ram, x.Reqs()[i].hdr, HEADER) {
      ServeKeeps(x.b, r, p, x.Reqs()[i].hdr, HEADER);
    }
  }

  /** Serving leaves the used ring's index and elements alone. */
  lemma ServeKeepsUsed(b: Backing, r: Request, s: State, q: Queue, u: nat, dues: seq<Used>)
    requires Layout(|s.ram|, q) && Inside(r, |s.ram|) && Spares(r, q.used.value, UsedSize(q))
    requires Lists(s.ram, q, u, dues)
    ensures UsedIdx(Serve(b, r, s).0.ram, q) == UsedIdx(s.ram, q)
    ensures Lists(Serve(b, r, s).0.ram, q, u, dues)
  {
    hide Serve, Le16At, Le32At, SameIn, Spares;
    var t := Serve(b, r, s).0.ram;
    ServeKeeps(b, r, s, q.used.value, UsedSize(q));
    SameInReads(t, s.ram, q.used.value, UsedSize(q));
    forall i | 0 <= i < |dues| ensures UsedAt(t, q, u + i) == dues[i] {
      SlotBounds(q, u + i);
      assert UsedAt(s.ram, q, u + i) == dues[i];
    }
  }

  /** One turn of the loop: serve the k-th request, publish its head. */
  lemma BatchStep(x: Batch, k: nat, ram: seq<u8>, disk: seq<u8>)
    requires x.Ok() && k < x.n && |ram| == |x.s.ram| && x.Reached(k, ram, disk)
    ensures Inside(x.Reqs()[k], |ram|)
    ensures var (t, len) := Serve(x.b, x.Reqs()[k], State(ram, disk));
            x.Reached(k + 1, PutUsed(t.ram, x.q, Head(x.s.ram, x.q, k), len), t.disk)
  {
    hide Requests, ChainOk, Pending, Head, ServeAll, Serve, PutUsed, UsedAt, UsedIdx, SameIn, Spares, Lists;
    var r, p, u := x.Reqs()[k], x.After(k), UsedIdx(x.s.ram, x.q) as int;
    var (t, len) := Serve(x.b, r, State(ram, disk));
    AfterUndisturbed(x, k);
    ServeIgnoresUsed(x.b, r, State(ram, disk), p, x.q.used.value, UsedSize(x.q));
    ServeKeepsUsed(x.b, r, State(ram, disk), x.q, u, x.Dues(k));
    ListsNext(t.ram, x.q, u, x.Dues(k), Head(x.s.ram, x.q, k), len);
  }

  /** What virtio_get_avail answers after `k` turns: the k-th head while there is one, then nothing. */
  lemma Offers(x: Batch, k: nat, ram: seq<u8>, disk: seq<u8>)
    requires x.Ok() && k <= x.n && x.Reached(k, ram, disk)
    ensures |ram| == |x.s.ram| && Layout(|ram|, x.Cursor(k))
    ensures k < x.n ==>
              && GetAvail(ram, x.Cursor(k)) == (Some(Head(x.s.ram, x.q, k)), x.Cursor(k + 1))
              && ChainOk(ram, x.q, x.base, Head(x.s.ram, x.q, k))
              && ReadRequest(ram, x.q, x.base, Head(x.s.ram, x.q, k)) == x.Reqs()[k]
    ensures k == x.n ==> GetAvail(ram, x.Cursor(k)) == (None, x.Cursor(k)) && x.Cursor(k).lastAvail == AvailIdx(ram, x.Cursor(k))
  {
    hide Requests, ChainOk, SameIn, SameOutside, Separate, ReadRequest, AvailIdx, ServeAll, UsedIdx, Lists, GetAvail, Pending, Head;
    UndisturbedOutside(x, x.After(k).ram, ram);
    AvailOffers(x.s.ram, ram, x.q, k);
    if k < x.n {
      SameRequest(x, k, ram);
    }
  }

  /** The device's cursor plays no part in reading chains or publishing heads. */
  lemma CursorIrrelevant(ram: seq<u8>, q: Queue, c: u16, base: u64, head: u16)
    requires ChainOk(ram, q, base, head)
    ensures var r := q.(lastAvail := c);
            && ChainOk(ram, r, base, head) && ReadRequest(ram, r, base, head) == ReadRequest(ram, q, base, head)
            && GetDesc(ram, r, head).Some?
            && (forall m, id, len :: |m| == |ram| ==> PutUsed(m, r, id, len) == PutUsed(m, q, id, len))
  {
    hide Le16At, Le32At, Le64At, Blit, UsedElem;
  }

  /** All that the source's loop meets at its k-th turn, and where the turn takes it. */
  lemma Turn(x: Batch, k: nat, ram: seq<u8>, disk: seq<u8>)
    requires x.Ok() && k < x.n && x.Reached(k, ram, disk)
    ensures |ram| == |x.s.ram| && Layout(|ram|, x.Cursor(k)) && Layout(|ram|, x.Cursor(k + 1))
    ensures Inside(x.Reqs()[k], |ram|)
    ensures var head, q := Head(x.s.ram, x.q, k), x.Cursor(k + 1);
            && GetAvail(ram, x.Cursor(k)) == (Some(head), q)
            && GetDesc(ram, q, head).Some?
            && ChainOk(ram, q, x.base, head) && ReadRequest(ram, q, x.base, head) == x.Reqs()[k]
            && var (t, len) := Serve(x.b, x.Reqs()[k], State(ram, disk));
               && x.Reached(k + 1, PutUsed(t.ram, q, head, len), t.disk)
               && (State(ram, disk) == x.Ran(k) ==> State(PutUsed(t.ram, q, head, len), t.disk) == x.Ran(k + 1))
  {
    hide Requests, ChainOk, Separate, ReadRequest, Serve, PutUsed, GetAvail, GetDesc, Batch.Reached, Head;
    Offers(x, k, ram, disk);
    BatchStep(x, k, ram, disk);
    CursorIrrelevant(ram, x.q, x.Cursor(k + 1).lastAvail, x.base, Head(x.s.ram, x.q, k));
  }

  // ---- A notification among the queue's steps ---------------------------------------

  lemma {:induction false} RanReached(x: Batch, k: nat)
    requires x.Ok() && k <= x.n
    ensures x.Reached(k, x.Ran(k).ram, x.Ran(k).disk)
    decreases k
  {
    hide Batch.Reached, Batch.Reqs, Serve, PutUsed, Head, Requests, ChainOk, Separate, Pending;
    if k == 0 {
      BatchStart(x);
    } else {
      RanReached(x, k - 1);
      BatchStep(x, k - 1, x.Ran(k - 1).ram, x.Ran(k - 1).disk);
    }
  }

  /** A turn's stores leave both rings alone, and its length is the one that the batch reports. */
  lemma RoundRings(x: Batch, k: nat)
    requires x.Ok() && k < x.n
    ensures var (t, len) := Serve(x.b, x.Reqs()[k], x.Ran(k));
            && SameIn(t.ram, x.Ran(k).ram, x.q.avail.value, AvailSize(x.q))
            && SameIn(t.ram, x.Ran(k).ram, x.q.used.value, UsedSize(x.q))
            && len == Reported(x.b, x.Reqs(), x.s, k)
  {
    hide Batch.Undisturbed, Requests, Serve, PutUsed, Head, ChainOk, Pending, SameIn, SameOutside, UsedIdx, Lists, Spares, ServeAll;
    var p, req := x.Ran(k), x.Reqs()[k];
    RanReached(x, k);
    ServeKeeps(x.b, req, p, x.q.avail.value, AvailSize(x.q));
    ServeKeeps(x.b, req, p, x.q.used.value, UsedSize(x.q));
    ServeIgnoresUsed(x.b, req, p, x.After(k), x.q.used.value, UsedSize(x.q));
  }

  /** One turn, as a round from the state that the earlier rounds left. */
  lemma RoundFits(x: Batch, k: nat, s: Sys)
    requires x.Ok() && k < x.n && s.ram == x.Ran(k).ram && s.q == x.Cursor(k) && |s.done| <= |s.taken|
    ensures var r := x.Rounds(k + 1)[k];
            && Fits(s, r) && r.head == Head(x.s.ram, x.q, k) && r.len == Reported(x.b, x.Reqs(), x.s, k)
            && Served(s, r) == s.(ram := x.Ran(k + 1).ram, q := x.Cursor(k + 1),
                                  taken := s.taken + [r.head], done := s.done + [Used(r.head as u32, r.len)])
  {
    hide Batch.Reached, Batch.Reqs, Batch.Ok, Serve, PutUsed, Head, GetAvail, SameIn, Reported, InRam;
    var p := x.Ran(k);
    RanReached(x, k);
    Offers(x, k, p.ram, p.disk);
    OkShape(x, k);
    RoundRings(x, k);
    var (t, len) := Serve(x.b, x.Reqs()[k], p);
    CursorUnread(t.ram, x.q, x.Cursor(k + 1).lastAvail, 0, Head(x.s.ram, x.q, k), len);
    assert x.Rounds(k + 1)[k] == Round(Head(x.s.ram, x.q, k), t.ram, len);
  }

  lemma OkShape(x: Batch, k: nat)
    requires x.Ok() && k < x.n
    ensures Layout(|x.s.ram|, x.q) && Inside(x.Reqs()[k], |x.s.ram|)
  {
  }

  lemma {:induction false} BatchServes(x: Batch, s: Sys, k: nat)
    requires x.Ok() && k <= x.n && s.ram == x.s.ram && s.q == x.q && |s.done| <= |s.taken|
    ensures FitAll(s, x.Rounds(k))
    ensures var t := ServedAll(s, x.Rounds(k));
            && t.ram == x.Ran(k).ram && t.q == x.Cursor(k)
            && t.posted == s.posted && t.reaped == s.reaped && t.lastUsed == s.lastUsed
            && |t.taken| == |s.taken| + k && |t.done| == |s.done| + k && t.done == s.done + x.Dues(k)
    decreases k
  {
    hide Fits, Serve, PutUsed, Head, Batch.Ok, Batch.Reqs, Served;
    if k == 0 {
      assert s.done + [] == s.done;
      CursorZero(x);
    } else {
      BatchServes(x, s, k - 1);
      var t := ServedAll(s, x.Rounds(k - 1));
      RoundFits(x, k - 1, t);
      var rs := x.Rounds(k);
      assert rs[..|rs| - 1] == x.Rounds(k - 1);
    }
  }

  lemma CursorZero(x: Batch)
    ensures x.Cursor(0) == x.q
  {
  }

  /** One blk_process_request is a notification in the sense of the queue: a legal run of its steps that serves every
      posted head, in order, and leaves the memory that the loop leaves. */
  lemma NotificationServes(x: Batch, s: Sys)
    requires x.Ok() && Inv(s) && InOrder(s) && s.ram == x.s.ram && s.q == x.q
    ensures FitAll(s, x.Rounds(x.n))
    ensures var t := ServedAll(s, x.Rounds(x.n));
            && t.ram == x.Ran(x.n).ram && t.q == x.Cursor(x.n) && t.posted == s.posted
            && Inv(t) && InOrder(t) && |t.done| == |t.posted| && t.done == s.done + x.Dues(x.n)
  {
    hide Serve, PutUsed, Head, Pending, ChainOk, Separate, Requests, FitAll, ServedAll, AvailHolds, UsedHolds, AvailIdx, UsedIdx;
    BatchServes(x, s, x.n);
    ServiceInOrder(s, x.Rounds(x.n));
    PendingCount(s);
  }

  class BlkDevice {
    const vdev: VirtioDevice
    var disk: seq<u8>
    const backing: Backing

    constructor (vdev: VirtioDevice, disk: seq<u8>, backing: Backing)
      ensures this.vdev == vdev && this.disk == disk && this.backing == backing
    {
      this.vdev, this.disk, this.backing := vdev, disk, backing;
    }

    /** The batch that queue `queueIdx` holds now. */
    ghost function Now(queueIdx: nat): Batch
      requires queueIdx < vdev.queues.Length && Layout(vdev.ram.Length, vdev.queues[queueIdx])
      reads this, vdev, vdev.ram, vdev.queues
    {
      Batch(backing, State(vdev.ram[..], disk), vdev.queues[queueIdx], vdev.ramBase, Pending(vdev.ram[..], vdev.queues[queueIdx]))
    }

    /** Walks one chain: header, then the data and status descriptors if they are there. */
    method ReadChain(queueIdx: nat, head: u16, desc: Desc) returns (r: Request)
      requires queueIdx < vdev.numQueues <= vdev.queues.Length
      requires ChainOk(vdev.ram[..], vdev.queues[queueIdx], vdev.ramBase, head)
      requires desc == Virtqueue.GetDesc(vdev.ram[..], vdev.queues[queueIdx], head).value
      ensures r == ReadRequest(vdev.ram[..], vdev.queues[queueIdx], vdev.ramBase, head)
      ensures forall o :: Ordered(vdev.ram[..], vdev.queues[queueIdx], vdev.ramBase, head, o) ==> r == Described(vdev.ramBase, o)
    {
      hide Virtqueue.GetDesc, Le32At, Le64At, Ordered, Described, Shows, InRam;
      var base := vdev.ramBase as int;
      var dataDesc: Option<Desc> := None;
      if desc.HasNext() {
        dataDesc := vdev.GetDesc(queueIdx, desc.next);
      }
      var statusDesc: Option<Desc> := None;
      if dataDesc.Some? && dataDesc.value.HasNext() {
        statusDesc := vdev.GetDesc(queueIdx, dataDesc.value.next);
      }
      var hdr := desc.addr as int - base;
      r := Request(Le32At(vdev.ram[..], hdr), Le64At(vdev.ram[..], hdr + 8), hdr, desc.len,
                   if dataDesc.Some? then Some(Span(dataDesc.value.addr as int - base, dataDesc.value.len)) else None,
                   if statusDesc.Some? then Some((statusDesc.value.addr as int - base) as nat) else None);
      assert r == ReadRequest(vdev.ram[..], vdev.queues[queueIdx], vdev.ramBase, head);
      hide ReadRequest, ChainOk, DataDesc, StatusDesc;
      OrdersRead(vdev.ram[..], vdev.queues[queueIdx], vdev.ramBase, head);
    }

    /** The source's switch on the request type. */
    method Move(r: Request) returns (status: u8, dataLen: u32)
      requires Inside(r, vdev.ram.Length)
      modifies this`disk, vdev.ram
      ensures (State(vdev.ram[..], disk), status, dataLen) == Transfer(backing, r, old(State(vdev.ram[..], disk)))
    {
      hide Blit, FileRead, FileWrite;
      status, dataLen := S_OK, 0;
      if r.kind == T_IN {
        if r.data.None? || !backing.present {
          status := S_IOERR;
        } else {
          dataLen := r.data.value.len;
          var got := FileRead(disk, r.sector as int * SECTOR, dataLen as int);
          Store(vdev.ram, r.data.value.off, got);
          if |got| != dataLen as int {
            status := S_IOERR;
            dataLen := |got|;
          }
        }
      } else if r.kind == T_OUT {
        if r.data.None? || !backing.present {
          status := S_IOERR;
        } else if backing.readOnly {
          status := S_IOERR;
        } else {
          dataLen := r.data.value.len;
          disk := FileWrite(disk, r.sector as int * SECTOR, vdev.ram[r.data.value.off..r.data.value.off + dataLen as int]);
        }
      } else if r.kind != T_FLUSH {
        status := S_UNSUPP;
      }
    }

    /** The body of the source's loop up to the status byte: serve one chain, return the length to report. */
    method ServeOne(r: Request) returns (len: u32)
      requires Inside(r, vdev.ram.Length)
      modifies this`disk, vdev.ram
      ensures (State(vdev.ram[..], disk), len) == Serve(backing, r, old(State(vdev.ram[..], disk)))
    {
      hide Transfer, Blit;
      var status, dataLen := Move(r);
      if r.status.Some? {
        Store(vdev.ram, r.status.value, [status]);
      }
      len := (r.hdrLen as int + dataLen as int + 1) % TWO32;
    }

    /** blk_process_request: drains the queue, leaving the available ring empty, disk and guest memory as the
        requests in posting order make them, and one used entry per head in that order. */
    method ProcessRequest(queueIdx: nat)
      requires queueIdx < vdev.numQueues <= vdev.queues.Length && Layout(vdev.ram.Length, vdev.queues[queueIdx])
      requires Tied(vdev.RamWindow(), vdev.queues[queueIdx])
      requires Now(queueIdx).Ok()
      modifies this`disk, vdev.ram, vdev.queues
      ensures old(Now(queueIdx)).Reached(old(Now(queueIdx)).n, vdev.ram[..], disk)
      ensures State(vdev.ram[..], disk) == old(Now(queueIdx)).Ran(old(Now(queueIdx)).n)
      ensures vdev.queues[..] == old(vdev.queues[..])[queueIdx := old(Now(queueIdx)).Cursor(old(Now(queueIdx)).n)]
      ensures vdev.queues[queueIdx].lastAvail == AvailIdx(vdev.ram[..], vdev.queues[queueIdx])
    {
      hide Batch.Reached, Batch.Ok, Batch.After, Virtqueue.PutUsed, Virtqueue.GetAvail, Virtqueue.GetDesc, Serve, ReadRequest,
        ChainOk, AvailIdx, Head, Pending, Shows, Ordered;
      ghost var x := Now(queueIdx);
      ghost var k, qs := 0, vdev.queues[..];
      BatchStart(x);
      while true
        invariant x.Ok() && 0 <= k <= x.n
        invariant x.Reached(k, vdev.ram[..], disk) && State(vdev.ram[..], disk) == x.Ran(k)
        invariant vdev.queues[..] == qs[queueIdx := x.Cursor(k)]
        decreases x.n - k
      {
        Offers(x, k, vdev.ram[..], disk);
        if k < x.n {
          Turn(x, k, vdev.ram[..], disk);
        }
        var head := vdev.GetAvail(queueIdx);
        if head.None? { break; }
        assert vdev.queues[queueIdx] == x.Cursor(k + 1);
        var desc := vdev.GetDesc(queueIdx, head.value);
        if desc.None? { break; }
        var request := ReadChain(queueIdx, head.value, desc.value);
        var len := ServeOne(request);
        vdev.PutUsed(queueIdx, head.value, len);
        k := k + 1;
      }
    }
  }
}
