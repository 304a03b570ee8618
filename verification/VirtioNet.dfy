/** The virtio network device of devices/virtio-net/virtio_net.c (Virtio 1.2, section 5.1.6):
    packets scattered into and gathered from descriptor chains behind a 12-byte header.
 */
module VirtioNet {
  import opened Bytes
  import opened Options
  import opened Virtqueue
  import opened VirtioMmio

  const HDR: nat := 12
  const PKT_MAX: nat := 65536

  ghost predicate AllInside(spans: seq<Span>, ramSize: nat) {
    forall i :: 0 <= i < |spans| ==> spans[i].off + spans[i].len as int <= ramSize
  }

  ghost predicate Disjoint(spans: seq<Span>) {
    forall i, j :: 0 <= i < j < |spans| ==> Apart(spans[i].off, spans[i].len as int, spans[j].off, spans[j].len as int)
  }

  function Total(spans: seq<Span>): nat {
    if spans == [] then 0 else spans[0].len as int + Total(spans[1..])
  }

  // ---- Transmit: gathering -------------------------------------------------

  /** The bytes of the buffers, one after the other. */
  function Joined(ram: seq<u8>, spans: seq<Span>): (r: seq<u8>)
    requires AllInside(spans, |ram|)
    ensures |r| == Total(spans)
  {
    if spans == [] then []
    else ram[spans[0].off..spans[0].off + spans[0].len as int] + Joined(ram, spans[1..])
  }

  /** One turn of the gathering loop: a buffer that does not fit the packet any more is left out. */
  function Append(pkt: seq<u8>, bs: seq<u8>): (r: seq<u8>)
    ensures |pkt| <= |r| <= |pkt| + |bs|
    ensures |pkt| <= PKT_MAX ==> |r| <= PKT_MAX
  {
    if |pkt| + |bs| <= PKT_MAX then pkt + bs else pkt
  }

  /** The source's 32-bit room test means what it says exactly when its sum does not wrap; a buffer of almost 4 GiB
      passes it and overruns the packet. */
  lemma RoomExactly(have: nat, len: u32)
    requires have <= PKT_MAX
    ensures ((have + len as int) % TWO32 <= PKT_MAX <==> have + len as int <= PKT_MAX) <==> have + len as int < TWO32
  {
  }

  /** Buffers for which that sum never wraps. */
  ghost predicate Modest(spans: seq<Span>) {
    forall i :: 0 <= i < |spans| ==> spans[i].len as int + PKT_MAX < TWO32
  }

  function GatherRest(ram: seq<u8>, spans: seq<Span>, pkt: seq<u8>): seq<u8>
    requires AllInside(spans, |ram|)
    decreases |spans|
  {
    if spans == [] then pkt
    else GatherRest(ram, spans[1..], Append(pkt, ram[spans[0].off..spans[0].off + spans[0].len as int]))
  }

  /** The packet that net_process_tx hands to the backend for a chain. */
  function Gather(ram: seq<u8>, spans: seq<Span>): seq<u8>
    requires spans != [] && AllInside(spans, |ram|)
  {
    var d := spans[0];
    GatherRest(ram, spans[1..], if d.len as int > HDR then Append([], ram[d.off + HDR..d.off + d.len as int]) else [])
  }

  // ---- Receive: scattering -------------------------------------------------

  function Min(a: nat, b: nat): nat { if a <= b then a else b }

  /** Fills the buffers in order until the packet or the buffers run out; also the bytes written. */
  function Fill(ram: seq<u8>, spans: seq<Span>, pkt: seq<u8>): (r: (seq<u8>, nat))
    requires AllInside(spans, |ram|)
    ensures |r.0| == |ram|
    decreases |spans|
  {
    if spans == [] || pkt == [] then (ram, 0)
    else
      var n := Min(|pkt|, spans[0].len as int);
      var (r, m) := Fill(Blit(ram, spans[0].off, pkt[..n]), spans[1..], pkt[n..]);
      (r, n + m)
  }

  /** The room for packet bytes: what follows the header, then the other buffers. */
  function Payload(spans: seq<Span>): seq<Span>
    requires spans != [] && spans[0].len as int >= HDR
  {
    [Span(spans[0].off + 12, spans[0].len as int - 12)] + spans[1..]
  }

  /** What virtio_net_poll_rx leaves in memory for a packet, and the length it reports. */
  function Scatter(ram: seq<u8>, spans: seq<Span>, pkt: seq<u8>): (r: (seq<u8>, nat))
    requires spans != [] && spans[0].len as int >= HDR && AllInside(spans, |ram|)
    ensures |r.0| == |ram|
  {
    PayloadInside(spans, |ram|);
    var (r, n) := Fill(Blit(ram, spans[0].off, Zeros(HDR)), Payload(spans), pkt);
    (Blit(r, spans[0].off + 10, Le16(1)), HDR + n)
  }

  lemma PayloadInside(spans: seq<Span>, ramSize: nat)
    requires spans != [] && spans[0].len as int >= HDR && AllInside(spans, ramSize)
    ensures AllInside(Payload(spans), ramSize)
  {
  }

  // ---- Scatter, then gather --------------------------------------------------

  /** Filling writes inside the buffers only. */
  lemma {:induction false} FillKeeps(ram: seq<u8>, spans: seq<Span>, pkt: seq<u8>, lo: nat, n: nat)
    requires AllInside(spans, |ram|) && lo + n <= |ram|
    requires forall i :: 0 <= i < |spans| ==> Apart(spans[i].off, spans[i].len as int, lo, n)
    ensures Fill(ram, spans, pkt).0[lo..lo + n] == ram[lo..lo + n]
    decreases |spans|
  {
    hide Blit;
    if spans != [] && pkt != [] {
      var k := Min(|pkt|, spans[0].len as int);
      BlitKeeps(ram, spans[0].off, pkt[..k], lo, n);
      FillKeeps(Blit(ram, spans[0].off, pkt[..k]), spans[1..], pkt[k..], lo, n);
    }
  }

  /** After filling, the joined buffers begin with the longest prefix of the packet that fits. */
  lemma {:induction false} FillThenJoin(ram: seq<u8>, spans: seq<Span>, pkt: seq<u8>)
    requires AllInside(spans, |ram|) && Disjoint(spans)
    ensures Fill(ram, spans, pkt).1 == Min(|pkt|, Total(spans))
    ensures Joined(Fill(ram, spans, pkt).0, spans)[..Fill(ram, spans, pkt).1] == pkt[..Fill(ram, spans, pkt).1]
    decreases |spans|
  {
    hide Blit;
    if spans != [] && pkt != [] {
      var d, rest := spans[0], spans[1..];
      var k := Min(|pkt|, d.len as int);
      var ram1 := Blit(ram, d.off, pkt[..k]);
      FillThenJoin(ram1, rest, pkt[k..]);
      FillStep(ram, spans, pkt);
    }
  }

  /** The first buffer holds its share once the others are filled too. */
  lemma FillStep(ram: seq<u8>, spans: seq<Span>, pkt: seq<u8>)
    requires AllInside(spans, |ram|) && Disjoint(spans) && spans != [] && pkt != []
    requires var k := Min(|pkt|, spans[0].len as int);
             var (r, m) := Fill(Blit(ram, spans[0].off, pkt[..k]), spans[1..], pkt[k..]);
             m == Min(|pkt| - k, Total(spans[1..])) && Joined(r, spans[1..])[..m] == pkt[k..][..m]
    ensures var (r, m) := Fill(ram, spans, pkt);
            Joined(r, spans)[..m] == pkt[..m]
  {
    hide Blit, Disjoint;
    var d, rest := spans[0], spans[1..];
    var k := Min(|pkt|, d.len as int);
    var ram1 := Blit(ram, d.off, pkt[..k]);
    var (r, m) := Fill(ram1, rest, pkt[k..]);
    DisjointHead(spans);
    FillKeeps(ram1, rest, pkt[k..], d.off, d.len as int);
    BlitPrefix(ram, d.off, pkt[..k], d.len as int);
    JoinPrefix(ram1[d.off..d.off + d.len as int], Joined(r, rest), pkt, k, m);
  }

  lemma DisjointHead(spans: seq<Span>)
    requires Disjoint(spans) && spans != []
    ensures forall i :: 0 <= i < |spans[1..]| ==>
              Apart(spans[1..][i].off, spans[1..][i].len as int, spans[0].off, spans[0].len as int)
  {
  }

  lemma BlitPrefix(ram: seq<u8>, off: nat, bs: seq<u8>, n: nat)
    requires |bs| <= n && off + n <= |ram|
    ensures Blit(ram, off, bs)[off..off + n][..|bs|] == bs
  {
  }

  lemma JoinPrefix(a: seq<u8>, b: seq<u8>, pkt: seq<u8>, k: nat, m: nat)
    requires k <= |a| && k <= |pkt| && a[..k] == pkt[..k]
    requires m <= |b| && k + m <= |pkt| && b[..m] == pkt[k..][..m]
    requires m > 0 ==> k == |a|
    ensures (a + b)[..k + m] == pkt[..k + m]
  {
    assert pkt[..k + m] == pkt[..k] + pkt[k..][..m];
  }

  /** Buffers that still fit are appended whole. */
  lemma {:induction false} GatherRestJoins(ram: seq<u8>, spans: seq<Span>, pkt: seq<u8>)
    requires AllInside(spans, |ram|) && |pkt| + Total(spans) <= PKT_MAX
    ensures GatherRest(ram, spans, pkt) == pkt + Joined(ram, spans)
    decreases |spans|
  {
    if spans == [] {
      assert pkt + [] == pkt;
    } else {
      var bs := ram[spans[0].off..spans[0].off + spans[0].len as int];
      GatherRestJoins(ram, spans[1..], pkt + bs);
      assert pkt + bs + Joined(ram, spans[1..]) == pkt + (bs + Joined(ram, spans[1..]));
    }
  }

  /** The packet that goes out is the chain's bytes after the 12-byte header exactly when those are at most 65536. */
  lemma GatherJoins(ram: seq<u8>, spans: seq<Span>)
    requires spans != [] && spans[0].len as int >= HDR && AllInside(spans, |ram|)
    ensures AllInside(Payload(spans), |ram|) && |Joined(ram, Payload(spans))| == Total(spans) - 12
    ensures Gather(ram, spans) == Joined(ram, Payload(spans)) <==> Total(spans) - 12 <= 65536
  {
    hide Joined, GatherRest, Total, Append, AllInside;
    var p := Payload(spans);
    PayloadInside(spans, |ram|);
    JoinedHead(ram, p);
    TotalHead(spans);
    TotalHead(p);
    if Total(spans) - 12 <= 65536 {
      GatherFits(ram, spans);
    } else {
      GatherBound(ram, spans);
    }
  }

  lemma {:induction false} GatherRestBound(ram: seq<u8>, spans: seq<Span>, pkt: seq<u8>)
    requires AllInside(spans, |ram|) && |pkt| <= PKT_MAX
    ensures |GatherRest(ram, spans, pkt)| <= PKT_MAX
    decreases |spans|
  {
    if spans != [] {
      GatherRestBound(ram, spans[1..], Append(pkt, ram[spans[0].off..spans[0].off + spans[0].len as int]));
    }
  }

  lemma GatherBound(ram: seq<u8>, spans: seq<Span>)
    requires spans != [] && AllInside(spans, |ram|)
    ensures |Gather(ram, spans)| <= PKT_MAX
  {
    hide GatherRest, Append, AllInside;
    InsideAt(spans, |ram|, 0);
    var d := spans[0];
    var first := if d.len as int > HDR then Append([], ram[d.off + HDR..d.off + d.len as int]) else [];
    RestInside(spans, |ram|);
    GatherRestBound(ram, spans[1..], first);
  }

  lemma GatherFits(ram: seq<u8>, spans: seq<Span>)
    requires spans != [] && spans[0].len as int >= HDR && AllInside(spans, |ram|) && Total(spans) - 12 <= 65536
    ensures AllInside(Payload(spans), |ram|) && Gather(ram, spans) == Joined(ram, Payload(spans))
  {
    hide Joined, GatherRest, Total, Append, AllInside;
    var p := Payload(spans);
    PayloadInside(spans, |ram|);
    FirstPayload(ram, spans);
    var bs := ram[spans[0].off + HDR..spans[0].off + spans[0].len as int];
    JoinedHead(ram, p);
    TotalHead(spans);
    assert AllInside(spans[1..], |ram|) && p[1..] == spans[1..] by { RestInside(spans, |ram|); }
    GatherRestJoins(ram, spans[1..], bs);
  }

  lemma RestInside(spans: seq<Span>, ramSize: nat)
    requires spans != [] && AllInside(spans, ramSize)
    ensures AllInside(spans[1..], ramSize)
    ensures spans[0].len as int >= HDR ==> Payload(spans)[1..] == spans[1..]
  {
  }

  lemma FirstPayload(ram: seq<u8>, spans: seq<Span>)
    requires spans != [] && spans[0].len as int >= HDR && AllInside(spans, |ram|) && Total(spans) - 12 <= 65536
    ensures var d := spans[0];
            && d.off + d.len as int <= |ram|
            && (if d.len as int > HDR then Append([], ram[d.off + HDR..d.off + d.len as int]) else [])
               == ram[d.off + HDR..d.off + d.len as int]
  {
    var bs := ram[spans[0].off + HDR..spans[0].off + spans[0].len as int];
    assert [] + bs == bs;
  }

  lemma JoinedHead(ram: seq<u8>, spans: seq<Span>)
    requires AllInside(spans, |ram|) && spans != []
    ensures Joined(ram, spans) == ram[spans[0].off..spans[0].off + spans[0].len as int] + Joined(ram, spans[1..])
  {
  }

  lemma TotalHead(spans: seq<Span>)
    requires spans != []
    ensures Total(spans) == spans[0].len as int + Total(spans[1..])
  {
  }

  /** After a packet is scattered the chain holds, behind the header, the longest prefix that fits, and gathering
      gives it back if the chain is no larger than a packet; the length reported is 12 plus that prefix's; the header
      says one buffer, no offloads. */
  lemma ScatterThenGather(ram: seq<u8>, spans: seq<Span>, pkt: seq<u8>)
    requires spans != [] && spans[0].len as int >= HDR && AllInside(spans, |ram|)
    requires Disjoint(spans)
    ensures var (r, written) := Scatter(ram, spans, pkt);
            var k := Min(|pkt|, Total(spans) - 12);
            && written == 12 + k
            && AllInside(Payload(spans), |r|) && k <= Total(Payload(spans)) && Joined(r, Payload(spans))[..k] == pkt[..k]
            && (Total(spans) - 12 <= 65536 ==> k <= |Gather(r, spans)| && Gather(r, spans)[..k] == pkt[..k])
            && At(r, spans[0].off, Zeros(10) + Le16(1))
  {
    hide Blit, Gather, At, Le16, Fill, Joined, Total;
    var p, ram1 := Payload(spans), Blit(ram, spans[0].off, Zeros(HDR));
    PayloadInside(spans, |ram|);
    PayloadDisjoint(spans);
    var (r, n) := Fill(ram1, p, pkt);
    FillThenJoin(ram1, p, pkt);
    var out := Blit(r, spans[0].off + 10, Le16(1));
    BlitKeepsJoined(r, spans[0].off + 10, Le16(1), p);
    GatherJoins(out, spans);
    HeaderStays(ram, spans, pkt);
  }

  lemma PayloadDisjoint(spans: seq<Span>)
    requires spans != [] && spans[0].len as int >= HDR && Disjoint(spans)
    ensures Disjoint(Payload(spans)) && Total(Payload(spans)) == Total(spans) - 12
    ensures forall i :: 0 <= i < |Payload(spans)| ==>
              Apart(Payload(spans)[i].off, Payload(spans)[i].len as int, spans[0].off, HDR)
  {
    assert Payload(spans)[1..] == spans[1..];
  }

  lemma {:induction false} BlitKeepsJoined(ram: seq<u8>, off: nat, bs: seq<u8>, spans: seq<Span>)
    requires AllInside(spans, |ram|) && off + |bs| <= |ram|
    requires forall i :: 0 <= i < |spans| ==> Apart(spans[i].off, spans[i].len as int, off, |bs|)
    ensures Joined(Blit(ram, off, bs), spans) == Joined(ram, spans)
    decreases |spans|
  {
    hide Blit;
    if spans != [] {
      BlitKeeps(ram, off, bs, spans[0].off, spans[0].len as int);
      BlitKeepsJoined(ram, off, bs, spans[1..]);
    }
  }

  lemma HeaderStays(ram: seq<u8>, spans: seq<Span>, pkt: seq<u8>)
    requires spans != [] && spans[0].len as int >= HDR && AllInside(spans, |ram|) && Disjoint(spans)
    ensures At(Scatter(ram, spans, pkt).0, spans[0].off, Zeros(10) + Le16(1))
  {
    hide Blit, Fill, Le16;
    var p, off := Payload(spans), spans[0].off;
    var ram1 := Blit(ram, off, Zeros(HDR));
    PayloadInside(spans, |ram|);
    PayloadDisjoint(spans);
    FillKeeps(ram1, p, pkt, off, 10);
    var r := Fill(ram1, p, pkt).0;
    assert ram1[off..off + HDR] == Zeros(HDR);
    assert ram1[off..off + 10] == ram1[off..off + HDR][..10] == Zeros(10);
    BlitKeeps(r, off + 10, Le16(1), off, 10);
    AtConcat(Blit(r, off + 10, Le16(1)), off, Zeros(10), Le16(1));
  }

  // ---- Chains in the descriptor table ----------------------------------------

  /** `ids` are the descriptors of the chain at `head`, in order.  A cyclic chain has no such list; a chain
      whose last link leaves the table ends there. */
  ghost predicate IsChain(ram: seq<u8>, q: Queue, head: u16, ids: seq<u16>) {
    && InRam(q, |ram|) && q.desc.Some?
    && ids != [] && ids[0] == head
    && (forall i :: 0 <= i < |ids| ==> ids[i] < q.size)
    && (forall i :: 0 <= i < |ids| - 1 ==> Link(ram, q, ids[i]) == Some(ids[i + 1]))
    && Link(ram, q, ids[|ids| - 1]) == None
  }

  /** Where a descriptor leads, if anywhere inside the table. */
  function Link(ram: seq<u8>, q: Queue, id: u16): Option<u16>
    requires InRam(q, |ram|) && q.desc.Some? && id < q.size
  {
    var d := GetDesc(ram, q, id).value;
    if d.HasNext() && d.next < q.size then Some(d.next) else None
  }

  ghost predicate BuffersOk(ram: seq<u8>, q: Queue, base: u64, ids: seq<u16>) {
    && InRam(q, |ram|) && q.desc.Some?
    && (forall i :: 0 <= i < |ids| ==> ids[i] < q.size)
    && (forall i :: 0 <= i < |ids| ==> InGuest(base, |ram|, GetDesc(ram, q, ids[i]).value.addr, GetDesc(ram, q, ids[i]).value.len as int))
  }

  function SpanOf(base: u64, d: Desc): Span
    requires base <= d.addr
  {
    Span(d.addr as int - base as int, d.len)
  }

  ghost function Spans(ram: seq<u8>, q: Queue, base: u64, ids: seq<u16>): (spans: seq<Span>)
    requires BuffersOk(ram, q, base, ids)
    ensures |spans| == |ids| && AllInside(spans, |ram|)
    ensures forall i :: 0 <= i < |ids| ==> spans[i] == SpanOf(base, GetDesc(ram, q, ids[i]).value)
  {
    seq(|ids|, i requires 0 <= i < |ids| => SpanOf(base, GetDesc(ram, q, ids[i]).value))
  }

  /** A driver has chained these buffers of guest memory: descriptor `ids[i]` describes the i-th and, with
      VRING_DESC_F_NEXT (1), leads to the next; VRING_DESC_F_WRITE (2) lets the device write. */
  ghost predicate Chained(ram: seq<u8>, q: Queue, base: u64, ids: seq<u16>, bufs: seq<Span>, writable: bool) {
    && InRam(q, |ram|) && |ids| == |bufs| && bufs != [] && AllInside(bufs, |ram|)
    && forall i :: 0 <= i < |ids| ==> base as int + bufs[i].off < TWO64 && Linked(ram, q, base, ids, bufs, writable, i)
  }

  ghost predicate Linked(ram: seq<u8>, q: Queue, base: u64, ids: seq<u16>, bufs: seq<Span>, writable: bool, i: nat)
    requires i < |ids| == |bufs| && base as int + bufs[i].off < TWO64
  {
    Entry(ram, q, ids[i], Written(base, ids, bufs, writable, i))
  }

  function Written(base: u64, ids: seq<u16>, bufs: seq<Span>, writable: bool, i: nat): Desc
    requires i < |ids| == |bufs| && base as int + bufs[i].off < TWO64
  {
    var w := if writable then 2 else 0;
    if i + 1 < |ids| then Desc(base as int + bufs[i].off, bufs[i].len, w + 1, ids[i + 1])
    else Desc(base as int + bufs[i].off, bufs[i].len, w, 0)
  }

  lemma LinkReads(ram: seq<u8>, q: Queue, base: u64, ids: seq<u16>, bufs: seq<Span>, writable: bool, i: nat)
    requires Chained(ram, q, base, ids, bufs, writable) && i < |ids|
    ensures q.desc.Some? && ids[i] < q.size && GetDesc(ram, q, ids[i]).Some?
    ensures var d := GetDesc(ram, q, ids[i]).value;
            InGuest(base, |ram|, d.addr, d.len as int) && SpanOf(base, d) == bufs[i]
    ensures i + 1 == |ids| ==> Link(ram, q, ids[i]) == None
    ensures i + 1 < |ids| && ids[i + 1] < q.size ==> Link(ram, q, ids[i]) == Some(ids[i + 1])
  {
    hide GetDesc, InRam, At;
    assert Linked(ram, q, base, ids, bufs, writable, i);
    EntryReads(ram, q, ids[i], Written(base, ids, bufs, writable, i));
  }

  /** The device walks a chain as the driver laid it out, buffer by buffer. */
  lemma ChainedReads(ram: seq<u8>, q: Queue, base: u64, ids: seq<u16>, bufs: seq<Span>, writable: bool)
    requires Chained(ram, q, base, ids, bufs, writable)
    ensures IsChain(ram, q, ids[0], ids) && BuffersOk(ram, q, base, ids) && Spans(ram, q, base, ids) == bufs
  {
    hide GetDesc, InRam, Link, Linked;
    LinkReads(ram, q, base, ids, bufs, writable, 0);
    LinkReads(ram, q, base, ids, bufs, writable, |ids| - 1);
    forall i | 0 <= i < |ids|
      ensures ids[i] < q.size
      ensures var d := GetDesc(ram, q, ids[i]).value; InGuest(base, |ram|, d.addr, d.len as int) && SpanOf(base, d) == bufs[i]
    {
      LinkReads(ram, q, base, ids, bufs, writable, i);
    }
    forall i | 0 <= i < |ids| - 1 ensures Link(ram, q, ids[i]) == Some(ids[i + 1]) {
      LinkReads(ram, q, base, ids, bufs, writable, i);
    }
    SpansAre(ram, q, base, ids, bufs);
  }

  lemma SpansAre(ram: seq<u8>, q: Queue, base: u64, ids: seq<u16>, bufs: seq<Span>)
    requires BuffersOk(ram, q, base, ids) && |bufs| == |ids|
    requires forall i :: 0 <= i < |ids| ==> SpanOf(base, GetDesc(ram, q, ids[i]).value) == bufs[i]
    ensures Spans(ram, q, base, ids) == bufs
  {
  }

  /** Whatever buffers the driver chained are the ones whose packet goes out. */
  ghost predicate Sends(ram: seq<u8>, q: Queue, base: u64, ids: seq<u16>, pkt: seq<u8>, total: u32) {
    forall bufs, w :: Chained(ram, q, base, ids, bufs, w) ==>
      bufs != [] && AllInside(bufs, |ram|) && pkt == Gather(ram, bufs) && total as int == Total(bufs) % TWO32
  }

  lemma ChainedSends(ram: seq<u8>, q: Queue, base: u64, ids: seq<u16>)
    requires ids != [] && BuffersOk(ram, q, base, ids)
    ensures Sends(ram, q, base, ids, Gather(ram, Spans(ram, q, base, ids)), Total(Spans(ram, q, base, ids)) % TWO32)
  {
    hide GetDesc, Linked, InRam, Gather, Total;
    forall bufs, w | Chained(ram, q, base, ids, bufs, w) ensures Spans(ram, q, base, ids) == bufs {
      ChainedReads(ram, q, base, ids, bufs, w);
    }
  }

  lemma TotalTake(spans: seq<Span>, k: nat)
    requires k < |spans|
    ensures Total(spans[..k + 1]) == Total(spans[..k]) + spans[k].len as int <= Total(spans)
    decreases spans
  {
    if k == 0 {
      assert spans[..1][1..] == [] && spans[..0] == [];
    } else {
      assert spans[..k + 1][1..] == spans[1..][..k] && spans[..k][1..] == spans[1..][..k - 1];
      TotalTake(spans[1..], k - 1);
    }
  }

  /** The running 32-bit total takes one more buffer. */
  lemma TotalTurn(spans: seq<Span>, k: nat, total: u32)
    requires k < |spans| && Modest(spans) && total as int == Total(spans[..k]) % TWO32
    ensures (total as int + spans[k].len as int) % TWO32 == Total(spans[..k + 1]) % TWO32
    ensures spans[k].len as int + PKT_MAX < TWO32
  {
    hide Total;
    TotalTake(spans, k);
    WrapAdds(Total(spans[..k]), spans[k].len as nat);
  }

  lemma WrapAdds(a: nat, b: nat)
    ensures (a % TWO32 + b) % TWO32 == (a + b) % TWO32
  {
  }

  /** The walk's step along a chain: the next descriptor of the list, or none at its end. */
  function Follow(ram: seq<u8>, q: Queue, d: Desc): Option<Desc>
    requires InRam(q, |ram|)
  {
    if d.HasNext() then GetDesc(ram, q, d.next) else None
  }

  lemma FollowsList(ram: seq<u8>, q: Queue, head: u16, ids: seq<u16>, k: nat)
    requires IsChain(ram, q, head, ids) && k < |ids|
    ensures GetDesc(ram, q, ids[k]).Some?
    ensures Follow(ram, q, GetDesc(ram, q, ids[k]).value) == if k + 1 < |ids| then GetDesc(ram, q, ids[k + 1]) else None
  {
    hide GetDesc;
    if k + 1 < |ids| {
      assert Link(ram, q, ids[k]) == Some(ids[k + 1]);
    }
  }

  /** One buffer's contribution: the first one's bytes start after the header. */
  function Contribution(ram: seq<u8>, d: Span, first: bool): seq<u8>
    requires d.off + d.len as int <= |ram|
  {
    if !first then ram[d.off..d.off + d.len as int]
    else if d.len as int > HDR then ram[d.off + HDR..d.off + d.len as int]
    else []
  }

  /** The packet once buffers from `k` on are added to `pkt`. */
  function GatherFrom(ram: seq<u8>, spans: seq<Span>, k: nat, pkt: seq<u8>): seq<u8>
    requires k <= |spans| && AllInside(spans, |ram|) && spans != []
  {
    if k == 0 then Gather(ram, spans) else GatherRest(ram, spans[k..], pkt)
  }

  lemma GatherTurn(ram: seq<u8>, spans: seq<Span>, k: nat, pkt: seq<u8>)
    requires k < |spans| && AllInside(spans, |ram|) && (k == 0 ==> pkt == [])
    ensures GatherFrom(ram, spans, k, pkt)
         == GatherFrom(ram, spans, k + 1, Append(pkt, Contribution(ram, spans[k], k == 0)))
  {
    hide Append;
    AppendNothing();
    if k > 0 {
      assert spans[k..][0] == spans[k] && spans[k..][1..] == spans[k + 1..];
    }
  }

  lemma AppendNothing()
    ensures Append([], []) == []
  {
  }

  lemma GatherEnd(ram: seq<u8>, spans: seq<Span>, pkt: seq<u8>)
    requires AllInside(spans, |ram|) && spans != []
    ensures GatherFrom(ram, spans, |spans|, pkt) == pkt && spans[..|spans|] == spans
  {
    assert spans[|spans|..] == [];
  }

  /** The memory and byte count that filling ends with, from buffer `k` and packet byte `off` on. */
  function FillFrom(ram: seq<u8>, spans: seq<Span>, k: nat, pkt: seq<u8>, off: nat): (r: (seq<u8>, nat))
    requires k <= |spans| && AllInside(spans, |ram|) && off <= |pkt|
    ensures |r.0| == |ram|
  {
    var (r, m) := Fill(ram, spans[k..], pkt[off..]);
    (r, off + m)
  }

  /** One turn of the filling loop. */
  lemma FillTurn(ram: seq<u8>, spans: seq<Span>, k: nat, pkt: seq<u8>, off: nat)
    requires k < |spans| && AllInside(spans, |ram|) && off <= |pkt|
    ensures var n := Min(|pkt| - off, spans[k].len as int);
            FillFrom(ram, spans, k, pkt, off)
            == FillFrom(Blit(ram, spans[k].off, pkt[off..off + n]), spans, k + 1, pkt, off + n)
  {
    hide Blit, AllInside;
    var rest, bytes := spans[k..], pkt[off..];
    var n := Min(|pkt| - off, spans[k].len as int);
    assert rest[0] == spans[k] && rest[1..] == spans[k + 1..] && spans[k].off + spans[k].len as int <= |ram| by { InsideAt(spans, |ram|, k); }
    assert pkt[off..off + n] == bytes[..n] && pkt[off + n..] == bytes[n..];
    if off == |pkt| {
      assert bytes[..n] == [];
      BlitNothing(ram, spans[k].off);
    }
  }

  lemma InsideAt(spans: seq<Span>, ramSize: nat, k: nat)
    requires AllInside(spans, ramSize) && k < |spans|
    ensures spans[k].off + spans[k].len as int <= ramSize
    ensures AllInside(spans[k..], ramSize)
  {
  }

  lemma FillEnd(ram: seq<u8>, spans: seq<Span>, k: nat, pkt: seq<u8>, off: nat)
    requires k <= |spans| && AllInside(spans, |ram|) && off <= |pkt| && (k == |spans| || off == |pkt|)
    ensures FillFrom(ram, spans, k, pkt, off) == (ram, off)
  {
  }

  /** Copying into a buffer keeps the descriptor table where the two are apart. */
  lemma TableKept(ram: seq<u8>, off: nat, bs: seq<u8>, was: seq<u8>, q: Queue)
    requires off + |bs| <= |ram| && InRam(q, |ram|) && q.desc.Some? && SameIn(ram, was, q.desc.value, TableSize(q))
    requires Apart(off, |bs|, q.desc.value, TableSize(q))
    ensures SameIn(Blit(ram, off, bs), was, q.desc.value, TableSize(q))
  {
  }

  // ---- A drained transmit queue -----------------------------------------------

  /** What a transmit notification meets: the pending chains, clear of the used ring. */
  datatype Outbox = Outbox(ram: seq<u8>, q: Queue, base: u64, chains: seq<seq<u16>>)
  {
    ghost predicate Ok() {
      && Layout(|ram|, q) && q.desc.Some?
      && |chains| == Pending(ram, q) <= q.size as int
      && Apart(q.used.value, UsedSize(q), q.desc.value, TableSize(q))
      && (forall k :: 0 <= k < |chains| ==> ChainOk(k))
    }

    ghost predicate ChainOk(k: nat)
      requires Layout(|ram|, q) && q.desc.Some? && k < |chains|
    {
      && IsChain(ram, q, Head(ram, q, k), chains[k])
      && BuffersOk(ram, q, base, chains[k])
      && Modest(Spans(ram, q, base, chains[k]))
      && ClearOf(Spans(ram, q, base, chains[k]), q.used.value, UsedSize(q))
    }

    ghost function Packet(k: nat): seq<u8>
      requires Ok() && k < |chains|
    {
      assert ChainOk(k);
      Gather(ram, Spans(ram, q, base, chains[k]))
    }

    /** The non-empty packets of the first `k` chains, in posting order. */
    ghost function Packets(k: nat): seq<seq<u8>>
      requires Ok() && k <= |chains|
    {
      if k == 0 then [] else if Packet(k - 1) == [] then Packets(k - 1) else Packets(k - 1) + [Packet(k - 1)]
    }

    ghost function Reported(k: nat): u32
      requires Ok() && k < |chains|
    {
      assert ChainOk(k);
      Total(Spans(ram, q, base, chains[k])) % TWO32
    }

    ghost function Cursor(k: nat): Queue {
      CursorAt(q, k)
    }

    /** The used elements due for the first `k` chains, in posting order. */
    ghost function Dues(k: nat): (r: seq<Used>)
      requires Ok() && k <= |chains|
      ensures |r| == k
    {
      if k == 0 then [] else Dues(k - 1) + [Used(Head(ram, q, k - 1) as u32, Reported(k - 1))]
    }

    /** Memory after `k` chains, used ring included. */
    ghost function Ran(k: nat): (r: seq<u8>)
      requires Ok() && k <= |chains|
      ensures |r| == |ram|
    {
      if k == 0 then ram else PutUsed(Ran(k - 1), q, Head(ram, q, k - 1), Reported(k - 1))
    }

    /** The loop's turns as rounds of the queue: buffers are only read. */
    ghost function Rounds(k: nat): (r: seq<Round>)
      requires Ok() && k <= |chains|
      ensures |r| == k
    {
      if k == 0 then [] else Rounds(k - 1) + [Round(Head(ram, q, k - 1), Ran(k - 1), Reported(k - 1))]
    }

    /** After `k` chains: the packets are sent, the used ring lists the heads, other memory is as it was. */
    ghost predicate Reached(k: nat, now: seq<u8>, sent: seq<seq<u8>>)
      requires Ok() && k <= |chains|
    {
      && |now| == |ram| && SameOutside(now, ram, q.used.value, UsedSize(q))
      && sent == Packets(k)
      && UsedIdx(now, q) as int == (UsedIdx(ram, q) as int + k) % TWO16
      && Lists(now, q, UsedIdx(ram, q) as int, Dues(k))
    }
  }

  ghost predicate ClearOf(spans: seq<Span>, lo: nat, n: nat) {
    forall i :: 0 <= i < |spans| ==> Apart(spans[i].off, spans[i].len as int, lo, n)
  }

  /** The chain at a head reads the same while only the used ring changes. */
  lemma SameWalk(x: Outbox, k: nat, now: seq<u8>)
    requires x.Ok() && k < |x.chains| && SameOutside(now, x.ram, x.q.used.value, UsedSize(x.q))
    ensures |now| == |x.ram|
    ensures AvailIdx(now, x.q) == AvailIdx(x.ram, x.q) && Head(now, x.Cursor(k), 0) == Head(x.ram, x.q, k)
    ensures IsChain(now, x.q, Head(x.ram, x.q, k), x.chains[k]) && BuffersOk(now, x.q, x.base, x.chains[k])
    ensures Spans(now, x.q, x.base, x.chains[k]) == Spans(x.ram, x.q, x.base, x.chains[k])
    ensures Gather(now, Spans(x.ram, x.q, x.base, x.chains[k])) == x.Packet(k)
  {
    hide GetDesc, Gather, Head, AvailIdx, Pending, Total;
    assert x.ChainOk(k);
    assert SameIn(now, x.ram, x.q.avail.value, AvailSize(x.q));
    assert SameIn(now, x.ram, x.q.desc.value, TableSize(x.q));
    SameHead(now, x.ram, x.q, k);
    var ids := x.chains[k];
    forall i | 0 <= i < |ids| ensures GetDesc(now, x.q, ids[i]) == GetDesc(x.ram, x.q, ids[i]) {
      SameTable(now, x.ram, x.q, ids[i]);
    }
    assert Spans(now, x.q, x.base, ids) == Spans(x.ram, x.q, x.base, ids);
    GatherSame(now, x.ram, Spans(x.ram, x.q, x.base, ids), x.q.used.value, UsedSize(x.q));
  }

  lemma {:induction false} GatherRestSame(a: seq<u8>, b: seq<u8>, spans: seq<Span>, pkt: seq<u8>, lo: nat, n: nat)
    requires AllInside(spans, |a|) && ClearOf(spans, lo, n) && SameOutside(a, b, lo, n)
    ensures GatherRest(a, spans, pkt) == GatherRest(b, spans, pkt)
    decreases |spans|
  {
    hide Append, SameOutside;
    if spans != [] {
      SliceOutside(a, b, spans[0].off, spans[0].len as int, lo, n);
      GatherRestSame(a, b, spans[1..], Append(pkt, a[spans[0].off..spans[0].off + spans[0].len as int]), lo, n);
    }
  }

  lemma GatherSame(a: seq<u8>, b: seq<u8>, spans: seq<Span>, lo: nat, n: nat)
    requires |a| == |b| && spans != [] && AllInside(spans, |a|) && ClearOf(spans, lo, n) && SameOutside(a, b, lo, n)
    ensures Gather(a, spans) == Gather(b, spans)
  {
    hide Append, GatherRest, SameOutside;
    var d := spans[0];
    if d.len as int > HDR {
      SliceOutside(a, b, d.off + HDR, d.len as int - HDR, lo, n);
      GatherRestSame(a, b, spans[1..], Append([], a[d.off + HDR..d.off + d.len as int]), lo, n);
    } else {
      GatherRestSame(a, b, spans[1..], [], lo, n);
    }
  }

  lemma OutboxStart(x: Outbox)
    requires x.Ok()
    ensures x.Reached(0, x.ram, [])
  {
    hide IsChain, BuffersOk, Pending, Head, UsedAt, UsedIdx;
  }

  lemma OutboxOffers(x: Outbox, k: nat, now: seq<u8>, sent: seq<seq<u8>>)
    requires x.Ok() && k <= |x.chains| && x.Reached(k, now, sent)
    ensures |now| == |x.ram| && Layout(|now|, x.Cursor(k))
    ensures k < |x.chains| ==> GetAvail(now, x.Cursor(k)) == (Some(Head(x.ram, x.q, k)), x.Cursor(k + 1))
    ensures k == |x.chains| ==> GetAvail(now, x.Cursor(k)) == (None, x.Cursor(k)) && x.Cursor(k).lastAvail == AvailIdx(now, x.Cursor(k))
  {
    hide IsChain, BuffersOk, AvailIdx, UsedIdx, Lists, GetAvail, Pending, Head, Outbox.ChainOk;
    assert SameIn(now, x.ram, x.q.avail.value, AvailSize(x.q));
    AvailOffers(x.ram, now, x.q, k);
  }

  lemma OutsideTrans(a: seq<u8>, b: seq<u8>, c: seq<u8>, lo: nat, n: nat)
    requires SameOutside(a, b, lo, n) && SameOutside(b, c, lo, n)
    ensures SameOutside(a, c, lo, n)
  {
  }

  /** The device's cursor plays no part in walking chains or publishing heads. */
  lemma CursorIrrelevant(ram: seq<u8>, q: Queue, c: u16, base: u64, head: u16, ids: seq<u16>, id: u16, len: u32)
    requires IsChain(ram, q, head, ids) && BuffersOk(ram, q, base, ids)
    ensures var r := q.(lastAvail := c);
            && IsChain(ram, r, head, ids) && BuffersOk(ram, r, base, ids) && Spans(ram, r, base, ids) == Spans(ram, q, base, ids)
            && GetDesc(ram, r, head).Some? && PutUsed(ram, r, id, len) == PutUsed(ram, q, id, len)
  {
    hide GetDesc, PutUsed;
    var r := q.(lastAvail := c);
    CursorUnread(ram, q, c, head, id, len);
    forall i | 0 <= i < |ids| ensures GetDesc(ram, r, ids[i]) == GetDesc(ram, q, ids[i]) {
      CursorUnread(ram, q, c, ids[i], id, len);
    }
  }

  /** The next chain's packet and length, and the state after publishing its head. */
  lemma OutboxTurn(x: Outbox, k: nat, now: seq<u8>, sent: seq<seq<u8>>)
    requires x.Ok() && k < |x.chains| && x.Reached(k, now, sent)
    ensures |now| == |x.ram| && Layout(|now|, x.Cursor(k + 1))
    ensures var head, q, ids := Head(x.ram, x.q, k), x.Cursor(k + 1), x.chains[k];
            && GetDesc(now, q, head).Some?
            && IsChain(now, q, head, ids) && BuffersOk(now, q, x.base, ids)
            && Modest(Spans(now, q, x.base, ids))
            && var pkt, total := Gather(now, Spans(now, q, x.base, ids)), Total(Spans(now, q, x.base, ids)) % TWO32;
               && x.Reached(k + 1, PutUsed(now, q, head, total), if pkt == [] then sent else sent + [pkt])
               && (now == x.Ran(k) ==> PutUsed(now, q, head, total) == x.Ran(k + 1))
  {
    hide IsChain, BuffersOk, Lists, SameOutside, PutUsed, UsedIdx, Pending, Head, Gather, Total, GetDesc;
    var head, ids, u := Head(x.ram, x.q, k), x.chains[k], UsedIdx(x.ram, x.q) as int;
    assert x.ChainOk(k);
    SameWalk(x, k, now);
    CursorIrrelevant(now, x.q, x.Cursor(k + 1).lastAvail, x.base, head, ids, head, x.Reported(k));
    ListsNext(now, x.q, u, x.Dues(k), head, x.Reported(k));
    OutsideTrans(PutUsed(now, x.q, head, x.Reported(k)), now, x.ram, x.q.used.value, UsedSize(x.q));
  }

  // ---- A transmit notification among the queue's steps ------------------------------

  lemma {:induction false} RanReached(x: Outbox, k: nat)
    requires x.Ok() && k <= |x.chains|
    ensures x.Reached(k, x.Ran(k), x.Packets(k))
    decreases k
  {
    hide Outbox.Reached, Outbox.Ok, PutUsed, Head, Outbox.ChainOk, Pending, Gather, IsChain, BuffersOk, Total, GetDesc;
    if k == 0 {
      OutboxStart(x);
    } else {
      RanReached(x, k - 1);
      OutboxTurn(x, k - 1, x.Ran(k - 1), x.Packets(k - 1));
      SentIs(x, k, x.Ran(k));
    }
  }

  /** What has been sent is determined by how far the loop is. */
  lemma SentIs(x: Outbox, k: nat, now: seq<u8>)
    requires x.Ok() && k <= |x.chains|
    ensures forall sent :: x.Reached(k, now, sent) ==> sent == x.Packets(k)
  {
  }

  lemma RoundFits(x: Outbox, k: nat, s: Sys)
    requires x.Ok() && k < |x.chains| && s.ram == x.Ran(k) && s.q == x.Cursor(k) && |s.done| <= |s.taken|
    ensures var r := Round(Head(x.ram, x.q, k), x.Ran(k), x.Reported(k));
            && x.Rounds(k + 1) == x.Rounds(k) + [r] && Fits(s, r)
            && Served(s, r) == s.(ram := x.Ran(k + 1), q := x.Cursor(k + 1),
                                  taken := s.taken + [r.head], done := s.done + [Used(r.head as u32, r.len)])
  {
    hide Outbox.Reached, Outbox.Ok, Outbox.Reported, PutUsed, Head, GetAvail, Outbox.Packets, SameIn;
    RanReached(x, k);
    OutboxOffers(x, k, x.Ran(k), x.Packets(k));
    OkLayout(x);
    SameInSelf(x.Ran(k), x.q.avail.value, AvailSize(x.q));
    SameInSelf(x.Ran(k), x.q.used.value, UsedSize(x.q));
    CursorUnread(x.Ran(k), x.q, x.Cursor(k + 1).lastAvail, 0, Head(x.ram, x.q, k), x.Reported(k));
  }

  lemma OkLayout(x: Outbox)
    requires x.Ok()
    ensures Layout(|x.ram|, x.q)
  {
  }

  lemma {:induction false} OutboxServes(x: Outbox, s: Sys, k: nat)
    requires x.Ok() && k <= |x.chains| && s.ram == x.ram && s.q == x.q && |s.done| <= |s.taken|
    ensures FitAll(s, x.Rounds(k))
    ensures var t := ServedAll(s, x.Rounds(k));
            && t.ram == x.Ran(k) && t.q == x.Cursor(k)
            && t.posted == s.posted && t.reaped == s.reaped && t.lastUsed == s.lastUsed
            && |t.taken| == |s.taken| + k && |t.done| == |s.done| + k && t.done == s.done + x.Dues(k)
    decreases k
  {
    hide Fits, PutUsed, Head, Outbox.Ok, Outbox.Reported, Served;
    if k == 0 {
      assert s.done + [] == s.done;
      CursorZero(x);
    } else {
      OutboxServes(x, s, k - 1);
      var t := ServedAll(s, x.Rounds(k - 1));
      RoundFits(x, k - 1, t);
      var rs := x.Rounds(k);
      assert rs[..|rs| - 1] == x.Rounds(k - 1);
    }
  }

  lemma CursorZero(x: Outbox)
    ensures x.Cursor(0) == x.q
  {
  }

  /** One net_process_tx is a notification in the sense of the queue: a legal run of its steps that serves every
      posted head, in order, and leaves the memory that the loop leaves. */
  lemma NotificationServes(x: Outbox, s: Sys)
    requires x.Ok() && Inv(s) && InOrder(s) && s.ram == x.ram && s.q == x.q
    ensures FitAll(s, x.Rounds(|x.chains|))
    ensures var t := ServedAll(s, x.Rounds(|x.chains|));
            && t.ram == x.Ran(|x.chains|) && t.q == x.Cursor(|x.chains|) && t.posted == s.posted
            && Inv(t) && InOrder(t) && |t.done| == |t.posted| && t.done == s.done + x.Dues(|x.chains|)
  {
    hide PutUsed, Head, Pending, Outbox.ChainOk, FitAll, ServedAll, AvailHolds, UsedHolds, AvailIdx, UsedIdx;
    OutboxServes(x, s, |x.chains|);
    ServiceInOrder(s, x.Rounds(|x.chains|));
    PendingCount(s);
  }

  class NetDevice {
    const vdev: VirtioDevice
    var sent: seq<seq<u8>>

    constructor (vdev: VirtioDevice)
      ensures this.vdev == vdev && sent == []
    {
      this.vdev, sent := vdev, [];
    }

    /** The descriptor walk of net_process_tx for one chain: the packet, and the length to report. */
    method GatherChain(queueIdx: nat, head: u16, ghost ids: seq<u16>) returns (pkt: seq<u8>, total: u32)
      requires queueIdx < vdev.numQueues <= vdev.queues.Length
      requires IsChain(vdev.ram[..], vdev.queues[queueIdx], head, ids)
      requires BuffersOk(vdev.ram[..], vdev.queues[queueIdx], vdev.ramBase, ids)
      requires Modest(Spans(vdev.ram[..], vdev.queues[queueIdx], vdev.ramBase, ids))
      ensures pkt == Gather(vdev.ram[..], Spans(vdev.ram[..], vdev.queues[queueIdx], vdev.ramBase, ids))
      ensures total as int == Total(Spans(vdev.ram[..], vdev.queues[queueIdx], vdev.ramBase, ids)) % TWO32
      ensures Sends(vdev.ram[..], vdev.queues[queueIdx], vdev.ramBase, ids, pkt, total)
    {
      hide Sends, Shows, GetDesc, Gather, GatherFrom, Link, Total, Modest, Append, Contribution;
      var ram, base := vdev.ram, vdev.ramBase as int;
      ghost var q, mem := vdev.queues[queueIdx], vdev.ram[..];
      ghost var spans := Spans(mem, q, vdev.ramBase, ids);
      ghost var k := 0;
      pkt, total := [], 0;
      var first := true;
      TotalNone(spans[..0]);
      var cur := vdev.GetDesc(queueIdx, head);
      while cur.Some?
        invariant 0 <= k <= |ids| && first == (k == 0) && |pkt| <= PKT_MAX && (first ==> pkt == [])
        invariant k < |ids| ==> cur == GetDesc(mem, q, ids[k])
        invariant cur.None? <==> k == |ids|
        invariant total as int == Total(spans[..k]) % TWO32
        invariant GatherFrom(mem, spans, k, pkt) == GatherFrom(mem, spans, 0, [])
        decreases |ids| - k
      {
        TotalTurn(spans, k, total);
        GatherTurn(mem, spans, k, pkt);
        FollowsList(mem, q, head, ids, k);
        pkt := AddBuffer(cur.value, first, pkt);
        first := false;
        total := (total as int + cur.value.len as int) % TWO32;
        if cur.value.HasNext() {
          cur := vdev.GetDesc(queueIdx, cur.value.next);
        } else {
          cur := None;
        }
        k := k + 1;
      }
      GatherEnd(mem, spans, pkt);
      GatherIs(mem, spans);
      ChainedSends(mem, q, vdev.ramBase, ids);
    }

    static lemma TotalNone(spans: seq<Span>)
      requires spans == []
      ensures Total(spans) == 0
    {
    }

    static lemma GatherIs(ram: seq<u8>, spans: seq<Span>)
      requires AllInside(spans, |ram|) && spans != []
      ensures GatherFrom(ram, spans, 0, []) == Gather(ram, spans)
    {
    }

    /** One turn of that walk: copy the buffer's bytes if the packet still has room for all of them. */
    method AddBuffer(cur: Desc, first: bool, pkt: seq<u8>) returns (r: seq<u8>)
      requires InGuest(vdev.ramBase, vdev.ram.Length, cur.addr, cur.len as int)
      requires |pkt| <= PKT_MAX && |pkt| + cur.len as int < TWO32
      ensures r == Append(pkt, Contribution(vdev.ram[..], SpanOf(vdev.ramBase, cur), first))
    {
      var off, len := cur.addr as int - vdev.ramBase as int, cur.len as int;
      r := pkt;
      if first {
        if len > HDR {
          var payload := len - HDR;
          if (|pkt| + payload) % TWO32 <= PKT_MAX {
            r := pkt + vdev.ram[off + HDR..off + len];
          }
        }
      } else {
        if (|pkt| + len) % TWO32 <= PKT_MAX {
          r := pkt + vdev.ram[off..off + len];
        }
      }
    }

    /** The descriptor walk of virtio_net_poll_rx: header, then packet bytes as long as there are both bytes
        and buffers, then the buffer count in the header.  Buffers keep clear of the descriptor table. */
    method ScatterChain(queueIdx: nat, head: u16, pkt: seq<u8>, ghost ids: seq<u16>) returns (written: nat)
      requires queueIdx < vdev.numQueues <= vdev.queues.Length
      requires IsChain(vdev.ram[..], vdev.queues[queueIdx], head, ids)
      requires BuffersOk(vdev.ram[..], vdev.queues[queueIdx], vdev.ramBase, ids)
      requires ClearOfTable(vdev.queues[queueIdx], Spans(vdev.ram[..], vdev.queues[queueIdx], vdev.ramBase, ids))
      requires Spans(vdev.ram[..], vdev.queues[queueIdx], vdev.ramBase, ids)[0].len as int >= HDR
      modifies vdev.ram
      ensures (vdev.ram[..], written)
           == Scatter(old(vdev.ram[..]), Spans(old(vdev.ram[..]), vdev.queues[queueIdx], vdev.ramBase, ids), pkt)
    {
      hide GetDesc, Blit, Fill, FillFrom, Link, SameIn, Payload, Shows;
      ghost var q, mem := vdev.queues[queueIdx], vdev.ram[..];
      ghost var spans := Spans(mem, q, vdev.ramBase, ids);
      SameAll(mem, q);
      PayloadParts(spans, |mem|);
      var desc := vdev.GetDesc(queueIdx, head);
      var hdrOff := desc.value.addr as int - vdev.ramBase as int;
      TableKept(mem, hdrOff, Zeros(HDR), mem, q);
      Store(vdev.ram, hdrOff, Zeros(HDR));
      FillStart(vdev.ram[..], Payload(spans), pkt);
      var off := FillFirst(desc.value, pkt, q, mem, Payload(spans));
      off := FillOthers(queueIdx, desc.value, pkt, off, mem, ids, Payload(spans));
      Store(vdev.ram, hdrOff + 10, Le16(1));
      written := HDR + off;
    }

    static lemma FillStart(ram: seq<u8>, p: seq<Span>, pkt: seq<u8>)
      requires AllInside(p, |ram|)
      ensures FillFrom(ram, p, 0, pkt, 0) == Fill(ram, p, pkt)
    {
      assert p[0..] == p && pkt[0..] == pkt;
    }

    static lemma PayloadParts(spans: seq<Span>, ramSize: nat)
      requires spans != [] && spans[0].len as int >= HDR && AllInside(spans, ramSize)
      ensures |Payload(spans)| == |spans| && AllInside(Payload(spans), ramSize)
      ensures Payload(spans)[0] == Span(spans[0].off + HDR, spans[0].len as int - HDR)
      ensures forall i :: 1 <= i < |spans| ==> Payload(spans)[i] == spans[i]
    {
    }

    /** Packet bytes after the header in the first buffer. */
    method FillFirst(desc: Desc, pkt: seq<u8>, ghost q: Queue, ghost mem: seq<u8>, ghost p: seq<Span>) returns (off: nat)
      requires desc.len as int >= HDR && InGuest(vdev.ramBase, vdev.ram.Length, desc.addr, desc.len as int)
      requires p != [] && p[0] == Span(desc.addr as int - vdev.ramBase as int + HDR, desc.len as int - HDR)
      requires AllInside(p, vdev.ram.Length)
      requires InRam(q, vdev.ram.Length) && q.desc.Some? && SameIn(vdev.ram[..], mem, q.desc.value, TableSize(q))
      requires Apart(p[0].off, p[0].len as int, q.desc.value, TableSize(q))
      modifies vdev.ram
      ensures off <= |pkt| && SameIn(vdev.ram[..], mem, q.desc.value, TableSize(q))
      ensures FillFrom(vdev.ram[..], p, 1, pkt, off) == old(FillFrom(vdev.ram[..], p, 0, pkt, 0))
    {
      hide Blit, FillFrom, SameIn;
      var at := desc.addr as int - vdev.ramBase as int + HDR;
      FillTurn(vdev.ram[..], p, 0, pkt, 0);
      off := 0;
      if desc.len as int > HDR && off < |pkt| {
        var n := Min(|pkt| - off, desc.len as int - HDR);
        TableKept(vdev.ram[..], at, pkt[off..off + n], mem, q);
        Store(vdev.ram, at, pkt[off..off + n]);
        off := off + n;
      } else {
        assert pkt[0..0] == [];
        BlitNothing(vdev.ram[..], at);
      }
    }

    /** The loop over the remaining descriptors. */
    method FillOthers(queueIdx: nat, desc: Desc, pkt: seq<u8>, from: nat, ghost mem: seq<u8>, ghost ids: seq<u16>, ghost p: seq<Span>)
      returns (off: nat)
      requires queueIdx < vdev.numQueues <= vdev.queues.Length && |mem| == vdev.ram.Length && from <= |pkt|
      requires ids != [] && IsChain(mem, vdev.queues[queueIdx], ids[0], ids)
      requires GetDesc(mem, vdev.queues[queueIdx], ids[0]) == Some(desc)
      requires BuffersOk(mem, vdev.queues[queueIdx], vdev.ramBase, ids)
      requires ClearOfTable(vdev.queues[queueIdx], Spans(mem, vdev.queues[queueIdx], vdev.ramBase, ids))
      requires |p| == |ids| && AllInside(p, vdev.ram.Length)
      requires forall i :: 1 <= i < |p| ==> p[i] == Spans(mem, vdev.queues[queueIdx], vdev.ramBase, ids)[i]
      requires SameIn(vdev.ram[..], mem, vdev.queues[queueIdx].desc.value, TableSize(vdev.queues[queueIdx]))
      modifies vdev.ram
      ensures (vdev.ram[..], off) == old(FillFrom(vdev.ram[..], p, 1, pkt, from))
    {
      hide GetDesc, Blit, FillFrom, Link, SameIn, Shows;
      ghost var q := vdev.queues[queueIdx];
      ghost var goal := FillFrom(vdev.ram[..], p, 1, pkt, from);
      ghost var k := 1;
      var cur := desc;
      off := from;
      while cur.HasNext() && off < |pkt|
        invariant 1 <= k <= |ids| && GetDesc(mem, q, ids[k - 1]) == Some(cur)
        invariant off <= |pkt| && SameIn(vdev.ram[..], mem, q.desc.value, TableSize(q))
        invariant FillFrom(vdev.ram[..], p, k, pkt, off) == goal
        decreases |ids| - k
      {
        FollowsList(mem, q, ids[0], ids, k - 1);
        SameTable(vdev.ram[..], mem, q, cur.next);
        var next := vdev.GetDesc(queueIdx, cur.next);
        if next.None? { break; }
        cur := next.value;
        off := FillBuffer(SpanOf(vdev.ramBase, cur), pkt, off, q, mem, p, k);
        k := k + 1;
      }
      FollowsList(mem, q, ids[0], ids, k - 1);
      FillEnd(vdev.ram[..], p, k, pkt, off);
    }

    method FillBuffer(d: Span, pkt: seq<u8>, from: nat, ghost q: Queue, ghost mem: seq<u8>, ghost p: seq<Span>, ghost k: nat)
      returns (off: nat)
      requires from <= |pkt| && k < |p| && AllInside(p, vdev.ram.Length) && d == p[k]
      requires InRam(q, vdev.ram.Length) && q.desc.Some? && SameIn(vdev.ram[..], mem, q.desc.value, TableSize(q))
      requires d.off + d.len as int <= vdev.ram.Length && Apart(d.off, d.len as int, q.desc.value, TableSize(q))
      modifies vdev.ram
      ensures off <= |pkt| && SameIn(vdev.ram[..], mem, q.desc.value, TableSize(q))
      ensures FillFrom(vdev.ram[..], p, k + 1, pkt, off) == old(FillFrom(vdev.ram[..], p, k, pkt, from))
    {
      hide Blit, FillFrom, SameIn, AllInside;
      FillTurn(vdev.ram[..], p, k, pkt, from);
      var n := Min(|pkt| - from, d.len as int);
      TableKept(vdev.ram[..], d.off, pkt[from..from + n], mem, q);
      Store(vdev.ram, d.off, pkt[from..from + n]);
      off := from + n;
    }

    static ghost predicate ClearOfTable(q: Queue, spans: seq<Span>)
      requires q.desc.Some?
    {
      forall i :: 0 <= i < |spans| ==> Apart(spans[i].off, spans[i].len as int, q.desc.value, TableSize(q))
    }

    static lemma SameAll(mem: seq<u8>, q: Queue)
      requires InRam(q, |mem|) && q.desc.Some?
      ensures SameIn(mem, mem, q.desc.value, TableSize(q))
    {
    }

    ghost function Now(queueIdx: nat, chains: seq<seq<u16>>): Outbox
      requires queueIdx < vdev.queues.Length
      reads vdev, vdev.ram, vdev.queues
    {
      Outbox(vdev.ram[..], vdev.queues[queueIdx], vdev.ramBase, chains)
    }

    /** net_process_tx: every pending chain's packet goes out once and in posting order, empty ones are skipped,
        and each head comes back on the used ring with its chain's length. */
    method ProcessTx(queueIdx: nat, ghost chains: seq<seq<u16>>)
      requires queueIdx < vdev.numQueues <= vdev.queues.Length && Now(queueIdx, chains).Ok()
      requires Tied(vdev.RamWindow(), vdev.queues[queueIdx])
      modifies this`sent, vdev.ram, vdev.queues
      ensures exists out :: sent == old(sent) + out && old(Now(queueIdx, chains)).Reached(|chains|, vdev.ram[..], out)
      ensures vdev.ram[..] == old(Now(queueIdx, chains)).Ran(|chains|)
      ensures vdev.queues[..] == old(vdev.queues[..])[queueIdx := old(Now(queueIdx, chains)).Cursor(|chains|)]
      ensures vdev.queues[queueIdx].lastAvail == AvailIdx(vdev.ram[..], vdev.queues[queueIdx])
    {
      hide Outbox.Reached, Outbox.Ok, Virtqueue.PutUsed, Virtqueue.GetAvail, Virtqueue.GetDesc, AvailIdx, Head, Pending, IsChain, BuffersOk, Gather,
        Sends, Shows;
      ghost var x := Now(queueIdx, chains);
      ghost var k, qs := 0, vdev.queues[..];
      ghost var out := [];
      OutboxStart(x);
      assert sent == old(sent) + out;
      while true
        invariant x.Ok() && 0 <= k <= |chains|
        invariant x.Reached(k, vdev.ram[..], out) && sent == old(sent) + out && vdev.ram[..] == x.Ran(k)
        invariant vdev.queues[..] == qs[queueIdx := x.Cursor(k)]
        decreases |chains| - k
      {
        OutboxOffers(x, k, vdev.ram[..], out);
        var head := vdev.GetAvail(queueIdx);
        if head.None? { break; }
        assert vdev.queues[queueIdx] == x.Cursor(k + 1);
        OutboxTurn(x, k, vdev.ram[..], out);
        var desc := vdev.GetDesc(queueIdx, head.value);
        if desc.None? { break; }
        var pkt, total := GatherChain(queueIdx, head.value, chains[k]);
        if |pkt| > 0 {
          sent := sent + [pkt];
          out := out + [pkt];
        }
        vdev.PutUsed(queueIdx, head.value, total);
        k := k + 1;
      }
    }

    /** virtio_net_poll_rx for a packet `pkt` from the backend: nothing happens without a packet or a pending
        head; otherwise the packet is scattered into the first pending chain and the head published.  The
        packet is taken from the backend first, so without a pending head it is lost. */
    method PollRx(pkt: seq<u8>, ghost ids: seq<u16>)
      requires 0 < vdev.numQueues <= vdev.queues.Length && Layout(vdev.ram.Length, vdev.queues[0]) && vdev.queues[0].desc.Some?
      requires Tied(vdev.RamWindow(), vdev.queues[0])
      requires Pending(vdev.ram[..], vdev.queues[0]) > 0 ==> RxReady(vdev.ram[..], vdev.queues[0], vdev.ramBase, ids)
      modifies vdev.ram, vdev.queues
      ensures pkt == [] || old(Pending(vdev.ram[..], vdev.queues[0])) == 0 ==>
                vdev.ram[..] == old(vdev.ram[..]) && vdev.queues[..] == old(vdev.queues[..])
      ensures pkt != [] && old(Pending(vdev.ram[..], vdev.queues[0])) > 0 ==>
                && vdev.queues[..] == old(vdev.queues[..])[0 := CursorAt(old(vdev.queues[0]), 1)]
                && vdev.ram[..] == Received(old(vdev.ram[..]), old(vdev.queues[0]), vdev.ramBase, ids, pkt)
    {
      hide Scatter, GetAvail, Virtqueue.PutUsed, GetDesc, IsChain, BuffersOk, Pending, Head;
      if pkt == [] { return; }
      ghost var q, mem := vdev.queues[0], vdev.ram[..];
      RxOffers(mem, q, vdev.ramBase, ids);
      var head := vdev.GetAvail(0);
      if head.None? { return; }
      assert vdev.queues[0] == CursorAt(q, 1);
      var desc := vdev.GetDesc(0, head.value);
      if desc.None? { return; }
      var written := ScatterChain(0, head.value, pkt, ids);
      vdev.PutUsed(0, head.value, written % TWO32);
      RxPublish(vdev.ram[..], mem, q, vdev.ramBase, ids, pkt);
    }

    /** The first pending head starts a chain of buffers clear of the table, the first with room for the header. */
    static ghost predicate RxReady(ram: seq<u8>, q: Queue, base: u64, ids: seq<u16>)
      requires Layout(|ram|, q)
    {
      && IsChain(ram, q, Head(ram, q, 0), ids) && BuffersOk(ram, q, base, ids)
      && ClearOfTable(q, Spans(ram, q, base, ids))
      && Spans(ram, q, base, ids)[0].len as int >= HDR
    }

    static ghost function Received(ram: seq<u8>, q: Queue, base: u64, ids: seq<u16>, pkt: seq<u8>): seq<u8>
      requires Layout(|ram|, q) && RxReady(ram, q, base, ids)
    {
      var (r, written) := Scatter(ram, Spans(ram, q, base, ids), pkt);
      Virtqueue.PutUsed(r, q, Head(ram, q, 0), written % TWO32)
    }

    static lemma RxOffers(ram: seq<u8>, q: Queue, base: u64, ids: seq<u16>)
      requires Layout(|ram|, q) && q.desc.Some? && (Pending(ram, q) > 0 ==> RxReady(ram, q, base, ids))
      ensures Layout(|ram|, CursorAt(q, 1))
      ensures Pending(ram, q) == 0 ==> GetAvail(ram, q) == (None, q)
      ensures Pending(ram, q) > 0 ==>
                var c, head := CursorAt(q, 1), Head(ram, q, 0);
                && GetAvail(ram, q) == (Some(head), c) && GetDesc(ram, c, head).Some?
                && IsChain(ram, c, head, ids) && BuffersOk(ram, c, base, ids)
                && Spans(ram, c, base, ids) == Spans(ram, q, base, ids)
    {
      hide GetAvail, Pending, Head, IsChain, BuffersOk, GetDesc, Virtqueue.PutUsed;
      assert CursorAt(q, 0) == q;
      AvailOffers(ram, ram, q, 0);
      if Pending(ram, q) > 0 {
        CursorIrrelevant(ram, q, CursorAt(q, 1).lastAvail, base, Head(ram, q, 0), ids, 0, 0);
      }
    }

    static lemma RxPublish(now: seq<u8>, ram: seq<u8>, q: Queue, base: u64, ids: seq<u16>, pkt: seq<u8>)
      requires Layout(|ram|, q) && RxReady(ram, q, base, ids)
      requires var (r, written) := Scatter(ram, Spans(ram, q, base, ids), pkt);
               now == Virtqueue.PutUsed(r, CursorAt(q, 1), Head(ram, q, 0), written % TWO32)
      ensures now == Received(ram, q, base, ids, pkt)
    {
      hide Scatter, IsChain, BuffersOk, Blit, UsedElem, Le16At;
    }
  }
}
