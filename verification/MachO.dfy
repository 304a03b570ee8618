/** The Mach-O loader of core/boot/apple/macho.c: load commands parsed from bytes, and segments placed
    in guest RAM relative to the image's lowest address.
 */
module MachO {
  import opened Bytes
  import opened Options

  const MAGIC: u32 := 0xFEEDFACF
  const CIGAM: u32 := 0xCFFAEDFE
  const FILESET: u32 := 0xC
  const HEADER: nat := 32

  const LC_SEGMENT_64: u32 := 0x19
  const LC_UNIXTHREAD: u32 := 0x5
  const LC_FILESET_ENTRY: u32 := 0x4B
  const ARM_THREAD_STATE64: u32 := 6

  const NO_ADDRESS: u64 := 0xFFFF_FFFF_FFFF_FFFF

  /** A load command as far as the loader looks at it. */
  datatype Command =
    | Segment(seg: Seg)
    | Thread(pc: u64)
    | FilesetEntry(vmaddr: u64)
    | Ignored

  datatype Seg = Seg(vmaddr: u64, vmsize: u64, fileoff: u64, filesize: u64)

  /** Walking the commands: a check fails, the loader reads past the end of the file (what C then does is
      undefined), or the commands are these. */
  datatype Walked = Refused | Undefined | Commands(cmds: seq<Command>)

  /** A 32-bit field, byte-swapped if the file is. */
  function Field32(swap: bool, data: seq<u8>, off: nat): u32
    requires off + 4 <= |data|
  {
    if swap then Be32At(data, off) else Le32At(data, off)
  }

  function Field64(swap: bool, data: seq<u8>, off: nat): u64
    requires off + 8 <= |data|
  {
    if swap then Be64At(data, off) else Le64At(data, off)
  }

  /** How much of the file the loader reads at a command of this kind. */
  function Extent(swap: bool, data: seq<u8>, off: nat): (n: nat)
    requires off + 8 <= |data|
    ensures n >= 8
  {
    var cmd := Field32(swap, data, off);
    if cmd == LC_SEGMENT_64 then 56
    else if cmd == LC_UNIXTHREAD then
      if off + 16 <= |data| && Field32(swap, data, off + 8) == ARM_THREAD_STATE64 then 280 else 16
    else if cmd == LC_FILESET_ENTRY then 24
    else 8
  }

  function CommandAt(swap: bool, data: seq<u8>, off: nat): Command
    requires off + 8 <= |data| && off + Extent(swap, data, off) <= |data|
  {
    var cmd := Field32(swap, data, off);
    if cmd == LC_SEGMENT_64 then
      Segment(Seg(Field64(swap, data, off + 24), Field64(swap, data, off + 32),
                  Field64(swap, data, off + 40), Field64(swap, data, off + 48)))
    else if cmd == LC_UNIXTHREAD && Field32(swap, data, off + 8) == ARM_THREAD_STATE64 then
      Thread(Field64(swap, data, off + 272))
    else if cmd == LC_FILESET_ENTRY then FilesetEntry(Field64(swap, data, off + 16))
    else Ignored
  }

  /** The 32-bit offset after a command; the sum may wrap around. */
  function After(swap: bool, data: seq<u8>, off: u32): u32
    requires off as int + 8 <= |data|
  {
    (off as int + Field32(swap, data, off as int + 4) as int) % TWO32
  }

  function Walk(swap: bool, data: seq<u8>, off: u32, n: nat): (w: Walked)
    ensures w.Commands? ==> |w.cmds| == n
    decreases n
  {
    if n == 0 then Commands([])
    else if off as int + 8 > |data| then Refused
    else if Field32(swap, data, off as int + 4) < 8 || After(swap, data, off) as int > |data| then Refused
    else if off as int + Extent(swap, data, off as int) > |data| then Undefined
    else
      var rest := Walk(swap, data, After(swap, data, off), n - 1);
      if rest.Commands? then Commands([CommandAt(swap, data, off as int)] + rest.cmds) else rest
  }

  /** A command that does not fit the file, or claims fewer than its own eight bytes, refuses the image. */
  lemma WalkRefuses(swap: bool, data: seq<u8>, off: u32, n: nat)
    requires n > 0
    requires off as int + 8 <= |data| ==>
               var size := Field32(swap, data, off as int + 4) as int;
               size < 8 || (off as int + size < 0x1_0000_0000 && off as int + size > |data|)
    ensures Walk(swap, data, off, n) == Refused
  {
    hide Field32, CommandAt;
  }

  // ---- What macho_parse finds -------------------------------------------------------

  datatype Parsed = Bad | Unknown | Image(swap: bool, fileset: bool, entry: Option<u64>, base: u64, cmds: seq<Command>)

  /** An address that counts towards the base: of a segment with file contents, or of a fileset entry. */
  function Anchor(c: Command): Option<u64> {
    match c
    case Segment(seg) => if seg.filesize > 0 then Some(seg.vmaddr) else None
    case FilesetEntry(a) => Some(a)
    case _ => None
  }

  function Lowest(cmds: seq<Command>): u64 {
    if cmds == [] then NO_ADDRESS
    else
      var a, low := Anchor(cmds[|cmds| - 1]), Lowest(cmds[..|cmds| - 1]);
      if a.Some? && a.value < low then a.value else low
  }

  function Base(cmds: seq<Command>): u64 {
    if Lowest(cmds) != NO_ADDRESS then Lowest(cmds) else 0
  }

  /** The program counter of the last thread command. */
  function EntryOf(cmds: seq<Command>): Option<u64> {
    if cmds == [] then None
    else if cmds[|cmds| - 1].Thread? then Some(cmds[|cmds| - 1].pc)
    else EntryOf(cmds[..|cmds| - 1])
  }

  /** Whether the magic number is recognised, and then whether the file is byte-swapped. */
  function SwapOf(data: seq<u8>): (r: Option<bool>)
    ensures r.Some? ==> HEADER <= |data|
  {
    if |data| < HEADER then None
    else if Le32At(data, 0) == MAGIC then Some(false)
    else if Le32At(data, 0) == CIGAM then Some(true)
    else None
  }

  function Parse(data: seq<u8>): Parsed {
    var swap := SwapOf(data);
    if swap.None? then Bad
    else
      match Walk(swap.value, data, HEADER, Field32(swap.value, data, 16) as nat)
      case Refused => Bad
      case Undefined => Unknown
      case Commands(cmds) =>
        Image(swap.value, Field32(swap.value, data, 12) == FILESET, EntryOf(cmds), Base(cmds), cmds)
  }

  /** The base is the least anchor: one of them (or zero when there is none below the top address), and none lies below it. */
  lemma {:induction false} BaseIsLeast(cmds: seq<Command>)
    ensures forall c :: c in cmds && Anchor(c).Some? ==> Lowest(cmds) <= Anchor(c).value
    ensures Lowest(cmds) != NO_ADDRESS ==> exists c :: c in cmds && Anchor(c) == Some(Lowest(cmds))
  {
    if cmds != [] {
      var last, rest := cmds[|cmds| - 1], cmds[..|cmds| - 1];
      BaseIsLeast(rest);
      assert last in cmds && forall c :: c in cmds ==> c == last || c in rest;
      if Lowest(cmds) == Lowest(rest) && Lowest(rest) != NO_ADDRESS {
        var c :| c in rest && Anchor(c) == Some(Lowest(rest));
        assert c in cmds;
      }
    }
  }

  /** The command gives an address that the image occupies: that of a segment with file contents, or of a fileset entry. */
  predicate Occupies(c: Command, a: u64) {
    (c.Segment? && c.seg.filesize > 0 && c.seg.vmaddr == a) || (c.FilesetEntry? && c.vmaddr == a)
  }

  /** The base of an image is the least address that it occupies, and zero when it occupies none but the top one. */
  lemma BaseExactly(cmds: seq<Command>)
    ensures forall c, a: u64 :: c in cmds && Occupies(c, a) && a != 0xFFFF_FFFF_FFFF_FFFF ==> Base(cmds) <= a
    ensures Base(cmds) != 0 ==> exists c :: c in cmds && Occupies(c, Base(cmds))
    ensures Base(cmds) == 0 ==>
              (exists c :: c in cmds && Occupies(c, 0)) || forall c, a: u64 :: c in cmds && Occupies(c, a) ==> a == 0xFFFF_FFFF_FFFF_FFFF
  {
    hide Lowest;
    BaseIsLeast(cmds);
    assert forall c, a: u64 :: Occupies(c, a) <==> Anchor(c) == Some(a);
  }

  /** The entry point is the program counter of a thread command that no other one follows. */
  lemma {:induction false} EntryIsLast(cmds: seq<Command>)
    ensures EntryOf(cmds).None? <==> forall i :: 0 <= i < |cmds| ==> !cmds[i].Thread?
    ensures EntryOf(cmds).Some? ==>
              exists k :: 0 <= k < |cmds| && cmds[k] == Thread(EntryOf(cmds).value) && forall i :: k < i < |cmds| ==> !cmds[i].Thread?
  {
    if cmds != [] {
      var last, rest := cmds[|cmds| - 1], cmds[..|cmds| - 1];
      if last.Thread? {
        assert cmds[|cmds| - 1] == Thread(EntryOf(cmds).value);
      } else {
        EntryIsLast(rest);
        if EntryOf(rest).Some? {
          var k :| 0 <= k < |rest| && rest[k] == Thread(EntryOf(rest).value) && forall i :: k < i < |rest| ==> !rest[i].Thread?;
          assert cmds[k] == Thread(EntryOf(cmds).value);
        }
      }
    }
  }

  // ---- What macho_load places --------------------------------------------------------

  /** Where the loader puts an image and what it returns. */
  datatype Place = Place(base: u64, aslr: u64, ramBase: u64, ramSize: u64)

  function BufOffset(p: Place, s: Seg): u64 {
    (s.vmaddr as int - p.base as int + p.aslr as int) % TWO64
  }

  predicate Skipped(p: Place, s: Seg) {
    || (s.filesize == 0 && s.vmsize == 0)
    || s.vmaddr < p.base
    || (BufOffset(p, s) as int + s.vmsize as int) % TWO64 > p.ramSize as int
  }

  predicate Copied(p: Place, s: Seg) { !Skipped(p, s) && s.filesize > 0 }

  /** Which segments are copied, when the address arithmetic does not wrap: those with file contents, not below the base,
      that end inside RAM once they are moved by the slide. */
  lemma CopiedExactly(p: Place, s: Seg)
    requires s.vmaddr >= p.base ==> s.vmaddr as int - p.base as int + p.aslr as int + s.vmsize as int < TWO64
    ensures Copied(p, s) <==>
              && s.filesize > 0 && s.vmaddr >= p.base
              && s.vmaddr as int - p.base as int + p.aslr as int + s.vmsize as int <= p.ramSize as int
  {
  }

  /** Which segments cover an entry point, when no sum wraps: those not below the base that end inside RAM once slid, and
      have the entry between their first and last address. */
  lemma CoversExactly(p: Place, s: Seg, entry: u64)
    requires s.vmaddr as int + s.vmsize as int < TWO64
    requires s.vmaddr >= p.base ==> s.vmaddr as int - p.base as int + p.aslr as int + s.vmsize as int < TWO64
    ensures Covers(p, s, entry) <==>
              && s.vmaddr >= p.base && s.vmaddr <= entry && (entry as int) < s.vmaddr as int + s.vmsize as int
              && s.vmaddr as int - p.base as int + p.aslr as int + s.vmsize as int <= p.ramSize as int
  {
  }

  /** The copy stays inside the file and inside RAM. */
  predicate Tame(p: Place, data: seq<u8>, s: Seg, ramLen: nat) {
    Copied(p, s) ==>
      && s.fileoff as int + s.filesize as int <= |data|
      && BufOffset(p, s) as int + s.filesize as int <= ramLen
      && BufOffset(p, s) as int + s.vmsize as int <= ramLen
  }

  /** A segment in memory: its file bytes, then zeros. */
  function Contents(data: seq<u8>, s: Seg): (bs: seq<u8>)
    requires s.fileoff as int + s.filesize as int <= |data|
    ensures |bs| == if s.vmsize > s.filesize then s.vmsize as int else s.filesize as int
    ensures forall i :: 0 <= i < |bs| ==> bs[i] == if i < s.filesize as int then data[s.fileoff as int + i] else 0
  {
    data[s.fileoff as int..s.fileoff as int + s.filesize as int]
    + Zeros(if s.vmsize > s.filesize then s.vmsize as int - s.filesize as int else 0)
  }

  function LoadSegment(p: Place, data: seq<u8>, s: Seg, ram: seq<u8>): (r: seq<u8>)
    requires Tame(p, data, s, |ram|)
    ensures |r| == |ram|
  {
    if Copied(p, s) then Blit(ram, BufOffset(p, s) as nat, Contents(data, s)) else ram
  }

  predicate AllTame(p: Place, data: seq<u8>, cmds: seq<Command>, ramLen: nat) {
    forall c :: c in cmds && c.Segment? ==> Tame(p, data, c.seg, ramLen)
  }

  function LoadAll(p: Place, data: seq<u8>, cmds: seq<Command>, ram: seq<u8>): (r: seq<u8>)
    requires AllTame(p, data, cmds, |ram|)
    ensures |r| == |ram|
    decreases |cmds|
  {
    if cmds == [] then ram
    else LoadAll(p, data, cmds[1..], if cmds[0].Segment? then LoadSegment(p, data, cmds[0].seg, ram) else ram)
  }

  /** The entry point lies in a segment that was not skipped. */
  predicate Covers(p: Place, s: Seg, entry: u64) {
    !Skipped(p, s) && s.vmaddr <= entry && (entry as int) < (s.vmaddr as int + s.vmsize as int) % TWO64
  }

  predicate EntryLoaded(p: Place, cmds: seq<Command>, entry: u64) {
    exists c :: c in cmds && c.Segment? && Covers(p, c.seg, entry)
  }

  function PhysEntry(p: Place, entry: u64): u64 {
    (p.ramBase as int + entry as int - p.base as int + p.aslr as int) % TWO64
  }

  /** macho_load's result: the entry point's place in guest memory, or the bare entry point. */
  function LoadedEntry(p: Place, cmds: seq<Command>, entry: Option<u64>): u64 {
    if entry.None? then 0
    else if EntryLoaded(p, cmds, entry.value) then PhysEntry(p, entry.value)
    else entry.value
  }

  // ---- Placing every segment ------------------------------------------------------------

  /** Bytes that no copied segment covers stay as they are. */
  lemma {:induction false} LoadKeeps(p: Place, data: seq<u8>, cmds: seq<Command>, ram: seq<u8>, lo: nat, n: nat)
    requires AllTame(p, data, cmds, |ram|) && lo + n <= |ram|
    requires forall c :: c in cmds && c.Segment? && Copied(p, c.seg) ==>
               Tame(p, data, c.seg, |ram|) && Apart(BufOffset(p, c.seg) as nat, |Contents(data, c.seg)|, lo, n)
    ensures SameIn(LoadAll(p, data, cmds, ram), ram, lo, n)
    decreases |cmds|
  {
    hide Skipped, Contents, BufOffset, Apart, Blit, SameIn;
    if cmds == [] {
      SameInSelf(ram, lo, n);
    } else {
      var c := cmds[0];
      assert c in cmds && forall x :: x in cmds[1..] ==> x in cmds;
      var next := if c.Segment? then LoadSegment(p, data, c.seg, ram) else ram;
      if c.Segment? && Copied(p, c.seg) {
        BlitSame(ram, BufOffset(p, c.seg) as nat, Contents(data, c.seg), lo, n);
      } else {
        SameInSelf(ram, lo, n);
      }
      LoadKeeps(p, data, cmds[1..], next, lo, n);
      SameInTrans(LoadAll(p, data, cmds[1..], next), next, ram, lo, n);
    }
  }

  /** Copied segments at different places in the list occupy different memory. */
  predicate Disjoint(p: Place, data: seq<u8>, cmds: seq<Command>, ramLen: nat)
    requires AllTame(p, data, cmds, ramLen)
  {
    forall i, j :: 0 <= i < j < |cmds| && cmds[i].Segment? && cmds[j].Segment? && Copied(p, cmds[i].seg) && Copied(p, cmds[j].seg) ==>
      Clear(p, data, cmds[i].seg, cmds[j].seg, ramLen)
  }

  predicate Clear(p: Place, data: seq<u8>, s: Seg, t: Seg, ramLen: nat)
    requires Tame(p, data, s, ramLen) && Tame(p, data, t, ramLen) && Copied(p, s) && Copied(p, t)
  {
    Apart(BufOffset(p, t) as nat, |Contents(data, t)|, BufOffset(p, s) as nat, |Contents(data, s)|)
  }

  /** After the loader, every copied segment stands at its place, whole. */
  lemma {:induction false} LoadPlaces(p: Place, data: seq<u8>, cmds: seq<Command>, ram: seq<u8>, k: nat)
    requires AllTame(p, data, cmds, |ram|) && Disjoint(p, data, cmds, |ram|)
    requires k < |cmds| && cmds[k].Segment? && Copied(p, cmds[k].seg)
    ensures Tame(p, data, cmds[k].seg, |ram|)
    ensures At(LoadAll(p, data, cmds, ram), BufOffset(p, cmds[k].seg) as nat, Contents(data, cmds[k].seg))
    decreases |cmds|
  {
    hide Skipped, Contents, BufOffset, Blit, At;
    var c := cmds[0];
    var more := cmds[1..];
    assert c in cmds && forall x :: x in more ==> x in cmds;
    assert cmds[k] in cmds;
    var next := if c.Segment? then LoadSegment(p, data, c.seg, ram) else ram;
    if k == 0 {
      var off, bs := BufOffset(p, c.seg) as nat, Contents(data, c.seg);
      forall x | x in more && x.Segment? && Copied(p, x.seg)
        ensures Tame(p, data, x.seg, |ram|) && Apart(BufOffset(p, x.seg) as nat, |Contents(data, x.seg)|, off, |bs|)
      {
        var j :| 0 <= j < |more| && more[j] == x;
        assert cmds[j + 1] == x && Clear(p, data, cmds[0].seg, cmds[j + 1].seg, |ram|);
      }
      LoadKeeps(p, data, more, next, off, |bs|);
      SameAt(LoadAll(p, data, more, next), next, off, bs);
    } else {
      assert more[k - 1] == cmds[k];
      assert forall i :: 0 <= i < |more| ==> more[i] == cmds[i + 1];
      LoadPlaces(p, data, more, next, k - 1);
    }
  }
}
