/** Mach-O images as a linker writes them, field by field, in either byte order: the parser reads back what was written.
 */
module MachOFormat {
  import opened Bytes
  import opened MachO
  import opened Options

  /** A 32-bit field of an image in the loader's byte order, or in the opposite one. */
  function W32(swap: bool, v: u32): (bs: seq<u8>)
    ensures |bs| == 4
  {
    if swap then Be32(v) else Le32(v)
  }

  function W64(swap: bool, v: u64): (bs: seq<u8>)
    ensures |bs| == 8
  {
    if swap then Be32(v / 0x1_0000_0000) + Be32(v % 0x1_0000_0000) else Le64(v)
  }

  lemma Reads32(swap: bool, data: seq<u8>, off: nat, v: u32)
    requires At(data, off, W32(swap, v))
    ensures off + 4 <= |data| && Field32(swap, data, off) == v
  {
    hide At, Be32, Le32, Be32At, Le32At;
    AtEnds(data, off, W32(swap, v));
    if swap {
      Be32RoundTrip(data, off, v);
    } else {
      Le32RoundTrip(data, off, v);
    }
  }

  lemma Reads64(swap: bool, data: seq<u8>, off: nat, v: u64)
    requires At(data, off, W64(swap, v))
    ensures off + 8 <= |data| && Field64(swap, data, off) == v
  {
    hide At, Be32, Le64, Be32At, Le64At;
    AtEnds(data, off, W64(swap, v));
    if swap {
      AtConcat(data, off, Be32(v / 0x1_0000_0000), Be32(v % 0x1_0000_0000));
      Be32RoundTrip(data, off, v / 0x1_0000_0000);
      Be32RoundTrip(data, off + 4, v % 0x1_0000_0000);
    } else {
      Le64RoundTrip(data, off, v);
    }
  }

  lemma AtEnds(data: seq<u8>, off: nat, bs: seq<u8>)
    requires At(data, off, bs)
    ensures off + |bs| <= |data|
  {
  }

  // ---- Load commands ------------------------------------------------------------

  /** LC_SEGMENT_64, LC_UNIXTHREAD with the 64-bit Arm state (x0 to x28, fp, lr and sp, then pc) or with another one,
      LC_FILESET_ENTRY, and every other command; `tail` is what follows the fields that the loader looks at. */
  datatype Record =
    | SegRec(name: seq<u8>, seg: Seg, tail: seq<u8>)
    | ThreadRec(count: u32, regs: seq<u8>, pc: u64, tail: seq<u8>)
    | StateRec(flavor: u32, tail: seq<u8>)
    | EntryRec(id: u32, vmaddr: u64, tail: seq<u8>)
    | OtherRec(cmd: u32, tail: seq<u8>)

  predicate Ok(r: Record) {
    && |Body(false, r)| + 8 < 0x1_0000_0000
    && match r
       case SegRec(name, _, _) => |name| == 16
       case ThreadRec(_, regs, _, _) => |regs| == 256
       case StateRec(flavor, tail) => flavor != 6 && |tail| >= 4
       case EntryRec(_, _, _) => true
       case OtherRec(cmd, _) => cmd != 0x19 && cmd != 0x5 && cmd != 0x4B
  }

  function Kind(r: Record): u32 {
    match r
    case SegRec(_, _, _) => 0x19
    case ThreadRec(_, _, _, _) => 0x5
    case StateRec(_, _) => 0x5
    case EntryRec(_, _, _) => 0x4B
    case OtherRec(cmd, _) => cmd
  }

  /** What follows the command's kind and size. */
  function Body(swap: bool, r: Record): (bs: seq<u8>)
    ensures |bs| == |Body(false, r)|
  {
    match r
    case SegRec(name, s, tail) => name + W64(swap, s.vmaddr) + W64(swap, s.vmsize) + W64(swap, s.fileoff) + W64(swap, s.filesize) + tail
    case ThreadRec(count, regs, pc, tail) => W32(swap, 6) + W32(swap, count) + regs + W64(swap, pc) + tail
    case StateRec(flavor, tail) => W32(swap, flavor) + tail
    case EntryRec(id, vmaddr, tail) => W32(swap, id) + W32(swap, 0) + W64(swap, vmaddr) + tail
    case OtherRec(_, tail) => tail
  }

  function RecordBytes(swap: bool, r: Record): (bs: seq<u8>)
    requires Ok(r)
    ensures |bs| == 8 + |Body(swap, r)|
  {
    W32(swap, Kind(r)) + W32(swap, 8 + |Body(swap, r)|) + Body(swap, r)
  }

  /** What the loader is to make of it. */
  function Meaning(r: Record): Command {
    match r
    case SegRec(_, seg, _) => Segment(seg)
    case ThreadRec(_, _, pc, _) => Thread(pc)
    case EntryRec(_, vmaddr, _) => FilesetEntry(vmaddr)
    case _ => Ignored
  }

  /** A command reads as what was written. */
  lemma CommandReads(swap: bool, data: seq<u8>, off: nat, r: Record)
    requires Ok(r) && At(data, off, RecordBytes(swap, r))
    ensures off + |RecordBytes(swap, r)| <= |data|
    ensures Field32(swap, data, off + 4) as int == |RecordBytes(swap, r)|
    ensures off + Extent(swap, data, off) <= |data|
    ensures CommandAt(swap, data, off) == Meaning(r)
  {
    hide At, W32, W64, Field32, Field64, Body;
    var body := Body(swap, r);
    AtEnds(data, off, RecordBytes(swap, r));
    AtConcat(data, off, W32(swap, Kind(r)) + W32(swap, 8 + |body|), body);
    AtConcat(data, off, W32(swap, Kind(r)), W32(swap, 8 + |body|));
    Reads32(swap, data, off, Kind(r));
    Reads32(swap, data, off + 4, 8 + |body|);
    match r {
      case SegRec(_, _, _) => SegmentFields(swap, data, off, r);
      case ThreadRec(_, _, _, _) => ThreadFields(swap, data, off, r);
      case StateRec(_, _) => StateFields(swap, data, off, r);
      case EntryRec(_, _, _) => EntryFields(swap, data, off, r);
      case OtherRec(_, _) =>
    }
  }

  lemma SegmentFields(swap: bool, data: seq<u8>, off: nat, r: Record)
    requires r.SegRec? && |r.name| == 16 && At(data, off + 8, Body(swap, r))
    ensures off + 56 <= |data|
    ensures Field64(swap, data, off + 24) == r.seg.vmaddr && Field64(swap, data, off + 32) == r.seg.vmsize
    ensures Field64(swap, data, off + 40) == r.seg.fileoff && Field64(swap, data, off + 48) == r.seg.filesize
  {
    hide At, W64, Field64;
    var a, b, c, d := W64(swap, r.seg.vmaddr), W64(swap, r.seg.vmsize), W64(swap, r.seg.fileoff), W64(swap, r.seg.filesize);
    AtConcat(data, off + 8, r.name + a + b + c + d, r.tail);
    AtConcat(data, off + 8, r.name + a + b + c, d);
    AtConcat(data, off + 8, r.name + a + b, c);
    AtConcat(data, off + 8, r.name + a, b);
    AtConcat(data, off + 8, r.name, a);
    Reads64(swap, data, off + 24, r.seg.vmaddr);
    Reads64(swap, data, off + 32, r.seg.vmsize);
    Reads64(swap, data, off + 40, r.seg.fileoff);
    Reads64(swap, data, off + 48, r.seg.filesize);
  }

  lemma ThreadFields(swap: bool, data: seq<u8>, off: nat, r: Record)
    requires r.ThreadRec? && |r.regs| == 256 && At(data, off + 8, Body(swap, r))
    ensures off + 280 <= |data| && Field32(swap, data, off + 8) == 6 && Field64(swap, data, off + 272) == r.pc
  {
    hide At, W32, W64, Field32, Field64;
    var a, b, c := W32(swap, 6), W32(swap, r.count), W64(swap, r.pc);
    AtConcat(data, off + 8, a + b + r.regs + c, r.tail);
    AtConcat(data, off + 8, a + b + r.regs, c);
    AtConcat(data, off + 8, a + b, r.regs);
    AtConcat(data, off + 8, a, b);
    Reads32(swap, data, off + 8, 6);
    Reads64(swap, data, off + 272, r.pc);
  }

  lemma StateFields(swap: bool, data: seq<u8>, off: nat, r: Record)
    requires r.StateRec? && Ok(r) && At(data, off + 8, Body(swap, r))
    ensures off + 16 <= |data| && Field32(swap, data, off + 8) == r.flavor
  {
    hide At, W32, Field32;
    AtEnds(data, off + 8, Body(swap, r));
    AtConcat(data, off + 8, W32(swap, r.flavor), r.tail);
    Reads32(swap, data, off + 8, r.flavor);
  }

  lemma EntryFields(swap: bool, data: seq<u8>, off: nat, r: Record)
    requires r.EntryRec? && At(data, off + 8, Body(swap, r))
    ensures off + 24 <= |data| && Field64(swap, data, off + 16) == r.vmaddr
  {
    hide At, W32, W64, Field64;
    var a, b, c := W32(swap, r.id), W32(swap, 0), W64(swap, r.vmaddr);
    AtConcat(data, off + 8, a + b + c, r.tail);
    AtConcat(data, off + 8, a + b, c);
    Reads64(swap, data, off + 16, r.vmaddr);
  }

  // ---- Whole images ---------------------------------------------------------------

  function Records(swap: bool, rs: seq<Record>): seq<u8>
    requires forall r :: r in rs ==> Ok(r)
  {
    if rs == [] then [] else RecordBytes(swap, rs[0]) + Records(swap, rs[1..])
  }

  function Meanings(rs: seq<Record>): (cmds: seq<Command>)
    ensures |cmds| == |rs| && forall i :: 0 <= i < |rs| ==> cmds[i] == Meaning(rs[i])
  {
    seq(|rs|, i requires 0 <= i < |rs| => Meaning(rs[i]))
  }

  datatype Header = Header(cpu: u32, sub: u32, filetype: u32, size: u32, flags: u32, reserved: seq<u8>)

  /** mach_header_64: magic, CPU type and subtype, file type, number and size of commands, flags, reserved. */
  function HeaderBytes(swap: bool, h: Header, n: u32): (bs: seq<u8>)
    requires |h.reserved| == 4
    ensures |bs| == 32
  {
    W32(swap, 0xFEEDFACF) + W32(swap, h.cpu) + W32(swap, h.sub) + W32(swap, h.filetype) + W32(swap, n) + W32(swap, h.size)
    + W32(swap, h.flags) + h.reserved
  }

  /** An image: header, load commands, and whatever contents the commands refer to. */
  ghost predicate Written(data: seq<u8>, swap: bool, h: Header, rs: seq<Record>) {
    && |h.reserved| == 4 && (forall r :: r in rs ==> Ok(r)) && |rs| < 0x1_0000_0000
    && 32 + |Records(swap, rs)| < 0x1_0000_0000
    && At(data, 0, HeaderBytes(swap, h, |rs|) + Records(swap, rs))
  }

  lemma {:induction false} WalkReads(swap: bool, data: seq<u8>, off: u32, rs: seq<Record>)
    requires (forall r :: r in rs ==> Ok(r)) && off as int + |Records(swap, rs)| < 0x1_0000_0000
    requires At(data, off as nat, Records(swap, rs))
    ensures Walk(swap, data, off, |rs|) == Commands(Meanings(rs))
    decreases |rs|
  {
    hide At, RecordBytes, Field32, CommandAt, Extent, Ok, Walk, Meaning;
    if rs == [] {
      assert Meanings(rs) == [];
      WalkNone(swap, data, off);
    } else {
      var r, more := rs[0], rs[1..];
      var size := |RecordBytes(swap, r)|;
      AtConcat(data, off as nat, RecordBytes(swap, r), Records(swap, more));
      CommandReads(swap, data, off as nat, r);
      assert size >= 8 by { RecordSize(swap, r); }
      assert After(swap, data, off) as int == off as int + size;
      WalkReads(swap, data, off as int + size, more);
      assert Meanings(rs) == [Meaning(r)] + Meanings(more);
      WalkOne(swap, data, off, |rs|, Meanings(more));
    }
  }

  lemma WalkNone(swap: bool, data: seq<u8>, off: u32)
    ensures Walk(swap, data, off, 0) == Commands([])
  {
  }

  lemma WalkOne(swap: bool, data: seq<u8>, off: u32, n: nat, rest: seq<Command>)
    requires n > 0 && off as int + 8 <= |data| && Field32(swap, data, off as int + 4) >= 8 && After(swap, data, off) as int <= |data|
    requires off as int + Extent(swap, data, off as int) <= |data|
    requires Walk(swap, data, After(swap, data, off), n - 1) == Commands(rest)
    ensures Walk(swap, data, off, n) == Commands([CommandAt(swap, data, off as int)] + rest)
  {
    hide Field32, CommandAt, Extent, After;
  }

  lemma RecordSize(swap: bool, r: Record)
    requires Ok(r)
    ensures |RecordBytes(swap, r)| >= 8
  {
  }

  lemma HeaderReads(swap: bool, data: seq<u8>, h: Header, n: u32)
    requires |h.reserved| == 4 && At(data, 0, HeaderBytes(swap, h, n))
    ensures SwapOf(data) == Some(swap)
    ensures Field32(swap, data, 12) == h.filetype && Field32(swap, data, 16) == n
  {
    hide At, W32, Field32, Le32At;
    AtEnds(data, 0, HeaderBytes(swap, h, n));
    var a, b, c, d, e := W32(swap, 0xFEEDFACF), W32(swap, h.cpu), W32(swap, h.sub), W32(swap, h.filetype), W32(swap, n);
    AtConcat(data, 0, a + b + c + d + e + W32(swap, h.size) + W32(swap, h.flags), h.reserved);
    AtConcat(data, 0, a + b + c + d + e + W32(swap, h.size), W32(swap, h.flags));
    AtConcat(data, 0, a + b + c + d + e, W32(swap, h.size));
    AtConcat(data, 0, a + b + c + d, e);
    AtConcat(data, 0, a + b + c, d);
    AtConcat(data, 0, a + b, c);
    AtConcat(data, 0, a, b);
    Reads32(swap, data, 12, h.filetype);
    Reads32(swap, data, 16, n);
    MagicReads(swap, data);
  }

  lemma MagicReads(swap: bool, data: seq<u8>)
    requires At(data, 0, W32(swap, 0xFEEDFACF))
    ensures |data| >= 4 && Le32At(data, 0) == if swap then 0xCFFAEDFE else 0xFEEDFACF
  {
    var s := data[0..4];
    assert s == W32(swap, 0xFEEDFACF);
    assert data[0] == s[0] && data[1] == s[1] && data[2] == s[2] && data[3] == s[3];
  }

  /** Every image reads as it was written, in both byte orders: its commands in order, the last thread's program counter,
      the least anchor, and whether it is a fileset. */
  lemma ParseWritten(data: seq<u8>, swap: bool, h: Header, rs: seq<Record>)
    requires Written(data, swap, h, rs)
    ensures MachO.Parse(data) == Image(swap, h.filetype == 0xC, EntryOf(Meanings(rs)), Base(Meanings(rs)), Meanings(rs))
  {
    hide At, HeaderBytes, Records, Field32, Walk, Ok, SwapOf, EntryOf, Base;
    AtConcat(data, 0, HeaderBytes(swap, h, |rs|), Records(swap, rs));
    HeaderReads(swap, data, h, |rs|);
    WalkReads(swap, data, 32, rs);
  }

  /** What a loader reports of an image is what was written, whatever that was. */
  ghost predicate Finds(data: seq<u8>, ok: bool, fileset: bool, entry: Option<u64>, base: u64) {
    forall swap, h, rs :: Written(data, swap, h, rs) ==>
      ok && fileset == (h.filetype == 0xC) && entry == EntryOf(Meanings(rs)) && base == Base(Meanings(rs))
  }

  lemma ParseFinds(data: seq<u8>)
    ensures var img := MachO.Parse(data);
            if img.Image? then Finds(data, true, img.fileset, img.entry, img.base)
            else forall ok, fileset, entry, base :: Finds(data, ok, fileset, entry, base)
  {
    hide Written, MachO.Parse;
    forall swap, h, rs | Written(data, swap, h, rs)
      ensures MachO.Parse(data) == Image(swap, h.filetype == 0xC, EntryOf(Meanings(rs)), Base(Meanings(rs)), Meanings(rs))
    {
      ParseWritten(data, swap, h, rs);
    }
  }
}
