/** macho_parse and macho_load of core/boot/apple/macho.c as they run: one context object, and two loops
    that advance an offset over the load commands.
 */
module MachOLoader {
  import opened Bytes
  import opened MachO
  import MachOFormat
  import opened Options

  function Prepend(done: seq<Command>, w: Walked): Walked {
    if w.Commands? then Commands(done + w.cmds) else w
  }

  /** One more command walked. */
  lemma WalkNext(swap: bool, data: seq<u8>, off: u32, n: nat, done: seq<Command>)
    requires n > 0 && !Prepend(done, Walk(swap, data, off, n)).Undefined?
    ensures off as int + 8 > |data| ==> Walk(swap, data, off, n) == Refused
    ensures off as int + 8 <= |data| && (Field32(swap, data, off as int + 4) < 8 || After(swap, data, off) as int > |data|) ==>
              Walk(swap, data, off, n) == Refused
    ensures off as int + 8 <= |data| && Field32(swap, data, off as int + 4) >= 8 && After(swap, data, off) as int <= |data| ==>
              && off as int + Extent(swap, data, off as int) <= |data|
              && Prepend(done, Walk(swap, data, off, n))
                 == Prepend(done + [CommandAt(swap, data, off as int)], Walk(swap, data, After(swap, data, off), n - 1))
  {
    hide Field32, Field64, After, CommandAt;
    if off as int + 8 <= |data| && Field32(swap, data, off as int + 4) >= 8 && After(swap, data, off) as int <= |data| {
      var rest := Walk(swap, data, After(swap, data, off), n - 1);
      if rest.Commands? {
        assert done + ([CommandAt(swap, data, off as int)] + rest.cmds) == done + [CommandAt(swap, data, off as int)] + rest.cmds;
      }
    }
  }

  /** The first of the remaining commands is the one at the current offset. */
  lemma WalkHead(swap: bool, data: seq<u8>, off: u32, n: nat, cmds: seq<Command>)
    requires n > 0 && Walk(swap, data, off, n) == Commands(cmds)
    ensures off as int + 8 <= |data| && off as int + Extent(swap, data, off as int) <= |data|
    ensures |cmds| == n && cmds[0] == CommandAt(swap, data, off as int)
    ensures Walk(swap, data, After(swap, data, off), n - 1) == Commands(cmds[1..])
  {
    hide Field32, Field64, After, CommandAt;
  }

  lemma LoadedEntryNext(p: Place, cmds: seq<Command>, i: nat, entry: Option<u64>)
    requires i < |cmds|
    ensures LoadedEntry(p, cmds[..i + 1], entry) ==
            if entry.Some? && cmds[i].Segment? && Covers(p, cmds[i].seg, entry.value) then PhysEntry(p, entry.value)
            else LoadedEntry(p, cmds[..i], entry)
  {
    hide Covers, PhysEntry;
    assert cmds[..i + 1] == cmds[..i] + [cmds[i]];
  }

  /** One turn of the loading loop: what it reads, and what is left to do after it. */
  lemma LoadTurn(swap: bool, data: seq<u8>, off: u32, p: Place, cmds: seq<Command>, i: nat, ram: seq<u8>, entry: Option<u64>)
    requires i < |cmds| && Walk(swap, data, off, |cmds| - i) == Commands(cmds[i..]) && AllTame(p, data, cmds[i..], |ram|)
    ensures off as int + 8 <= |data| && off as int + Extent(swap, data, off as int) <= |data|
    ensures CommandAt(swap, data, off as int) == cmds[i]
    ensures Walk(swap, data, After(swap, data, off), |cmds| - i - 1) == Commands(cmds[i + 1..])
    ensures AllTame(p, data, cmds[i + 1..], |ram|)
    ensures cmds[i].Segment? ==> Tame(p, data, cmds[i].seg, |ram|) && (!Copied(p, cmds[i].seg) ==> LoadSegment(p, data, cmds[i].seg, ram) == ram)
    ensures LoadAll(p, data, cmds[i..], ram)
         == LoadAll(p, data, cmds[i + 1..], if cmds[i].Segment? then LoadSegment(p, data, cmds[i].seg, ram) else ram)
    ensures LoadedEntry(p, cmds[..i + 1], entry) ==
            if entry.Some? && cmds[i].Segment? && Covers(p, cmds[i].seg, entry.value) then PhysEntry(p, entry.value)
            else LoadedEntry(p, cmds[..i], entry)
  {
    hide Field32, Field64, After, CommandAt, Extent, Tame, Covers, PhysEntry, Skipped, Blit, Contents;
    assert cmds[i..][1..] == cmds[i + 1..] && cmds[i] in cmds[i..];
    assert forall c :: c in cmds[i + 1..] ==> c in cmds[i..];
    WalkHead(swap, data, off, |cmds| - i, cmds[i..]);
    LoadedEntryNext(p, cmds, i, entry);
  }

  lemma ContentsParts(data: seq<u8>, s: Seg)
    requires s.fileoff as int + s.filesize as int <= |data|
    ensures Contents(data, s) == data[s.fileoff as int..s.fileoff as int + s.filesize as int]
                                 + (if s.vmsize > s.filesize then Zeros(s.vmsize as int - s.filesize as int) else [])
  {
  }

  class Context {
    var data: seq<u8>
    var swap: bool
    var ncmds: u32
    var isFileset: bool
    var entryPoint: u64
    var hasEntry: bool
    var base: u64

    constructor ()
    {
      data, swap, ncmds, isFileset, entryPoint, hasEntry, base := [], false, 0, false, 0, false, 0;
    }

    function Entry(): Option<u64>
      reads this
    {
      if hasEntry then Some(entryPoint) else None
    }

    /** The context describes the image that was parsed. */
    ghost predicate Is(img: Parsed)
      reads this
    {
      && img.Image? && MachO.Parse(data) == img
      && swap == img.swap && isFileset == img.fileset && Entry() == img.entry && base == img.base
      && (!hasEntry ==> entryPoint == 0)
      && Walk(swap, data, HEADER, ncmds as nat) == Commands(img.cmds)
    }

    /** The switch on a command's kind: what the parser remembers of it. */
    method Note(c: Command, lowest: u64, ghost done: seq<Command>) returns (r: u64)
      requires lowest == Lowest(done) && Entry() == EntryOf(done) && (!hasEntry ==> entryPoint == 0)
      modifies this`entryPoint, this`hasEntry
      ensures r == Lowest(done + [c]) && Entry() == EntryOf(done + [c]) && (!hasEntry ==> entryPoint == 0)
    {
      assert (done + [c])[..|done|] == done;
      r := lowest;
      match c {
        case Segment(seg) =>
          if seg.filesize > 0 && seg.vmaddr < lowest {
            r := seg.vmaddr;
          }
        case Thread(pc) =>
          entryPoint, hasEntry := pc, true;
        case FilesetEntry(vmaddr) =>
          if vmaddr < lowest {
            r := vmaddr;
          }
        case Ignored =>
      }
    }

    /** macho_parse: accepts exactly the images whose commands can be walked, with their entry and base. */
    method Parse(bytes: seq<u8>) returns (ok: bool)
      requires !MachO.Parse(bytes).Unknown?
      modifies this
      ensures ok <==> MachO.Parse(bytes).Image?
      ensures ok ==> data == bytes && Is(MachO.Parse(bytes))
      ensures MachOFormat.Finds(bytes, ok, isFileset, Entry(), base)
    {
      hide MachOFormat.Finds, Walk, Field32, Field64, After, CommandAt, Extent, Le32At, Lowest, EntryOf, SwapOf;
      data, entryPoint, hasEntry, base := bytes, 0, false, 0;
      MachOFormat.ParseFinds(bytes);
      NothingYet();
      var detected := SwapOf(bytes);
      if detected.None? { return false; }
      swap := detected.value;
      ncmds := Field32(swap, bytes, 16);
      isFileset := Field32(swap, bytes, 12) == FILESET;
      var offset: u32, lowest := HEADER, NO_ADDRESS;
      ghost var done: seq<Command> := [];
      ghost var walked := Walk(swap, bytes, HEADER, ncmds as nat);
      for i := 0 to ncmds as nat
        invariant data == bytes && SwapOf(bytes) == Some(swap) && ncmds == Field32(swap, bytes, 16)
        invariant isFileset == (Field32(swap, bytes, 12) == FILESET)
        invariant |done| == i && walked == Prepend(done, Walk(swap, bytes, offset, ncmds as nat - i))
        invariant lowest == Lowest(done) && Entry() == EntryOf(done) && (!hasEntry ==> entryPoint == 0)
      {
        WalkNext(swap, bytes, offset, ncmds as nat - i, done);
        if offset as int + 8 > |bytes| { return false; }
        var cmdsize := Field32(swap, bytes, offset as int + 4);
        if cmdsize < 8 || After(swap, bytes, offset) as int > |bytes| { return false; }
        var c := CommandAt(swap, bytes, offset as int);
        lowest := Note(c, lowest, done);
        done := done + [c];
        offset := After(swap, bytes, offset);
      }
      WalkEnd(swap, bytes, offset, done);
      base := if lowest != NO_ADDRESS then lowest else 0;
      return true;
    }

    /** macho_load: fills guest RAM with the segments and returns the entry point's place. */
    method Load(ram: array<u8>, ramBase: u64, aslr: u64) returns (entry: u64)
      requires Is(MachO.Parse(data)) && ram.Length < TWO64
      requires !isFileset ==> AllTame(Place(base, aslr, ramBase, ram.Length), data, MachO.Parse(data).cmds, ram.Length)
      modifies ram
      ensures isFileset ==> entry == 0 && ram[..] == old(ram[..])
      ensures !isFileset ==>
                var p := Place(base, aslr, ramBase, ram.Length);
                && ram[..] == LoadAll(p, data, MachO.Parse(data).cmds, old(ram[..]))
                && entry == LoadedEntry(p, MachO.Parse(data).cmds, Entry())
    {
      hide Walk, Field32, Field64, After, CommandAt, Extent, MachO.Parse, Skipped, Tame, LoadSegment, AllTame, LoadAll, LoadedEntry, PhysEntry;
      if isFileset { return 0; }
      var p := Place(base, aslr, ramBase, ram.Length);
      var offset: u32 := HEADER;
      ghost var cmds, was := MachO.Parse(data).cmds, ram[..];
      entry := entryPoint;
      assert cmds[..0] == [] && cmds[0..] == cmds;
      NothingLoaded(p, Entry());
      for i := 0 to ncmds as nat
        invariant Walk(swap, data, offset, ncmds as nat - i) == Commands(cmds[i..])
        invariant AllTame(p, data, cmds[i..], ram.Length)
        invariant LoadAll(p, data, cmds, was) == LoadAll(p, data, cmds[i..], ram[..])
        invariant entry == LoadedEntry(p, cmds[..i], Entry())
      {
        LoadTurn(swap, data, offset, p, cmds, i, ram[..], Entry());
        var c := CommandAt(swap, data, offset as int);
        if c.Segment? {
          var seg := c.seg;
          if !Skipped(p, seg) {
            if seg.filesize > 0 {
              CopySegment(p, seg, ram);
            }
            if hasEntry && Covers(p, seg, entryPoint) {
              entry := PhysEntry(p, entryPoint);
            }
          }
        }
        offset := After(swap, data, offset);
      }
      assert cmds[..ncmds as nat] == cmds && cmds[ncmds as nat..] == [];
      NothingLeft(p, data, ram[..]);
    }

    /** The copy of a segment's file bytes and the zero fill behind them. */
    method CopySegment(p: Place, seg: Seg, ram: array<u8>)
      requires Copied(p, seg) && Tame(p, data, seg, ram.Length)
      modifies ram
      ensures ram[..] == LoadSegment(p, data, seg, old(ram[..]))
    {
      hide Skipped, BufOffset, Blit, Contents;
      var at, n := BufOffset(p, seg) as nat, seg.filesize as nat;
      var bytes := data[seg.fileoff as int..seg.fileoff as int + n];
      ghost var was := ram[..];
      ContentsParts(data, seg);
      Store(ram, at, bytes);
      if seg.vmsize > seg.filesize {
        Store(ram, at + n, Zeros(seg.vmsize as int - n));
        BlitConcat(was, at, bytes, Zeros(seg.vmsize as int - n));
      } else {
        assert bytes + [] == bytes;
      }
    }
  }

  lemma NothingLoaded(p: Place, entry: Option<u64>)
    ensures LoadedEntry(p, [], entry) == if entry.Some? then entry.value else 0
  {
  }

  lemma NothingLeft(p: Place, data: seq<u8>, ram: seq<u8>)
    ensures AllTame(p, data, [], |ram|) && LoadAll(p, data, [], ram) == ram
  {
  }

  lemma NothingYet()
    ensures Lowest([]) == NO_ADDRESS && EntryOf([]) == None
    ensures forall w :: Prepend([], w) == w
  {
    assert forall cs: seq<Command> :: [] + cs == cs;
  }

  lemma WalkEnd(swap: bool, data: seq<u8>, off: u32, done: seq<Command>)
    ensures Prepend(done, Walk(swap, data, off, 0)) == Commands(done)
  {
    assert done + [] == done;
  }
}
