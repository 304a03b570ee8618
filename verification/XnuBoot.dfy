/** xnu_boot_setup of core/boot/apple/xnu_boot.c and the map that core/vm/machine_apple.c derives from it:
    the loader's placement and the MMU's translation compose to the identity on the kernel image.
 */
module XnuBoot {
  import opened Bytes
  import opened MachO
  import opened MachOFormat
  import opened MachOLoader
  import opened Options
  import opened SoftMmu

  const NO_SLIDE: u64 := 0xFFFF_FFFF_FFFF_FFFF
  const DEFAULT_SLIDE: u64 := 0x1000
  const DTB_FROM_TOP: nat := 0x10_0000
  const BOOTARGS_FROM_TOP: nat := 0x2000
  const DTB_MAX: nat := 0x1_0000

  /** Zero asks for the default slide, all ones for none. */
  function Slide(configured: u64): u64 {
    if configured == 0 then DEFAULT_SLIDE else if configured == NO_SLIDE then 0 else configured
  }

  datatype BootInfo = BootInfo(slide: u64, entry: u64, virtEntry: u64, virtBase: u64, dtbAddr: u64, bootArgsAddr: u64)

  /** What is placed beside the kernel: the serialised device tree (empty if there is none) and the BootArgs block. */
  datatype Extras = Extras(dtb: seq<u8>, bootArgs: seq<u8>)
  {
    predicate Fits(ramLen: nat) {
      |dtb| <= DTB_MAX && |bootArgs| <= BOOTARGS_FROM_TOP && DTB_FROM_TOP <= ramLen < TWO64
    }
  }

  function PlaceExtras(x: Extras, ram: seq<u8>): (r: seq<u8>)
    requires x.Fits(|ram|)
    ensures |r| == |ram|
  {
    Blit(Blit(ram, |ram| - DTB_FROM_TOP, x.dtb), |ram| - BOOTARGS_FROM_TOP, x.bootArgs)
  }

  function PlaceOf(img: Parsed, slide: u64, ramBase: u64, ramLen: nat): Place
    requires img.Image? && ramLen < TWO64
  {
    Place(img.base, slide, ramBase, ramLen)
  }

  /** The whole of xnu_boot_setup on guest RAM; None is its error return. */
  function Booted(kernel: seq<u8>, configured: u64, x: Extras, ramBase: u64, ram: seq<u8>): (r: Option<(seq<u8>, BootInfo)>)
    requires x.Fits(|ram|)
    requires Loadable(kernel, configured, ramBase, |ram|)
    ensures r.Some? ==> |r.value.0| == |ram|
  {
    var img, slide := Parse(kernel), Slide(configured);
    if !img.Image? || img.fileset then None
    else
      var p := PlaceOf(img, slide, ramBase, |ram|);
      var entry := LoadedEntry(p, img.cmds, img.entry);
      if entry == 0 then None
      else
        Some((PlaceExtras(x, LoadAll(p, kernel, img.cmds, ram)),
              BootInfo(slide, entry, if img.entry.Some? then img.entry.value else img.base, img.base,
                       if x.dtb == [] then 0 else (ramBase as int + |ram| - DTB_FROM_TOP) % TWO64,
                       (ramBase as int + |ram| - BOOTARGS_FROM_TOP) % TWO64)))
  }

  /** The loader does not leave the kernel file or guest RAM. */
  predicate Loadable(kernel: seq<u8>, configured: u64, ramBase: u64, ramLen: nat) {
    var img := Parse(kernel);
    && img != Unknown && ramLen < TWO64
    && (img.Image? && !img.fileset ==> AllTame(PlaceOf(img, Slide(configured), ramBase, ramLen), kernel, img.cmds, ramLen))
  }

  /** sv_machine_apple_run's map for the MMU */
  function KernelMap(info: BootInfo, ramBase: u64, ramLen: nat): Map
    requires ramLen < TWO64
  {
    Map(info.virtBase, (ramBase as int + info.slide as int) % TWO64, ramBase, ramLen)
  }

  // ---- Well-formed kernels ---------------------------------------------------------------

  predicate FileBacked(c: Command) { c.Segment? && c.seg.filesize > 0 }

  /** A segment that fits the file, the address space and RAM below the device tree. */
  predicate SegmentOk(img: Parsed, kernel: seq<u8>, slide: u64, ramLen: nat, s: Seg)
    requires img.Image?
  {
    && s.filesize <= s.vmsize && s.fileoff as int + s.filesize as int <= |kernel|
    && s.vmaddr as int + s.vmsize as int <= TWO64
    && s.vmaddr as int - img.base as int + s.vmsize as int + slide as int + DTB_FROM_TOP <= ramLen
  }

  /** A non-fileset image in the upper half with disjoint file-backed segments that end below the last MiB of RAM. */
  ghost predicate WellFormed(kernel: seq<u8>, slide: u64, ramBase: u64, ramLen: nat) {
    var img := Parse(kernel);
    && img.Image? && !img.fileset && KernelHalf(img.base)
    && ramBase as int + ramLen < TWO64
    && (forall c :: c in img.cmds && FileBacked(c) ==> SegmentOk(img, kernel, slide, ramLen, c.seg))
    && (forall i, j :: 0 <= i < j < |img.cmds| && FileBacked(img.cmds[i]) && FileBacked(img.cmds[j]) ==>
          Apart(img.cmds[i].seg.vmaddr as nat, img.cmds[i].seg.vmsize as nat, img.cmds[j].seg.vmaddr as nat, img.cmds[j].seg.vmsize as nat))
  }

  /** Where a file-backed segment goes. */
  lemma SegmentPlaced(kernel: seq<u8>, slide: u64, ramBase: u64, ramLen: nat, c: Command)
    requires WellFormed(kernel, slide, ramBase, ramLen) && c in Parse(kernel).cmds && FileBacked(c)
    ensures var img := Parse(kernel);
            var p := PlaceOf(img, slide, ramBase, ramLen);
            && img.base <= c.seg.vmaddr
            && BufOffset(p, c.seg) as int == c.seg.vmaddr as int - img.base as int + slide as int
            && Copied(p, c.seg) && Tame(p, kernel, c.seg, ramLen)
            && |Contents(kernel, c.seg)| == c.seg.vmsize as int
  {
    hide Walk, Contents, Le32At, SwapOf, EntryOf, Lowest;
    var img := Parse(kernel);
    BaseIsLeast(img.cmds);
    assert Anchor(c) == Some(c.seg.vmaddr);
  }

  lemma WellFormedLoads(kernel: seq<u8>, slide: u64, ramBase: u64, ramLen: nat)
    requires WellFormed(kernel, slide, ramBase, ramLen)
    ensures var img := Parse(kernel);
            var p := PlaceOf(img, slide, ramBase, ramLen);
            AllTame(p, kernel, img.cmds, ramLen) && Disjoint(p, kernel, img.cmds, ramLen)
  {
    hide Parse, Skipped, BufOffset, Contents, SegmentOk;
    var img := Parse(kernel);
    var p := PlaceOf(img, slide, ramBase, ramLen);
    forall c | c in img.cmds && c.Segment? ensures Tame(p, kernel, c.seg, ramLen) {
      if c.seg.filesize > 0 {
        SegmentPlaced(kernel, slide, ramBase, ramLen, c);
      }
    }
    forall i, j | 0 <= i < j < |img.cmds| && img.cmds[i].Segment? && img.cmds[j].Segment?
                  && Copied(p, img.cmds[i].seg) && Copied(p, img.cmds[j].seg)
      ensures MachO.Clear(p, kernel, img.cmds[i].seg, img.cmds[j].seg, ramLen)
    {
      SegmentPlaced(kernel, slide, ramBase, ramLen, img.cmds[i]);
      SegmentPlaced(kernel, slide, ramBase, ramLen, img.cmds[j]);
    }
  }

  /** The device tree and the BootArgs leave everything below the last MiB alone. */
  lemma ExtrasKeep(x: Extras, ram: seq<u8>, off: nat, bs: seq<u8>)
    requires x.Fits(|ram|) && At(ram, off, bs) && off + |bs| + DTB_FROM_TOP <= |ram|
    ensures At(PlaceExtras(x, ram), off, bs)
  {
    hide At, Blit;
    var mid := Blit(ram, |ram| - DTB_FROM_TOP, x.dtb);
    BlitSame(ram, |ram| - DTB_FROM_TOP, x.dtb, off, |bs|);
    SameAt(mid, ram, off, bs);
    BlitSame(mid, |ram| - BOOTARGS_FROM_TOP, x.bootArgs, off, |bs|);
    SameAt(PlaceExtras(x, ram), mid, off, bs);
  }

  /** The slide that was asked for, and the device tree and the BootArgs where the boot information says they are. */
  lemma ExtrasStand(kernel: seq<u8>, configured: u64, x: Extras, ramBase: u64, ram: seq<u8>)
    requires x.Fits(|ram|) && Loadable(kernel, configured, ramBase, |ram|) && ramBase as int + |ram| < TWO64
    requires Booted(kernel, configured, x, ramBase, ram).Some?
    ensures var (final, info) := Booted(kernel, configured, x, ramBase, ram).value;
            && info.slide == (if configured == 0 then 0x1000 else if configured as int == TWO64 - 1 then 0 else configured)
            && info.bootArgsAddr as int == ramBase as int + |ram| - 0x2000
            && At(final, info.bootArgsAddr as int - ramBase as int, x.bootArgs)
            && (x.dtb == [] ==> info.dtbAddr == 0)
            && (x.dtb != [] ==> info.dtbAddr as int == ramBase as int + |ram| - 0x10_0000 && At(final, info.dtbAddr as int - ramBase as int, x.dtb))
  {
    hide Parse, LoadAll, LoadedEntry, AllTame, At, Blit;
    var p := PlaceOf(Parse(kernel), Slide(configured), ramBase, |ram|);
    var loaded := LoadAll(p, kernel, Parse(kernel).cmds, ram);
    var mid := Blit(loaded, |ram| - DTB_FROM_TOP, x.dtb);
    BlitKeepsAt(mid, |ram| - BOOTARGS_FROM_TOP, x.bootArgs, |ram| - DTB_FROM_TOP, x.dtb);
  }

  /** Set-up succeeds exactly for an image that is no fileset, has a thread command, and whose entry point, moved if a
      loaded segment covers it, is not address zero. */
  lemma BootsExactly(kernel: seq<u8>, configured: u64, x: Extras, ramBase: u64, ram: seq<u8>)
    requires x.Fits(|ram|) && Loadable(kernel, configured, ramBase, |ram|)
    ensures var img := Parse(kernel);
            Booted(kernel, configured, x, ramBase, ram).Some? <==>
              && img.Image? && !img.fileset && img.entry.Some?
              && var p, e := PlaceOf(img, Slide(configured), ramBase, |ram|), img.entry.value as int;
                 (if EntryLoaded(p, img.cmds, img.entry.value)
                  then (ramBase as int + e - img.base as int + Slide(configured) as int) % TWO64 else e) != 0
  {
    hide Parse, LoadAll, AllTame, EntryLoaded, PlaceExtras, Slide;
  }

  // ---- The theorem --------------------------------------------------------------------------

  /** The translation of an address in the image is the place that the loader gave it. */
  lemma TranslationMeetsPlace(img: Parsed, slide: u64, ramBase: u64, ramLen: nat, info: BootInfo, va: u64)
    requires img.Image? && KernelHalf(img.base) && img.base <= va
    requires info.virtBase == img.base && info.slide == slide
    requires ramBase as int + ramLen < TWO64 && va as int - img.base as int + slide as int < ramLen
    ensures var m := KernelMap(info, ramBase, ramLen);
            && Translate(m, va) as int == ramBase as int + (va as int - img.base as int + slide as int)
            && !IsMmio(m, Translate(m, va))
  {
    var m := KernelMap(info, ramBase, ramLen);
    assert KernelHalf(va) by {
      assert va / 0x1_0000_0000_0000 >= img.base / 0x1_0000_0000_0000;
    }
    var d := va as int - img.base as int;
    assert (ramBase as int + slide as int) % TWO64 == ramBase as int + slide as int;
  }

  /** Fetching where the translation lands in RAM. */
  lemma FetchDelivers(m: Map, ramBase: u64, ram: seq<u8>, va: u64, off: nat, n: nat)
    requires |ram| < TWO64 && off + n <= |ram|
    requires Translate(m, va) as int == ramBase as int + off && !IsMmio(m, Translate(m, va))
    ensures Fetch(m, true, ramBase, ram, va, n) == Delivered(ram[off..off + n])
  {
  }

  /** Loading and the extras leave a file-backed segment at its place. */
  lemma SegmentStands(kernel: seq<u8>, slide: u64, x: Extras, ramBase: u64, ram: seq<u8>, k: nat)
    requires WellFormed(kernel, slide, ramBase, |ram|) && x.Fits(|ram|)
    requires k < |Parse(kernel).cmds| && FileBacked(Parse(kernel).cmds[k])
    ensures var img, s := Parse(kernel), Parse(kernel).cmds[k].seg;
            var p := PlaceOf(img, slide, ramBase, |ram|);
            && AllTame(p, kernel, img.cmds, |ram|)
            && s.fileoff as int + s.filesize as int <= |kernel| && |Contents(kernel, s)| == s.vmsize as int
            && img.base <= s.vmaddr && s.vmaddr as int + s.vmsize as int <= TWO64
            && var off: nat := s.vmaddr as int - img.base as int + slide as int;
               off + s.vmsize as int <= |ram| && At(PlaceExtras(x, LoadAll(p, kernel, img.cmds, ram)), off, Contents(kernel, s))
  {
    hide Parse, Contents, LoadAll, PlaceExtras, AllTame, Disjoint, BufOffset, Copied, Tame, At;
    var img := Parse(kernel);
    var c, p := img.cmds[k], PlaceOf(img, slide, ramBase, |ram|);
    SegmentPlaced(kernel, slide, ramBase, |ram|, c);
    WellFormedLoads(kernel, slide, ramBase, |ram|);
    LoadPlaces(p, kernel, img.cmds, ram, k);
    ExtrasKeep(x, LoadAll(p, kernel, img.cmds, ram), BufOffset(p, c.seg) as nat, Contents(kernel, c.seg));
  }

  /** For every well-formed kernel, after xnu_boot_setup an instruction fetch of any stretch of a file-backed
      segment delivers that segment's bytes: the file's, then zeros. */
  lemma ImagePreserved(kernel: seq<u8>, configured: u64, x: Extras, ramBase: u64, ram: seq<u8>, k: nat, i: nat, n: nat)
    requires WellFormed(kernel, Slide(configured), ramBase, |ram|) && x.Fits(|ram|)
    requires k < |Parse(kernel).cmds| && FileBacked(Parse(kernel).cmds[k])
    requires i < i + n <= Parse(kernel).cmds[k].seg.vmsize as int
    ensures Loadable(kernel, configured, ramBase, |ram|)
    ensures var s, result := Parse(kernel).cmds[k].seg, Booted(kernel, configured, x, ramBase, ram);
            && s.vmaddr as int + i < TWO64 && s.fileoff as int + s.filesize as int <= |kernel|
            && i + n <= |Contents(kernel, s)|
            && (result.Some? ==>
                  Fetch(KernelMap(result.value.1, ramBase, |ram|), true, ramBase, result.value.0, s.vmaddr as int + i, n)
                  == Delivered(Contents(kernel, s)[i..i + n]))
  {
    hide Parse, Contents, LoadAll, PlaceExtras, AllTame, Translate, At, LoadedEntry, KernelMap, IsMmio, Fetch;
    var img, slide := Parse(kernel), Slide(configured);
    var s := img.cmds[k].seg;
    SegmentStands(kernel, slide, x, ramBase, ram, k);
    var off: nat := s.vmaddr as int - img.base as int + slide as int;
    var result := Booted(kernel, configured, x, ramBase, ram);
    if result.Some? {
      var (final, info) := result.value;
      TranslationMeetsPlace(img, slide, ramBase, |ram|, info, s.vmaddr as int + i);
      SliceOfAt(final, off, Contents(kernel, s), i, n);
      FetchDelivers(KernelMap(info, ramBase, |ram|), ramBase, final, s.vmaddr as int + i, off + i, n);
    }
  }

  /** The same said of the image as it was written, in either byte order: after xnu_boot_setup a fetch of `n` bytes from
      byte `i` of a written segment delivers the file's bytes at its file offset, and zeros beyond its file size. */
  lemma WrittenPreserved(kernel: seq<u8>, swap: bool, h: Header, rs: seq<Record>, configured: u64, x: Extras, ramBase: u64,
                         ram: seq<u8>, k: nat, i: nat, n: nat)
    requires Written(kernel, swap, h, rs)
    requires WellFormed(kernel, Slide(configured), ramBase, |ram|) && x.Fits(|ram|)
    requires k < |rs| && rs[k].SegRec? && rs[k].seg.filesize > 0 && i < i + n <= rs[k].seg.vmsize as int
    ensures Loadable(kernel, configured, ramBase, |ram|)
    ensures var s, result := rs[k].seg, Booted(kernel, configured, x, ramBase, ram);
            && s.vmaddr as int + i < TWO64 && s.fileoff as int + s.filesize as int <= |kernel|
            && (result.Some? ==>
                  var got := Fetch(KernelMap(result.value.1, ramBase, |ram|), true, ramBase, result.value.0, s.vmaddr as int + i, n);
                  && got.Delivered? && |got.bs| == n
                  && forall j :: 0 <= j < n ==>
                       got.bs[j] == if i + j < s.filesize as int then kernel[s.fileoff as int + i + j] else 0)
  {
    hide Parse, Fetch, Booted, KernelMap, Loadable, WellFormed, Slide, Written;
    ParseWritten(kernel, swap, h, rs);
    ImagePreserved(kernel, configured, x, ramBase, ram, k, i, n);
  }

  lemma SliceOfAt(mem: seq<u8>, off: nat, bs: seq<u8>, i: nat, n: nat)
    requires At(mem, off, bs) && i + n <= |bs|
    ensures off + i + n <= |mem| && mem[off + i..off + i + n] == bs[i..i + n]
  {
    var w := mem[off..off + |bs|];
    assert forall j :: i <= j < i + n ==> mem[off + j] == w[j] == bs[j];
  }

  /** The entry point that the loader returns is the translation of the virtual entry point exactly when the entry
      lies in a loaded segment or below the image, or the map happens to be the identity. */
  lemma EntryTranslatesExactly(kernel: seq<u8>, configured: u64, x: Extras, ramBase: u64, ram: seq<u8>)
    requires x.Fits(|ram|) && Loadable(kernel, configured, ramBase, |ram|)
    requires Booted(kernel, configured, x, ramBase, ram).Some?
    requires KernelHalf(Parse(kernel).base)
    ensures Parse(kernel).Image? && Parse(kernel).entry.Some?
    ensures var img, info := Parse(kernel), Booted(kernel, configured, x, ramBase, ram).value.1;
            var slide, entry := Slide(configured), Parse(kernel).entry.value;
            info.virtEntry == entry &&
            (info.entry == Translate(KernelMap(info, ramBase, |ram|), info.virtEntry) <==>
               || EntryLoaded(PlaceOf(img, slide, ramBase, |ram|), img.cmds, entry)
               || entry < img.base
               || (ramBase as int + slide as int) % TWO64 == img.base as int)
  {
    hide Parse, LoadAll, PlaceExtras, AllTame, Covers;
    var img, info := Parse(kernel), Booted(kernel, configured, x, ramBase, ram).value.1;
    var p, e := PlaceOf(img, info.slide, ramBase, |ram|), info.virtEntry;
    if EntryLoaded(p, img.cmds, e) {
      CoveredAbove(p, img.cmds, e);
    }
    if e >= img.base {
      UpperHalf(img.base, e);
      Displaced(ramBase as int + info.slide as int, img.base, e);
    }
  }

  lemma CoveredAbove(p: Place, cmds: seq<Command>, entry: u64)
    requires EntryLoaded(p, cmds, entry)
    ensures p.base <= entry
  {
  }

  lemma UpperHalf(base: u64, va: u64)
    requires KernelHalf(base) && base <= va
    ensures KernelHalf(va)
  {
  }

  /** A linear map moves `e` by the same displacement as its base, and is the identity only if it fixes the base. */
  lemma Displaced(a: int, base: u64, e: u64)
    requires 0 <= a < 2 * TWO64 && base <= e
    ensures (a % TWO64 + (e - base) as int) % TWO64 == (a + e as int - base as int) % TWO64
    ensures (a % TWO64 + (e - base) as int) % TWO64 == e as int <==> a % TWO64 == base as int
  {
    var b, d := a % TWO64, (e - base) as int;
    assert (b + d) % TWO64 == if b + d < TWO64 then b + d else b + d - TWO64;
    assert b == a || b == a - TWO64;
  }

  class State {
    var kernel: seq<u8>
    var configured: u64
    var info: BootInfo

    /** xnu_boot_init and a validated kernel */
    constructor (kernel: seq<u8>, configured: u64)
      ensures this.kernel == kernel && this.configured == configured && info == BootInfo(0, 0, 0, 0, 0, 0)
    {
      this.kernel, this.configured := kernel, configured;
      info := BootInfo(0, 0, 0, 0, 0, 0);
    }

    /** xnu_boot_setup */
    method Setup(ram: array<u8>, ramBase: u64, x: Extras) returns (ok: bool)
      requires x.Fits(ram.Length) && Loadable(kernel, configured, ramBase, ram.Length) && info.dtbAddr == 0
      modifies this`info, ram
      ensures var result := Booted(kernel, configured, x, ramBase, old(ram[..]));
              && ok == result.Some?
              && (ok ==> ram[..] == result.value.0 && info == result.value.1)
    {
      hide MachO.Parse, LoadAll, LoadedEntry, Blit, AllTame, Slide;
      var macho := new Context();
      var parsed := macho.Parse(kernel);
      if !parsed { return false; }
      var slide := Slide(configured);
      info := info.(slide := slide);
      var entry := macho.Load(ram, ramBase, slide);
      if entry == 0 { return false; }
      info := info.(entry := entry, virtBase := macho.base,
                    virtEntry := if macho.hasEntry then macho.entryPoint else macho.base);
      Store(ram, ram.Length - DTB_FROM_TOP, x.dtb);
      if x.dtb != [] {
        info := info.(dtbAddr := (ramBase as int + ram.Length - DTB_FROM_TOP) % TWO64);
      }
      Store(ram, ram.Length - BOOTARGS_FROM_TOP, x.bootArgs);
      info := info.(bootArgsAddr := (ramBase as int + ram.Length - BOOTARGS_FROM_TOP) % TWO64);
      return true;
    }
  }
}
