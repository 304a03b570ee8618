/** dtb_generate of core/memory/dtb.c: the platform's device tree laid out as a blob,
    and the guarantee that the loader of core/boot/apple/dtre.c recovers it.
 */
module DtbGenerate {
  import opened Bytes
  import opened Options
  import opened DeviceTree
  import opened DtbWriter

  // ---- The platform's tree ------------------------------------------------

  datatype VirtioSlot = VirtioSlot(base: u64, irq: u32)

  datatype Config = Config(numCpus: nat, ramBase: u64, ramSize: u64, virtio: seq<VirtioSlot>, cmdline: Option<seq<u8>>)

  /** `%lx` */
  function Hex(n: nat): (s: seq<u8>)
    ensures 0 !in s
  {
    var d: u8 := if n % 16 < 10 then 48 + n % 16 else 87 + n % 16;
    if n < 16 then [d] else Hex(n / 16) + [d]
  }

  /** `%d` of a non-negative number */
  function Dec(n: nat): (s: seq<u8>)
    ensures 0 !in s
  {
    var d: u8 := 48 + n % 10;
    if n < 10 then [d] else Dec(n / 10) + [d]
  }

  function Str(name: string, value: string): Prop
    requires Plain(name) && Plain(value)
  {
    Prop(Ascii(name), CStr(Ascii(value)))
  }

  function U32Prop(name: string, v: u32): Prop
    requires Plain(name)
  {
    Prop(Ascii(name), Be32(v))
  }

  function Be64(v: u64): (s: seq<u8>)
    ensures |s| == 8
  {
    Be32(v / TWO32) + Be32(v % TWO32)
  }

  function Cells(vs: seq<u32>): (s: seq<u8>)
    ensures |s| == 4 * |vs|
  {
    if vs == [] then [] else Be32(vs[0]) + Cells(vs[1..])
  }

  function Reg2(addr: u64, size: u64): Prop {
    Prop(Ascii("reg"), Be64(addr) + Be64(size))
  }

  function CpuNodes(from: nat, numCpus: nat): seq<Tree>
    requires from <= numCpus
    decreases numCpus - from
  {
    if from == numCpus then []
    else
      [Tree(Ascii("cpu@") + Dec(from),
            [Str("device_type", "cpu"), Str("compatible", "arm,cortex-a55"), U32Prop("reg", from % TWO32),
             Str("enable-method", "psci")], [])]
      + CpuNodes(from + 1, numCpus)
  }

  function VirtioNodes(slots: seq<VirtioSlot>): seq<Tree> {
    if slots == [] then []
    else
      [Tree(Ascii("virtio_mmio@") + Hex(slots[0].base),
            [Str("compatible", "virtio,mmio"), Reg2(slots[0].base, 0x200),
             Prop(Ascii("interrupts"), Cells([0, slots[0].irq, 4]))], [])]
      + VirtioNodes(slots[1..])
  }

  function Chosen(cmdline: Option<seq<u8>>): Tree {
    var out := Str("stdout-path", "/uart@10000000");
    Tree(Ascii("chosen"), if cmdline.Some? then [Prop(Ascii("bootargs"), CStr(cmdline.value)), out] else [out], [])
  }

  function Memory(cfg: Config): Tree {
    Tree(Ascii("memory@") + Hex(cfg.ramBase), [Str("device_type", "memory"), Reg2(cfg.ramBase, cfg.ramSize)], [])
  }

  function Cpus(cfg: Config): Tree {
    Tree(Ascii("cpus"), [U32Prop("#address-cells", 1), U32Prop("#size-cells", 0)], CpuNodes(0, cfg.numCpus))
  }

  function Psci(): Tree {
    Tree(Ascii("psci"), [Str("compatible", "arm,psci-1.0"), Str("method", "hvc")], [])
  }

  function Timer(): Tree {
    Tree(Ascii("timer"),
         [Str("compatible", "arm,armv8-timer"),
          Prop(Ascii("interrupts"), Cells([1, 13, 0x000F_0008, 1, 14, 0x000F_0008, 1, 11, 0x000F_0008, 1, 10, 0x000F_0008]))], [])
  }

  function GicCells(): seq<Prop> {
    [Str("compatible", "arm,gic-v3"), U32Prop("#interrupt-cells", 3), U32Prop("#address-cells", 2), U32Prop("#size-cells", 2)]
  }

  function GicRanges(cfg: Config): seq<Prop> {
    [Prop(Ascii("interrupt-controller"), []), U32Prop("phandle", 1),
     Prop(Ascii("reg"), Cells([0, 0x0800_0000, 0, 0x0001_0000, 0, 0x0801_0000, 0, cfg.numCpus * 0x20000 % TWO32])),
     Prop(Ascii("ranges"), [])]
  }

  function Gic(cfg: Config): Tree {
    Tree(Ascii("interrupt-controller@8000000"), GicCells() + GicRanges(cfg), [])
  }

  function Uart(): Tree {
    Tree(Ascii("uart@10000000"),
         [Prop(Ascii("compatible"), CStr(Ascii("arm,pl011")) + CStr(Ascii("arm,primecell"))), Reg2(0x1000_0000, 0x10000),
          Prop(Ascii("interrupts"), Cells([0, 32, 4])), U32Prop("clock-frequency", 24000000), Str("status", "okay")], [])
  }

  function RootProps(): seq<Prop> {
    [Str("compatible", "siliconv,vm-v0"), Str("model", "SiliconV Virtual Machine"), U32Prop("#address-cells", 2),
     U32Prop("#size-cells", 2), U32Prop("interrupt-parent", 1)]
  }

  /** The tree that the call sequence of dtb_generate describes. */
  function ConfigTree(cfg: Config): Tree {
    Tree([], RootProps(),
         [Chosen(cfg.cmdline), Memory(cfg), Cpus(cfg), Psci(), Timer(), Gic(cfg), Uart()] + VirtioNodes(cfg.virtio))
  }

  // ---- Its names are usable -----------------------------------------------

  ghost predicate Good(n: Tree) {
    WellFormed(n) && ValuesFit(n)
  }

  /** Property names that differ in length or in their first byte are different names. */
  ghost predicate GoodProps(ps: seq<Prop>) {
    && (forall i :: 0 <= i < |ps| ==> ps[i].name != [] && 0 !in ps[i].name && |ps[i].value| < TWO32)
    && (forall i, j :: 0 <= i < j < |ps| ==> |ps[i].name| != |ps[j].name| || ps[i].name[0] != ps[j].name[0])
  }

  lemma GoodNode(n: Tree)
    requires 0 !in n.name && GoodProps(n.props) && forall c :: c in n.children ==> Good(c)
    ensures Good(n)
  {
  }

  lemma CpuNodesGood(from: nat, numCpus: nat)
    requires from <= numCpus
    ensures forall c :: c in CpuNodes(from, numCpus) ==> Good(c)
    decreases numCpus - from
  {
    hide Ascii, Be32, CStr, Cells, Be64, Good, Dec;
    if from < numCpus {
      GoodNode(CpuNodes(from, numCpus)[0]);
      CpuNodesGood(from + 1, numCpus);
    }
  }

  lemma VirtioNodesGood(slots: seq<VirtioSlot>)
    ensures forall c :: c in VirtioNodes(slots) ==> Good(c)
  {
    hide Ascii, Be32, CStr, Cells, Be64, Good, Hex;
    if slots != [] {
      GoodNode(VirtioNodes(slots)[0]);
      VirtioNodesGood(slots[1..]);
    }
  }

  lemma ChosenMemoryGood(cfg: Config)
    requires cfg.cmdline.Some? ==> |cfg.cmdline.value| < TWO31
    ensures Good(Chosen(cfg.cmdline)) && Good(Memory(cfg))
  {
    hide Ascii, Be32, CStr, Cells, Be64, Good, Hex;
    GoodNode(Chosen(cfg.cmdline));
    GoodNode(Memory(cfg));
  }

  lemma PsciTimerGood()
    ensures Good(Psci()) && Good(Timer())
  {
    hide Ascii, Be32, CStr, Cells, Be64, Good;
    GoodNode(Psci());
    GoodNode(Timer());
  }

  lemma CpusGood(cfg: Config)
    ensures Good(Cpus(cfg))
  {
    hide Ascii, Be32, CStr, Good, CpuNodes;
    CpuNodesGood(0, cfg.numCpus);
    GoodNode(Cpus(cfg));
  }

  lemma GicGood(cfg: Config)
    ensures Good(Gic(cfg))
  {
    hide Ascii, Be32, CStr, Cells, Be64, Good, Hex;
    GoodNode(Gic(cfg));
  }

  lemma UartGood()
    ensures Good(Uart())
  {
    hide Ascii, Be32, CStr, Cells, Be64, Good, Hex;
    GoodNode(Uart());
  }

  lemma ConfigTreeGood(cfg: Config)
    requires cfg.cmdline.Some? ==> |cfg.cmdline.value| < TWO31
    ensures Good(ConfigTree(cfg))
  {
    hide Ascii, Be32, CStr, Cells, Be64, Good, Hex, Chosen, Memory, Cpus, Psci, Timer, Gic, Uart, VirtioNodes;
    VirtioNodesGood(cfg.virtio);
    ChosenMemoryGood(cfg);
    CpusGood(cfg);
    PsciTimerGood();
    GicGood(cfg);
    UartGood();
    GoodNode(ConfigTree(cfg));
  }

  // ---- The blob -----------------------------------------------------------

  const STRUCT_START: nat := 56
  const STRINGS_ROOM: nat := 2048

  function Header(total: nat, structSize: nat, strStart: nat, stringsSize: nat): (h: seq<u8>)
    ensures |h| == HEADER_SIZE
  {
    Be32(0xD00D_FEED) + Be32(total % TWO32) + Be32(STRUCT_START) + Be32(strStart % TWO32) + Be32(40)
    + Be32(17) + Be32(16) + Be32(0) + Be32(stringsSize % TWO32) + Be32(structSize % TWO32)
  }

  /** The fields that the loader looks at. */
  lemma HeaderFields(data: seq<u8>, total: nat, structSize: nat, strStart: nat, stringsSize: nat)
    requires At(data, 0, Header(total, structSize, strStart, stringsSize))
    requires structSize < TWO32 && strStart < TWO32 && stringsSize < TWO32
    ensures |data| >= HEADER_SIZE
    ensures Be32At(data, 0) == 0xD00D_FEED && Be32At(data, 8) as int == STRUCT_START && Be32At(data, 12) as int == strStart
    ensures Be32At(data, 32) as int == stringsSize && Be32At(data, 36) as int == structSize
  {
    hide At, Be32, Be32At;
    var a, b, c, d := Be32(0xD00D_FEED), Be32(total % TWO32), Be32(STRUCT_START), Be32(strStart % TWO32);
    var e := Be32(40) + Be32(17) + Be32(16) + Be32(0);
    var f, g := Be32(stringsSize % TWO32), Be32(structSize % TWO32);
    assert Header(total, structSize, strStart, stringsSize) == a + (b + (c + (d + (e + (f + g)))));
    AtConcat(data, 0, a, b + (c + (d + (e + (f + g)))));
    AtConcat(data, 4, b, c + (d + (e + (f + g))));
    AtConcat(data, 8, c, d + (e + (f + g)));
    AtConcat(data, 12, d, e + (f + g));
    AtConcat(data, 16, e, f + g);
    AtConcat(data, 32, f, g);
    Be32RoundTrip(data, 0, 0xD00D_FEED);
    Be32RoundTrip(data, 8, STRUCT_START);
    Be32RoundTrip(data, 12, strStart % TWO32);
    Be32RoundTrip(data, 32, stringsSize % TWO32);
    Be32RoundTrip(data, 36, structSize % TWO32);
  }

  /** The other fields of section 5.2: total size, reservation block, version 17 compatible with 16, boot CPU 0. */
  lemma StandardFields(data: seq<u8>, total: nat, structSize: nat, strStart: nat, stringsSize: nat)
    requires At(data, 0, Header(total, structSize, strStart, stringsSize)) && total < TWO32
    ensures |data| >= HEADER_SIZE
    ensures Be32At(data, 4) as int == total && Be32At(data, 16) == 40
    ensures Be32At(data, 20) == 17 && Be32At(data, 24) == 16 && Be32At(data, 28) == 0
  {
    hide At, Be32, Be32At;
    var a, b, c := Be32(0xD00D_FEED), Be32(total % TWO32), Be32(STRUCT_START) + Be32(strStart % TWO32);
    var d, e, f, g := Be32(40), Be32(17), Be32(16), Be32(0);
    var h := Be32(stringsSize % TWO32) + Be32(structSize % TWO32);
    assert Header(total, structSize, strStart, stringsSize) == a + (b + (c + (d + (e + (f + (g + h))))));
    AtConcat(data, 0, a, b + (c + (d + (e + (f + (g + h))))));
    AtConcat(data, 4, b, c + (d + (e + (f + (g + h)))));
    AtConcat(data, 8, c, d + (e + (f + (g + h))));
    AtConcat(data, 16, d, e + (f + (g + h)));
    AtConcat(data, 20, e, f + (g + h));
    AtConcat(data, 24, f, g + h);
    AtConcat(data, 28, g, h);
    Be32RoundTrip(data, 4, total % TWO32);
    Be32RoundTrip(data, 16, 40);
    Be32RoundTrip(data, 20, 17);
    Be32RoundTrip(data, 24, 16);
    Be32RoundTrip(data, 28, 0);
  }

  /** A version-17 blob of `size` bytes in the sense of sections 5.2 to 5.6: header, an empty reservation block, a structure
      block that ends with FDT_END, and the strings inside the total size. */
  ghost predicate Conforms(b: seq<u8>, size: int) {
    && |b| >= 56 && Be32At(b, 0) == 0xD00D_FEED && Be32At(b, 4) as int == size
    && Be32At(b, 8) == 56 && Be32At(b, 16) == 40 && At(b, 40, Zeros(16))
    && Be32At(b, 20) == 17 && Be32At(b, 24) == 16 && Be32At(b, 28) == 0
    && var structSize, strStart, stringsSize := Be32At(b, 36) as int, Be32At(b, 12) as int, Be32At(b, 32) as int;
       && structSize >= 4 && structSize % 4 == 0 && 56 + structSize <= strStart && strStart <= |b|
       && strStart + stringsSize <= size && size % 4 == 0
       && Be32At(b, 56 + structSize - 4) == 9
  }

  lemma AtSlice(mem: seq<u8>, off: nat, bs: seq<u8>, lo: nat, hi: nat)
    requires At(mem, off, bs) && lo <= off && off + |bs| <= hi <= |mem|
    ensures At(mem[lo..hi], off - lo, bs)
  {
    var m, s := mem[lo..hi], mem[off..off + |bs|];
    assert forall i :: 0 <= i < |bs| ==> m[off - lo + i] == s[i];
  }

  /** A blob with this layout loads as the tree it was laid out from. */
  lemma LoadLaidOut(data: seq<u8>, n: Tree, total: nat, strStart: nat)
    requires |data| < TWO31 && Good(n)
    requires At(data, 0, Header(total, |EncodeNode(n, 0)| + 4, strStart, |NodeStrings(n)|))
    requires At(data, STRUCT_START, EncodeNode(n, 0)) && STRUCT_START + |EncodeNode(n, 0)| + 4 <= |data|
    requires At(data, strStart, NodeStrings(n)) && strStart + |NodeStrings(n)| <= |data|
    ensures LoadTree(data) == Parsed(n)
  {
    hide At, Be32, Be32At, Header, EncodeNode, NodeStrings, ParseNode;
    var s, t := EncodeNode(n, 0), NodeStrings(n);
    HeaderFields(data, total, |s| + 4, strStart, |t|);
    AtSlice(data, STRUCT_START, s, STRUCT_START, STRUCT_START + |s| + 4);
    AtSlice(data, strStart, t, strStart, |data|);
    assert data[strStart..|data|] == data[strStart..];
    ParseEncoded(data[STRUCT_START..STRUCT_START + |s| + 4], data[strStart..], |t|, 0, n, 0);
  }

  lemma EmittedAt(b0: seq<u8>, b1: seq<u8>, pos: nat, bs: seq<u8>, sp: nat, ss: seq<u8>)
    requires Emitted(b0, b1, pos, bs, sp, ss)
    ensures |b1| == |b0| && At(b1, pos, bs) && At(b1, sp, ss)
  {
    hide At, Blit;
    BlitKeepsAt(Blit(b0, pos, bs), sp, ss, pos, bs);
  }

  /** The finished buffer, cut anywhere past its strings, loads as the tree. */
  lemma Assembled(b0: seq<u8>, b1: seq<u8>, n: Tree, total: nat, k: nat)
    requires Fits(n, |b0|) && Good(n)
    requires Emitted(b0, b1, STRUCT_START, EncodeNode(n, 0), |b0| - STRINGS_ROOM, NodeStrings(n))
    requires |b0| - STRINGS_ROOM + |NodeStrings(n)| <= k <= |b0|
    ensures |b1| == |b0|
    ensures var b2 := Blit(b1, STRUCT_START + |EncodeNode(n, 0)|, Be32(FDT_END));
            var b3 := Blit(b2, 0, Header(total, |EncodeNode(n, 0)| + 4, |b0| - STRINGS_ROOM, |NodeStrings(n)|));
            LoadTree(b3[..k]) == Parsed(n)
  {
    hide At, Be32, Header, EncodeNode, NodeStrings, LoadTree, Good, Blit, Emitted;
    var s, t, ss := EncodeNode(n, 0), NodeStrings(n), |b0| - STRINGS_ROOM;
    EmittedAt(b0, b1, STRUCT_START, s, ss, t);
    var b2 := Blit(b1, STRUCT_START + |s|, Be32(FDT_END));
    BlitKeepsAt(b1, STRUCT_START + |s|, Be32(FDT_END), STRUCT_START, s);
    BlitKeepsAt(b1, STRUCT_START + |s|, Be32(FDT_END), ss, t);
    var h := Header(total, |s| + 4, ss, |t|);
    var b3 := Blit(b2, 0, h);
    BlitKeepsAt(b2, 0, h, STRUCT_START, s);
    BlitKeepsAt(b2, 0, h, ss, t);
    AtSlice(b3, 0, h, 0, k);
    AtSlice(b3, STRUCT_START, s, 0, k);
    AtSlice(b3, ss, t, 0, k);
    assert b3[0..k] == b3[..k];
    LoadLaidOut(b3[..k], n, total, ss);
  }

  /** The finished buffer is a conforming blob. */
  lemma Conforming(b0: seq<u8>, b1: seq<u8>, n: Tree, total: nat)
    requires Fits(n, |b0|) && At(b0, 40, Zeros(16))
    requires Emitted(b0, b1, STRUCT_START, EncodeNode(n, 0), |b0| - STRINGS_ROOM, NodeStrings(n))
    requires total % 4 == 0 && |b0| - STRINGS_ROOM + |NodeStrings(n)| <= total < TWO32
    ensures |b1| == |b0|
    ensures var b2 := Blit(b1, STRUCT_START + |EncodeNode(n, 0)|, Be32(FDT_END));
            Conforms(Blit(b2, 0, Header(total, |EncodeNode(n, 0)| + 4, |b0| - STRINGS_ROOM, |NodeStrings(n)|)), total)
  {
    hide At, Be32, Be32At, Header, EncodeNode, NodeStrings, Blit, Zeros;
    var s, t, ss := EncodeNode(n, 0), NodeStrings(n), |b0| - STRINGS_ROOM;
    EmittedAt(b0, b1, STRUCT_START, s, ss, t);
    BlitKeepsAt(b0, STRUCT_START, s, 40, Zeros(16));
    BlitKeepsAt(Blit(b0, STRUCT_START, s), ss, t, 40, Zeros(16));
    var end, h := STRUCT_START + |s|, Header(total, |s| + 4, ss, |t|);
    var b2 := Blit(b1, end, Be32(FDT_END));
    BlitKeepsAt(b1, end, Be32(FDT_END), 40, Zeros(16));
    var b3 := Blit(b2, 0, h);
    BlitKeepsAt(b2, 0, h, 40, Zeros(16));
    BlitKeepsAt(b2, 0, h, end, Be32(FDT_END));
    Be32RoundTrip(b3, end, FDT_END);
    HeaderFields(b3, total, |s| + 4, ss, |t|);
    StandardFields(b3, total, |s| + 4, ss, |t|);
    Aligned(|s|, 4);
  }

  /** Four zero words make an empty reservation block. */
  lemma NothingReserved(b: seq<u8>, off: nat)
    requires off + 16 <= |b|
    ensures At(Blit(Blit(Blit(Blit(b, off, Be32(0)), off + 4, Be32(0)), off + 8, Be32(0)), off + 12, Be32(0)), off, Zeros(16))
  {
    hide Blit, At;
    BlitConcat(b, off, Be32(0), Be32(0));
    BlitConcat(b, off, Be32(0) + Be32(0), Be32(0));
    BlitConcat(b, off, Be32(0) + Be32(0) + Be32(0), Be32(0));
    assert Be32(0) + Be32(0) + Be32(0) + Be32(0) == Zeros(16);
  }

  /** The blob has room for this tree: structure below the strings area, strings inside it. */
  ghost predicate Fits(n: Tree, bufsize: nat) {
    && 4096 <= bufsize < TWO31
    && STRUCT_START + |EncodeNode(n, 0)| + 4 <= bufsize - STRINGS_ROOM
    && |NodeStrings(n)| <= STRINGS_ROOM
  }

  /** The blob, cut anywhere from `low` on, loads as the tree. */
  ghost predicate LoadsFrom(b: seq<u8>, low: int, n: Tree) {
    |b| < TWO31 && forall k :: 0 <= k <= |b| && low <= k ==> LoadTree(b[..k]) == Parsed(n)
  }

  /** dtb_generate around the node calls: room for the header, an empty reservation block, the
      structure block, FDT_END, and last the header over the room left for it. */
  method Assemble(buf: array<u8>, n: Tree) returns (size: int)
    requires Fits(n, buf.Length) && Good(n)
    modifies buf
    ensures size == (buf.Length - STRINGS_ROOM + |NodeStrings(n)| + 3) / 4 * 4
    ensures LoadsFrom(buf[..], buf.Length - STRINGS_ROOM + |NodeStrings(n)|, n)
    ensures Conforms(buf[..], size)
  {
    hide Conforms, Zeros, At, Be32, Header, EncodeNode, NodeStrings, LoadTree, WellFormed, ValuesFit, Blit, Emitted;
    var w := new Writer(buf);
    w.pos := HEADER_SIZE;
    NothingReserved(buf[..], HEADER_SIZE);
    w.U32(0); w.U32(0);
    w.U32(0); w.U32(0);
    var structStart := w.pos;
    w.strstart := buf.Length - STRINGS_ROOM;
    w.stroff := 0;
    ghost var b0 := buf[..];
    w.PutNode(n);
    ghost var b1 := buf[..];
    w.U32(FDT_END);
    var structSize, stringsSize := w.pos - structStart, w.stroff;
    size := w.strstart + stringsSize;
    while size % 4 != 0
      invariant w.strstart + stringsSize <= size <= (w.strstart + stringsSize + 3) / 4 * 4
      decreases (w.strstart + stringsSize + 3) / 4 * 4 - size
    {
      size := size + 1;
    }
    Store(buf, 0, Header(size, structSize, w.strstart, stringsSize));
    ghost var b3 := buf[..];
    Conforming(b0, b1, n, size);
    forall k | 0 <= k <= |b3| && |b0| - STRINGS_ROOM + |NodeStrings(n)| <= k ensures LoadTree(b3[..k]) == Parsed(n) {
      Assembled(b0, b1, n, size, k);
    }
  }

  /** dtb_generate.  Generating a blob and loading it gives the described platform back. */
  method Generate(buf: array<u8>, cfg: Config) returns (size: int)
    requires buf.Length >= 4096 ==> Fits(ConfigTree(cfg), buf.Length)
    requires cfg.cmdline.Some? ==> |cfg.cmdline.value| < TWO31
    modifies buf
    ensures buf.Length < 4096 ==> size == -1 && buf[..] == old(buf[..])
    ensures buf.Length >= 4096 ==>
              size == (buf.Length - STRINGS_ROOM + |NodeStrings(ConfigTree(cfg))| + 3) / 4 * 4
    ensures buf.Length >= 4096 ==> LoadsFrom(buf[..], buf.Length - STRINGS_ROOM + |NodeStrings(ConfigTree(cfg))|, ConfigTree(cfg))
    ensures buf.Length >= 4096 ==> Conforms(buf[..], size)
  {
    hide Conforms, NodeStrings, LoadsFrom, Fits, ConfigTree, Good;
    if buf.Length < 4096 { return -1; }
    ConfigTreeGood(cfg);
    size := Assemble(buf, ConfigTree(cfg));
  }
}
