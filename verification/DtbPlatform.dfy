/** What an operating system reads in the device tree that dtb_generate of core/memory/dtb.c describes: where memory is,
    how many CPUs there are, and where each virtio device and its interrupt are.
 */
module DtbPlatform {
  import opened Bytes
  import opened DeviceTree
  import opened DtbGenerate
  import opened Options

  /** The number that digits spell in a base, most significant first. */
  function Spelled(digits: seq<u8>, radix: nat): nat {
    if digits == [] then 0 else Spelled(digits[..|digits| - 1], radix) * radix + Digit(digits[|digits| - 1])
  }

  function Digit(c: u8): nat {
    if '0' as int <= c as int <= '9' as int then c as int - '0' as int
    else if 'a' as int <= c as int <= 'f' as int then c as int - 'a' as int + 10
    else 0
  }

  /** Unit addresses and CPU numbers in node names are the numbers they stand for. */
  lemma {:induction false} HexSpells(n: nat)
    ensures Spelled(Hex(n), 16) == n
  {
    var d: u8 := if n % 16 < 10 then 48 + n % 16 else 87 + n % 16;
    assert Digit(d) == n % 16;
    if n < 16 {
      assert [d][..0] == [];
    } else {
      HexSpells(n / 16);
      assert (Hex(n / 16) + [d])[..|Hex(n / 16)|] == Hex(n / 16);
    }
  }

  lemma {:induction false} DecSpells(n: nat)
    ensures Spelled(Dec(n), 10) == n
  {
    var d: u8 := 48 + n % 10;
    assert Digit(d) == n % 10;
    if n < 10 {
      assert [d][..0] == [];
    } else {
      DecSpells(n / 10);
      assert (Dec(n / 10) + [d])[..|Dec(n / 10)|] == Dec(n / 10);
    }
  }

  /** The node has a "reg" property of two 64-bit cells. */
  ghost predicate Reg(n: Tree, addr: u64, size: u64) {
    exists p :: p in n.props && p.name == Ascii("reg") && |p.value| == 16 && Be64At(p.value, 0) == addr && Be64At(p.value, 8) == size
  }

  lemma Reg2Reads(addr: u64, size: u64)
    ensures var v := Reg2(addr, size).value; |v| == 16 && Be64At(v, 0) == addr && Be64At(v, 8) == size
  {
    hide Be32, Be32At;
    var v := Reg2(addr, size).value;
    assert At(v, 0, Be64(addr) + Be64(size)) by { assert v[0..16] == v; }
    hide At;
    AtConcat(v, 0, Be64(addr), Be64(size));
    AtConcat(v, 0, Be32(addr / TWO32), Be32(addr % TWO32));
    AtConcat(v, 8, Be32(size / TWO32), Be32(size % TWO32));
    Be32RoundTrip(v, 0, addr / TWO32);
    Be32RoundTrip(v, 4, addr % TWO32);
    Be32RoundTrip(v, 8, size / TWO32);
    Be32RoundTrip(v, 12, size % TWO32);
  }

  lemma Reg2Named(addr: u64, size: u64)
    ensures Reg2(addr, size).name == Ascii("reg")
  {
  }

  lemma {:induction false} VirtioCount(slots: seq<VirtioSlot>)
    ensures |VirtioNodes(slots)| == |slots|
  {
    hide Ascii, Be32, Be64, Hex, Cells;
    if slots != [] {
      VirtioCount(slots[1..]);
    }
  }

  /** Each virtio device has a node with its registers' place and, as a shared peripheral interrupt, its number. */
  lemma {:induction false} VirtioNodeAt(slots: seq<VirtioSlot>, i: nat)
    requires i < |slots|
    ensures |VirtioNodes(slots)| == |slots|
    ensures var n := VirtioNodes(slots)[i];
            && n.name == Ascii("virtio_mmio@") + Hex(slots[i].base as nat)
            && Reg(n, slots[i].base, 0x200)
            && Prop(Ascii("interrupts"), Be32(0) + Be32(slots[i].irq) + Be32(4)) in n.props
  {
    hide Ascii, Be32, Be64, Hex, Be64At, Reg2, CStr;
    VirtioCount(slots);
    if i == 0 {
      Reg2Reads(slots[0].base, 0x200);
      Reg2Named(slots[0].base, 0x200);
      var n := VirtioNodes(slots)[0];
      assert Reg2(slots[0].base, 0x200) in n.props;
      ThreeCells(0, slots[0].irq, 4);
      assert n.props[2] == Prop(Ascii("interrupts"), Cells([0, slots[0].irq, 4]));
    } else {
      VirtioNodeAt(slots[1..], i - 1);
    }
  }

  lemma ThreeCells(a: u32, b: u32, c: u32)
    ensures Cells([a, b, c]) == Be32(a) + Be32(b) + Be32(c)
  {
    hide Be32;
    assert [a, b, c][1..] == [b, c] && [b, c][1..] == [c] && [c][1..] == [];
    assert Cells([c]) == Be32(c) + [];
    assert Be32(c) + [] == Be32(c);
    assert Be32(a) + (Be32(b) + Be32(c)) == Be32(a) + Be32(b) + Be32(c);
  }

  /** There is one node for every CPU, numbered from zero, started through PSCI. */
  lemma {:induction false} CpuNodeAt(from: nat, numCpus: nat, i: nat)
    requires from <= i < numCpus
    ensures |CpuNodes(from, numCpus)| == numCpus - from
    ensures var n := CpuNodes(from, numCpus)[i - from];
            && n.name == Ascii("cpu@") + Dec(i)
            && Prop(Ascii("reg"), Be32(i % TWO32)) in n.props
            && Prop(Ascii("enable-method"), CStr(Ascii("psci"))) in n.props
    decreases numCpus - from
  {
    hide Ascii, Be32, Dec, CStr;
    CpuCount(from, numCpus);
    if i == from {
      var n := CpuNodes(from, numCpus)[0];
      assert n.props[2] == Prop(Ascii("reg"), Be32(i % TWO32)) && n.props[3] == Prop(Ascii("enable-method"), CStr(Ascii("psci")));
    } else {
      CpuNodeAt(from + 1, numCpus, i);
    }
  }

  lemma {:induction false} CpuCount(from: nat, numCpus: nat)
    requires from <= numCpus
    ensures |CpuNodes(from, numCpus)| == numCpus - from
    decreases numCpus - from
  {
    hide Ascii, Be32, Dec, CStr;
    if from < numCpus {
      CpuCount(from + 1, numCpus);
    }
  }

  // ---- What the tree tells ---------------------------------------------------------

  ghost predicate IsMemory(n: Tree, base: u64, size: u64) {
    n.name == Ascii("memory@") + Hex(base as nat) && Reg(n, base, size)
  }

  ghost predicate IsVirtio(n: Tree, base: u64, irq: u32) {
    && n.name == Ascii("virtio_mmio@") + Hex(base as nat) && Reg(n, base, 0x200)
    && Prop(Ascii("interrupts"), Be32(0) + Be32(irq) + Be32(4)) in n.props
  }

  ghost predicate IsCpu(n: Tree, i: nat) {
    && n.name == Ascii("cpu@") + Dec(i)
    && Prop(Ascii("reg"), Be32(i % TWO32)) in n.props
    && Prop(Ascii("enable-method"), CStr(Ascii("psci"))) in n.props
  }

  ghost predicate IsCpus(n: Tree, numCpus: nat) {
    n.name == Ascii("cpus") && |n.children| == numCpus && forall i :: 0 <= i < numCpus ==> IsCpu(n.children[i], i)
  }

  /** The boot arguments are the command line, and there are none without one. */
  ghost predicate IsChosen(n: Tree, cmdline: Option<seq<u8>>) {
    && n.name == Ascii("chosen")
    && (forall p :: p in n.props && p.name == Ascii("bootargs") ==> cmdline.Some? && p.value == CStr(cmdline.value))
    && (cmdline.Some? ==> Prop(Ascii("bootargs"), CStr(cmdline.value)) in n.props)
  }

  lemma ChosenIs(cmdline: Option<seq<u8>>)
    ensures IsChosen(Chosen(cmdline), cmdline)
  {
    hide CStr;
    assert |Ascii("bootargs")| != |Ascii("stdout-path")|;
    if cmdline.Some? {
      assert Chosen(cmdline).props[0] == Prop(Ascii("bootargs"), CStr(cmdline.value));
    }
  }

  lemma Parts(cfg: Config)
    ensures Chosen(cfg.cmdline) in ConfigTree(cfg).children && Memory(cfg) in ConfigTree(cfg).children && Cpus(cfg) in ConfigTree(cfg).children
    ensures forall n :: n in VirtioNodes(cfg.virtio) ==> n in ConfigTree(cfg).children
  {
    hide RootProps, Chosen, Memory, Cpus, Psci, Timer, Gic, Uart, VirtioNodes;
    var fixed := [Chosen(cfg.cmdline), Memory(cfg), Cpus(cfg), Psci(), Timer(), Gic(cfg), Uart()];
    assert fixed[0] in fixed && fixed[1] in fixed && fixed[2] in fixed;
  }

  lemma MemoryIs(cfg: Config)
    ensures IsMemory(Memory(cfg), cfg.ramBase, cfg.ramSize)
  {
    hide Ascii, Be32, Be64, Hex, Be64At, Reg2, CStr;
    Reg2Reads(cfg.ramBase, cfg.ramSize);
    Reg2Named(cfg.ramBase, cfg.ramSize);
    assert Memory(cfg).props[1] == Reg2(cfg.ramBase, cfg.ramSize);
  }

  lemma CpusIs(cfg: Config)
    ensures IsCpus(Cpus(cfg), cfg.numCpus)
  {
    hide Ascii, Be32, Dec, CStr, CpuNodes;
    CpuCount(0, cfg.numCpus);
    forall i | 0 <= i < cfg.numCpus ensures IsCpu(CpuNodes(0, cfg.numCpus)[i], i) {
      CpuNodeAt(0, cfg.numCpus, i);
    }
  }

  /** The tree tells an operating system where memory is and how it was booted, has a node for each CPU from 0 up, and one for each virtio
      device with its place and its shared peripheral interrupt. */
  lemma PlatformTold(cfg: Config)
    ensures exists n :: n in ConfigTree(cfg).children && IsMemory(n, cfg.ramBase, cfg.ramSize)
    ensures exists n :: n in ConfigTree(cfg).children && IsChosen(n, cfg.cmdline)
    ensures exists n :: n in ConfigTree(cfg).children && IsCpus(n, cfg.numCpus)
    ensures forall i :: 0 <= i < |cfg.virtio| ==>
              exists n :: n in ConfigTree(cfg).children && IsVirtio(n, cfg.virtio[i].base, cfg.virtio[i].irq)
  {
    hide ConfigTree, Memory, Cpus, Chosen, VirtioNodes, IsMemory, IsChosen, IsCpus, IsVirtio;
    Parts(cfg);
    MemoryIs(cfg);
    CpusIs(cfg);
    ChosenIs(cfg.cmdline);
    forall i | 0 <= i < |cfg.virtio|
      ensures exists n :: n in ConfigTree(cfg).children && IsVirtio(n, cfg.virtio[i].base, cfg.virtio[i].irq)
    {
      VirtioIs(cfg.virtio, i);
      assert VirtioNodes(cfg.virtio)[i] in VirtioNodes(cfg.virtio);
    }
  }

  lemma VirtioIs(slots: seq<VirtioSlot>, i: nat)
    requires i < |slots|
    ensures |VirtioNodes(slots)| == |slots| && IsVirtio(VirtioNodes(slots)[i], slots[i].base, slots[i].irq)
  {
    hide Ascii, Be32, Hex, Reg, VirtioNodes;
    VirtioNodeAt(slots, i);
  }
}
