/** The software MMU of hypervisor/tcg/tcg_mmu.c: a linear map for the kernel's half of the address space,
    instruction fetch, and data access over guest RAM.
 */
module SoftMmu {
  import opened Bytes

  /** The four globals that tcg_mmu_set_identity_map sets. */
  datatype Map = Map(virtBase: u64, physBase: u64, ramBase: u64, ramSize: u64)

  predicate KernelHalf(va: u64) { va / 0x1_0000_0000_0000 == 0xFFFF }

  function TranslateIdentity(m: Map, va: u64): u64 {
    if KernelHalf(va) && va >= m.virtBase then (m.physBase as int + (va - m.virtBase) as int) % TWO64 else va
  }

  /** tcg_mmu_translate: the physical address; an unset map leaves addresses alone. */
  function Translate(m: Map, va: u64): u64 {
    if m.virtBase != 0 then TranslateIdentity(m, va) else va
  }

  /** Translation moves exactly the addresses of the top 2^48 bytes from the kernel's base up, all by the same distance,
      and only if there is a kernel base and the two bases differ. */
  lemma MovesExactly(m: Map, va: u64)
    ensures Translate(m, va) != va <==>
              m.virtBase != 0 && m.virtBase != m.physBase && va >= m.virtBase && va as int >= 0xFFFF_0000_0000_0000
    ensures Translate(m, va) != va ==> (Translate(m, va) as int - va as int) % TWO64 == (m.physBase as int - m.virtBase as int) % TWO64
  {
    KernelExactly(va);
    if m.virtBase != 0 && KernelHalf(va) && va >= m.virtBase {
      var d, p := (va - m.virtBase) as int, m.physBase as int;
      assert (p + d) % TWO64 == if p + d < TWO64 then p + d else p + d - TWO64;
      WrapMoves(p - m.virtBase as int);
    }
  }

  lemma KernelExactly(va: u64)
    ensures KernelHalf(va) <==> va as int >= 0xFFFF_0000_0000_0000
  {
  }

  lemma WrapMoves(k: int)
    ensures (k - TWO64) % TWO64 == k % TWO64
  {
  }

  predicate IsMmio(m: Map, pa: u64) {
    pa < m.ramBase || pa as int >= (m.ramBase as int + m.ramSize as int) % TWO64
  }

  /** SCTLR_EL1.M decides whether addresses are translated. */
  function Resolved(m: Map, on: bool, va: u64): u64 { if on then Translate(m, va) else va }

  /** An instruction fetch: bytes, a refusal, or a copy from outside the RAM buffer. */
  datatype Fetched = Delivered(bs: seq<u8>) | Refused | Undefined

  /** tcg_mmu_read; its bounds test is a 64-bit sum that may wrap around. */
  function Fetch(m: Map, on: bool, ramBase: u64, ram: seq<u8>, va: u64, n: nat): (r: Fetched)
    requires |ram| < TWO64
  {
    var pa := Resolved(m, on, va);
    var off := (pa as int - ramBase as int) % TWO64;
    if on && IsMmio(m, pa) then Refused
    else if (off + n) % TWO64 > |ram| then Refused
    else if off + n > |ram| then Undefined
    else Delivered(ram[off..off + n])
  }

  /** The map describes the RAM that the virtual machine has. */
  predicate Describes(m: Map, ramBase: u64, ramLen: nat) {
    m.ramBase == ramBase && m.ramSize as int == ramLen && ramBase as int + ramLen < TWO64
  }

  /** A fetch leaves the RAM buffer exactly when translation is off and it starts just below RAM and reaches it. */
  lemma FetchStrayExactly(m: Map, on: bool, ramBase: u64, ram: seq<u8>, va: u64, n: nat)
    requires Describes(m, ramBase, |ram|) && 0 < n <= |ram| && n <= ramBase as int
    ensures Fetch(m, on, ramBase, ram, va, n).Undefined? <==> !on && va < ramBase && (ramBase - va) as int <= n
  {
    hide Translate;
    var pa := Resolved(m, on, va);
    if pa < ramBase {
      assert (pa as int - ramBase as int) % TWO64 == pa as int - ramBase as int + TWO64;
    }
  }

  /** A data access goes to RAM, to a device, or is of no known size. */
  datatype Access = Ram(off: nat) | Mmio(pa: u64) | BadSize

  /** Where tcg_mmu_resolve sends a data access. */
  function Target(m: Map, on: bool, ramBase: u64, ramLen: nat, va: u64, n: nat): Access {
    var pa := Resolved(m, on, va);
    if pa < ramBase || (pa as int + n) % TWO64 > (ramBase as int + ramLen) % TWO64 then Mmio(pa)
    else if WordSize(n) then Ram(pa as int - ramBase as int)
    else BadSize
  }

  predicate WordSize(n: nat) { n == 1 || n == 2 || n == 4 || n == 8 }

  function Encode(v: u64, n: nat): (bs: seq<u8>)
    requires WordSize(n)
    ensures |bs| == n
  {
    if n == 1 then [v % 0x100]
    else if n == 2 then Le16(v % 0x1_0000)
    else if n == 4 then Le32(v % 0x1_0000_0000)
    else Le64(v)
  }

  function Decode(mem: seq<u8>, off: nat, n: nat): u64
    requires WordSize(n) && off + n <= |mem|
  {
    if n == 1 then mem[off] as u64 else if n == 2 then Le16At(mem, off) as u64 else if n == 4 then Le32At(mem, off) as u64 else Le64At(mem, off)
  }

  /** `v` cut to `n` bytes. */
  function Low(v: u64, n: nat): u64
    requires WordSize(n)
  {
    if n == 1 then v % 0x100 else if n == 2 then v % 0x1_0000 else if n == 4 then v % 0x1_0000_0000 else v
  }

  lemma EncodeDecodes(mem: seq<u8>, off: nat, v: u64, n: nat)
    requires WordSize(n) && At(mem, off, Encode(v, n))
    ensures Decode(mem, off, n) == Low(v, n)
  {
    hide Le32, Le64, Le32At, Le64At, Le16, Le16At;
    if n == 1 {
      assert mem[off..off + 1][0] == v % 0x100;
    } else if n == 2 {
      Le16RoundTrip(mem, off, v % 0x1_0000);
    } else if n == 4 {
      Le32RoundTrip(mem, off, v % 0x1_0000_0000);
    } else {
      Le64RoundTrip(mem, off, v);
    }
  }

  /** An access goes to a device exactly when it does not lie in RAM; in RAM it needs a size of 1, 2, 4 or 8. */
  lemma TargetExactly(m: Map, on: bool, ramBase: u64, ramLen: nat, va: u64, n: nat)
    requires ramBase as int + ramLen < TWO64 && Resolved(m, on, va) as int + n < TWO64
    ensures var pa := (if on then Translate(m, va) else va) as int;
            Target(m, on, ramBase, ramLen, va, n) ==
              if !(ramBase as int <= pa && pa + n <= ramBase as int + ramLen) then Mmio(pa)
              else if n in {1, 2, 4, 8} then Ram(pa - ramBase as int) else BadSize
  {
    hide Translate;
    var pa := Resolved(m, on, va) as int;
    assert (pa + n) % TWO64 == pa + n && (ramBase as int + ramLen) % TWO64 == ramBase as int + ramLen;
  }

  /** A data access that goes to RAM lies in it, and a fetch there delivers what RAM holds. */
  lemma TargetFetched(m: Map, on: bool, ramBase: u64, ram: seq<u8>, va: u64, n: nat)
    requires WordSize(n) && Describes(m, ramBase, |ram|) && Resolved(m, on, va) as int + n < TWO64
    requires Target(m, on, ramBase, |ram|, va, n).Ram?
    ensures var off := Target(m, on, ramBase, |ram|, va, n).off;
            off + n <= |ram| && Fetch(m, on, ramBase, ram, va, n) == Delivered(ram[off..off + n])
  {
    hide Resolved, Translate;
    var pa := Resolved(m, on, va) as int;
    assert (pa + n) % TWO64 == pa + n && (ramBase as int + |ram|) % TWO64 == ramBase as int + |ram|;
    assert (pa - ramBase as int) % TWO64 == pa - ramBase as int;
  }

  /** Data stored at a virtual address is what a later load and an instruction fetch there deliver, as long as
      the map describes the RAM; one access may not straddle the end of the address space. */
  lemma StoreIsSeen(m: Map, on: bool, ramBase: u64, ram: seq<u8>, va: u64, n: nat, v: u64)
    requires WordSize(n) && Describes(m, ramBase, |ram|)
    requires Resolved(m, on, va) as int + n < TWO64
    requires Target(m, on, ramBase, |ram|, va, n).Ram?
    ensures var off := Target(m, on, ramBase, |ram|, va, n).off;
            && off + n <= |ram|
            && var after := Blit(ram, off, Encode(v, n));
               && Decode(after, off, n) == Low(v, n)
               && Fetch(m, on, ramBase, after, va, n) == Delivered(Encode(v, n))
  {
    hide Encode, Decode, Low, Fetch, Target, Resolved;
    var off := Target(m, on, ramBase, |ram|, va, n).off;
    TargetFetched(m, on, ramBase, ram, va, n);
    TargetFetched(m, on, ramBase, Blit(ram, off, Encode(v, n)), va, n);
    EncodeDecodes(Blit(ram, off, Encode(v, n)), off, v, n);
  }

  class Mmu {
    var map_: Map
    const ramBase: u64
    const ram: array<u8>

    constructor (ramBase: u64, ram: array<u8>)
      ensures map_ == Map(0, 0, 0, 0) && this.ramBase == ramBase && this.ram == ram
    {
      map_ := Map(0, 0, 0, 0);
      this.ramBase, this.ram := ramBase, ram;
    }

    /** tcg_mmu_set_identity_map */
    method SetIdentityMap(virtBase: u64, physBase: u64, base: u64, size: u64)
      modifies this
      ensures map_ == Map(virtBase, physBase, base, size)
    {
      map_ := Map(virtBase, physBase, base, size);
    }

    /** tcg_mmu_read, where its copy stays inside the RAM buffer */
    method Read(on: bool, va: u64, n: nat) returns (ok: bool, bytes: seq<u8>)
      requires ram.Length < TWO64 && !Fetch(map_, on, ramBase, ram[..], va, n).Undefined?
      ensures Fetch(map_, on, ramBase, ram[..], va, n) == if ok then Delivered(bytes) else Refused
    {
      var pa := va;
      if on {
        pa := Translate(map_, va);
        if IsMmio(map_, pa) {
          return false, [];
        }
      }
      var off := (pa as int - ramBase as int) % TWO64;
      if (off + n) % TWO64 > ram.Length {
        return false, [];
      }
      return true, ram[off..off + n];
    }

    /** tcg_mmu_resolve for an access that does not straddle the end of the address space; `device` is
        what a device read would return. */
    method Resolve(on: bool, va: u64, n: nat, v: u64, isWrite: bool, device: u64) returns (access: Access, val: u64)
      requires ramBase as int + ram.Length < TWO64 && Resolved(map_, on, va) as int + n < TWO64
      modifies ram
      ensures access == Target(map_, on, ramBase, ram.Length, va, n)
      ensures isWrite && access.Ram? ==> access.off + n <= ram.Length && ram[..] == Blit(old(ram[..]), access.off, Encode(v, n))
      ensures !(isWrite && access.Ram?) ==> ram[..] == old(ram[..])
      ensures !isWrite && access.Ram? ==> access.off + n <= ram.Length && val == Decode(ram[..], access.off, n)
      ensures !isWrite && access.Mmio? ==> val == device
    {
      hide Encode, Decode, Blit, Translate;
      val := v;
      var pa := if on then Translate(map_, va) else va;
      if pa < ramBase || pa as int + n > ramBase as int + ram.Length {
        if !isWrite {
          val := device;
        }
        return Mmio(pa), val;
      }
      if !WordSize(n) {
        return BadSize, val;
      }
      var off := pa as int - ramBase as int;
      if isWrite {
        Store(ram, off, Encode(v, n));
      } else {
        val := Decode(ram[..], off, n);
      }
      return Ram(off), val;
    }
  }
}
