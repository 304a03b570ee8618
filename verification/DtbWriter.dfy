/** The token writer of core/memory/dtb.c: a cursor into the structure block and
    an append-only strings block at the far end of the same buffer.
 */
module DtbWriter {
  import opened Bytes
  import opened DeviceTree

  /** `b1` is `b0` with `bs` at `pos` and, beyond it, `ss` at `sp`. */
  ghost predicate Emitted(b0: seq<u8>, b1: seq<u8>, pos: nat, bs: seq<u8>, sp: nat, ss: seq<u8>) {
    && pos + |bs| <= sp && sp + |ss| <= |b0|
    && b1 == Blit(Blit(b0, pos, bs), sp, ss)
  }

  lemma EmittedThen(b0: seq<u8>, b1: seq<u8>, b2: seq<u8>, pos: nat, x: seq<u8>, y: seq<u8>, sp: nat, u: seq<u8>, v: seq<u8>)
    requires Emitted(b0, b1, pos, x, sp, u)
    requires Emitted(b1, b2, pos + |x|, y, sp + |u|, v)
    requires pos + |x| + |y| <= sp
    ensures Emitted(b0, b2, pos, x + y, sp, u + v)
  {
    var c := Blit(b0, pos, x);
    BlitCommute(c, pos + |x|, y, sp, u);
    BlitConcat(b0, pos, x, y);
    BlitConcat(Blit(b0, pos, x + y), sp, u, v);
  }

  /** Storing only into the structure block. */
  lemma EmittedStruct(b0: seq<u8>, pos: nat, bs: seq<u8>, sp: nat)
    requires pos + |bs| <= sp <= |b0|
    ensures Emitted(b0, Blit(b0, pos, bs), pos, bs, sp, [])
  {
  }

  lemma EncodePropShape(name: seq<u8>, data: seq<u8>, so: nat)
    requires |data| < 0x1_0000_0000
    ensures EncodeProp(Prop(name, data), so) == Be32(FDT_PROP) + Be32(|data|) + (Be32(so % TWO32) + (data + Pad(|data|)))
    ensures |EncodeProp(Prop(name, data), so)| == 12 + |data| + |Pad(|data|)|
  {
    hide Be32, Pad;
  }

  lemma SamePad(m: nat, n: nat)
    requires m % 4 == n % 4
    ensures Pad(m) == Pad(n)
  {
  }

  /** A name stored between two consecutive structure-block writes. */
  lemma EmittedProp(b0: seq<u8>, b1: seq<u8>, b2: seq<u8>, pos: nat, x: seq<u8>, y: seq<u8>, sp: nat, u: seq<u8>)
    requires pos + |x| + |y| <= sp && sp + |u| <= |b0|
    requires b1 == Blit(Blit(b0, pos, x), sp, u)
    requires b2 == Blit(b1, pos + |x|, y)
    ensures Emitted(b0, b2, pos, x + y, sp, u)
  {
    hide Blit;
    BlitCommute(Blit(b0, pos, x), pos + |x|, y, sp, u);
    BlitConcat(b0, pos, x, y);
  }

  class Writer {
    const buf: array<u8>
    var pos: nat
    var stroff: nat
    var strstart: nat
    var depth: int

    constructor (buf: array<u8>)
      ensures this.buf == buf && pos == 0 && stroff == 0 && strstart == 0 && depth == 0
    {
      this.buf := buf;
      pos, stroff, strstart, depth := 0, 0, 0, 0;
    }

    method U32(v: u32)
      requires pos + 4 <= buf.Length
      modifies this`pos, buf
      ensures buf[..] == Blit(old(buf[..]), old(pos), Be32(v)) && pos == old(pos) + 4
    {
      Store(buf, pos, Be32(v));
      pos := pos + 4;
    }

    method Align4()
      requires pos + |Pad(pos)| <= buf.Length
      modifies this`pos, buf
      ensures buf[..] == Blit(old(buf[..]), old(pos), Pad(old(pos))) && pos == old(pos) + |Pad(old(pos))|
    {
      hide Blit;
      ghost var p0, b0 := pos, buf[..];
      BlitNothing(b0, p0);
      assert Zeros(0) == [];
      while pos % 4 != 0
        invariant p0 <= pos <= p0 + |Pad(p0)|
        invariant buf[..] == Blit(b0, p0, Zeros(pos - p0))
        decreases p0 + |Pad(p0)| - pos
      {
        Store(buf, pos, [0]);
        pos := pos + 1;
        BlitConcat(b0, p0, Zeros(pos - 1 - p0), [0]);
        assert Zeros(pos - 1 - p0) + [0] == Zeros(pos - p0);
      }
    }

    /** Copies raw bytes; `w_string` is this on a C string. */
    method Copy(bs: seq<u8>)
      requires pos + |bs| <= buf.Length
      modifies this`pos, buf
      ensures buf[..] == Blit(old(buf[..]), old(pos), bs) && pos == old(pos) + |bs|
    {
      Store(buf, pos, bs);
      pos := pos + |bs|;
    }

    /** Appends a name to the strings block; nothing is shared with earlier names. */
    method AddString(s: seq<u8>) returns (off: u32)
      requires strstart + stroff + |CStr(s)| <= buf.Length
      modifies this`stroff, buf
      ensures buf[..] == Blit(old(buf[..]), strstart + old(stroff), CStr(s))
      ensures off as int == old(stroff) % TWO32 && stroff == old(stroff) + |CStr(s)|
    {
      off := stroff % TWO32;
      Store(buf, strstart + stroff, CStr(s));
      stroff := stroff + |CStr(s)|;
    }

    method BeginNode(name: seq<u8>)
      requires pos % 4 == 0 && pos + 4 + |Padded(CStr(name))| <= buf.Length
      modifies this`pos, this`depth, buf
      ensures buf[..] == Blit(old(buf[..]), old(pos), Be32(FDT_BEGIN_NODE) + Padded(CStr(name)))
      ensures pos == old(pos) + 4 + |Padded(CStr(name))| && depth == old(depth) + 1
    {
      hide Blit, Be32, Pad;
      ghost var b0, p0 := buf[..], pos;
      U32(FDT_BEGIN_NODE);
      Copy(CStr(name));
      SamePad(pos, |CStr(name)|);
      Align4();
      BlitConcat(b0, p0, Be32(FDT_BEGIN_NODE), CStr(name));
      BlitConcat(b0, p0, Be32(FDT_BEGIN_NODE) + CStr(name), Pad(|CStr(name)|));
      assert Be32(FDT_BEGIN_NODE) + CStr(name) + Pad(|CStr(name)|) == Be32(FDT_BEGIN_NODE) + Padded(CStr(name));
      depth := depth + 1;
    }

    method EndNode()
      requires pos + 4 <= buf.Length
      modifies this`pos, this`depth, buf
      ensures buf[..] == Blit(old(buf[..]), old(pos), Be32(FDT_END_NODE))
      ensures pos == old(pos) + 4 && depth == old(depth) - 1
    {
      U32(FDT_END_NODE);
      depth := depth - 1;
    }

    /** The value part of w_prop: an empty value writes nothing and needs no padding. */
    method PutValue(data: seq<u8>)
      requires pos % 4 == 0 && pos + |data| + |Pad(|data|)| <= buf.Length
      modifies this`pos, buf
      ensures buf[..] == Blit(old(buf[..]), old(pos), data + Pad(|data|))
      ensures pos == old(pos) + |data| + |Pad(|data|)|
    {
      hide Blit;
      ghost var b0, p0 := buf[..], pos;
      if |data| > 0 {
        Copy(data);
        SamePad(pos, |data|);
        Align4();
        BlitConcat(b0, p0, data, Pad(|data|));
      } else {
        assert data + Pad(|data|) == [];
        BlitNothing(b0, p0);
      }
    }

    method PutProp(name: seq<u8>, data: seq<u8>)
      requires pos % 4 == 0 && |data| < 0x1_0000_0000
      requires pos + |EncodeProp(Prop(name, data), stroff)| <= strstart + stroff
      requires strstart + stroff + |CStr(name)| <= buf.Length
      modifies this`pos, this`stroff, buf
      ensures Emitted(old(buf[..]), buf[..], old(pos), EncodeProp(Prop(name, data), old(stroff)),
                      strstart + old(stroff), CStr(name))
      ensures pos == old(pos) + |EncodeProp(Prop(name, data), old(stroff))|
      ensures stroff == old(stroff) + |CStr(name)|
    {
      hide *;
      ghost var b0, p0, so, sp := buf[..], pos, stroff, strstart + stroff;
      EncodePropShape(name, data, so);
      PropWords(|data|);
      var off := AddString(name);
      ghost var b1 := buf[..];
      PropBody(off, data);
      EmittedProp(b0, b1, buf[..], p0, Be32(FDT_PROP) + Be32(|data|), Be32(off) + (data + Pad(|data|)), sp, CStr(name));
    }

    method PropWords(len: u32)
      requires pos + 8 <= buf.Length
      modifies this`pos, buf
      ensures buf[..] == Blit(old(buf[..]), old(pos), Be32(FDT_PROP) + Be32(len)) && pos == old(pos) + 8
    {
      ghost var b0 := buf[..];
      U32(FDT_PROP);
      U32(len);
      BlitConcat(b0, old(pos), Be32(FDT_PROP), Be32(len));
    }

    method PropBody(off: u32, data: seq<u8>)
      requires pos % 4 == 0 && pos + 4 + |data| + |Pad(|data|)| <= buf.Length
      modifies this`pos, buf
      ensures buf[..] == Blit(old(buf[..]), old(pos), Be32(off) + (data + Pad(|data|)))
      ensures pos == old(pos) + 4 + |data| + |Pad(|data|)|
    {
      hide Blit, Be32, Pad;
      ghost var b0 := buf[..];
      U32(off);
      PutValue(data);
      BlitConcat(b0, old(pos), Be32(off), data + Pad(|data|));
    }

    // ---- Emitting a whole tree -------------------------------------------

    method PutProps(ps: seq<Prop>)
      requires pos % 4 == 0 && forall p :: p in ps ==> |p.value| < TWO32
      requires pos + |EncodeProps(ps, stroff)| <= strstart + stroff
      requires strstart + stroff + |PropStrings(ps)| <= buf.Length
      modifies this`pos, this`stroff, buf
      ensures Emitted(old(buf[..]), buf[..], old(pos), EncodeProps(ps, old(stroff)), strstart + old(stroff), PropStrings(ps))
      ensures pos == old(pos) + |EncodeProps(ps, old(stroff))|
      ensures stroff == old(stroff) + |PropStrings(ps)|
      decreases |ps|
    {
      hide EncodeProp, Emitted, Blit, CStr;
      ghost var b0 := buf[..];
      if ps == [] {
        EmittedStruct(b0, pos, [], strstart + stroff);
        BlitNothing(b0, pos);
        return;
      }
      ghost var so := stroff;
      PutProp(ps[0].name, ps[0].value);
      ghost var b1 := buf[..];
      PutProps(ps[1..]);
      EmittedThen(b0, b1, buf[..], old(pos), EncodeProp(ps[0], so), EncodeProps(ps[1..], so + |ps[0].name| + 1),
                  strstart + so, CStr(ps[0].name), PropStrings(ps[1..]));
    }

    /** The call sequence of dtb_generate for one node: begin, properties, children, end. */
    method PutNode(n: Tree)
      requires pos % 4 == 0 && ValuesFit(n)
      requires pos + |EncodeNode(n, stroff)| <= strstart + stroff
      requires strstart + stroff + |NodeStrings(n)| <= buf.Length
      modifies this`pos, this`stroff, this`depth, buf
      ensures Emitted(old(buf[..]), buf[..], old(pos), EncodeNode(n, old(stroff)), strstart + old(stroff), NodeStrings(n))
      ensures pos == old(pos) + |EncodeNode(n, old(stroff))|
      ensures stroff == old(stroff) + |NodeStrings(n)|
      ensures depth == old(depth)
      decreases n, 1
    {
      hide Be32, Padded, CStr, EncodeProps, EncodeForest, PropStrings, ForestStrings, Emitted, Blit;
      ghost var so, sp, p0, b0 := stroff, strstart + stroff, pos, buf[..];
      ghost var x := Be32(FDT_BEGIN_NODE) + Padded(CStr(n.name));
      ghost var props, names := EncodeProps(n.props, so), PropStrings(n.props);
      ghost var kids, kidNames := EncodeForest(n.children, so + |names|), ForestStrings(n.children);
      BeginNode(n.name);
      EmittedStruct(b0, p0, x, sp);
      ghost var b1 := buf[..];
      PutProps(n.props);
      EmittedThen(b0, b1, buf[..], p0, x, props, sp, [], names);
      assert [] + names == names;
      ghost var b2 := buf[..];
      PutForest(n.children);
      EmittedThen(b0, b2, buf[..], p0, x + props, kids, sp, names, kidNames);
      ghost var b3 := buf[..];
      EndNode();
      EmittedStruct(b3, p0 + |x + props + kids|, Be32(FDT_END_NODE), sp + |names + kidNames|);
      EmittedThen(b0, b3, buf[..], p0, x + props + kids, Be32(FDT_END_NODE), sp, names + kidNames, []);
      assert names + kidNames + [] == NodeStrings(n);
      assert x + props + kids + Be32(FDT_END_NODE) == EncodeNode(n, so);
    }

    method PutForest(ns: seq<Tree>)
      requires pos % 4 == 0 && forall c :: c in ns ==> ValuesFit(c)
      requires pos + |EncodeForest(ns, stroff)| <= strstart + stroff
      requires strstart + stroff + |ForestStrings(ns)| <= buf.Length
      modifies this`pos, this`stroff, this`depth, buf
      ensures Emitted(old(buf[..]), buf[..], old(pos), EncodeForest(ns, old(stroff)), strstart + old(stroff), ForestStrings(ns))
      ensures pos == old(pos) + |EncodeForest(ns, old(stroff))|
      ensures stroff == old(stroff) + |ForestStrings(ns)|
      ensures depth == old(depth)
      decreases ns, 0
    {
      hide EncodeNode, NodeStrings, Emitted, Blit;
      ghost var b0 := buf[..];
      if ns == [] {
        EmittedStruct(b0, pos, [], strstart + stroff);
        BlitNothing(b0, pos);
        return;
      }
      ghost var so := stroff;
      PutNode(ns[0]);
      ghost var b1 := buf[..];
      PutForest(ns[1..]);
      EmittedThen(b0, b1, buf[..], old(pos), EncodeNode(ns[0], so), EncodeForest(ns[1..], so + |NodeStrings(ns[0])|),
                  strstart + so, NodeStrings(ns[0]), ForestStrings(ns[1..]));
    }
  }

  /** Every value has a length that the 32-bit length field can hold. */
  ghost predicate ValuesFit(n: Tree) {
    && (forall p :: p in n.props ==> |p.value| < TWO32)
    && (forall c :: c in n.children ==> ValuesFit(c))
  }
}
