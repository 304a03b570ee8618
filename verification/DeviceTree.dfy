/** The flattened device tree format of the Devicetree Specification v0.4
    (sections 5.4 and 5.5): trees, the structure and strings blocks that the
    generator of core/memory/dtb.c emits for them, and the recursive-descent
    reader of core/boot/apple/dtre.c as a function on byte blocks.
 */
module DeviceTree {
  import opened Bytes

  const FDT_BEGIN_NODE: u32 := 1
  const FDT_END_NODE: u32 := 2
  const FDT_PROP: u32 := 3
  const FDT_NOP: u32 := 4
  const FDT_END: u32 := 9

  datatype Prop = Prop(name: seq<u8>, value: seq<u8>)

  datatype Tree = Tree(name: seq<u8>, props: seq<Prop>, children: seq<Tree>)

  // ---- What the writer emits ---------------------------------------------

  /** Zero padding that takes a 4-aligned item of `n` bytes to the next 4-aligned position. */
  function Pad(n: nat): (s: seq<u8>)
    ensures |s| < 4 && (n + |s|) % 4 == 0
    ensures forall i :: 0 <= i < |s| ==> s[i] == 0
  {
    Zeros((4 - n % 4) % 4)
  }

  /** A name or value with its alignment padding. */
  function Padded(bs: seq<u8>): (s: seq<u8>)
    ensures |s| % 4 == 0 && |bs| <= |s| < |bs| + 4
  {
    bs + Pad(|bs|)
  }

  function PropStrings(ps: seq<Prop>): seq<u8> {
    if ps == [] then [] else CStr(ps[0].name) + PropStrings(ps[1..])
  }

  /** The strings a node contributes to the strings block, in emission order. */
  function NodeStrings(n: Tree): seq<u8>
    decreases n, 1
  {
    PropStrings(n.props) + ForestStrings(n.children)
  }

  function ForestStrings(ns: seq<Tree>): seq<u8>
    decreases ns, 0
  {
    if ns == [] then [] else NodeStrings(ns[0]) + ForestStrings(ns[1..])
  }

  lemma Aligned(m: nat, n: nat)
    requires m % 4 == 0 && n % 4 == 0
    ensures (m + n) % 4 == 0
  {
  }

  function PropWords(len: nat, so: nat): (s: seq<u8>)
    ensures |s| == 12
  {
    Be32(FDT_PROP) + Be32(len % TWO32) + Be32(so % TWO32)
  }

  function EncodeProp(p: Prop, so: nat): (s: seq<u8>)
    ensures |s| % 4 == 0
  {
    var words, value := PropWords(|p.value|, so), Padded(p.value);
    Aligned(|words|, |value|);
    words + value
  }

  function EncodeProps(ps: seq<Prop>, so: nat): (s: seq<u8>)
    ensures |s| % 4 == 0
  {
    if ps == [] then []
    else
      var first, rest := EncodeProp(ps[0], so), EncodeProps(ps[1..], so + |ps[0].name| + 1);
      Aligned(|first|, |rest|);
      first + rest
  }

  function NodeHead(name: seq<u8>): (s: seq<u8>)
    ensures |s| == 4 + |Padded(CStr(name))| && |s| % 4 == 0
  {
    Aligned(4, |Padded(CStr(name))|);
    Be32(FDT_BEGIN_NODE) + Padded(CStr(name))
  }

  /** The structure block of a node whose first property name lands at offset `so` of the strings block. */
  function EncodeNode(n: Tree, so: nat): (s: seq<u8>)
    ensures |s| % 4 == 0
    decreases n, 1
  {
    var head, props := NodeHead(n.name), EncodeProps(n.props, so);
    var kids := EncodeForest(n.children, so + |PropStrings(n.props)|);
    Aligned(|head|, |props|);
    Aligned(|head| + |props|, |kids|);
    Aligned(|head| + |props| + |kids|, 4);
    head + props + kids + Be32(FDT_END_NODE)
  }

  function EncodeForest(ns: seq<Tree>, so: nat): (s: seq<u8>)
    ensures |s| % 4 == 0
    decreases ns, 0
  {
    if ns == [] then []
    else
      var first, rest := EncodeNode(ns[0], so), EncodeForest(ns[1..], so + |NodeStrings(ns[0])|);
      Aligned(|first|, |rest|);
      first + rest
  }

  // ---- The reader --------------------------------------------------------

  /** `SetProp` is apple_dt_set_prop: the first property of that name takes the new value,
      a new name goes to the end of the list. */
  function SetProp(ps: seq<Prop>, p: Prop): (r: seq<Prop>)
    ensures forall q :: q in ps && q.name != p.name ==> q in r
    ensures p in r
    ensures |r| == |ps| || r == ps + [p]
  {
    if ps == [] then [p]
    else if ps[0].name == p.name then [p] + ps[1..]
    else [ps[0]] + SetProp(ps[1..], p)
  }

  /** `Null` is the reader's error return.  `Fault` marks a property whose 32-bit length wraps
      the bounds check, so that the source goes on to copy bytes from beyond the block. */
  datatype Outcome = Parsed(tree: Tree) | Null | Fault

  datatype Parse = Parse(outcome: Outcome, off: nat)

  /** The 32-bit `(n + 3) & ~3`. */
  function Align4(n: nat): (r: u32)
    ensures n < TWO32 - 3 ==> r as int == (n + 3) / 4 * 4
  {
    (n + 3) % TWO32 / 4 * 4
  }

  /** Bytes are read from `blk`; property names from `strs`, whose first `strSize` bytes are the strings block. */
  function ParseNode(blk: seq<u8>, strs: seq<u8>, strSize: nat, off: nat): (r: Parse)
    requires |blk| < TWO31 && off <= |blk| && strSize <= |strs|
    ensures off <= r.off <= |blk|
    ensures off + 4 <= |blk| && Be32At(blk, off) == FDT_BEGIN_NODE ==> off + 4 <= r.off
    decreases |blk| - off, 0
  {
    if off + 4 > |blk| || Be32At(blk, off) != FDT_BEGIN_NODE then Parse(Null, off)
    else if off + 4 >= |blk| then Parse(Null, off + 4)
    else
      var nameLen := NulPos(blk, off + 4) - (off + 4) + 1;
      if off + 4 + Align4(nameLen) as int > |blk| then Parse(Null, off + 4)
      else ParseItems(blk, strs, strSize, off + 4 + Align4(nameLen) as int, Tree(CStrAt(blk, off + 4), [], []))
  }

  /** One turn of the reader's loop over properties, children and terminators. */
  function ParseItems(blk: seq<u8>, strs: seq<u8>, strSize: nat, off: nat, node: Tree): (r: Parse)
    requires |blk| < TWO31 && off <= |blk| && strSize <= |strs|
    ensures off <= r.off <= |blk|
    decreases |blk| - off, 1
  {
    if off + 4 > |blk| then Parse(Parsed(node), off)
    else
      var token := Be32At(blk, off);
      if token == FDT_PROP then
        if off + 12 > |blk| then Parse(Parsed(node), off + 4)
        else
          var len := Be32At(blk, off + 4);
          var nameOff := Be32At(blk, off + 8);
          var end := (off + 12 + Align4(len) as int) % TWO32;
          if nameOff as int >= strSize || end > |blk| then Parse(Parsed(node), off + 12)
          else if off + 12 + len as int > |blk| then Parse(Fault, off + 12)
          else
            var p := Prop(CStrAt(strs, nameOff), blk[off + 12..off + 12 + len as int]);
            ParseItems(blk, strs, strSize, end, node.(props := SetProp(node.props, p)))
      else if token == FDT_BEGIN_NODE then
        var c := ParseNode(blk, strs, strSize, off);
        match c.outcome
        case Fault => c
        case Null => ParseItems(blk, strs, strSize, c.off, node)
        case Parsed(t) => ParseItems(blk, strs, strSize, c.off, node.(children := node.children + [t]))
      else if token == FDT_END_NODE then Parse(Parsed(node), off + 4)
      else if token == FDT_NOP then ParseItems(blk, strs, strSize, off + 4, node)
      else Parse(Parsed(node), off)
  }

  // ---- When the reader stays inside its block -----------------------------

  /** A property at 4-aligned position `v` slips past the 32-bit bounds check although its value
      overruns the block exactly when its padded end does not fit 32 bits. */
  lemma PropSlipsExactly(v: nat, len: u32, size: nat)
    requires v % 4 == 0 && v <= size < TWO31
    ensures (v + Align4(len) as int) % TWO32 <= size && v + len as int > size <==> v + len as int + 3 >= TWO32
  {
    if len as int < TWO32 - 3 {
      assert Align4(len) as int == (len as int + 3) / 4 * 4;
    } else {
      assert Align4(len) == 0;
    }
  }

  /** The cursor after a padded item of `n` bytes at an aligned position is aligned, even if the sum wraps. */
  lemma EndAligned(v: nat, n: nat)
    requires v % 4 == 0
    ensures (v + Align4(n) as int) % TWO32 % 4 == 0 && (v + Align4(n) as int) % 4 == 0
  {
    hide Align4;
    Align4Whole(n);
    var s := v + Align4(n) as int;
    WrapWhole(s);
  }

  lemma WrapWhole(s: nat)
    requires s % 4 == 0
    ensures s % TWO32 % 4 == 0
  {
    var q, r := s / TWO32, s % TWO32;
    assert s == TWO32 * q + r;
    assert s - r == 4 * (0x4000_0000 * q);
  }

  lemma Align4Whole(n: nat)
    ensures Align4(n) % 4 == 0
  {
  }

  predicate OnFour(n: nat) { n % 4 == 0 }

  /** The cursor after a token, a property header and a child's head. */
  lemma NextFour(off: nat)
    requires OnFour(off)
    ensures OnFour(off + 4) && OnFour(off + 12)
  {
  }

  lemma NameFour(off: nat, n: nat)
    requires OnFour(off)
    ensures OnFour(off + 4 + Align4(n) as int)
  {
    hide Align4;
    EndAligned(off + 4, n);
  }

  lemma PropFour(off: nat, len: u32, size: nat)
    requires OnFour(off) && off + 12 + len as int <= size < TWO31
    ensures var end := (off + 12 + Align4(len) as int) % TWO32; OnFour(end) && end >= off + 12
  {
    hide Align4;
    PropEnds(off + 12, len, size);
  }

  lemma {:induction false} NodeOnFour(blk: seq<u8>, strs: seq<u8>, strSize: nat, off: nat)
    requires |blk| < TWO31 && off <= |blk| && OnFour(off) && strSize <= |strs|
    ensures OnFour(ParseNode(blk, strs, strSize, off).off)
    decreases |blk| - off, 0
  {
    hide Be32At, NulPos, CStrAt, Align4, ParseItems, OnFour;
    NextFour(off);
    if off + 4 < |blk| && Be32At(blk, off) == FDT_BEGIN_NODE {
      var nameLen := NulPos(blk, off + 4) - (off + 4) + 1;
      var o := off + 4 + Align4(nameLen) as int;
      NameFour(off, nameLen);
      if o <= |blk| {
        ItemsOnFour(blk, strs, strSize, o, Tree(CStrAt(blk, off + 4), [], []));
      }
    }
  }

  lemma {:induction false} ItemsOnFour(blk: seq<u8>, strs: seq<u8>, strSize: nat, off: nat, node: Tree)
    requires |blk| < TWO31 && off <= |blk| && OnFour(off) && strSize <= |strs|
    ensures OnFour(ParseItems(blk, strs, strSize, off, node).off)
    decreases |blk| - off, 1
  {
    hide Be32At, NulPos, CStrAt, SetProp, ParseNode, Align4, OnFour;
    NextFour(off);
    if off + 4 <= |blk| {
      var token := Be32At(blk, off);
      if token == FDT_PROP {
        if off + 12 <= |blk| {
          var len, nameOff := Be32At(blk, off + 4), Be32At(blk, off + 8);
          var end := (off + 12 + Align4(len) as int) % TWO32;
          if !(nameOff as int >= strSize || end > |blk|) && off + 12 + len as int <= |blk| {
            PropFour(off, len, |blk|);
            var p := Prop(CStrAt(strs, nameOff), blk[off + 12..off + 12 + len as int]);
            ItemsOnFour(blk, strs, strSize, end, node.(props := SetProp(node.props, p)));
          }
        }
      } else if token == FDT_BEGIN_NODE {
        NodeOnFour(blk, strs, strSize, off);
        var c := ParseNode(blk, strs, strSize, off);
        if c.outcome.Null? {
          ItemsOnFour(blk, strs, strSize, c.off, node);
        } else if c.outcome.Parsed? {
          ItemsOnFour(blk, strs, strSize, c.off, node.(children := node.children + [c.outcome.tree]));
        }
      } else if token == FDT_NOP {
        ItemsOnFour(blk, strs, strSize, off + 4, node);
      }
    }
  }

  /** The reader's cursor stays 4-aligned. */
  lemma StaysAligned(blk: seq<u8>, strs: seq<u8>, strSize: nat, off: nat)
    requires |blk| < TWO31 && off <= |blk| && off % 4 == 0 && strSize <= |strs|
    ensures ParseNode(blk, strs, strSize, off).off % 4 == 0
  {
    hide ParseNode;
    NodeOnFour(blk, strs, strSize, off);
  }

  lemma PropEnds(v: nat, len: u32, size: nat)
    requires v % 4 == 0 && v + len as int <= size < TWO31
    ensures (v + Align4(len) as int) % TWO32 % 4 == 0 && (v + Align4(len) as int) % TWO32 >= v
  {
    hide Align4;
    EndAligned(v, len as nat);
    PropAdvances(v, len, size);
  }

  /** A value that lies in the block moves the cursor on. */
  lemma PropAdvances(v: nat, len: u32, size: nat)
    requires v + len as int <= size < TWO31
    ensures (v + Align4(len) as int) % TWO32 == v + Align4(len) as int >= v + len as int
  {
  }

  /** No property of the block slips: wherever a 4-aligned position holds a PROP token, the padded end of the
      value after it fits 32 bits. */
  ghost predicate NoneSlips(blk: seq<u8>) {
    forall o {:trigger Be32At(blk, o)} :: 0 <= o <= |blk| - 12 && o % 4 == 0 && Be32At(blk, o) == FDT_PROP ==>
      o + 12 + Be32At(blk, o + 4) as int + 3 < TWO32
  }

  /** A property that passes the bounds check lies in the block, and the cursor after it is aligned and further on. */
  lemma PropStays(blk: seq<u8>, off: nat)
    requires |blk| < TWO31 && off % 4 == 0 && off + 12 <= |blk| && NoneSlips(blk) && Be32At(blk, off) == FDT_PROP
    requires (off + 12 + Align4(Be32At(blk, off + 4) as nat) as int) % TWO32 <= |blk|
    ensures var len := Be32At(blk, off + 4) as int;
            var end := (off + 12 + Align4(len) as int) % TWO32;
            off + 12 + len <= |blk| && end >= off + 12 && end % 4 == 0
  {
    hide Be32At, Align4;
    var len := Be32At(blk, off + 4);
    PropSlipsExactly(off + 12, len, |blk|);
    EndAligned(off + 12, len as nat);
    PropAdvances(off + 12, len, |blk|);
  }

  /** Then no run of the reader leaves the block, whatever else the block holds. */
  lemma {:induction false} NoFault(blk: seq<u8>, strs: seq<u8>, strSize: nat, off: nat)
    requires |blk| < TWO31 && off <= |blk| && off % 4 == 0 && strSize <= |strs| && NoneSlips(blk)
    ensures !ParseNode(blk, strs, strSize, off).outcome.Fault?
    decreases |blk| - off, 0
  {
    hide Be32At, NulPos, CStrAt, Align4, ParseItems;
    if off + 4 < |blk| && Be32At(blk, off) == FDT_BEGIN_NODE {
      var nameLen := NulPos(blk, off + 4) - (off + 4) + 1;
      var o := off + 4 + Align4(nameLen) as int;
      EndAligned(off + 4, nameLen);
      if o <= |blk| {
        NoFaultItems(blk, strs, strSize, o, Tree(CStrAt(blk, off + 4), [], []));
      }
    }
  }

  lemma {:induction false} NoFaultItems(blk: seq<u8>, strs: seq<u8>, strSize: nat, off: nat, node: Tree)
    requires |blk| < TWO31 && off <= |blk| && off % 4 == 0 && strSize <= |strs| && NoneSlips(blk)
    ensures !ParseItems(blk, strs, strSize, off, node).outcome.Fault?
    decreases |blk| - off, 1
  {
    hide Be32At, NulPos, CStrAt, SetProp, ParseNode, Align4, NoneSlips;
    if off + 4 <= |blk| {
      var token := Be32At(blk, off);
      if token == FDT_PROP {
        if off + 12 <= |blk| {
          var len, nameOff := Be32At(blk, off + 4), Be32At(blk, off + 8);
          var end := (off + 12 + Align4(len) as int) % TWO32;
          if nameOff as int < strSize && end <= |blk| {
            PropStays(blk, off);
            var p := Prop(CStrAt(strs, nameOff), blk[off + 12..off + 12 + len as int]);
            NoFaultItems(blk, strs, strSize, end, node.(props := SetProp(node.props, p)));
          }
        }
      } else if token == FDT_BEGIN_NODE {
        NoFault(blk, strs, strSize, off);
        StaysAligned(blk, strs, strSize, off);
        var c := ParseNode(blk, strs, strSize, off);
        if c.outcome.Null? {
          NoFaultItems(blk, strs, strSize, c.off, node);
        } else {
          NoFaultItems(blk, strs, strSize, c.off, node.(children := node.children + [c.outcome.tree]));
        }
      } else if token == FDT_NOP {
        NoFaultItems(blk, strs, strSize, off + 4, node);
      }
    }
  }

  /** A node whose one property claims 0xFFFFFFFF bytes: the reader copies from outside the block. */
  lemma FaultExample(blk: seq<u8>, strs: seq<u8>)
    requires blk == Be32(FDT_BEGIN_NODE) + [0, 0, 0, 0] + (Be32(FDT_PROP) + Be32(0xFFFF_FFFF) + Be32(0))
    requires strs == [0]
    ensures ParseNode(blk, strs, 1, 0).outcome == Fault
  {
    assert Be32At(blk, 0) == FDT_BEGIN_NODE && Be32At(blk, 8) == FDT_PROP;
    assert Be32At(blk, 12) == 0xFFFF_FFFF && Be32At(blk, 16) == 0;
    assert NulPos(blk, 4) == 4;
  }

  const HEADER_SIZE: nat := 40

  /** apple_dt_load: the header's magic and block bounds (32-bit sums), then the root node.
      `Fault` also covers sums that wrap, after which the source reads outside the blob. */
  function LoadTree(data: seq<u8>): Outcome
    requires |data| < TWO31
  {
    if |data| < HEADER_SIZE then Null
    else if Be32At(data, 0) != 0xEDFE_0DD0 && Be32At(data, 0) != 0xD00D_FEED then Null
    else
      var offStruct, offStrings := Be32At(data, 8) as int, Be32At(data, 12) as int;
      var sizeStruct, sizeStrings := Be32At(data, 36) as int, Be32At(data, 32) as int;
      if (offStruct + sizeStruct) % TWO32 > |data| || (offStrings + sizeStrings) % TWO32 > |data| then Null
      else if offStruct + sizeStruct > |data| || offStrings + sizeStrings > |data| then Fault
      else ParseNode(data[offStruct..offStruct + sizeStruct], data[offStrings..], sizeStrings, 0).outcome
  }

  // ---- Round trip --------------------------------------------------------

  /** Names are C strings and the property names of one node are distinct. */
  ghost predicate WellFormed(n: Tree) {
    && 0 !in n.name
    && (forall p :: p in n.props ==> 0 !in p.name)
    && (forall i, j :: 0 <= i < j < |n.props| ==> n.props[i].name != n.props[j].name)
    && (forall c :: c in n.children ==> WellFormed(c))
  }

  lemma SetPropFresh(ps: seq<Prop>, p: Prop)
    requires forall q :: q in ps ==> q.name != p.name
    ensures SetProp(ps, p) == ps + [p]
  {
    if ps != [] {
      SetPropFresh(ps[1..], p);
      assert ps == [ps[0]] + ps[1..];
    }
  }

  lemma {:induction false} ParseProps(blk: seq<u8>, strs: seq<u8>, strSize: nat, off: nat, node: Tree, ps: seq<Prop>, so: nat)
    requires |blk| < TWO31 && strSize <= |strs| < TWO32
    requires At(blk, off, EncodeProps(ps, so))
    requires At(strs, so, PropStrings(ps)) && so + |PropStrings(ps)| <= strSize
    requires forall p :: p in ps ==> 0 !in p.name
    requires forall i, j :: 0 <= i < j < |ps| ==> ps[i].name != ps[j].name
    requires forall p, q :: p in ps && q in node.props ==> p.name != q.name
    ensures ParseItems(blk, strs, strSize, off, node)
         == ParseItems(blk, strs, strSize, off + |EncodeProps(ps, so)|, node.(props := node.props + ps))
    decreases |ps|
  {
    hide At, EncodeProp, ParseItems, CStr;
    if ps == [] {
      assert node.props + ps == node.props;
    } else {
      var p, rest := ps[0], ps[1..];
      var head := EncodeProp(p, so);
      var tail := EncodeProps(rest, so + |p.name| + 1);
      AtConcat(blk, off, head, tail);
      AtConcat(strs, so, CStr(p.name), PropStrings(rest));
      ParseProp(blk, strs, strSize, off, node, p, so);
      var next := node.(props := node.props + [p]);
      assert next.props + rest == node.props + ps;
      ParseProps(blk, strs, strSize, off + |head|, next, rest, so + |p.name| + 1);
    }
  }

  lemma PaddedAt(mem: seq<u8>, off: nat, bs: seq<u8>)
    requires At(mem, off, Padded(bs))
    ensures At(mem, off, bs)
    ensures off + |Padded(bs)| <= |mem| && mem[off..off + |bs|] == bs
    ensures |Padded(bs)| == (|bs| + 3) / 4 * 4
  {
    AtConcat(mem, off, bs, Pad(|bs|));
  }

  /** The fields of an emitted property read back. */
  lemma PropAt(blk: seq<u8>, off: nat, p: Prop, so: nat)
    requires At(blk, off, EncodeProp(p, so)) && |blk| < TWO31 && so < TWO32
    ensures Be32At(blk, off) == FDT_PROP
    ensures Be32At(blk, off + 4) as int == |p.value|
    ensures Be32At(blk, off + 8) as int == so
    ensures Align4(|p.value|) as int == |EncodeProp(p, so)| - 12
    ensures off + 12 + |p.value| <= off + |EncodeProp(p, so)| <= |blk|
    ensures blk[off + 12..off + 12 + |p.value|] == p.value
  {
    hide At, Be32, Be32At, Padded, Pad;
    var a, b, c, d := Be32(FDT_PROP), Be32(|p.value| % TWO32), Be32(so % TWO32), Padded(p.value);
    AtConcat(blk, off, PropWords(|p.value|, so), d);
    AtConcat(blk, off, a + b, c);
    AtConcat(blk, off, a, b);
    PaddedAt(blk, off + 12, p.value);
    Be32RoundTrip(blk, off, FDT_PROP);
    Be32RoundTrip(blk, off + 4, |p.value| % TWO32);
    Be32RoundTrip(blk, off + 8, so % TWO32);
  }

  /** Where the parts of an emitted node stand: properties, children, END_NODE. */
  lemma NodeParts(blk: seq<u8>, off: nat, n: Tree, so: nat) returns (o1: nat, o2: nat, o3: nat)
    requires At(blk, off, EncodeNode(n, so))
    ensures At(blk, off, Be32(FDT_BEGIN_NODE)) && At(blk, off + 4, Padded(CStr(n.name)))
    ensures o1 == off + 4 + |Padded(CStr(n.name))| && At(blk, o1, EncodeProps(n.props, so))
    ensures o2 == o1 + |EncodeProps(n.props, so)|
    ensures At(blk, o2, EncodeForest(n.children, so + |PropStrings(n.props)|))
    ensures o3 == o2 + |EncodeForest(n.children, so + |PropStrings(n.props)|)|
    ensures At(blk, o3, Be32(FDT_END_NODE)) && o3 + 4 == off + |EncodeNode(n, so)| <= |blk|
  {
    hide At, Be32, Padded, EncodeProps, EncodeForest, PropStrings, CStr;
    var a, b, h, c := Be32(FDT_BEGIN_NODE), Padded(CStr(n.name)), NodeHead(n.name), EncodeProps(n.props, so);
    var d, e := EncodeForest(n.children, so + |PropStrings(n.props)|), Be32(FDT_END_NODE);
    AtConcat(blk, off, h + c + d, e);
    AtConcat(blk, off, h + c, d);
    AtConcat(blk, off, h, c);
    AtConcat(blk, off, a, b);
    o1, o2, o3 := off + |h|, off + |h| + |c|, off + |h| + |c| + |d|;
  }

  /** The reader's first step over an emitted node: token and name. */
  lemma ParseHeader(blk: seq<u8>, strs: seq<u8>, strSize: nat, off: nat, name: seq<u8>)
    requires |blk| < TWO31 && strSize <= |strs|
    requires At(blk, off, Be32(FDT_BEGIN_NODE)) && At(blk, off + 4, Padded(CStr(name))) && 0 !in name
    ensures off + 4 + |Padded(CStr(name))| <= |blk|
    ensures ParseNode(blk, strs, strSize, off)
         == ParseItems(blk, strs, strSize, off + 4 + |Padded(CStr(name))|, Tree(name, [], []))
  {
    hide At, Be32, Be32At, Padded, ParseItems, NulPos, CStrAt;
    Be32RoundTrip(blk, off, FDT_BEGIN_NODE);
    PaddedAt(blk, off + 4, CStr(name));
    CStrRoundTrip(blk, off + 4, name);
  }

  /** The reader's step over an emitted property. */
  lemma ParseProp(blk: seq<u8>, strs: seq<u8>, strSize: nat, off: nat, node: Tree, p: Prop, so: nat)
    requires |blk| < TWO31 && strSize <= |strs| < TWO32
    requires At(blk, off, EncodeProp(p, so))
    requires At(strs, so, CStr(p.name)) && so < strSize && 0 !in p.name
    requires forall q :: q in node.props ==> q.name != p.name
    ensures off + |EncodeProp(p, so)| <= |blk|
    ensures ParseItems(blk, strs, strSize, off, node)
         == ParseItems(blk, strs, strSize, off + |EncodeProp(p, so)|, node.(props := node.props + [p]))
  {
    hide At, Be32At, EncodeProp, SetProp, NulPos, CStrAt, CStr, ParseNode, Align4;
    PropAt(blk, off, p, so);
    CStrRoundTrip(strs, so, p.name);
    SetPropFresh(node.props, p);
    assert (off + |EncodeProp(p, so)|) % TWO32 == off + |EncodeProp(p, so)|;
  }

  /** Reading an emitted node gives the node back and stops exactly past its END_NODE. */
  lemma {:induction false} ParseEncoded(blk: seq<u8>, strs: seq<u8>, strSize: nat, off: nat, n: Tree, so: nat)
    requires |blk| < TWO31 && strSize <= |strs| < TWO32
    requires At(blk, off, EncodeNode(n, so))
    requires At(strs, so, NodeStrings(n)) && so + |NodeStrings(n)| <= strSize
    requires WellFormed(n)
    ensures ParseNode(blk, strs, strSize, off) == Parse(Parsed(n), off + |EncodeNode(n, so)|)
    decreases n, 1
  {
    hide At, Be32, Be32At, Padded, EncodeNode, EncodeProps, EncodeForest, PropStrings, ForestStrings, CStr, ParseNode;
    var o1, o2, o3 := NodeParts(blk, off, n, so);
    AtConcat(strs, so, PropStrings(n.props), ForestStrings(n.children));
    ParseHeader(blk, strs, strSize, off, n.name);
    var n0 := Tree(n.name, [], []);
    ParseProps(blk, strs, strSize, o1, n0, n.props, so);
    assert [] + n.props == n.props;
    var n1 := Tree(n.name, n.props, []);
    ParseForest(blk, strs, strSize, o2, n1, n.children, so + |PropStrings(n.props)|);
    assert [] + n.children == n.children;
    Be32RoundTrip(blk, o3, FDT_END_NODE);
  }

  /** A child that reads as a tree is appended. */
  lemma ChildAppended(blk: seq<u8>, strs: seq<u8>, strSize: nat, off: nat, node: Tree, t: Tree, end: nat)
    requires |blk| < TWO31 && off + 4 <= |blk| && end <= |blk| && strSize <= |strs| && Be32At(blk, off) == FDT_BEGIN_NODE
    requires ParseNode(blk, strs, strSize, off) == Parse(Parsed(t), end)
    ensures ParseItems(blk, strs, strSize, off, node)
         == ParseItems(blk, strs, strSize, end, node.(children := node.children + [t]))
  {
    hide Be32At, ParseNode;
  }

  lemma {:induction false} ParseForest(blk: seq<u8>, strs: seq<u8>, strSize: nat, off: nat, node: Tree, ns: seq<Tree>, so: nat)
    requires |blk| < TWO31 && strSize <= |strs| < TWO32
    requires At(blk, off, EncodeForest(ns, so))
    requires At(strs, so, ForestStrings(ns)) && so + |ForestStrings(ns)| <= strSize
    requires forall c :: c in ns ==> WellFormed(c)
    ensures ParseItems(blk, strs, strSize, off, node)
         == ParseItems(blk, strs, strSize, off + |EncodeForest(ns, so)|, node.(children := node.children + ns))
    decreases ns, 0
  {
    hide At, EncodeNode, NodeStrings, ParseNode, ParseItems, Be32At;
    if ns == [] {
      assert node.children + ns == node.children;
    } else {
      var c, rest := ns[0], ns[1..];
      var head := EncodeNode(c, so);
      var so' := so + |NodeStrings(c)|;
      AtConcat(blk, off, head, EncodeForest(rest, so'));
      AtConcat(strs, so, NodeStrings(c), ForestStrings(rest));
      ParseEncoded(blk, strs, strSize, off, c, so);
      BeginTokenAt(blk, off, c, so);
      var next := node.(children := node.children + [c]);
      ChildAppended(blk, strs, strSize, off, node, c, off + |head|);
      assert next.children + rest == node.children + ns;
      ParseForest(blk, strs, strSize, off + |head|, next, rest, so');
    }
  }

  lemma BeginTokenAt(blk: seq<u8>, off: nat, n: Tree, so: nat)
    requires At(blk, off, EncodeNode(n, so))
    ensures off + 4 <= |blk| && Be32At(blk, off) == FDT_BEGIN_NODE
  {
    hide At, Be32, Be32At;
    var o1, o2, o3 := NodeParts(blk, off, n, so);
    AtConcat(blk, off, Be32(FDT_BEGIN_NODE), []);
    assert Be32(FDT_BEGIN_NODE) + [] == Be32(FDT_BEGIN_NODE);
    Be32RoundTrip(blk, off, FDT_BEGIN_NODE);
  }
}
