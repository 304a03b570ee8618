/** Structure blocks in general form (Devicetree Specification v0.4, section 5.4.2): properties, children and NOP tokens
    in any order, as other generators emit them.  The reader of core/boot/apple/dtre.c reads the tree that they describe.
 */
module DeviceTreeItems {
  import opened Bytes
  import opened DeviceTree

  /** A node as a block spells it out. */
  datatype Node = Node(name: seq<u8>, items: seq<Item>)

  datatype Item = PropItem(prop: Prop) | NopItem | NodeItem(node: Node)

  // ---- The block and the strings -----------------------------------------------

  function NodeBytes(n: Node, so: nat): (s: seq<u8>)
    decreases n, 1
  {
    NodeHead(n.name) + ItemsBytes(n.items, so) + Be32(2)
  }

  function ItemsBytes(items: seq<Item>, so: nat): (s: seq<u8>)
    decreases items, 0
  {
    if items == [] then [] else ItemBytes(items[0], so) + ItemsBytes(items[1..], so + |ItemStrings(items[0])|)
  }

  function ItemBytes(i: Item, so: nat): (s: seq<u8>)
    decreases i, 2
  {
    match i
    case PropItem(p) => EncodeProp(p, so)
    case NopItem => Be32(4)
    case NodeItem(n) => NodeBytes(n, so)
  }

  function ItemsStrings(items: seq<Item>): seq<u8>
    decreases items, 0
  {
    if items == [] then [] else ItemStrings(items[0]) + ItemsStrings(items[1..])
  }

  function ItemStrings(i: Item): seq<u8>
    decreases i, 2
  {
    match i
    case PropItem(p) => CStr(p.name)
    case NopItem => []
    case NodeItem(n) => ItemsStrings(n.items)
  }

  // ---- The tree described -------------------------------------------------------

  function Plain(n: Node): Tree
    decreases n, 1
  {
    Tree(n.name, Props(n.items), Kids(n.items))
  }

  function Props(items: seq<Item>): seq<Prop> {
    if items == [] then []
    else if items[0].PropItem? then [items[0].prop] + Props(items[1..])
    else Props(items[1..])
  }

  function Kids(items: seq<Item>): seq<Tree>
    decreases items, 0
  {
    if items == [] then [] else Kid(items[0]) + Kids(items[1..])
  }

  function Kid(i: Item): seq<Tree>
    decreases i, 2
  {
    match i
    case NodeItem(n) => [Plain(n)]
    case _ => []
  }

  /** Names are C strings, and no node names a property twice. */
  ghost predicate Good(n: Node)
    decreases n, 1
  {
    0 !in n.name && GoodItems(n.items)
  }

  ghost predicate GoodItems(items: seq<Item>)
    decreases items, 0
  {
    items != [] ==>
      && (items[0].PropItem? ==> 0 !in items[0].prop.name && forall p :: p in Props(items[1..]) ==> p.name != items[0].prop.name)
      && GoodItem(items[0]) && GoodItems(items[1..])
  }

  ghost predicate GoodItem(i: Item)
    decreases i, 2
  {
    match i
    case NodeItem(n) => Good(n)
    case _ => true
  }

  // ---- What the reader does with any block -------------------------------------------

  /** Reading on keeps the name, the children and the property names that a node has already. */
  ghost predicate Keeps(now: Tree, was: Tree) {
    && now.name == was.name && was.children <= now.children
    && |was.props| <= |now.props| && forall i :: 0 <= i < |was.props| ==> now.props[i].name == was.props[i].name
  }

  lemma {:induction false} SetPropKeeps(ps: seq<Prop>, p: Prop)
    ensures |ps| <= |SetProp(ps, p)| && forall i :: 0 <= i < |ps| ==> SetProp(ps, p)[i].name == ps[i].name
  {
    if ps != [] && ps[0].name != p.name {
      SetPropKeeps(ps[1..], p);
    }
  }

  /** Whatever follows, the node that is being read is never given up: it comes back with at least what it had, unless a
      property's length wraps. */
  lemma {:induction false} ItemsKeep(blk: seq<u8>, strs: seq<u8>, strSize: nat, off: nat, node: Tree)
    requires |blk| < TWO31 && off <= |blk| && strSize <= |strs|
    ensures var o := ParseItems(blk, strs, strSize, off, node).outcome; o.Fault? || (o.Parsed? && Keeps(o.tree, node))
    decreases |blk| - off, 1
  {
    hide Be32At, NulPos, CStrAt, SetProp, ParseNode, Align4, Keeps;
    KeepsSelf(node);
    if off + 4 <= |blk| {
      var token := Be32At(blk, off);
      if token == FDT_PROP && off + 12 <= |blk| {
        var len, nameOff := Be32At(blk, off + 4), Be32At(blk, off + 8);
        var end := (off + 12 + Align4(len) as int) % TWO32;
        if !(nameOff as int >= strSize || end > |blk|) && off + 12 + len as int <= |blk| {
          PropAdvances(off + 12, len, |blk|);
          var p := Prop(CStrAt(strs, nameOff), blk[off + 12..off + 12 + len as int]);
          var next := node.(props := SetProp(node.props, p));
          KeepsProp(node, p);
          ItemsKeep(blk, strs, strSize, end, next);
          KeepsOn(ParseItems(blk, strs, strSize, end, next), next, node);
        }
      } else if token == FDT_BEGIN_NODE {
        var c := ParseNode(blk, strs, strSize, off);
        if c.outcome.Null? {
          ItemsKeep(blk, strs, strSize, c.off, node);
        } else if c.outcome.Parsed? {
          var next := node.(children := node.children + [c.outcome.tree]);
          KeepsChild(node, c.outcome.tree);
          ItemsKeep(blk, strs, strSize, c.off, next);
          KeepsOn(ParseItems(blk, strs, strSize, c.off, next), next, node);
        }
      } else if token == FDT_NOP {
        ItemsKeep(blk, strs, strSize, off + 4, node);
      }
    }
  }

  lemma KeepsSelf(t: Tree)
    ensures Keeps(t, t)
  {
  }

  lemma KeepsProp(t: Tree, p: Prop)
    ensures Keeps(t.(props := SetProp(t.props, p)), t)
  {
    SetPropKeeps(t.props, p);
  }

  lemma KeepsChild(t: Tree, c: Tree)
    ensures Keeps(t.(children := t.children + [c]), t)
  {
  }

  lemma KeepsOn(r: Parse, mid: Tree, was: Tree)
    requires Keeps(mid, was)
    ensures r.outcome.Parsed? && Keeps(r.outcome.tree, mid) ==> Keeps(r.outcome.tree, was)
  {
  }

  /** A node is refused exactly when there is no BEGIN_NODE token or its padded name leaves the block. */
  lemma RefusedExactly(blk: seq<u8>, strs: seq<u8>, strSize: nat, off: nat)
    requires |blk| < TWO31 && off <= |blk| && strSize <= |strs|
    ensures ParseNode(blk, strs, strSize, off).outcome.Null? <==>
              || off + 4 >= |blk| || Be32At(blk, off) != 1
              || off + 4 + (NulPos(blk, off + 4) - (off + 4) + 1 + 3) / 4 * 4 > |blk|
  {
    hide Be32At, NulPos, ParseItems;
    if off + 4 < |blk| {
      var nameLen := NulPos(blk, off + 4) - (off + 4) + 1;
      assert Align4(nameLen) as int == (nameLen + 3) / 4 * 4;
      var o := off + 4 + Align4(nameLen) as int;
      if o <= |blk| {
        ItemsKeep(blk, strs, strSize, o, Tree(CStrAt(blk, off + 4), [], []));
      }
    }
  }

  /** Any other token ends the node where it stands, and so does the end of the block. */
  lemma OthersStop(blk: seq<u8>, strs: seq<u8>, strSize: nat, off: nat, node: Tree)
    requires |blk| < TWO31 && off <= |blk| && strSize <= |strs|
    requires off + 4 <= |blk| ==> Be32At(blk, off) != 1 && Be32At(blk, off) != 2 && Be32At(blk, off) != 3 && Be32At(blk, off) != 4
    ensures ParseItems(blk, strs, strSize, off, node) == Parse(Parsed(node), off)
  {
    hide Be32At;
  }

  /** A property whose header, name or value does not fit ends the node with what was read before it. */
  lemma CutPropStops(blk: seq<u8>, strs: seq<u8>, strSize: nat, off: nat, node: Tree)
    requires |blk| < TWO31 && off + 4 <= |blk| && strSize <= |strs| && Be32At(blk, off) == 3
    ensures off + 12 > |blk| ==> ParseItems(blk, strs, strSize, off, node) == Parse(Parsed(node), off + 4)
    ensures off + 12 <= |blk| && Be32At(blk, off + 4) < 0x8000_0000
              && (Be32At(blk, off + 8) as int >= strSize || off + 12 + (Be32At(blk, off + 4) as int + 3) / 4 * 4 > |blk|) ==>
              ParseItems(blk, strs, strSize, off, node) == Parse(Parsed(node), off + 12)
  {
    hide Be32At, SetProp, CStrAt;
    if off + 12 <= |blk| {
      var len := Be32At(blk, off + 4);
      assert len < 0x8000_0000 ==> Align4(len) as int == (len as int + 3) / 4 * 4;
    }
  }

  /** When nothing wraps, a blob is refused exactly for its size, its magic number (either byte order), its offsets, or its
      root node. */
  lemma LoadRefusesExactly(data: seq<u8>)
    requires |data| < TWO31
    requires |data| >= 40 ==> Be32At(data, 8) as int + Be32At(data, 36) as int < TWO32 && Be32At(data, 12) as int + Be32At(data, 32) as int < TWO32
    ensures LoadTree(data) == Null <==>
              || |data| < 40 || (Be32At(data, 0) != 0xD00D_FEED && Be32At(data, 0) != 0xEDFE_0DD0)
              || Be32At(data, 8) as int + Be32At(data, 36) as int > |data| || Be32At(data, 12) as int + Be32At(data, 32) as int > |data|
              || var s := Be32At(data, 8) as nat;
                 ParseNode(data[s..s + Be32At(data, 36) as int], data[Be32At(data, 12)..], Be32At(data, 32) as nat, 0).outcome.Null?
  {
    hide Be32At, ParseNode;
  }

  // ---- Reading it -----------------------------------------------------------------

  /** A NOP token is passed over. */
  lemma NopPassed(blk: seq<u8>, strs: seq<u8>, strSize: nat, off: nat, node: Tree)
    requires |blk| < TWO31 && strSize <= |strs| && At(blk, off, Be32(4))
    ensures off + 4 <= |blk| && ParseItems(blk, strs, strSize, off, node) == ParseItems(blk, strs, strSize, off + 4, node)
  {
    hide At, Be32, Be32At, ParseNode;
    AtConcat(blk, off, Be32(4), []);
    assert Be32(4) + [] == Be32(4);
    Be32RoundTrip(blk, off, 4);
  }

  lemma EndStops(blk: seq<u8>, strs: seq<u8>, strSize: nat, off: nat, node: Tree)
    requires |blk| < TWO31 && strSize <= |strs| && At(blk, off, Be32(2))
    ensures off + 4 <= |blk| && ParseItems(blk, strs, strSize, off, node) == Parse(Parsed(node), off + 4)
  {
    hide At, Be32, Be32At, ParseNode;
    AtConcat(blk, off, Be32(2), []);
    assert Be32(2) + [] == Be32(2);
    Be32RoundTrip(blk, off, 2);
  }

  lemma HeadToken(blk: seq<u8>, off: nat, name: seq<u8>)
    requires At(blk, off, NodeHead(name))
    ensures off + 4 <= |blk| && Be32At(blk, off) == FDT_BEGIN_NODE
    ensures At(blk, off, Be32(FDT_BEGIN_NODE)) && At(blk, off + 4, Padded(CStr(name)))
  {
    hide At, Be32, Be32At, Padded, CStr;
    AtConcat(blk, off, Be32(FDT_BEGIN_NODE), Padded(CStr(name)));
    Be32RoundTrip(blk, off, FDT_BEGIN_NODE);
  }

  /** The reader takes a node spelled out in general form for the tree it describes, and stops past its end. */
  lemma {:induction false} NodeReads(blk: seq<u8>, strs: seq<u8>, strSize: nat, off: nat, n: Node, so: nat)
    requires |blk| < TWO31 && strSize <= |strs| < TWO32
    requires At(blk, off, NodeBytes(n, so)) && At(strs, so, ItemsStrings(n.items)) && so + |ItemsStrings(n.items)| <= strSize
    requires Good(n)
    ensures off + |NodeBytes(n, so)| <= |blk|
    ensures ParseNode(blk, strs, strSize, off) == Parse(Parsed(Plain(n)), off + |NodeBytes(n, so)|)
    decreases n, 1
  {
    hide At, Be32, NodeHead, ParseNode, ParseItems, GoodItems, ItemsBytes, Props, Kids;
    var head, items := NodeHead(n.name), ItemsBytes(n.items, so);
    AtConcat(blk, off, head + items, Be32(2));
    AtConcat(blk, off, head, items);
    HeadToken(blk, off, n.name);
    HeadSize(n.name);
    ParseHeader(blk, strs, strSize, off, n.name);
    var node := Tree(n.name, [], []);
    ItemsRead(blk, strs, strSize, off + |head|, node, n.items, so);
    EndStops(blk, strs, strSize, off + |head| + |items|, Tree(n.name, [] + Props(n.items), [] + Kids(n.items)));
    assert [] + Props(n.items) == Props(n.items) && [] + Kids(n.items) == Kids(n.items);
  }

  lemma HeadSize(name: seq<u8>)
    ensures |NodeHead(name)| == 4 + |Padded(CStr(name))|
  {
  }

  lemma {:induction false} ItemsRead(blk: seq<u8>, strs: seq<u8>, strSize: nat, off: nat, node: Tree, items: seq<Item>, so: nat)
    requires |blk| < TWO31 && strSize <= |strs| < TWO32
    requires At(blk, off, ItemsBytes(items, so)) && At(strs, so, ItemsStrings(items)) && so + |ItemsStrings(items)| <= strSize
    requires GoodItems(items) && forall p, q :: p in Props(items) && q in node.props ==> p.name != q.name
    ensures off + |ItemsBytes(items, so)| <= |blk|
    ensures ParseItems(blk, strs, strSize, off, node)
         == ParseItems(blk, strs, strSize, off + |ItemsBytes(items, so)|,
                       Tree(node.name, node.props + Props(items), node.children + Kids(items)))
    decreases items, 0
  {
    hide At, ItemBytes, ItemStrings, ParseNode, ParseItems, GoodItem, Kid;
    AtSize(blk, off, ItemsBytes(items, so));
    if items == [] {
      assert node.props + [] == node.props && node.children + [] == node.children;
    } else {
      var i, more := items[0], items[1..];
      var first, so1 := ItemBytes(i, so), so + |ItemStrings(i)|;
      AtConcat(blk, off, first, ItemsBytes(more, so1));
      AtConcat(strs, so, ItemStrings(i), ItemsStrings(more));
      var next := Tree(node.name, node.props + (if i.PropItem? then [i.prop] else []),
                       node.children + Kid(i));
      ItemReads(blk, strs, strSize, off, node, items, so);
      assert next.props + Props(more) == node.props + Props(items);
      assert next.children + Kids(more) == node.children + Kids(items);
      ItemsRead(blk, strs, strSize, off + |first|, next, more, so1);
    }
  }

  /** The first item. */
  lemma {:induction false} ItemReads(blk: seq<u8>, strs: seq<u8>, strSize: nat, off: nat, node: Tree, items: seq<Item>, so: nat)
    requires |blk| < TWO31 && strSize <= |strs| < TWO32 && items != []
    requires At(blk, off, ItemBytes(items[0], so)) && At(strs, so, ItemStrings(items[0])) && so + |ItemStrings(items[0])| <= strSize
    requires GoodItems(items) && forall p, q :: p in Props(items) && q in node.props ==> p.name != q.name
    ensures off + |ItemBytes(items[0], so)| <= |blk|
    ensures var i := items[0];
            ParseItems(blk, strs, strSize, off, node)
            == ParseItems(blk, strs, strSize, off + |ItemBytes(i, so)|,
                          Tree(node.name, node.props + (if i.PropItem? then [i.prop] else []), node.children + Kid(i)))
    decreases items[0], 2
  {
    hide At, ParseNode, ParseItems, Plain, EncodeProp, NodeBytes, CStr, ItemsStrings;
    var i := items[0];
    AtSize(blk, off, ItemBytes(i, so));
    assert node.props + [] == node.props && node.children + [] == node.children;
    match i {
      case PropItem(p) => FirstProp(items); NameSize(p.name); ParseProp(blk, strs, strSize, off, node, p, so);
      case NopItem => NopPassed(blk, strs, strSize, off, node);
      case NodeItem(n) =>
        NodeReads(blk, strs, strSize, off, n, so);
        NodeToken(blk, off, n, so);
        ChildAppended(blk, strs, strSize, off, node, Plain(n), off + |NodeBytes(n, so)|);
    }
  }

  lemma NameSize(name: seq<u8>)
    ensures |CStr(name)| > 0
  {
  }

  lemma FirstProp(items: seq<Item>)
    requires items != [] && items[0].PropItem?
    ensures items[0].prop in Props(items)
  {
  }

  lemma NodeToken(blk: seq<u8>, off: nat, n: Node, so: nat)
    requires At(blk, off, NodeBytes(n, so))
    ensures off + 4 <= |blk| && Be32At(blk, off) == FDT_BEGIN_NODE
  {
    hide At, NodeHead, Be32At;
    AtConcat(blk, off, NodeHead(n.name) + ItemsBytes(n.items, so), Be32(2));
    AtConcat(blk, off, NodeHead(n.name), ItemsBytes(n.items, so));
    HeadToken(blk, off, n.name);
  }

  lemma AtSize(blk: seq<u8>, off: nat, bs: seq<u8>)
    requires At(blk, off, bs)
    ensures off + |bs| <= |blk|
  {
  }
}
