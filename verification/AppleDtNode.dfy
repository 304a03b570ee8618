/** Device tree nodes as objects: core/boot/apple/dtre.c relinks their property and
    child lists in place.  A linked list of the source is a sequence field here.
 */
module AppleDtNode {
  import opened Bytes
  import opened Options
  import opened DeviceTree
  import opened AppleDt

  lemma {:induction false} WithoutAbsent(ps: seq<Prop>, gone: seq<seq<u8>>)
    requires forall p :: p in ps ==> p.name !in gone
    ensures Without(ps, gone) == ps
  {
    if ps != [] {
      WithoutAbsent(ps[1..], gone);
    }
  }

  lemma WithoutDrop(ps: seq<Prop>, i: nat, gone: seq<u8>)
    requires i < |ps| && ps[i].name == gone
    ensures Without(ps[..i] + ps[i + 1..], [gone]) == Without(ps, [gone])
  {
    assert ps == ps[..i] + ps[i..];
    WithoutConcat(ps[..i], ps[i..], [gone]);
    WithoutConcat(ps[..i], ps[i + 1..], [gone]);
  }

  /** Updating touches the one property of that name and leaves the list's order alone. */
  lemma {:induction false} SetPropAt(ps: seq<Prop>, i: nat, p: Prop)
    requires i < |ps| && ps[i].name == p.name && forall j :: 0 <= j < i ==> ps[j].name != p.name
    ensures DeviceTree.SetProp(ps, p) == ps[i := p]
  {
    if i > 0 {
      SetPropAt(ps[1..], i - 1, p);
      assert ps[i := p] == [ps[0]] + ps[1..][i - 1 := p];
    } else {
      assert ps[0 := p] == [p] + ps[1..];
    }
  }

  class DtNode {
    var name: seq<u8>
    var props: seq<Prop>
    var children: seq<DtNode>
    ghost var Repr: set<DtNode>

    /** The node owns its subtree and no node occurs in it twice. */
    ghost predicate Valid()
      reads this, Repr
      decreases Repr
    {
      && this in Repr
      && (forall i :: 0 <= i < |children| ==> children[i] in Repr && children[i].Repr <= Repr - {this} && children[i].Valid())
      && (forall i, j :: 0 <= i < j < |children| ==> children[i].Repr !! children[j].Repr)
    }

    /** The tree value that the object graph represents. */
    ghost function Value(): Tree
      requires Valid()
      reads this, Repr
      decreases Repr, 0
    {
      Tree(name, props, Values(children, Repr - {this}))
    }

    static ghost function Values(cs: seq<DtNode>, owned: set<DtNode>): (r: seq<Tree>)
      requires forall i :: 0 <= i < |cs| ==> cs[i].Repr <= owned && cs[i].Valid()
      reads cs, set c, o | c in cs && o in c.Repr :: o
      ensures |r| == |cs|
      ensures forall k :: 0 <= k < |cs| ==> r[k] == cs[k].Value()
      decreases owned, 1, |cs|
    {
      if cs == [] then [] else [cs[0].Value()] + Values(cs[1..], owned)
    }

    constructor (name: seq<u8>)
      ensures Valid() && fresh(Repr) && Value() == Tree(name, [], [])
    {
      this.name := name;
      props, children, Repr := [], [], {this};
    }

    /** apple_dt_set_prop: update the property of that name, or append a new one. */
    method SetProp(name: seq<u8>, value: seq<u8>)
      modifies this`props
      ensures props == DeviceTree.SetProp(old(props), Prop(name, value))
    {
      var i := 0;
      while i < |props|
        invariant 0 <= i <= |props|
        invariant props == old(props) && forall j :: 0 <= j < i ==> props[j].name != name
      {
        if props[i].name == name {
          SetPropAt(props, i, Prop(name, value));
          props := props[i := Prop(name, value)];
          return;
        }
        i := i + 1;
      }
      SetPropFresh(props, Prop(name, value));
      props := props + [Prop(name, value)];
    }

    /** apple_dt_add_child */
    method AddChild(child: DtNode)
      requires Valid() && child.Valid() && Repr !! child.Repr
      modifies this`children, this`Repr
      ensures Valid() && Repr == old(Repr) + child.Repr
      ensures Value() == old(Value()).(children := old(Value()).children + [child.Value()])
      ensures child.Valid() && child.Value() == old(child.Value())
    {
      hide DtNode.Values;
      var cs := children;
      ghost var own := Repr - {this};
      children := children + [child];
      Repr := Repr + child.Repr;
      ValuesOwned(cs, own, Repr - {this});
      ValuesAppend(cs, child, Repr - {this});
    }

    static lemma ValuesOwned(cs: seq<DtNode>, own: set<DtNode>, more: set<DtNode>)
      requires own <= more
      requires forall i :: 0 <= i < |cs| ==> cs[i].Repr <= own && cs[i].Valid()
      ensures Values(cs, own) == Values(cs, more)
    {
    }

    static lemma ValuesAppend(cs: seq<DtNode>, c: DtNode, own: set<DtNode>)
      requires forall i :: 0 <= i < |cs| ==> cs[i].Repr <= own && cs[i].Valid()
      requires c.Valid() && c.Repr <= own
      ensures Values(cs + [c], own) == Values(cs, own) + [c.Value()]
    {
      if cs == [] {
        assert Values([c][1..], own) == [];
      } else {
        ValuesAppend(cs[1..], c, own);
        assert (cs + [c])[1..] == cs[1..] + [c];
      }
    }

    // ---- Reading a blob ---------------------------------------------------

    /** The reader's result and cursor stand for what the reader function says. */
    static ghost predicate Stands(r: DtNode?, off: nat, fault: bool, p: Parse)
      reads r, if r == null then {} else r.Repr
    {
      && off == p.off
      && fault == p.outcome.Fault?
      && (r != null) == p.outcome.Parsed?
      && (r != null ==> r.Valid() && r.Value() == p.outcome.tree)
    }

    /** The property case of the reader's loop: false when the loop must stop. */
    method ReadProp(blk: seq<u8>, strs: seq<u8>, strSize: nat, offset: nat) returns (off: nat, more: bool, fault: bool)
      requires Valid()
      requires |blk| < TWO31 && offset + 4 <= |blk| && strSize <= |strs| && Be32At(blk, offset) == FDT_PROP
      modifies this`props
      ensures Valid() && offset < off <= |blk|
      ensures more ==> ParseItems(blk, strs, strSize, offset, old(Value())) == ParseItems(blk, strs, strSize, off, Value())
      ensures !more && !fault ==> ParseItems(blk, strs, strSize, offset, old(Value())) == DeviceTree.Parse(Parsed(Value()), off)
      ensures fault ==> !more && ParseItems(blk, strs, strSize, offset, old(Value())) == DeviceTree.Parse(Fault, off)
    {
      hide NulPos, CStrAt, DeviceTree.SetProp, Align4, ParseNode, DtNode.Values;
      off, more, fault := offset + 4, false, false;
      if off + 8 > |blk| { return; }
      var len := Be32At(blk, off);
      off := off + 4;
      var nameOff := Be32At(blk, off);
      off := off + 4;
      if nameOff as int >= strSize { return; }
      var end := (off + Align4(len) as int) % TWO32;
      if end > |blk| { return; }
      if off + len as int > |blk| { fault := true; return; }
      AlignNoWrap(off, len, |blk|);
      var value := blk[off..off + len as int];
      SetProp(CStrAt(strs, nameOff), value);
      off, more := end, true;
    }

    static lemma AlignNoWrap(off: nat, len: u32, size: nat)
      requires size < TWO31 && off + len as int <= size
      ensures (off + Align4(len) as int) % TWO32 == off + Align4(len) as int
    {
    }

    /** dt_parse_node with its `*offset` as in- and out-parameter.  Both the loop and the
        recursion on child nodes terminate because every turn moves the cursor forward. */
    static method Parse(blk: seq<u8>, strs: seq<u8>, strSize: nat, offset: nat) returns (r: DtNode?, off: nat, fault: bool)
      requires |blk| < 0x8000_0000 && offset <= |blk| && strSize <= |strs|
      ensures offset <= off <= |blk|
      ensures Stands(r, off, fault, ParseNode(blk, strs, strSize, offset))
      ensures r != null ==> fresh(r.Repr)
      decreases |blk| - offset, 0
    {
      hide Be32At, NulPos, CStrAt, DtNode.Value, DtNode.Valid;
      r, off, fault := null, offset, false;
      if off + 4 > |blk| { return; }
      var token := Be32At(blk, off);
      if token != FDT_BEGIN_NODE { return; }
      off := off + 4;
      if off >= |blk| { return; }
      var nameLen := NulPos(blk, off) - off + 1;
      if off + Align4(nameLen) as int > |blk| { return; }
      var node := new DtNode(CStrAt(blk, off));
      off := off + Align4(nameLen) as int;
      off, fault := node.ReadItems(blk, strs, strSize, off);
      r := if fault then null else node;
    }

    /** The reader's loop. */
    method ReadItems(blk: seq<u8>, strs: seq<u8>, strSize: nat, offset: nat) returns (off: nat, fault: bool)
      requires Valid()
      requires |blk| < 0x8000_0000 && offset <= |blk| && strSize <= |strs|
      modifies this
      ensures offset <= off <= |blk|
      ensures Valid() && fresh(Repr - old(Repr))
      ensures fault ==> ParseItems(blk, strs, strSize, offset, old(Value())) == DeviceTree.Parse(Fault, off)
      ensures !fault ==> ParseItems(blk, strs, strSize, offset, old(Value())) == DeviceTree.Parse(Parsed(Value()), off)
      decreases |blk| - offset, 1
    {
      hide Be32At, ParseNode, NulPos, CStrAt, DeviceTree.SetProp, Align4, DtNode.Valid, DtNode.Value;
      off, fault := offset, false;
      ghost var goal := ParseItems(blk, strs, strSize, offset, Value());
      while off + 4 <= |blk|
        invariant offset <= off <= |blk|
        invariant Valid() && fresh(Repr - old(Repr))
        invariant ParseItems(blk, strs, strSize, off, Value()) == goal
        decreases |blk| - off
      {
        ghost var at, val := off, Value();
        var token := Be32At(blk, off);
        if token == FDT_PROP {
          var o, more, f := ReadProp(blk, strs, strSize, off);
          off := o;
          if !more { return off, f; }
        } else if token == FDT_BEGIN_NODE {
          var child, o, f := Parse(blk, strs, strSize, off);
          off := o;
          if f { return off, true; }
          if child != null {
            AddChild(child);
          }
        } else if token == FDT_END_NODE {
          off := off + 4;
          return;
        } else if token == FDT_NOP {
          off := off + 4;
        } else {
          return;
        }
      }
    }

    /** apple_dt_load: check the header, then read the root node. */
    static method Load(data: seq<u8>) returns (r: DtNode?, fault: bool)
      requires |data| < 0x8000_0000
      ensures fault == LoadTree(data).Fault?
      ensures (r != null) == LoadTree(data).Parsed?
      ensures r != null ==> fresh(r.Repr) && r.Valid() && r.Value() == LoadTree(data).tree
    {
      hide Be32At, ParseNode;
      r, fault := null, false;
      if |data| < HEADER_SIZE { return; }
      var magic := Be32At(data, 0);
      if magic != 0xEDFE_0DD0 && magic != 0xD00D_FEED { return; }
      var offStruct, offStrings := Be32At(data, 8) as int, Be32At(data, 12) as int;
      var sizeStruct, sizeStrings := Be32At(data, 36) as int, Be32At(data, 32) as int;
      if (offStruct + sizeStruct) % TWO32 > |data| || (offStrings + sizeStrings) % TWO32 > |data| { return; }
      if offStruct + sizeStruct > |data| || offStrings + sizeStrings > |data| { fault := true; return; }
      var off;
      r, off, fault := Parse(data[offStruct..offStruct + sizeStruct], data[offStrings..], sizeStrings, 0);
    }

    // ---- Filtering --------------------------------------------------------

    /** Unlinks every property of one name. */
    method Unlink(gone: seq<u8>)
      modifies this`props
      ensures props == Without(old(props), [gone])
    {
      hide Without;
      var i := 0;
      while i < |props|
        invariant 0 <= i <= |props|
        invariant forall j :: 0 <= j < i ==> props[j].name != gone
        invariant Without(props, [gone]) == Without(old(props), [gone])
        decreases |props| - i
      {
        if props[i].name == gone {
          WithoutDrop(props, i, gone);
          props := props[..i] + props[i + 1..];
        } else {
          i := i + 1;
        }
      }
      WithoutAbsent(props, [gone]);
    }

    /** dt_remove_unsupported_props: for each listed name, unlink every property so named. */
    method RemoveUnsupportedProps()
      modifies this`props
      ensures props == Strip(old(props))
    {
      hide Without, RemovedNames;
      var names := RemovedNames();
      WithoutAbsent(props, []);
      var n := 0;
      while n < |names|
        invariant 0 <= n <= |names|
        invariant props == Without(old(props), names[..n])
      {
        Unlink(names[n]);
        WithoutTwice(old(props), names[..n], [names[n]]);
        assert names[..n] + [names[n]] == names[..n + 1];
        n := n + 1;
      }
      assert names[..n] == names;
    }

    /** node_should_keep */
    method ShouldKeep() returns (keep: bool)
      ensures keep == Supported(props)
    {
      hide Contains, Ascii, KeepStrings;
      var comp := FindProp(props, Ascii("compatible"));
      if comp.None? { return true; }
      var strings := KeepStrings();
      var k := 0;
      while k < |strings|
        invariant 0 <= k <= |strings|
        invariant forall j :: 0 <= j < k ==> !Contains(CStrAt(comp.value.value, 0), strings[j])
      {
        if Contains(CStrAt(comp.value.value, 0), strings[k]) { return true; }
        k := k + 1;
      }
      return false;
    }

    ghost function Kids(): (r: seq<Tree>)
      requires Valid()
      reads this, Repr
      ensures |r| == |children| && forall k :: 0 <= k < |r| ==> r[k] == children[k].Value()
    {
      Values(children, Repr - {this})
    }

    /** Filtering one child in place changes that child's subtree and no other. */
    method FilterChild(i: nat)
      requires Valid() && i < |children|
      modifies children[i].Repr
      ensures Valid() && unchanged(this)
      ensures Kids() == old(Kids())[i := FilterTree(old(Kids())[i])]
      decreases Repr, 0
    {
      hide FilterTree, DtNode.Kids;
      ghost var was := Kids();
      children[i].Filter();
      assert forall j :: 0 <= j < |children| && j != i ==> children[j].Valid() && children[j].Value() == was[j];
    }

    /** The keep test on one child. */
    method KeepsChild(i: nat) returns (keep: bool)
      requires Valid() && i < |children|
      ensures keep == Supported(Kids()[i].props)
    {
      hide Supported, DtNode.Values;
      keep := children[i].ShouldKeep();
      assert Kids()[i] == children[i].Value();
    }

    /** Unlinking one child keeps the others and their order. */
    method UnlinkChild(i: nat)
      requires Valid() && i < |children|
      modifies this`children
      ensures Valid() && Repr == old(Repr) && |children| == |old(children)| - 1
      ensures Kids() == old(Kids())[..i] + old(Kids())[i + 1..]
    {
      hide DtNode.Values;
      var cs := children;
      ghost var own := Repr - {this};
      ValuesWithout(cs, i, own);
      children := cs[..i] + cs[i + 1..];
      assert forall j :: 0 <= j < |children| ==> children[j] == cs[if j < i then j else j + 1];
      ghost var ds := children;
      assert Values(ds, own) == old(Kids())[..i] + old(Kids())[i + 1..];
    }

    static lemma ValuesWithout(cs: seq<DtNode>, i: nat, own: set<DtNode>)
      requires i < |cs| && forall j :: 0 <= j < |cs| ==> cs[j].Repr <= own && cs[j].Valid()
      ensures var ds := cs[..i] + cs[i + 1..];
              && (forall j :: 0 <= j < |ds| ==> ds[j] == cs[if j < i then j else j + 1])
              && Values(ds, own) == Values(cs, own)[..i] + Values(cs, own)[i + 1..]
    {
      hide DtNode.Values, DtNode.Valid;
    }

    /** The loop body of the source: filter a child, then unlink it if it is unsupported. */
    method FilterAt(i: nat) returns (keep: bool)
      requires Valid() && i < |children|
      modifies Repr - {this}, this`children
      ensures Valid() && Repr == old(Repr)
      ensures keep == Supported(FilterTree(old(Kids())[i]).props)
      ensures keep ==> Kids() == old(Kids())[i := FilterTree(old(Kids())[i])]
      ensures !keep ==> Kids() == old(Kids())[..i] + old(Kids())[i + 1..]
      decreases Repr, 1
    {
      hide FilterTree, Supported, DtNode.Kids, DtNode.Value;
      assert children[i].Repr <= Repr - {this};
      FilterChild(i);
      hide DtNode.Valid;
      keep := KeepsChild(i);
      if !keep {
        UnlinkChild(i);
      }
    }

    lemma ValueOfKids()
      requires Valid()
      ensures Value() == Tree(name, props, Kids()) && this in Repr
    {
    }

    /** The node's own property list is no part of its children. */
    method StripProps()
      requires Valid()
      modifies this`props
      ensures Valid() && Kids() == old(Kids()) && props == Strip(old(props))
    {
      hide Strip, DtNode.Values;
      RemoveUnsupportedProps();
    }

    static lemma FilterNone(ns: seq<Tree>)
      requires ns == []
      ensures FilterForest(ns) == []
    {
    }

    static lemma FilterOne(done: seq<Tree>, vals: seq<Tree>, d: nat)
      requires d < |vals| && done == FilterForest(vals[..d])
      ensures FilterForest(vals[..d + 1])
           == if Supported(FilterTree(vals[d]).props) then done + [FilterTree(vals[d])] else done
    {
      hide Supported, FilterTree;
      assert vals[..d + 1] == vals[..d] + [vals[d]];
      assert [vals[d]][1..] == [];
      FilterForestConcat(vals[..d], [vals[d]]);
    }

    /** Position `i` of the half-filtered values `v` moves past one child. */
    static lemma FilterStep(v: seq<Tree>, i: nat, vals: seq<Tree>, d: nat)
      requires i < |v| && d < |vals| && v[i..] == vals[d..] && v[..i] == FilterForest(vals[..d])
      ensures v[i] == vals[d] && |v| - i == |vals| - d
      ensures Supported(FilterTree(vals[d]).props) ==>
                var w := v[i := FilterTree(vals[d])];
                w[i + 1..] == vals[d + 1..] && w[..i + 1] == FilterForest(vals[..d + 1])
      ensures !Supported(FilterTree(vals[d]).props) ==>
                var w := v[..i] + v[i + 1..];
                w[i..] == vals[d + 1..] && w[..i] == FilterForest(vals[..d + 1])
    {
      hide Supported, FilterTree, FilterForest;
      assert v[i] == v[i..][0] && v[i + 1..] == v[i..][1..] && vals[d + 1..] == vals[d..][1..];
      FilterOne(v[..i], vals, d);
      var f := FilterTree(vals[d]);
      assert v[i := f][i + 1..] == v[i + 1..] && v[i := f][..i + 1] == v[..i] + [f];
      assert (v[..i] + v[i + 1..])[i..] == v[i + 1..] && (v[..i] + v[i + 1..])[..i] == v[..i];
    }

    /** apple_dt_filter_nodes: strip this node, filter each child, unlink the unsupported ones. */
    method Filter()
      requires Valid()
      modifies Repr
      ensures Valid() && Repr == old(Repr)
      ensures Value() == FilterTree(old(Value()))
      decreases Repr, 2
    {
      hide Supported, Strip, FilterForest, DtNode.Kids, DtNode.Valid, DtNode.Value;
      ValueOfKids();
      ghost var vals := Kids();
      StripProps();
      assert FilterForest(vals[..0]) == [] by { FilterNone(vals[..0]); }
      var i := 0;
      ghost var d := 0;
      while i < |children|
        invariant Valid() && Repr == old(Repr) && name == old(name) && props == Strip(old(props))
        invariant 0 <= i <= |children| && 0 <= d <= |vals| && Kids()[i..] == vals[d..]
        invariant Kids()[..i] == FilterForest(vals[..d])
        decreases |vals| - d
      {
        FilterStep(Kids(), i, vals, d);
        var keep := FilterAt(i);
        if keep {
          i := i + 1;
        }
        d := d + 1;
      }
      assert Kids()[..i] == Kids() && vals[..d] == vals;
      ValueOfKids();
    }
  }
}
