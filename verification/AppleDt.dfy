/** The device filter of core/boot/apple/dtre.c as a function on trees, and which nodes and properties it keeps. */
module AppleDt {
  import opened Bytes
  import opened Options
  import opened DeviceTree

  // ---- Filtering, on trees ------------------------------------------------

  function KeepStrings(): seq<seq<u8>> {
    [Ascii("aic,1"), Ascii("aic,v1"), Ascii("uart-1,samsung"), Ascii("uart,samsung"), Ascii("dart,s8000"),
     Ascii("dart,t8010"), Ascii("dart,t8020"), Ascii("dart"), Ascii("wdt"), Ascii("nvram"), Ascii("virtio,mmio"),
     Ascii("apple-silicon")]
  }

  function RemovedNames(): seq<seq<u8>> {
    [Ascii("content-protect"), Ascii("encryptable"), Ascii("pmp"), Ascii("nand-debug"), Ascii("nvme-coastguard"),
     Ascii("baseband-chipset")]
  }

  predicate Occurs(hay: seq<u8>, needle: seq<u8>, i: nat) {
    i + |needle| <= |hay| && hay[i..i + |needle|] == needle
  }

  /** `strstr(hay, needle) != NULL`. */
  predicate Contains(hay: seq<u8>, needle: seq<u8>) {
    exists i :: 0 <= i <= |hay| - |needle| && Occurs(hay, needle, i)
  }

  function FindProp(ps: seq<Prop>, name: seq<u8>): (r: Option<Prop>)
    ensures r.Some? ==> r.value in ps && r.value.name == name
    ensures r.None? <==> forall p :: p in ps ==> p.name != name
  {
    if ps == [] then None else if ps[0].name == name then Some(ps[0]) else FindProp(ps[1..], name)
  }

  /** A device is supported when it has no "compatible" property, or when the first string of
      that property contains a supported driver name. */
  predicate Supported(ps: seq<Prop>) {
    var comp := FindProp(ps, Ascii("compatible"));
    comp.Some? ==> exists k :: k in KeepStrings() && Contains(CStrAt(comp.value.value, 0), k)
  }

  /** A supported driver name stands somewhere in the string. */
  ghost predicate NamesDriver(s: seq<u8>) {
    exists a, k, b :: k in KeepStrings() && s == a + k + b
  }

  lemma ContainsExactly(hay: seq<u8>, needle: seq<u8>)
    ensures Contains(hay, needle) <==> exists a, b :: hay == a + needle + b
  {
    if Contains(hay, needle) {
      var i :| 0 <= i <= |hay| - |needle| && Occurs(hay, needle, i);
      assert hay == hay[..i] + needle + hay[i + |needle|..];
    }
    if a, b :| hay == a + needle + b {
      assert Occurs(hay, needle, |a|);
    }
  }

  /** What is kept: a node without a "compatible" property, and one whose first such property's first string has a
      supported driver name in it. */
  lemma SupportedExactly(ps: seq<Prop>, i: nat)
    requires i < |ps| ==> ps[i].name == Ascii("compatible")
    requires i <= |ps| && forall j :: 0 <= j < i ==> ps[j].name != Ascii("compatible")
    ensures Supported(ps) <==> i == |ps| || NamesDriver(CStrAt(ps[i].value, 0))
  {
    hide Contains, KeepStrings, CStrAt, Ascii;
    FindsFirst(ps, Ascii("compatible"), i);
    if i < |ps| {
      forall k | k in KeepStrings() ensures Contains(CStrAt(ps[i].value, 0), k) <==> exists a, b :: CStrAt(ps[i].value, 0) == a + k + b {
        ContainsExactly(CStrAt(ps[i].value, 0), k);
      }
    }
  }

  lemma {:induction false} FindsFirst(ps: seq<Prop>, name: seq<u8>, i: nat)
    requires i <= |ps| && (forall j :: 0 <= j < i ==> ps[j].name != name) && (i < |ps| ==> ps[i].name == name)
    ensures FindProp(ps, name) == if i < |ps| then Some(ps[i]) else None
  {
    if i > 0 {
      FindsFirst(ps[1..], name, i - 1);
    }
  }

  /** The properties without the names in `gone`, in order. */
  function Without(ps: seq<Prop>, gone: seq<seq<u8>>): seq<Prop> {
    if ps == [] then []
    else if ps[0].name in gone then Without(ps[1..], gone)
    else [ps[0]] + Without(ps[1..], gone)
  }

  function Strip(ps: seq<Prop>): seq<Prop> {
    Without(ps, RemovedNames())
  }

  /** apple_dt_filter_nodes, on values: strip, filter the children, then drop those unsupported. */
  function FilterTree(n: Tree): Tree
    decreases n, 1
  {
    Tree(n.name, Strip(n.props), FilterForest(n.children))
  }

  function FilterForest(ns: seq<Tree>): (r: seq<Tree>)
    decreases ns, 0
  {
    if ns == [] then []
    else
      var c := FilterTree(ns[0]);
      if Supported(c.props) then [c] + FilterForest(ns[1..]) else FilterForest(ns[1..])
  }

  lemma {:induction false} WithoutConcat(a: seq<Prop>, b: seq<Prop>, gone: seq<seq<u8>>)
    ensures Without(a + b, gone) == Without(a, gone) + Without(b, gone)
  {
    if a == [] {
      assert a + b == b;
    } else {
      WithoutConcat(a[1..], b, gone);
      assert (a + b)[1..] == a[1..] + b;
    }
  }

  /** Exactly the named properties go. */
  lemma {:induction false} WithoutExact(ps: seq<Prop>, gone: seq<seq<u8>>, p: Prop)
    ensures p in Without(ps, gone) <==> p in ps && p.name !in gone
  {
    if ps != [] {
      WithoutExact(ps[1..], gone, p);
      assert p in ps <==> p == ps[0] || p in ps[1..];
    }
  }

  lemma {:induction false} WithoutTwice(ps: seq<Prop>, g: seq<seq<u8>>, h: seq<seq<u8>>)
    ensures Without(Without(ps, g), h) == Without(ps, g + h)
  {
    if ps != [] {
      var rest := ps[1..];
      WithoutTwice(rest, g, h);
      assert ps[0].name in g + h <==> ps[0].name in g || ps[0].name in h;
      if ps[0].name !in g {
        assert Without(ps, g)[1..] == Without(rest, g);
      }
    }
  }

  lemma {:induction false} FilterForestConcat(a: seq<Tree>, b: seq<Tree>)
    ensures FilterForest(a + b) == FilterForest(a) + FilterForest(b)
  {
    hide Supported, FilterTree;
    if a == [] {
      assert a + b == b;
    } else {
      FilterForestConcat(a[1..], b);
      assert (a + b)[1..] == a[1..] + b;
    }
  }

  // ---- What filtering means -----------------------------------------------

  /** One node of a tree listed in depth-first order; depth and order determine the tree. */
  datatype Entry = Entry(depth: nat, name: seq<u8>, props: seq<Prop>)

  /** A listed node together with whether it and all its ancestors below the root are supported. */
  datatype Judged = Judged(entry: Entry, alive: bool)

  function List(n: Tree, depth: nat): seq<Entry>
    decreases n, 1
  {
    [Entry(depth, n.name, n.props)] + ListForest(n.children, depth + 1)
  }

  function ListForest(ns: seq<Tree>, depth: nat): seq<Entry>
    decreases ns, 0
  {
    if ns == [] then [] else List(ns[0], depth) + ListForest(ns[1..], depth)
  }

  function Judge(n: Tree, depth: nat, alive: bool): seq<Judged>
    decreases n, 1
  {
    [Judged(Entry(depth, n.name, n.props), alive)] + JudgeForest(n.children, depth + 1, alive)
  }

  function JudgeForest(ns: seq<Tree>, depth: nat, alive: bool): seq<Judged>
    decreases ns, 0
  {
    if ns == [] then []
    else Judge(ns[0], depth, alive && Supported(ns[0].props)) + JudgeForest(ns[1..], depth, alive)
  }

  /** The judged-alive nodes, in order, each without its unsupported properties. */
  function Survivors(js: seq<Judged>): seq<Entry> {
    if js == [] then []
    else if js[0].alive then [js[0].entry.(props := Strip(js[0].entry.props))] + Survivors(js[1..])
    else Survivors(js[1..])
  }

  lemma {:induction false} SurvivorsConcat(a: seq<Judged>, b: seq<Judged>)
    ensures Survivors(a + b) == Survivors(a) + Survivors(b)
  {
    if a == [] {
      assert a + b == b;
    } else {
      SurvivorsConcat(a[1..], b);
      assert (a + b)[1..] == a[1..] + b;
    }
  }

  lemma {:induction false} ListForestConcat(a: seq<Tree>, b: seq<Tree>, depth: nat)
    ensures ListForest(a + b, depth) == ListForest(a, depth) + ListForest(b, depth)
  {
    hide List;
    if a == [] {
      assert a + b == b;
      assert [] + ListForest(b, depth) == ListForest(b, depth);
    } else {
      ListForestConcat(a[1..], b, depth);
      assert (a + b)[1..] == a[1..] + b;
      var x, y, z := List(a[0], depth), ListForest(a[1..], depth), ListForest(b, depth);
      assert x + (y + z) == x + y + z;
    }
  }

  lemma {:induction false} FindPropWithout(ps: seq<Prop>, name: seq<u8>, gone: seq<seq<u8>>)
    requires name !in gone
    ensures FindProp(Without(ps, gone), name) == FindProp(ps, name)
  {
    if ps != [] {
      FindPropWithout(ps[1..], name, gone);
      if ps[0].name !in gone {
        assert Without(ps, gone)[1..] == Without(ps[1..], gone);
      }
    }
  }

  /** Stripping never removes the property by which a device is judged. */
  lemma {:induction false} StripKeepsSupport(ps: seq<Prop>)
    ensures Supported(Strip(ps)) == Supported(ps)
  {
    CompatibleIsKept();
    FindPropWithout(ps, Ascii("compatible"), RemovedNames());
  }

  lemma CompatibleIsKept()
    ensures Ascii("compatible") !in RemovedNames()
  {
    var c := Ascii("compatible");
    assert c[1] == 'o' as int && |c| == 10;
    var r := RemovedNames();
    assert |r[0]| == 15 && |r[1]| == 11 && |r[2]| == 3 && |r[4]| == 15 && |r[5]| == 16;
    assert r[3][0] == 'n' as int && c[0] == 'c' as int;
  }

  lemma {:induction false} NothingAlive(n: Tree, depth: nat)
    ensures Survivors(Judge(n, depth, false)) == []
    decreases n, 1
  {
    NoneAlive(n.children, depth + 1);
    SurvivorsConcat([Judged(Entry(depth, n.name, n.props), false)], JudgeForest(n.children, depth + 1, false));
  }

  lemma {:induction false} NoneAlive(ns: seq<Tree>, depth: nat)
    ensures Survivors(JudgeForest(ns, depth, false)) == []
    decreases ns, 0
  {
    if ns != [] {
      NothingAlive(ns[0], depth);
      NoneAlive(ns[1..], depth);
      SurvivorsConcat(Judge(ns[0], depth, false), JudgeForest(ns[1..], depth, false));
    }
  }

  /** The filter keeps exactly the nodes whose every non-root ancestor-or-self is supported, in
      their old order and at their old depth, and takes exactly the unsupported properties off them. */
  lemma {:induction false} FilterExact(n: Tree, depth: nat)
    ensures List(FilterTree(n), depth) == Survivors(Judge(n, depth, true))
    decreases n, 1
  {
    FilterForestExact(n.children, depth + 1);
    SurvivorsConcat([Judged(Entry(depth, n.name, n.props), true)], JudgeForest(n.children, depth + 1, true));
  }

  lemma {:induction false} FilterForestExact(ns: seq<Tree>, depth: nat)
    ensures ListForest(FilterForest(ns), depth) == Survivors(JudgeForest(ns, depth, true))
    decreases ns, 0
  {
    hide Supported, Strip, List, Judge;
    if ns != [] {
      var c, rest := ns[0], ns[1..];
      FilterForestExact(rest, depth);
      StripKeepsSupport(c.props);
      SurvivorsConcat(Judge(c, depth, Supported(c.props)), JudgeForest(rest, depth, true));
      assert FilterTree(c).props == Strip(c.props);
      if Supported(c.props) {
        FilterExact(c, depth);
        ListForestConcat([FilterTree(c)], FilterForest(rest), depth);
        assert [FilterTree(c)][1..] == [];
        assert ListForest([FilterTree(c)], depth) == List(FilterTree(c), depth);
      } else {
        NothingAlive(c, depth);
        var s := Survivors(JudgeForest(rest, depth, true));
        assert [] + s == s;
      }
    }
  }

  /** Depth-first listings with depths determine the tree, so `FilterExact` pins the filter down. */
  lemma {:induction false} ListInjective(a: Tree, b: Tree, depth: nat, x: seq<Entry>, y: seq<Entry>)
    requires List(a, depth) + x == List(b, depth) + y
    requires x != [] ==> x[0].depth <= depth
    requires y != [] ==> y[0].depth <= depth
    ensures a == b && x == y
    decreases a, 1
  {
    var u, v := ListForest(a.children, depth + 1) + x, ListForest(b.children, depth + 1) + y;
    assert List(a, depth) + x == [Entry(depth, a.name, a.props)] + u;
    assert List(b, depth) + y == [Entry(depth, b.name, b.props)] + v;
    assert u == (List(a, depth) + x)[1..] && v == (List(b, depth) + y)[1..];
    assert (List(a, depth) + x)[0] == (List(b, depth) + y)[0];
    ForestInjective(a.children, b.children, depth + 1, x, y);
  }

  lemma {:induction false} ForestInjective(ms: seq<Tree>, ns: seq<Tree>, depth: nat, x: seq<Entry>, y: seq<Entry>)
    requires ListForest(ms, depth) + x == ListForest(ns, depth) + y
    requires x != [] ==> x[0].depth < depth
    requires y != [] ==> y[0].depth < depth
    ensures ms == ns && x == y
    decreases ms, 0
  {
    ForestHead(ms, depth, x);
    ForestHead(ns, depth, y);
    if ms != [] && ns != [] {
      var x', y' := ListForest(ms[1..], depth) + x, ListForest(ns[1..], depth) + y;
      ForestHead(ms[1..], depth, x);
      ForestHead(ns[1..], depth, y);
      assert List(ms[0], depth) + x' == ListForest(ms, depth) + x;
      assert List(ns[0], depth) + y' == ListForest(ns, depth) + y;
      ListInjective(ms[0], ns[0], depth, x', y');
      ForestInjective(ms[1..], ns[1..], depth, x, y);
      assert ms == [ms[0]] + ms[1..] && ns == [ns[0]] + ns[1..];
    }
  }

  lemma {:induction false} ForestHead(ns: seq<Tree>, depth: nat, x: seq<Entry>)
    ensures ns != [] ==> ListForest(ns, depth) + x != [] && (ListForest(ns, depth) + x)[0].depth == depth
    ensures ns == [] ==> ListForest(ns, depth) + x == x
  {
  }

  /** Filtering twice changes nothing more. */
  lemma {:induction false} FilterIdempotent(n: Tree)
    ensures FilterTree(FilterTree(n)) == FilterTree(n)
    decreases n, 1
  {
    StripIdempotent(n.props, RemovedNames());
    FilterForestIdempotent(n.children);
  }

  lemma {:induction false} StripIdempotent(ps: seq<Prop>, gone: seq<seq<u8>>)
    ensures Without(Without(ps, gone), gone) == Without(ps, gone)
  {
    if ps != [] {
      StripIdempotent(ps[1..], gone);
      if ps[0].name !in gone {
        assert Without(ps, gone)[1..] == Without(ps[1..], gone);
      }
    }
  }

  lemma {:induction false} FilterForestIdempotent(ns: seq<Tree>)
    ensures FilterForest(FilterForest(ns)) == FilterForest(ns)
    decreases ns, 0
  {
    hide Supported, Strip;
    if ns != [] {
      var c := FilterTree(ns[0]);
      FilterIdempotent(ns[0]);
      FilterForestIdempotent(ns[1..]);
      if Supported(c.props) {
        assert FilterForest(ns)[1..] == FilterForest(ns[1..]);
      }
    }
  }
}
