// What a loaded document is like: its nodes are numbered in the order of first visits, so that dumping
// and loading it again changes nothing.
module YamlReload {
  import opened Options
  import opened YamlEvents
  import opened YamlGraph
  import opened YamlCompose
  import opened YamlDump
  import opened YamlRoundTrip

  // ----- 1, 2, .., n -----

  ghost function Iota(n: nat): (s: seq<int>)
    ensures |s| == n
    ensures forall i | 0 <= i < n :: s[i] == i + 1
  {
    if n == 0 then [] else Iota(n - 1) + [n]
  }

  // ----- the numbers in a composed tree -----

  ghost predicate Upto(refs: seq<int>, n: nat) { forall r | r in refs :: 1 <= r <= n }

  ghost predicate KnownUpto(known: seq<AliasData>, n: nat) { forall a | a in known :: 1 <= a.index <= n }

  /** A node under construction: its children exist, and keys have values. */
  ghost predicate GoodBuilt(b: Built, n: nat) {
    && Upto(b.refs, n) && Children(b.node) == [] && b.node.tag != "!"
    && (b.node.ScalarNode? ==> b.refs == []) && (b.node.MappingNode? ==> |b.refs| % 2 == 0)
  }

  ghost predicate GoodComposed(c: Composed, base: nat) {
    c.Composed? ==>
      var n := base + |c.nodes|;
      KnownUpto(c.known, n) && Upto(c.refs, n) && forall b | b in c.nodes :: GoodBuilt(b, n)
  }

  lemma BareGood(e: Event)
    ensures Children(Bare(e)) == [] && (IsStart(e) || (IsSingle(e) && !e.Alias?) ==> Bare(e).tag != "!")
  {
    assert DEFAULT_SCALAR_TAG[0] == 't' && DEFAULT_SEQUENCE_TAG[0] == 't' && DEFAULT_MAPPING_TAG[0] == 't' && "!"[0] == '!';
  }

  lemma NamedUpto(known: seq<AliasData>, n: nat, anchor: Option<Text>)
    requires KnownUpto(known, n)
    ensures Name(known, n + 1, anchor).Some? ==> KnownUpto(Name(known, n + 1, anchor).value, n + 1)
  {}

  lemma {:induction false} ComposedGood(t: Tree, base: nat, known: seq<AliasData>)
    requires GoodTree(t) && KnownUpto(known, base)
    ensures var c := Compose(t, base, known); GoodComposed(c, base) && (c.Composed? ==> |c.refs| == 1)
    decreases t, 0
  {
    match t
    case Single(e) =>
      BareGood(e);
      NamedUpto(known, base, AnchorOf(e));
    case Collection(start, items) =>
      var named := Name(known, base + 1, AnchorOf(start));
      if named.Some? {
        NamedUpto(known, base, AnchorOf(start));
        ComposedAllGood(items, base + 1, named.value);
        BareGood(start);
        WrappedGood(start, items, base, ComposeAll(items, base + 1, named.value));
      }
  }

  lemma WrappedGood(start: Event, items: seq<Tree>, base: nat, inner: Composed)
    requires CanClose(start, |items|) && GoodComposed(inner, base + 1) && (inner.Composed? ==> |inner.refs| == |items|)
    requires Children(Bare(start)) == [] && Bare(start).tag != "!"
    ensures GoodComposed(Wrap(start, base, inner), base)
  {}

  lemma {:induction false} ComposedAllGood(ts: seq<Tree>, base: nat, known: seq<AliasData>)
    requires GoodTrees(ts) && KnownUpto(known, base)
    ensures var c := ComposeAll(ts, base, known); GoodComposed(c, base) && (c.Composed? ==> |c.refs| == |ts|)
    decreases ts, 1
  {
    if ts != [] {
      ComposedAllGood(ts[..|ts| - 1], base, known);
      var before := ComposeAll(ts[..|ts| - 1], base, known);
      if before.Composed? {
        ComposedGood(ts[|ts| - 1], base + |before.nodes|, before.known);
        JoinedGood(before, Compose(ts[|ts| - 1], base + |before.nodes|, before.known), base);
      }
    }
  }

  lemma JoinedGood(before: Composed, last: Composed, base: nat)
    requires before.Composed? && GoodComposed(before, base) && GoodComposed(last, base + |before.nodes|)
    ensures GoodComposed(Joined(before, last), base)
  {}

  // ----- the graph of it -----

  lemma {:induction false} IdsInPairs(g: seq<GraphNode>, pairs: seq<Pair>)
    requires Ids(g, PairIds(pairs))
    ensures PairsInRange(g, pairs)
  {
    if pairs != [] {
      var last := pairs[|pairs| - 1];
      var ids := PairIds(pairs);
      assert ids == PairIds(pairs[..|pairs| - 1]) + [last.key, last.value];
      assert last.key in ids && last.value in ids;
      assert Ids(g, PairIds(pairs[..|pairs| - 1])) by { assert forall c | c in PairIds(pairs[..|pairs| - 1]) :: c in ids; }
      IdsInPairs(g, pairs[..|pairs| - 1]);
    }
  }

  /** A filled node has exactly its children, in order. */
  lemma FilledChildren(b: Built, n: nat)
    requires GoodBuilt(b, n)
    ensures var m := Filled(b.node, b.refs);
      && Children(m) == b.refs && m.tag == b.node.tag
      && m.ScalarNode? == b.node.ScalarNode? && m.SequenceNode? == b.node.SequenceNode?
      && (b.node.ScalarNode? ==> m == b.node) && (b.node.SequenceNode? ==> m.layout == b.node.layout)
      && (b.node.MappingNode? ==> m.layout == b.node.layout)
  {
    match b.node
    case ScalarNode(_, _, _) =>
    case SequenceNode(_, _, _) =>
      FilledItems(b.node, b.refs);
    case MappingNode(_, pairs, _) =>
      assert |PairIds(pairs)| == 2 * |pairs|;
      FilledPairs(b.node, b.refs);
      assert forall i | 0 <= i < |b.refs| :: b.refs[i] in b.refs;
      PairsOfIds(b.refs);
  }

  /** The nodes ns stand in g behind the first `base` ones. */
  ghost predicate Stands(g: seq<GraphNode>, base: nat, ns: seq<Built>) {
    base + |ns| <= |g| && forall k | 0 <= k < |ns| :: g[base + k] == Filled(ns[k].node, ns[k].refs)
  }

  lemma StandsParts(g: seq<GraphNode>, base: nat, a: seq<Built>, b: seq<Built>)
    requires Stands(g, base, a + b)
    ensures Stands(g, base, a) && Stands(g, base + |a|, b)
  {
    assert forall k | 0 <= k < |a| :: a[k] == (a + b)[k];
    assert forall k | 0 <= k < |b| :: b[k] == (a + b)[|a| + k];
  }

  lemma RealizedStands(ns: seq<Built>)
    ensures Stands(RealizeAll(ns), 0, ns)
  {
    forall k | 0 <= k < |ns| ensures RealizeAll(ns)[k] == Filled(ns[k].node, ns[k].refs) { RealizeAt(ns, k); }
  }

  lemma RealizedGood(ns: seq<Built>)
    requires ns != [] && forall b | b in ns :: GoodBuilt(b, |ns|)
    ensures GoodGraph(RealizeAll(ns))
  {
    var g := RealizeAll(ns);
    forall n | n in g ensures GoodNode(g, n) {
      var k :| 0 <= k < |g| && g[k] == n;
      RealizeAt(ns, k);
      assert ns[k] in ns;
      FilledChildren(ns[k], |ns|);
      if n.MappingNode? { IdsInPairs(g, n.pairs); }
    }
  }

  // ----- the numbers are those of the first visits -----

  /** The walk has visited 1 to n in this order. */
  ghost predicate At(tr: Trail, n: nat) { tr.ord == Iota(n) }

  lemma NewNumber(tr: Trail, n: nat)
    requires At(tr, n)
    ensures n + 1 !in tr.ord && At(tr.(ord := tr.ord + [n + 1]), n + 1)
  {
    assert forall i | 0 <= i < n :: Iota(n)[i] != n + 1;
  }

  lemma VisitKnown(g: seq<GraphNode>, c: int, tr: Trail, n: nat)
    requires GoodGraph(g) && InRange(g, c) && At(tr, n) && 1 <= c <= n
    ensures At(Visit(g, c, tr), n)
  {
    assert Iota(n)[c - 1] == c;
  }

  lemma VisitNew(g: seq<GraphNode>, tr: Trail, n: nat)
    requires GoodGraph(g) && n < |g| && At(tr, n)
    ensures Ids(g, Children(g[n]))
    ensures Visit(g, n + 1, tr) == Walk(g, Children(g[n]), tr.(ord := tr.ord + [n + 1]))
  {
    NewNumber(tr, n);
    ChildrenInRange(g, n + 1);
  }

  /** Visiting what a tree has been composed to reaches the new nodes in the order of their numbers. */
  ghost predicate Visited(g: seq<GraphNode>, c: Composed, base: nat, tr: Trail)
    requires GoodGraph(g)
  {
    c.Composed? && |c.refs| == 1 && InRange(g, c.refs[0]) && At(Visit(g, c.refs[0], tr), base + |c.nodes|)
  }

  lemma {:induction false} TreeVisited(g: seq<GraphNode>, t: Tree, base: nat, known: seq<AliasData>, tr: Trail)
    requires GoodGraph(g) && GoodTree(t) && KnownUpto(known, base) && At(tr, base)
    requires var c := Compose(t, base, known); c.Composed? && Stands(g, base, c.nodes)
    ensures Visited(g, Compose(t, base, known), base, tr)
    decreases t, 0
  {
    match t
    case Single(e) => SingleVisited(g, e, base, known, tr);
    case Collection(start, items) =>
      var named, inner := CollectionOpened(g, start, items, base, known, tr);
      ItemsVisited(g, items, base + 1, named, tr.(ord := tr.ord + [base + 1]));
      CollectionVisited(g, start, items, base, known, inner, tr);
  }

  lemma CollectionOpened(g: seq<GraphNode>, start: Event, items: seq<Tree>, base: nat, known: seq<AliasData>, tr: Trail)
    returns (named: seq<AliasData>, inner: Composed)
    requires KnownUpto(known, base) && At(tr, base)
    requires var c := Compose(Collection(start, items), base, known); c.Composed? && Stands(g, base, c.nodes)
    ensures KnownUpto(named, base + 1) && inner == ComposeAll(items, base + 1, named) && inner.Composed?
    ensures Compose(Collection(start, items), base, known) == Wrap(start, base, inner)
    ensures Stands(g, base + 1, inner.nodes) && At(tr.(ord := tr.ord + [base + 1]), base + 1)
  {
    named := Name(known, base + 1, AnchorOf(start)).value;
    inner := ComposeAll(items, base + 1, named);
    NamedUpto(known, base, AnchorOf(start));
    StandsParts(g, base, [Built(Bare(start), inner.refs)], inner.nodes);
    NewNumber(tr, base);
  }

  lemma SingleVisited(g: seq<GraphNode>, e: Event, base: nat, known: seq<AliasData>, tr: Trail)
    requires GoodGraph(g) && IsSingle(e) && KnownUpto(known, base) && At(tr, base)
    requires var c := Compose(Single(e), base, known); c.Composed? && Stands(g, base, c.nodes)
    ensures Visited(g, Compose(Single(e), base, known), base, tr)
  {
    var c := Compose(Single(e), base, known);
    ComposedGood(Single(e), base, known);
    if e.Alias? { AliasVisited(g, base, c, tr); } else { LeafVisited(g, e, base, c, tr); }
  }

  lemma AliasVisited(g: seq<GraphNode>, base: nat, c: Composed, tr: Trail)
    requires GoodGraph(g) && At(tr, base) && c.Composed? && c.nodes == [] && |c.refs| == 1 && Upto(c.refs, base) && base <= |g|
    ensures Visited(g, c, base, tr)
  {
    assert c.refs[0] in c.refs;
    VisitKnown(g, c.refs[0], tr, base);
  }

  lemma LeafVisited(g: seq<GraphNode>, e: Event, base: nat, c: Composed, tr: Trail)
    requires GoodGraph(g) && At(tr, base) && e.Scalar? && c.Composed? && c.nodes == [Built(Bare(e), [])] && c.refs == [base + 1]
    requires Stands(g, base, c.nodes)
    ensures Visited(g, c, base, tr)
  {
    assert g[base + 0] == Filled(c.nodes[0].node, c.nodes[0].refs);
    VisitNew(g, tr, base);
    NewNumber(tr, base);
  }

  lemma CollectionVisited(g: seq<GraphNode>, start: Event, items: seq<Tree>, base: nat, known: seq<AliasData>, inner: Composed,
                          tr: Trail)
    requires GoodGraph(g) && GoodTree(Collection(start, items)) && KnownUpto(known, base) && At(tr, base)
    requires Compose(Collection(start, items), base, known) == Wrap(start, base, inner)
    requires inner.Composed? && Ids(g, inner.refs) && Stands(g, base, Wrap(start, base, inner).nodes)
    requires At(Walk(g, inner.refs, tr.(ord := tr.ord + [base + 1])), base + 1 + |inner.nodes|)
    ensures Visited(g, Wrap(start, base, inner), base, tr)
  {
    var b, c := Built(Bare(start), inner.refs), Wrap(start, base, inner);
    ComposedGood(Collection(start, items), base, known);
    assert c.nodes[0] == b;
    assert g[base + 0] == Filled(b.node, b.refs);
    FilledChildren(b, base + |c.nodes|);
    VisitNew(g, tr, base);
  }

  lemma {:induction false} ItemsVisited(g: seq<GraphNode>, ts: seq<Tree>, base: nat, known: seq<AliasData>, tr: Trail)
    requires GoodGraph(g) && GoodTrees(ts) && KnownUpto(known, base) && At(tr, base)
    requires var c := ComposeAll(ts, base, known); c.Composed? && Stands(g, base, c.nodes)
    ensures var c := ComposeAll(ts, base, known); Ids(g, c.refs) && At(Walk(g, c.refs, tr), base + |c.nodes|)
    decreases ts, 1
  {
    if ts != [] {
      var init, last := ts[..|ts| - 1], ts[|ts| - 1];
      var before := ComposeAll(init, base, known);
      var after := Compose(last, base + |before.nodes|, before.known);
      StandsParts(g, base, before.nodes, after.nodes);
      ItemsVisited(g, init, base, known, tr);
      ComposedAllGood(init, base, known);
      TreeVisited(g, last, base + |before.nodes|, before.known, Walk(g, before.refs, tr));
      assert after.refs == [after.refs[0]];
      assert (before.refs + after.refs)[..|before.refs|] == before.refs;
    }
  }

  /** What loading a document yields, for any tree of events that is not refused: a good graph whose
      numbers are the order of the first visits from its root. */
  lemma LoadedIsNumbered(t: Tree)
    requires GoodTree(t) && Compose(t, 0, []).Composed?
    ensures var g := RealizeAll(Compose(t, 0, []).nodes); GoodGraph(g) && Whole(g).ord == Iota(|g|) && RootedIn(g, t)
  {
    var c := Compose(t, 0, []);
    var g := RealizeAll(c.nodes);
    ComposedGood(t, 0, []);
    RealizedStands(c.nodes);
    RootBuilt(t);
    RealizedGood(c.nodes);
    FilledChildren(c.nodes[0], |c.nodes|);
    assert g[0] == Filled(c.nodes[0].node, c.nodes[0].refs);
    TreeVisited(g, t, 0, [], NONE);
  }

  /** The loader's state after a document: nothing is open, the graph is good and that of the document's
      events, the first node is the root, and every node is reached from it, in the order of numbers. */
  ghost predicate LoadedDocument(s: Loading, root: Tree) {
    && LoadAll(EMPTY, Flatten(root)) == Next(s) && s.ctx == []
    && GoodGraph(s.nodes) && Whole(s.nodes).ord == Iota(|s.nodes|) && RootedIn(s.nodes, root)
  }

  lemma LoadedFits(s: Loading, root: Tree)
    requires GoodTree(root) && LoadAll(EMPTY, Flatten(root)) == Next(s)
    ensures LoadedDocument(s, root)
  {
    DocumentComposes(root);
    LoadedIsNumbered(root);
  }

  function RootEvent(t: Tree): Event {
    match t case Single(e) => e case Collection(start, _) => start
  }

  /** The first node is the tree's root: it has the kind, value, style and tag of the root event. */
  ghost predicate RootedIn(g: seq<GraphNode>, t: Tree) {
    g != [] && var n := Bare(RootEvent(t)); SameKind(n, g[0]) && g[0].tag == n.tag
  }

  lemma RootBuilt(t: Tree)
    requires GoodTree(t) && Compose(t, 0, []).Composed?
    ensures var c := Compose(t, 0, []); c.refs == [1] && c.nodes != [] && c.nodes[0].node == Bare(RootEvent(t))
  {}

  // ----- dumping it and loading it again -----

  lemma {:induction false} SamePairs(a: seq<Pair>, b: seq<Pair>)
    requires PairIds(a) == PairIds(b)
    ensures a == b
  {
    assert |PairIds(a)| == 2 * |a| && |PairIds(b)| == 2 * |b|;
    if a != [] {
      var p, q := a[|a| - 1], b[|b| - 1];
      var x, y := PairIds(a[..|a| - 1]), PairIds(b[..|b| - 1]);
      assert PairIds(a) == x + [p.key, p.value] && PairIds(b) == y + [q.key, q.value];
      assert x == PairIds(a)[..|x|] && y == PairIds(b)[..|y|];
      SamePairs(a[..|a| - 1], b[..|b| - 1]);
      assert PairIds(a)[|x|] == p.key && PairIds(b)[|x|] == q.key && PairIds(a)[|x| + 1] == p.value && PairIds(b)[|x| + 1] == q.value;
      assert a == a[..|a| - 1] + [p] && b == b[..|b| - 1] + [q];
    }
  }

  lemma SameNode(n: GraphNode, m: GraphNode, size: nat)
    requires Matches(n, m, Iota(size)) && n.tag != "!"
    ensures m == n
  {
    assert Children(m) == Children(n) by {
      forall j | 0 <= j < |Children(m)| ensures Children(m)[j] == Children(n)[j] {
        assert Iota(size)[Children(m)[j] - 1] == Children(m)[j];
      }
    }
    if n.MappingNode? { SamePairs(n.pairs, m.pairs); }
  }

  /** A loaded document has no tag "!". */
  lemma LoadedTags(t: Tree, k: nat)
    requires GoodTree(t) && Compose(t, 0, []).Composed? && k < |Compose(t, 0, []).nodes|
    ensures RealizeAll(Compose(t, 0, []).nodes)[k].tag != "!"
  {
    var c := Compose(t, 0, []);
    ComposedGood(t, 0, []);
    assert c.nodes[k] in c.nodes;
    RealizeAt(c.nodes, k);
    FilledChildren(c.nodes[k], |c.nodes|);
  }

  /** Load, dump, load is load: a document that has been loaded comes back from its dump with the very
      same nodes, numbers, tags and order included. */
  lemma LoadDumpLoad(t: Tree)
    requires GoodTree(t) && Compose(t, 0, []).Composed?
    ensures var g := RealizeAll(Compose(t, 0, []).nodes);
      && GoodGraph(g) && LoadAll(EMPTY, Flatten(t)) == Next(Loading(g, Compose(t, 0, []).known, []))
      && LoadAll(EMPTY, Flatten(Dumped(g))).Next? && LoadAll(EMPTY, Flatten(Dumped(g))).s.nodes == g
  {
    var g := RealizeAll(Compose(t, 0, []).nodes);
    DocumentComposes(t);
    LoadedIsNumbered(t);
    var h, aliases := DumpThenLoad(g);
    forall k | 0 <= k < |h| ensures h[k] == g[k] {
      assert MatchesAt(g, h, Whole(g).ord, k);
      LoadedTags(t, k);
      SameNode(g[k], h[k], |g|);
    }
    assert h == g;
  }
}
