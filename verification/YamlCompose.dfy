// What the loader makes of a document's tree: nodes numbered in preorder, aliases as shared numbers.
module YamlCompose {
  import opened Options
  import opened YamlEvents
  import opened YamlGraph
  import opened Sealing

  // ----- the graph of a tree -----

  /** The anchors known afterwards, the numbers for the parent, and the new nodes; or the document is
      refused, because an alias has no anchor before it or an anchor is given twice. */
  datatype Composed = Refused | Composed(known: seq<AliasData>, refs: seq<int>, nodes: seq<Built>)

  /** A node, first without its children, and the numbers of its children. */
  datatype Built = Built(node: GraphNode, refs: seq<int>)

  function AnchorOf(e: Event): Option<Text> {
    if e.Scalar? || IsStart(e) then e.anchor else None
  }

  /** A new anchor must differ from all the earlier ones. */
  function Name(known: seq<AliasData>, index: int, anchor: Option<Text>): Option<seq<AliasData>> {
    if anchor == None then Some(known)
    else if FindAlias(known, anchor.value) < |known| then None
    else Some(known + [AliasData(anchor.value, index)])
  }

  /** The node of an event, without children. */
  function Bare(e: Event): GraphNode {
    match e
    case Scalar(_, tag, value, _, _, style) => ScalarNode(TagOr(tag, DEFAULT_SCALAR_TAG), value, style)
    case SequenceStart(_, tag, _, layout) => SequenceNode(TagOr(tag, DEFAULT_SEQUENCE_TAG), [], layout)
    case MappingStart(_, tag, _, layout) => MappingNode(TagOr(tag, DEFAULT_MAPPING_TAG), [], layout)
    case _ => ScalarNode("", "", AnyScalar)
  }

  /** What a tree adds behind the first `base` nodes. */
  function Compose(t: Tree, base: nat, known: seq<AliasData>): Composed {
    match t
    case Single(e) =>
      if e.Alias? then
        var k := FindAlias(known, e.name);
        if k < |known| then Composed(known, [known[k].index], []) else Refused
      else
        var named := Name(known, base + 1, AnchorOf(e));
        if named == None then Refused else Composed(named.value, [base + 1], [Built(Bare(e), [])])
    case Collection(start, items) =>
      var named := Name(known, base + 1, AnchorOf(start));
      if named == None then Refused else Wrap(start, base, ComposeAll(items, base + 1, named.value))
  }

  /** A collection is known to its parent as one node; its own node comes before those inside it. */
  function Wrap(start: Event, base: nat, inner: Composed): Composed {
    if inner.Refused? then Refused
    else Composed(inner.known, [base + 1], [Built(Bare(start), inner.refs)] + inner.nodes)
  }

  function ComposeAll(ts: seq<Tree>, base: nat, known: seq<AliasData>): Composed {
    if ts == [] then Composed(known, [], []) else
    var before := ComposeAll(ts[..|ts| - 1], base, known);
    if before.Refused? then Refused
    else Joined(before, Compose(ts[|ts| - 1], base + |before.nodes|, before.known))
  }

  function Joined(before: Composed, last: Composed): Composed
    requires before.Composed?
  {
    if last.Refused? then Refused else Composed(last.known, before.refs + last.refs, before.nodes + last.nodes)
  }

  lemma {:induction false} ComposeSnoc(ts: seq<Tree>, t: Tree, base: nat, known: seq<AliasData>)
    ensures ComposeAll(ts + [t], base, known) == var before := ComposeAll(ts, base, known);
      if before.Refused? then Refused else Joined(before, Compose(t, base + |before.nodes|, before.known))
  {
    var all := ts + [t];
    assert all[..|all| - 1] == ts && all[|all| - 1] == t;
  }

  // ----- the loader computes it -----

  /** A collection with its children in order: items, or keys and values in turn. */
  function Filled(n: GraphNode, children: seq<int>): (r: GraphNode)
    ensures r.ScalarNode? == n.ScalarNode? && r.SequenceNode? == n.SequenceNode?
  {
    if children == [] || n.ScalarNode? then n
    else AddChild(Filled(n, children[..|children| - 1]), children[|children| - 1])
  }

  function RealizeAll(ns: seq<Built>): (r: seq<GraphNode>)
    ensures |r| == |ns|
  {
    if ns == [] then [] else RealizeAll(ns[..|ns| - 1]) + [Filled(ns[|ns| - 1].node, ns[|ns| - 1].refs)]
  }

  lemma {:induction false} RealizeConcat(a: seq<Built>, b: seq<Built>)
    ensures RealizeAll(a + b) == RealizeAll(a) + RealizeAll(b)
    decreases |b|
  {
    if b == [] {
      assert a + b == a;
    } else {
      RealizeConcat(a, b[..|b| - 1]);
      assert (a + b)[..|a + b| - 1] == a + b[..|b| - 1];
    }
  }

  lemma RealizeOne(n: Built)
    ensures RealizeAll([n]) == [Filled(n.node, n.refs)]
  {
    assert [n][..0] == [];
  }

  /** The parent that a node would join. */
  predicate ParentOk(nodes: seq<GraphNode>, ctx: seq<int>) {
    ctx == [] || (InRange(nodes, ctx[|ctx| - 1]) && !nodes[ctx[|ctx| - 1] - 1].ScalarNode?)
  }

  /** The nodes with more children for the innermost open collection, if there is one. */
  function WithChildren(nodes: seq<GraphNode>, ctx: seq<int>, refs: seq<int>): seq<GraphNode>
    requires ParentOk(nodes, ctx)
  {
    if ctx == [] then nodes else
    var top := ctx[|ctx| - 1];
    nodes[top - 1 := Filled(nodes[top - 1], refs)]
  }

  function Grown(s: Loading, c: Composed): LoadResult
    requires ParentOk(s.nodes, s.ctx)
  {
    match c
    case Refused => ComposerError
    case Composed(known, refs, nodes) => Next(Loading(WithChildren(s.nodes, s.ctx, refs) + RealizeAll(nodes), known, s.ctx))
  }

  lemma FilledOne(n: GraphNode, index: int)
    requires !n.ScalarNode?
    ensures Filled(n, [index]) == AddChild(n, index)
  {
    assert [index][..0] == [];
  }

  lemma NewNodeGrows(s: Loading, n: GraphNode, anchor: Option<Text>)
    requires ParentOk(s.nodes, s.ctx)
    ensures NewNode(s, n, anchor) == match Name(s.aliases, |s.nodes| + 1, anchor)
      case None => ComposerError
      case Some(named) => Next(Loading(WithChildren(s.nodes, s.ctx, [|s.nodes| + 1]) + [n], named, s.ctx))
  {
    var t := s.(nodes := s.nodes + [n]);
    var r := Register(t, |t.nodes|, anchor);
    if r.Next? && s.ctx != [] {
      var top := s.ctx[|s.ctx| - 1];
      FilledOne(s.nodes[top - 1], |t.nodes|);
      assert t.nodes[top - 1 := AddChild(t.nodes[top - 1], |t.nodes|)]
        == s.nodes[top - 1 := AddChild(s.nodes[top - 1], |t.nodes|)] + [n];
    }
  }

  lemma LoadSingle(s: Loading, e: Event)
    requires IsSingle(e) && ParentOk(s.nodes, s.ctx)
    ensures LoadAll(s, [e]) == Grown(s, Compose(Single(e), |s.nodes|, s.aliases))
  {
    assert [e][1..] == [];
    if e.Scalar? { LoadScalar(s, e); } else { LoadAlias(s, e); }
  }

  lemma LoadScalar(s: Loading, e: Event)
    requires e.Scalar? && ParentOk(s.nodes, s.ctx)
    ensures LoadEvent(s, e) == Grown(s, Compose(Single(e), |s.nodes|, s.aliases))
  {
    NewNodeGrows(s, Bare(e), e.anchor);
    RealizeOne(Built(Bare(e), []));
  }

  lemma LoadAlias(s: Loading, e: Event)
    requires e.Alias? && ParentOk(s.nodes, s.ctx)
    ensures LoadEvent(s, e) == Grown(s, Compose(Single(e), |s.nodes|, s.aliases))
  {
    var k := FindAlias(s.aliases, e.name);
    if k < |s.aliases| {
      if s.ctx != [] { FilledOne(s.nodes[s.ctx[|s.ctx| - 1] - 1], s.aliases[k].index); }
      var nodes := WithChildren(s.nodes, s.ctx, [s.aliases[k].index]);
      assert nodes + [] == nodes;
    }
  }

  lemma TreeLoads(s: Loading, t: Tree)
    requires GoodTree(t) && ParentOk(s.nodes, s.ctx)
    ensures Loads(s, Flatten(t), Compose(t, |s.nodes|, s.aliases))
    decreases t, 0
  {
    match t
    case Single(e) =>
      LoadSingle(s, e);
    case Collection(start, items) =>
      NewNodeGrows(s, Bare(start), AnchorOf(start));
      var q := LoadEvent(s, start);
      if q.Next? { ItemsLoad(q.s, items); }
      CollectionLoads(s, start, items);
  }

  /** What is between the two events of a collection has been loaded. */
  lemma {:induction false} CollectionLoads(s: Loading, start: Event, items: seq<Tree>)
    requires IsStart(start) && ParentOk(s.nodes, s.ctx)
    requires var q := LoadEvent(s, start);
      q.Next? ==> ParentOk(q.s.nodes, q.s.ctx) && Loads(q.s, FlattenAll(items), ComposeAll(items, |q.s.nodes|, q.s.aliases))
    ensures Loads(s, Flatten(Collection(start, items)), Compose(Collection(start, items), |s.nodes|, s.aliases))
  {
    assert Unsealed(0);
    NewNodeGrows(s, Bare(start), AnchorOf(start));
    var q, es := LoadEvent(s, start), Flatten(Collection(start, items));
    assert es == [start] + (FlattenAll(items) + [EndOf(start)]);
    assert es[1..] == FlattenAll(items) + [EndOf(start)];
    if q.Next? {
      LoadConcat(q.s, FlattenAll(items), [EndOf(start)]);
      CollectionCloses(s, q.s, start, ComposeAll(items, |s.nodes| + 1, q.s.aliases));
    }
  }

  /** The end event leaves the collection filled where it was begun. */
  lemma CollectionCloses(s: Loading, q: Loading, start: Event, inner: Composed)
    requires ParentOk(s.nodes, s.ctx) && IsStart(start) && q.ctx == s.ctx + [|s.nodes| + 1]
    requires q.nodes == WithChildren(s.nodes, s.ctx, [|s.nodes| + 1]) + [Bare(start)]
    ensures ParentOk(q.nodes, q.ctx)
    ensures var r := Grown(q, inner);
      (if r.Next? then LoadAll(r.s, [EndOf(start)]) else r) == Grown(s, Wrap(start, |s.nodes|, inner))
  {
    if inner.Composed? {
      var a := WithChildren(s.nodes, s.ctx, [|s.nodes| + 1]);
      var full := Filled(Bare(start), inner.refs);
      var r := Grown(q, inner).s;
      RealizeConcat([Built(Bare(start), inner.refs)], inner.nodes);
      RealizeOne(Built(Bare(start), inner.refs));
      assert q.nodes[|a| := full] + RealizeAll(inner.nodes) == a + ([full] + RealizeAll(inner.nodes));
      assert r.nodes[|a|] == full;
      assert r.ctx[..|r.ctx| - 1] == s.ctx;
      assert [EndOf(start)][1..] == [];
    }
  }

  /** Loading the events has the effect of c. */
  ghost predicate Loads(s: Loading, es: seq<Event>, c: Composed)
    requires ParentOk(s.nodes, s.ctx)
  {
    forall k: nat :: Unsealed(k) ==> LoadAll(s, es) == Grown(s, c)
  }

  lemma {:induction false} ItemsLoad(s: Loading, items: seq<Tree>)
    requires GoodTrees(items) && ParentOk(s.nodes, s.ctx) && s.ctx != []
    ensures Loads(s, FlattenAll(items), ComposeAll(items, |s.nodes|, s.aliases))
    decreases items, 1
  {
    if items == [] {
      NothingGrows(s);
    } else {
      var init, last := items[..|items| - 1], items[|items| - 1];
      var before := ComposeAll(init, |s.nodes|, s.aliases);
      ItemsLoad(s, init);
      if before.Composed? {
        GrownParent(s, before);
        TreeLoads(Grown(s, before).s, last);
      }
      var after := LastLoads(s, before, last);
      ItemsSnoc(s, items, before, after);
    }
  }

  lemma LastLoads(s: Loading, before: Composed, t: Tree) returns (last: Composed)
    requires ParentOk(s.nodes, s.ctx)
    requires before.Composed? ==> var r := Grown(s, before).s;
      ParentOk(r.nodes, r.ctx) && Loads(r, Flatten(t), Compose(t, |r.nodes|, r.aliases))
    ensures before.Composed? ==> last == Compose(t, |s.nodes| + |before.nodes|, before.known)
    ensures LoadsThen(s, before, Flatten(t), last)
  {
    assert Unsealed(0);
    last := Refused;
    if before.Composed? {
      GrownParent(s, before);
      last := Compose(t, |s.nodes| + |before.nodes|, before.known);
    }
  }

  /** After before, loading the events has the effect of last. */
  ghost predicate LoadsThen(s: Loading, before: Composed, es: seq<Event>, last: Composed)
    requires ParentOk(s.nodes, s.ctx)
  {
    forall k: nat :: Unsealed(k) && before.Composed? ==>
      var r := Grown(s, before).s; ParentOk(r.nodes, r.ctx) && LoadAll(r, es) == Grown(r, last)
  }

  /** All items but the last have been loaded, and so has the last one behind them. */
  lemma {:induction false} ItemsSnoc(s: Loading, items: seq<Tree>, before: Composed, last: Composed)
    requires items != [] && ParentOk(s.nodes, s.ctx) && s.ctx != []
    requires before == ComposeAll(items[..|items| - 1], |s.nodes|, s.aliases)
    requires Loads(s, FlattenAll(items[..|items| - 1]), before)
    requires before.Composed? ==> last == Compose(items[|items| - 1], |s.nodes| + |before.nodes|, before.known)
    requires LoadsThen(s, before, Flatten(items[|items| - 1]), last)
    ensures Loads(s, FlattenAll(items), ComposeAll(items, |s.nodes|, s.aliases))
  {
    AllSplit(items, |s.nodes|, s.aliases);
    SnocLoads(s, FlattenAll(items[..|items| - 1]), Flatten(items[|items| - 1]), before, last, ComposeAll(items, |s.nodes|, s.aliases));
  }

  lemma GrownParent(s: Loading, c: Composed)
    requires ParentOk(s.nodes, s.ctx) && c.Composed?
    ensures var r := Grown(s, c).s;
      ParentOk(r.nodes, r.ctx) && |r.nodes| == |s.nodes| + |c.nodes| && r.aliases == c.known && r.ctx == s.ctx
  {}

  lemma AllSplit(ts: seq<Tree>, base: nat, known: seq<AliasData>)
    requires ts != []
    ensures FlattenAll(ts) == FlattenAll(ts[..|ts| - 1]) + Flatten(ts[|ts| - 1])
    ensures ComposeAll(ts, base, known) == var before := ComposeAll(ts[..|ts| - 1], base, known);
      if before.Refused? then Refused else Joined(before, Compose(ts[|ts| - 1], base + |before.nodes|, before.known))
  {}

  lemma FlattenSnoc(ts: seq<Tree>, t: Tree)
    ensures FlattenAll(ts + [t]) == FlattenAll(ts) + Flatten(t)
  {
    assert (ts + [t])[..|ts|] == ts && (ts + [t])[|ts|] == t;
  }

  lemma SnocLoads(s: Loading, a: seq<Event>, b: seq<Event>, before: Composed, last: Composed, all: Composed)
    requires ParentOk(s.nodes, s.ctx) && s.ctx != []
    requires Loads(s, a, before)
    requires LoadsThen(s, before, b, last)
    requires all == if before.Refused? then Refused else Joined(before, last)
    ensures Loads(s, a + b, all)
  {
    assert Unsealed(0);
    LoadConcat(s, a, b);
    if before.Composed? { OneMore(s, before, last); }
  }

  lemma NothingGrows(s: Loading)
    requires ParentOk(s.nodes, s.ctx)
    ensures Grown(s, Composed(s.aliases, [], [])) == Next(s)
  {
    assert WithChildren(s.nodes, s.ctx, []) == s.nodes;
    assert s.nodes + [] == s.nodes;
  }

  lemma OneMore(s: Loading, before: Composed, last: Composed)
    requires ParentOk(s.nodes, s.ctx) && s.ctx != [] && before.Composed?
    ensures var r := Grown(s, before).s; ParentOk(r.nodes, r.ctx) && Grown(r, last) == Grown(s, Joined(before, last))
  {
    if last.Composed? {
      var top := s.ctx[|s.ctx| - 1];
      FilledMore(s.nodes[top - 1], before.refs, last.refs);
      RealizeConcat(before.nodes, last.nodes);
      Overwrite(s.nodes, top - 1, Filled(s.nodes[top - 1], before.refs), RealizeAll(before.nodes),
                Filled(s.nodes[top - 1], before.refs + last.refs), RealizeAll(last.nodes));
    }
  }

  lemma Overwrite(nodes: seq<GraphNode>, i: nat, n: GraphNode, p: seq<GraphNode>, n': GraphNode, q: seq<GraphNode>)
    requires i < |nodes|
    ensures (nodes[i := n] + p)[i := n'] + q == nodes[i := n'] + (p + q)
  {}

  lemma {:induction false} FilledMore(n: GraphNode, a: seq<int>, b: seq<int>)
    ensures Filled(Filled(n, a), b) == Filled(n, a + b)
    decreases |b|
  {
    if b == [] {
      assert a + b == a;
    } else {
      FilledMore(n, a, b[..|b| - 1]);
      assert (a + b)[..|a + b| - 1] == a + b[..|b| - 1];
    }
  }

  /** Loading a document yields exactly the graph of its tree, and is refused exactly when an alias has
      no earlier anchor or an anchor is given twice. */
  lemma DocumentComposes(t: Tree)
    requires GoodTree(t)
    ensures LoadAll(EMPTY, Flatten(t)) == match Compose(t, 0, [])
      case Refused => ComposerError
      case Composed(known, _, nodes) => Next(Loading(RealizeAll(nodes), known, []))
  {
    assert Unsealed(0);
    TreeLoads(EMPTY, t);
    var c := Compose(t, 0, []);
    if c.Composed? { assert [] + RealizeAll(c.nodes) == RealizeAll(c.nodes); }
  }
}
