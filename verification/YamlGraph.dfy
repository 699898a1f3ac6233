// Documents as graphs of numbered nodes, and how the loader composes them from events.
module YamlGraph {
  import opened Options
  import opened YamlEvents

  const DEFAULT_SCALAR_TAG := "tag:yaml.org,2002:str"
  const DEFAULT_SEQUENCE_TAG := "tag:yaml.org,2002:seq"
  const DEFAULT_MAPPING_TAG := "tag:yaml.org,2002:map"

  /** Nodes are numbered from 1; a pair whose value is still missing has value 0. */
  datatype Pair = Pair(key: int, value: int)
  datatype GraphNode =
    | ScalarNode(tag: Text, value: Text, style: ScalarStyle)
    | SequenceNode(tag: Text, items: seq<int>, layout: Layout)
    | MappingNode(tag: Text, pairs: seq<Pair>, layout: Layout)

  datatype AliasData = AliasData(anchor: Text, index: int)

  /** What the loader has built so far: nodes, anchors, and the collections that are open. */
  datatype Loading = Loading(nodes: seq<GraphNode>, aliases: seq<AliasData>, ctx: seq<int>)

  /** ComposerError is a refused document; Aborted is a failed assert. */
  datatype LoadResult = Next(s: Loading) | ComposerError | Aborted

  const EMPTY := Loading([], [], [])

  /** The place of the first entry for an anchor, or the number of entries. */
  function FindAlias(aliases: seq<AliasData>, anchor: Text): (k: nat)
    ensures k <= |aliases| && (k < |aliases| ==> aliases[k].anchor == anchor)
  {
    if aliases == [] || aliases[0].anchor == anchor then 0 else FindAlias(aliases[1..], anchor) + 1
  }

  /** The search of the loops: k is the first entry with the anchor. */
  lemma {:induction false} FirstAlias(aliases: seq<AliasData>, anchor: Text, k: nat)
    requires k <= |aliases| && (k < |aliases| ==> aliases[k].anchor == anchor)
    requires forall i | 0 <= i < k :: aliases[i].anchor != anchor
    ensures FindAlias(aliases, anchor) == k
  {
    if k > 0 { FirstAlias(aliases[1..], anchor, k - 1); }
  }

  lemma {:induction false} AliasIsFound(aliases: seq<AliasData>, a: AliasData)
    requires a in aliases
    ensures FindAlias(aliases, a.anchor) < |aliases|
  {
    if aliases[0] != a { AliasIsFound(aliases[1..], a); }
  }

  /** The last pair waits for its value. */
  predicate HalfPaired(pairs: seq<Pair>) {
    pairs != [] && pairs[|pairs| - 1].key != 0 && pairs[|pairs| - 1].value == 0
  }

  function AddPaired(pairs: seq<Pair>, index: int): seq<Pair> {
    if HalfPaired(pairs) then pairs[|pairs| - 1 := Pair(pairs[|pairs| - 1].key, index)] else pairs + [Pair(index, 0)]
  }

  function AddChild(n: GraphNode, index: int): GraphNode
    requires !n.ScalarNode?
  {
    match n
    case SequenceNode(_, items, _) => n.(items := items + [index])
    case MappingNode(_, pairs, _) => n.(pairs := AddPaired(pairs, index))
  }

  predicate InRange(nodes: seq<GraphNode>, i: int) { 1 <= i <= |nodes| }

  /** yaml_parser_load_node_add */
  function AddNode(s: Loading, index: int): LoadResult {
    if s.ctx == [] then Next(s) else
    var parent := s.ctx[|s.ctx| - 1];
    if !InRange(s.nodes, parent) || s.nodes[parent - 1].ScalarNode? then Aborted
    else Next(s.(nodes := s.nodes[parent - 1 := AddChild(s.nodes[parent - 1], index)]))
  }

  function Register(s: Loading, index: int, anchor: Option<Text>): LoadResult {
    if anchor == None then Next(s)
    else if FindAlias(s.aliases, anchor.value) < |s.aliases| then ComposerError
    else Next(s.(aliases := s.aliases + [AliasData(anchor.value, index)]))
  }

  /** A new node: it gets the next number and its anchor, and joins its parent. */
  function NewNode(s: Loading, n: GraphNode, anchor: Option<Text>): LoadResult {
    var s := s.(nodes := s.nodes + [n]);
    var r := Register(s, |s.nodes|, anchor);
    if r.Next? then AddNode(r.s, |s.nodes|) else r
  }

  function TagOr(tag: Option<Text>, default: Text): Text {
    if tag == None || tag.value == "!" then default else tag.value
  }

  function Opened(r: LoadResult, index: int): LoadResult {
    if r.Next? then Next(r.s.(ctx := r.s.ctx + [index])) else r
  }

  function Close(s: Loading, sequence: bool): LoadResult {
    if s.ctx == [] then Aborted else
    var i := s.ctx[|s.ctx| - 1];
    if !InRange(s.nodes, i) || !(if sequence then s.nodes[i - 1].SequenceNode? else s.nodes[i - 1].MappingNode?) then Aborted
    else Next(s.(ctx := s.ctx[..|s.ctx| - 1]))
  }

  /** One event inside a document. */
  function LoadEvent(s: Loading, e: Event): LoadResult {
    match e
    case Alias(name) =>
      var k := FindAlias(s.aliases, name);
      if k == |s.aliases| then ComposerError else AddNode(s, s.aliases[k].index)
    case Scalar(anchor, tag, value, _, _, style) => NewNode(s, ScalarNode(TagOr(tag, DEFAULT_SCALAR_TAG), value, style), anchor)
    case SequenceStart(anchor, tag, _, layout) =>
      Opened(NewNode(s, SequenceNode(TagOr(tag, DEFAULT_SEQUENCE_TAG), [], layout), anchor), |s.nodes| + 1)
    case MappingStart(anchor, tag, _, layout) =>
      Opened(NewNode(s, MappingNode(TagOr(tag, DEFAULT_MAPPING_TAG), [], layout), anchor), |s.nodes| + 1)
    case SequenceEnd => Close(s, true)
    case MappingEnd => Close(s, false)
    case _ => Aborted
  }

  function LoadAll(s: Loading, es: seq<Event>): LoadResult
    decreases |es|
  {
    if es == [] then Next(s) else
    var r := LoadEvent(s, es[0]);
    if r.Next? then LoadAll(r.s, es[1..]) else r
  }

  lemma {:induction false} LoadConcat(s: Loading, a: seq<Event>, b: seq<Event>)
    ensures LoadAll(s, a + b) == var r := LoadAll(s, a); if r.Next? then LoadAll(r.s, b) else r
    decreases |a|
  {
    if a == [] {
      assert a + b == b;
    } else {
      assert (a + b)[1..] == a[1..] + b;
      var r := LoadEvent(s, a[0]);
      if r.Next? { LoadConcat(r.s, a[1..], b); }
    }
  }

  // ----- good documents -----

  predicate PairsInRange(nodes: seq<GraphNode>, pairs: seq<Pair>) {
    forall p | p in pairs :: InRange(nodes, p.key) && InRange(nodes, p.value)
  }

  /** Every id names a node, and every pair has both a key and a value. */
  predicate GoodNode(nodes: seq<GraphNode>, n: GraphNode) {
    match n
    case ScalarNode(_, _, _) => true
    case SequenceNode(_, items, _) => forall i | i in items :: InRange(nodes, i)
    case MappingNode(_, pairs, _) => PairsInRange(nodes, pairs)
  }

  predicate GoodGraph(nodes: seq<GraphNode>) {
    nodes != [] && forall n | n in nodes :: GoodNode(nodes, n)
  }

  // ----- the loader and the grammar -----

  /** All pairs are complete, except that the last one may still wait for its value. */
  predicate NearlyGood(nodes: seq<GraphNode>, n: GraphNode) {
    if n.MappingNode? && HalfPaired(n.pairs)
    then PairsInRange(nodes, n.pairs[..|n.pairs| - 1]) && InRange(nodes, n.pairs[|n.pairs| - 1].key)
    else GoodNode(nodes, n)
  }

  /** The open collections of the grammar are the loader's ctx. The innermost one has `extra` more
      children than items; every other one already has the collection inside it as a child. */
  ghost predicate Mirrors(nodes: seq<GraphNode>, ctx: seq<int>, o: Open, extra: nat)
    decreases o
  {
    match o
    case Outermost => ctx == []
    case In(start, items, around) =>
      && ctx != [] && InRange(nodes, ctx[|ctx| - 1])
      && MirrorsOne(nodes[ctx[|ctx| - 1] - 1], start, |items| + extra)
      && Mirrors(nodes, ctx[..|ctx| - 1], around, 1)
  }

  ghost predicate MirrorsOne(n: GraphNode, start: Event, count: nat) {
    && (start.SequenceStart? ==> n.SequenceNode?)
    && (start.MappingStart? ==> n.MappingNode? && (HalfPaired(n.pairs) <==> count % 2 == 1))
    && IsStart(start)
  }

  ghost predicate Climbing(ctx: seq<int>, n: int) {
    (forall i | 0 <= i < |ctx| :: 1 <= ctx[i] <= n) && (forall i, j | 0 <= i < j < |ctx| :: ctx[i] < ctx[j])
  }

  /** Everything that is stored is in range, and only open mappings may have an incomplete pair. */
  ghost predicate Fine(s: Loading) {
    && Climbing(s.ctx, |s.nodes|)
    && (forall i | 0 <= i < |s.nodes| :: FineAt(s, i))
    && (forall a | a in s.aliases :: InRange(s.nodes, a.index))
  }

  ghost predicate FineAt(s: Loading, i: nat)
    requires i < |s.nodes|
  {
    NearlyGood(s.nodes, s.nodes[i]) && (i + 1 in s.ctx || GoodNode(s.nodes, s.nodes[i]))
  }

  lemma {:induction false} MirrorsKept(nodes: seq<GraphNode>, nodes': seq<GraphNode>, ctx: seq<int>, o: Open, extra: nat)
    requires Mirrors(nodes, ctx, o, extra) && |nodes| <= |nodes'|
    requires forall i | i in ctx && InRange(nodes, i) :: nodes'[i - 1] == nodes[i - 1]
    ensures Mirrors(nodes', ctx, o, extra)
    decreases o
  {
    match o
    case Outermost =>
    case In(_, _, around) =>
      assert ctx[|ctx| - 1] in ctx;
      MirrorsKept(nodes, nodes', ctx[..|ctx| - 1], around, 1);
  }

  lemma GoodKept(nodes: seq<GraphNode>, nodes': seq<GraphNode>, n: GraphNode)
    requires |nodes| <= |nodes'|
    ensures GoodNode(nodes, n) ==> GoodNode(nodes', n)
    ensures NearlyGood(nodes, n) ==> NearlyGood(nodes', n)
  {}

  /** A child more: the last pair fills up, or a new one begins. */
  lemma AddChildGood(nodes: seq<GraphNode>, n: GraphNode, index: int, start: Event, count: nat)
    requires NearlyGood(nodes, n) && InRange(nodes, index) && MirrorsOne(n, start, count)
    ensures !n.ScalarNode? && NearlyGood(nodes, AddChild(n, index)) && MirrorsOne(AddChild(n, index), start, count + 1)
  {
    if n.MappingNode? {
      var q := AddPaired(n.pairs, index);
      if HalfPaired(n.pairs) {
        assert forall p | p in q :: p in n.pairs[..|n.pairs| - 1] || p == q[|q| - 1];
      } else {
        assert q[..|q| - 1] == n.pairs;
      }
    }
  }

  /** An open collection may be overwritten by one whose last pair is incomplete. */
  lemma OverwrittenFine(s: Loading, top: int, n: GraphNode)
    requires Fine(s) && top in s.ctx && InRange(s.nodes, top) && NearlyGood(s.nodes, n)
    ensures Fine(s.(nodes := s.nodes[top - 1 := n]))
  {
    var r := s.(nodes := s.nodes[top - 1 := n]);
    forall i | 0 <= i < |r.nodes| ensures FineAt(r, i) {
      assert FineAt(s, i);
      GoodKept(s.nodes, r.nodes, r.nodes[i]);
    }
  }

  lemma AddNodeFine(s: Loading, index: int, o: Open, extra: nat)
    requires Fine(s) && InRange(s.nodes, index) && Mirrors(s.nodes, s.ctx, o, extra)
    ensures var r := AddNode(s, index);
      && r.Next? && Fine(r.s) && |r.s.nodes| == |s.nodes| && r.s.ctx == s.ctx && Mirrors(r.s.nodes, s.ctx, o, extra + 1)
  {
    if o.In? {
      var top := s.ctx[|s.ctx| - 1];
      var n := s.nodes[top - 1];
      assert FineAt(s, top - 1);
      AddChildGood(s.nodes, n, index, o.start, |o.items| + extra);
      OverwrittenFine(s, top, AddChild(n, index));
      TopMirrors(s.nodes, s.ctx, o, extra, AddChild(n, index));
    }
  }

  /** Only the innermost open collection is another one, with one child more. */
  lemma TopMirrors(nodes: seq<GraphNode>, ctx: seq<int>, o: Open, extra: nat, n: GraphNode)
    requires Mirrors(nodes, ctx, o, extra) && o.In? && Climbing(ctx, |nodes|)
    requires MirrorsOne(n, o.start, |o.items| + extra + 1)
    ensures Mirrors(nodes[ctx[|ctx| - 1] - 1 := n], ctx, o, extra + 1)
  {
    var nodes' := nodes[ctx[|ctx| - 1] - 1 := n];
    MirrorsKept(nodes, nodes', ctx[..|ctx| - 1], o.around, 1);
  }

  lemma NewNodeFine(s: Loading, n: GraphNode, anchor: Option<Text>, o: Open)
    requires Fine(s) && Mirrors(s.nodes, s.ctx, o, 0) && GoodNode([], n) && !(n.MappingNode? && n.pairs != [])
    ensures var r := NewNode(s, n, anchor);
      && !r.Aborted?
      && (r.Next? ==> Fine(r.s) && |r.s.nodes| == |s.nodes| + 1 && r.s.ctx == s.ctx)
      && (r.Next? ==> Mirrors(r.s.nodes, s.ctx, o, 1) && r.s.nodes[|s.nodes|] == n)
  {
    Numbered(s, n, anchor, o);
    var r := Register(s.(nodes := s.nodes + [n]), |s.nodes| + 1, anchor);
    if r.Next? { JoinsParent(r.s, n, |s.nodes|, o); }
  }

  /** The last node joins its parent. */
  lemma JoinsParent(s: Loading, n: GraphNode, k: nat, o: Open)
    requires Fine(s) && Mirrors(s.nodes, s.ctx, o, 0) && |s.nodes| == k + 1 && s.nodes[k] == n && Climbing(s.ctx, k)
    ensures var r := AddNode(s, k + 1);
      r.Next? && Fine(r.s) && |r.s.nodes| == k + 1 && r.s.ctx == s.ctx && Mirrors(r.s.nodes, s.ctx, o, 1) && r.s.nodes[k] == n
  {
    AddNodeFine(s, k + 1, o, 0);
    AddedBelow(s, k + 1, k);
  }

  /** The node has its number and its anchor, but no parent yet. */
  lemma Numbered(s: Loading, n: GraphNode, anchor: Option<Text>, o: Open)
    requires Fine(s) && Mirrors(s.nodes, s.ctx, o, 0) && GoodNode([], n) && !(n.MappingNode? && n.pairs != [])
    ensures var r := Register(s.(nodes := s.nodes + [n]), |s.nodes| + 1, anchor);
      && !r.Aborted?
      && (r.Next? ==> Fine(r.s) && Mirrors(r.s.nodes, s.ctx, o, 0) && r.s.nodes == s.nodes + [n] && r.s.ctx == s.ctx)
  {
    var t := s.(nodes := s.nodes + [n]);
    AppendedFine(s, n);
    MirrorsKept(s.nodes, t.nodes, s.ctx, o, 0);
    RegisterFine(t, |t.nodes|, anchor);
  }

  lemma AddedBelow(s: Loading, index: int, k: nat)
    requires Climbing(s.ctx, k) && k < |s.nodes| && AddNode(s, index).Next?
    ensures AddNode(s, index).s.nodes[k] == s.nodes[k]
  {}

  lemma AppendedFine(s: Loading, n: GraphNode)
    requires Fine(s) && GoodNode([], n) && !(n.MappingNode? && n.pairs != [])
    ensures Fine(s.(nodes := s.nodes + [n]))
  {
    var t := s.(nodes := s.nodes + [n]);
    forall i | 0 <= i < |t.nodes| ensures FineAt(t, i) {
      if i < |s.nodes| {
        assert FineAt(s, i);
        GoodKept(s.nodes, t.nodes, t.nodes[i]);
      }
    }
  }

  lemma RegisterFine(s: Loading, index: int, anchor: Option<Text>)
    requires Fine(s) && InRange(s.nodes, index)
    ensures var r := Register(s, index, anchor);
      !r.Aborted? && (r.Next? ==> Fine(r.s) && r.s.nodes == s.nodes && r.s.ctx == s.ctx)
  {
    var r := Register(s, index, anchor);
    if r.Next? { assert forall i | 0 <= i < |s.nodes| :: FineAt(s, i) ==> FineAt(r.s, i); }
  }

  // ----- the main invariant -----

  /** The loader's state fits the part of the document that has been read. */
  ghost predicate Composing(s: Loading, p: Partial) {
    match p
    case Inside(_, _, o) => Fine(s) && Mirrors(s.nodes, s.ctx, o, 0) && (o == Outermost ==> s == EMPTY)
    case Rooted(_, _, _) => Fine(s) && s.ctx == [] && s.nodes != []
    case _ => false
  }

  lemma PlacedComposes(s: Loading, p: Partial, t: Tree)
    requires p.Inside? && Fine(s) && Mirrors(s.nodes, s.ctx, p.open, 1) && s.nodes != []
    ensures Composing(s, Place(p.docs, p.start, p.open, t))
  {}

  lemma AliasComposes(s: Loading, p: Partial, e: Event)
    requires Composing(s, p) && p.Inside? && e.Alias?
    ensures var r := LoadEvent(s, e); !r.Aborted? && (r.Next? ==> Composing(r.s, Extend(p, e).value))
  {
    var k := FindAlias(s.aliases, e.name);
    if k < |s.aliases| {
      assert s.aliases[k] in s.aliases;
      AddNodeFine(s, s.aliases[k].index, p.open, 0);
      PlacedComposes(LoadEvent(s, e).s, p, Single(e));
    }
  }

  lemma ScalarComposes(s: Loading, p: Partial, e: Event)
    requires Composing(s, p) && p.Inside? && e.Scalar?
    ensures var r := LoadEvent(s, e); !r.Aborted? && (r.Next? ==> Composing(r.s, Extend(p, e).value))
  {
    var r := LoadEvent(s, e);
    NewNodeFine(s, ScalarNode(TagOr(e.tag, DEFAULT_SCALAR_TAG), e.value, e.style), e.anchor, p.open);
    if r.Next? { PlacedComposes(r.s, p, Single(e)); }
  }

  /** The newest node becomes the innermost open collection. */
  lemma PushedFine(q: Loading, o: Open, e: Event)
    requires Fine(q) && q.nodes != [] && Climbing(q.ctx, |q.nodes| - 1) && Mirrors(q.nodes, q.ctx, o, 1)
    requires MirrorsOne(q.nodes[|q.nodes| - 1], e, 0)
    ensures var r := q.(ctx := q.ctx + [|q.nodes|]); Fine(r) && Mirrors(r.nodes, r.ctx, In(e, [], o), 0)
  {
    var r := q.(ctx := q.ctx + [|q.nodes|]);
    assert r.ctx[..|r.ctx| - 1] == q.ctx;
    forall i | 0 <= i < |r.nodes| ensures FineAt(r, i) {
      assert FineAt(q, i);
    }
  }

  lemma StartComposes(s: Loading, p: Partial, e: Event)
    requires Composing(s, p) && p.Inside? && IsStart(e)
    ensures var r := LoadEvent(s, e); !r.Aborted? && (r.Next? ==> Composing(r.s, Extend(p, e).value))
  {
    var n := if e.SequenceStart? then SequenceNode(TagOr(e.tag, DEFAULT_SEQUENCE_TAG), [], e.layout)
             else MappingNode(TagOr(e.tag, DEFAULT_MAPPING_TAG), [], e.layout);
    var q := NewNode(s, n, e.anchor);
    NewNodeFine(s, n, e.anchor, p.open);
    if q.Next? {
      PushedFine(q.s, p.open, e);
    }
  }

  lemma CloseComposes(s: Loading, p: Partial, e: Event)
    requires Composing(s, p) && p.Inside? && p.open.In? && Extend(p, e).Some? && !IsSingle(e) && !IsStart(e)
    ensures var r := LoadEvent(s, e); !r.Aborted? && (r.Next? ==> Composing(r.s, Extend(p, e).value))
  {
    var r := LoadEvent(s, e).s;
    forall i | 0 <= i < |r.nodes| ensures FineAt(r, i) {
      assert FineAt(s, i);
    }
    PlacedComposes(r, Inside(p.docs, p.start, p.open.around), Collection(p.open.start, p.open.items));
  }

  /** With events in the order of the grammar no assert of the loader can fail, and its stack of open
      collections is always that of the grammar. */
  lemma EventComposes(s: Loading, p: Partial, e: Event)
    requires Composing(s, p) && p.Inside? && Extend(p, e).Some?
    ensures var r := LoadEvent(s, e); !r.Aborted? && (r.Next? ==> Composing(r.s, Extend(p, e).value))
  {
    if e.Alias? { AliasComposes(s, p, e); }
    else if e.Scalar? { ScalarComposes(s, p, e); }
    else if IsStart(e) { StartComposes(s, p, e); }
    else { CloseComposes(s, p, e); }
  }

  /** When the document's node is complete the graph is good: ids in range, pairs complete. */
  lemma RootedIsGood(s: Loading, p: Partial)
    requires Composing(s, p) && p.Rooted?
    ensures GoodGraph(s.nodes)
  {
    forall n | n in s.nodes ensures GoodNode(s.nodes, n) {
      var i :| 0 <= i < |s.nodes| && s.nodes[i] == n;
      assert FineAt(s, i);
    }
  }
}
