// Dumping a node graph and loading it again.
module YamlRoundTrip {
  import opened Options
  import opened YamlEvents
  import opened YamlGraph
  import opened YamlCompose
  import opened YamlDump
  import opened Sealing

  const NONE := Trail([], [])

  /** The walk of the whole document, from its root. */
  ghost function Whole(g: seq<GraphNode>): Trail
    requires GoodGraph(g)
  {
    Visit(g, 1, NONE)
  }

  ghost function Dumped(g: seq<GraphNode>): Tree
    requires GoodGraph(g)
  {
    TreeOf(g, 1, NONE, Whole(g).twice)
  }

  // ----- which nodes are reached -----

  ghost predicate ClosedSet(g: seq<GraphNode>, s: set<int>) {
    forall c | c in s && InRange(g, c) :: Within(Children(g[c - 1]), s)
  }

  ghost predicate Within(cs: seq<int>, s: set<int>) { forall d | d in cs :: d in s }

  lemma VisitWithin(g: seq<GraphNode>, c: int, tr: Trail, s: set<int>)
    requires GoodGraph(g) && InRange(g, c) && ClosedSet(g, s) && c in s && Within(tr.ord, s)
    ensures Within(Visit(g, c, tr).ord, s)
    decreases Left(g, tr.ord), 0, 0
  {
    if c !in tr.ord {
      LeftShrinks(g, tr.ord, c);
      ChildrenInRange(g, c);
      assert Within(Children(g[c - 1]), s);
      WalkWithin(g, Children(g[c - 1]), tr.(ord := tr.ord + [c]), s);
    }
  }

  lemma {:induction false} WalkWithin(g: seq<GraphNode>, cs: seq<int>, tr: Trail, s: set<int>)
    requires GoodGraph(g) && Ids(g, cs) && ClosedSet(g, s) && Within(cs, s) && Within(tr.ord, s)
    ensures Within(Walk(g, cs, tr).ord, s)
    decreases Left(g, tr.ord), |cs|, 1
  {
    if cs != [] {
      var before := Walk(g, cs[..|cs| - 1], tr);
      LeftMonotone(g, tr.ord, before.ord);
      WalkWithin(g, cs[..|cs| - 1], tr, s);
      VisitWithin(g, cs[|cs| - 1], before, s);
    }
  }

  lemma {:induction false} ClosedHas(g: seq<GraphNode>, part: seq<int>, ord: seq<int>, c: int)
    requires Closed(g, part, ord) && c in part
    ensures ChildrenIn(g, c, ord)
  {
    if c != part[|part| - 1] { ClosedHas(g, part[..|part| - 1], ord, c); }
  }

  lemma WholeIsClosed(g: seq<GraphNode>)
    requires GoodGraph(g)
    ensures Closed(g, Whole(g).ord, Whole(g).ord)
  {
    assert Unsealed(0) && Unwrapped(0);
    VisitGood(g, 1, NONE);
    TreeRemade(g, 1, NONE, Whole(g).twice);
    assert Whole(g).ord[0..] == Whole(g).ord;
  }

  lemma ClosedIsSet(g: seq<GraphNode>, ord: seq<int>)
    requires Closed(g, ord, ord)
    ensures ClosedSet(g, Elems(ord))
  {
    forall c | c in Elems(ord) && InRange(g, c) ensures Within(Children(g[c - 1]), Elems(ord)) {
      ClosedHas(g, ord, ord, c);
    }
  }

  lemma WithinElems(cs: seq<int>, s: set<int>)
    requires Within(cs, s)
    ensures Elems(cs) <= s
  {
    forall x | x in Elems(cs) ensures x in s {
      assert x in cs;
    }
  }

  lemma WholeBegins(g: seq<GraphNode>)
    requires GoodGraph(g)
    ensures Distinct(Whole(g).ord) && [1] <= Whole(g).ord
  {
    VisitGood(g, 1, NONE);
    FreshTree(g, 1, NONE, []);
    assert [] + [1] == [1];
  }

  /** The walk reaches exactly the nodes that can be reached from the root: the smallest set that has
      the root and all children of its members. */
  lemma WholeIsReachable(g: seq<GraphNode>, s: set<int>)
    requires GoodGraph(g)
    ensures 1 in Elems(Whole(g).ord) && ClosedSet(g, Elems(Whole(g).ord))
    ensures 1 in s && ClosedSet(g, s) ==> Elems(Whole(g).ord) <= s
  {
    WholeBegins(g);
    assert Whole(g).ord[0] == 1;
    WholeIsClosed(g);
    ClosedIsSet(g, Whole(g).ord);
    if 1 in s && ClosedSet(g, s) {
      VisitWithin(g, 1, NONE, s);
      WithinElems(Whole(g).ord, s);
    }
  }

  // ----- the loaded nodes match the dumped ones -----

  /** What loading makes of a tag: "!" becomes the default. */
  function Normal(n: GraphNode): Text {
    if n.tag == "!" then (match n
      case ScalarNode(_, _, _) => DEFAULT_SCALAR_TAG
      case SequenceNode(_, _, _) => DEFAULT_SEQUENCE_TAG
      case MappingNode(_, _, _) => DEFAULT_MAPPING_TAG)
    else n.tag
  }

  predicate SameKind(n: GraphNode, m: GraphNode) {
    match n
    case ScalarNode(_, value, style) => m.ScalarNode? && m.value == value && m.style == style
    case SequenceNode(_, _, layout) => m.SequenceNode? && m.layout == layout
    case MappingNode(_, _, layout) => m.MappingNode? && m.layout == layout
  }

  /** Node m of the new graph is node n of the old one, where the new number i stands for ord[i - 1]. */
  ghost predicate Matches(n: GraphNode, m: GraphNode, ord: seq<int>) {
    SameKind(n, m) && m.tag == Normal(n) && SameChildren(Children(n), Children(m), ord)
  }

  ghost predicate SameChildren(before: seq<int>, after: seq<int>, ord: seq<int>) {
    |before| == |after| && forall j | 0 <= j < |after| :: 1 <= after[j] <= |ord| && ord[after[j] - 1] == before[j]
  }

  lemma PlacesMatch(cs: seq<int>, ord: seq<int>)
    requires forall c | c in cs :: c in ord
    ensures SameChildren(cs, Places(cs, ord), ord)
  {
    forall j | 0 <= j < |cs| ensures 1 <= Places(cs, ord)[j] <= |ord| && ord[Places(cs, ord)[j] - 1] == cs[j] {
      PlacesAt(cs, ord, j);
      assert cs[j] in cs;
    }
  }

  lemma {:induction false} FilledItems(n: GraphNode, cs: seq<int>)
    requires n.SequenceNode?
    ensures Filled(n, cs) == n.(items := n.items + cs)
  {
    if cs == [] {
      assert n.items + cs == n.items;
    } else {
      FilledItems(n, cs[..|cs| - 1]);
      assert n.items + cs == n.items + cs[..|cs| - 1] + [cs[|cs| - 1]];
    }
  }

  /** The ids in pairs of which the last may still wait for its value. */
  function HalfIds(pairs: seq<Pair>): seq<int> {
    if HalfPaired(pairs) then PairIds(pairs[..|pairs| - 1]) + [pairs[|pairs| - 1].key] else PairIds(pairs)
  }

  /** Keys and values arrive in turn and pair up. */
  lemma OneMoreId(pairs: seq<Pair>, c: int)
    requires c > 0
    ensures HalfIds(AddPaired(pairs, c)) == HalfIds(pairs) + [c]
    ensures HalfPaired(AddPaired(pairs, c)) == !HalfPaired(pairs)
  {
    var q := AddPaired(pairs, c);
    if HalfPaired(pairs) {
      assert q[..|q| - 1] == pairs[..|pairs| - 1];
    } else {
      assert q[..|q| - 1] == pairs;
    }
  }

  function PairsOf(cs: seq<int>): seq<Pair> {
    if cs == [] then [] else AddPaired(PairsOf(cs[..|cs| - 1]), cs[|cs| - 1])
  }

  lemma {:induction false} FilledPairs(n: GraphNode, cs: seq<int>)
    requires n.MappingNode? && n.pairs == []
    ensures Filled(n, cs) == n.(pairs := PairsOf(cs))
  {
    if cs != [] { FilledPairs(n, cs[..|cs| - 1]); }
  }

  lemma {:induction false} PairsOfIds(cs: seq<int>)
    requires forall i | 0 <= i < |cs| :: cs[i] > 0
    ensures HalfIds(PairsOf(cs)) == cs && HalfPaired(PairsOf(cs)) == (|cs| % 2 == 1)
  {
    if cs != [] {
      var init, c := cs[..|cs| - 1], cs[|cs| - 1];
      PairsOfIds(init);
      OneMoreId(PairsOf(init), c);
      SnocIds(init, c, HalfIds(PairsOf(init)), HalfIds(AddPaired(PairsOf(init), c)));
      assert cs == init + [c];
    }
  }

  lemma SnocIds(init: seq<int>, c: int, ids: seq<int>, ids': seq<int>)
    requires ids == init && ids' == ids + [c]
    ensures ids' == init + [c] && (|init| % 2 == 1) != (|init + [c]| % 2 == 1)
  {}

  lemma CopyMatches(n: GraphNode, ord: seq<int>)
    requires forall d | d in Children(n) :: d in ord
    ensures Matches(n, Filled(Hollow(n), Places(Children(n), ord)), ord)
  {
    var cs := Children(n);
    PlacesMatch(cs, ord);
    match n
    case ScalarNode(_, _, _) =>
    case SequenceNode(_, _, _) => SequenceMatches(n, Places(cs, ord));
    case MappingNode(_, _, _) => MappingMatches(n, Places(cs, ord));
  }

  lemma SequenceMatches(n: GraphNode, ps: seq<int>)
    requires n.SequenceNode?
    ensures var m := Filled(Hollow(n), ps); SameKind(n, m) && m.tag == Normal(n) && Children(m) == ps
  {
    FilledItems(Hollow(n), ps);
    assert [] + ps == ps;
  }

  lemma MappingMatches(n: GraphNode, ps: seq<int>)
    requires n.MappingNode? && |ps| % 2 == 0 && forall i | 0 <= i < |ps| :: ps[i] > 0
    ensures var m := Filled(Hollow(n), ps); SameKind(n, m) && m.tag == Normal(n) && Children(m) == ps
  {
    FilledPairs(Hollow(n), ps);
    PairsOfIds(ps);
  }

  lemma {:induction false} RealizeAt(ns: seq<Built>, k: nat)
    requires k < |ns|
    ensures RealizeAll(ns)[k] == Filled(ns[k].node, ns[k].refs)
  {
    if k < |ns| - 1 { RealizeAt(ns[..|ns| - 1], k); }
  }

  /** The new node k + 1 matches the old node that was reached as number k + 1. */
  ghost predicate MatchesAt(g: seq<GraphNode>, h: seq<GraphNode>, ord: seq<int>, k: nat) {
    k < |h| && k < |ord| && InRange(g, ord[k]) && Matches(g[ord[k] - 1], h[k], ord)
  }

  lemma CopiesMatch(g: seq<GraphNode>, ord: seq<int>, k: nat)
    requires Closed(g, ord, ord) && k < |ord|
    ensures MatchesAt(g, RealizeAll(Copies(g, ord, ord)), ord, k)
  {
    RealizeAt(Copies(g, ord, ord), k);
    CopiesAt(g, ord, ord, k);
    ClosedHas(g, ord, ord, ord[k]);
    CopyMatches(g[ord[k] - 1], ord);
  }

  lemma DumpedComposes(g: seq<GraphNode>)
    requires GoodGraph(g)
    ensures GoodTree(Dumped(g))
    ensures var r := Whole(g);
      Compose(Dumped(g), 0, []) == Composed(AliasesOf(r.ord, r.twice), [YamlDump.Place(r.ord, 1) + 1], Copies(g, r.ord, r.ord))
  {
    assert Unsealed(0) && Unwrapped(0);
    TreeIsGood(g, 1, NONE, Whole(g).twice);
    TreeRemade(g, 1, NONE, Whole(g).twice);
    assert Whole(g).ord[0..] == Whole(g).ord;
  }

  /** Dump, then load, is the identity up to renumbering: the loader accepts what the dumper emits, and
      makes one node for each reachable one, in the order of first visits, that matches it; no node is
      made twice, and the root is the first. Shared and cyclic nodes are included. */
  lemma DumpThenLoad(g: seq<GraphNode>) returns (h: seq<GraphNode>, aliases: seq<AliasData>)
    requires GoodGraph(g)
    ensures GoodTree(Dumped(g)) && LoadAll(EMPTY, Flatten(Dumped(g))) == Next(Loading(h, aliases, []))
    ensures |h| == |Whole(g).ord| && forall k | 0 <= k < |h| :: MatchesAt(g, h, Whole(g).ord, k)
    ensures Distinct(Whole(g).ord) && [1] <= Whole(g).ord
  {
    var r := Whole(g);
    WholeBegins(g);
    DumpedComposes(g);
    DocumentComposes(Dumped(g));
    WholeIsClosed(g);
    h, aliases := RealizeAll(Copies(g, r.ord, r.ord)), AliasesOf(r.ord, r.twice);
    forall k | 0 <= k < |h| ensures MatchesAt(g, h, r.ord, k) {
      CopiesMatch(g, r.ord, k);
    }
  }

  lemma DefaultTags(n: GraphNode)
    ensures Normal(n) != "!" && (Normal(n) == n.tag <==> n.tag != "!")
  {
    assert DEFAULT_SCALAR_TAG[0] == 't' && DEFAULT_SEQUENCE_TAG[0] == 't' && DEFAULT_MAPPING_TAG[0] == 't' && "!"[0] == '!';
  }

  ghost predicate TagKept(g: seq<GraphNode>, h: seq<GraphNode>, ord: seq<int>, k: nat) {
    k < |h| && k < |ord| && InRange(g, ord[k]) && h[k].tag == g[ord[k] - 1].tag
  }

  ghost predicate TagPlain(g: seq<GraphNode>, c: int) { InRange(g, c) && g[c - 1].tag != "!" }

  /** The tags survive exactly when no reachable node has the tag "!". */
  lemma TagsSurvive(g: seq<GraphNode>, h: seq<GraphNode>)
    requires GoodGraph(g) && |h| == |Whole(g).ord| && forall k | 0 <= k < |h| :: MatchesAt(g, h, Whole(g).ord, k)
    ensures (forall k | 0 <= k < |h| :: TagKept(g, h, Whole(g).ord, k)) <==> (forall c | c in Whole(g).ord :: TagPlain(g, c))
  {
    var ord := Whole(g).ord;
    forall k | 0 <= k < |h| ensures TagKept(g, h, ord, k) <==> TagPlain(g, ord[k]) {
      assert MatchesAt(g, h, ord, k);
      DefaultTags(g[ord[k] - 1]);
    }
    if forall c | c in ord :: TagPlain(g, c) {
      forall k | 0 <= k < |h| ensures TagKept(g, h, ord, k) { assert TagPlain(g, ord[k]); }
    }
    if forall k | 0 <= k < |h| :: TagKept(g, h, ord, k) {
      forall c | c in ord ensures TagPlain(g, c) {
        var k :| 0 <= k < |ord| && ord[k] == c;
        assert TagKept(g, h, ord, k);
      }
    }
  }
}
