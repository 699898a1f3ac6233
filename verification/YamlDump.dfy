// What the dumper makes of a node graph: a tree whose repeated nodes are aliases; and what the loader
// makes of that tree.
module YamlDump {
  import opened Options
  import opened YamlEvents
  import opened YamlGraph
  import opened YamlCompose
  import opened Sealing

  // ----- anchor names -----

  function Digit(d: nat): (c: char)
    requires d < 10
    ensures c as int - '0' as int == d
  {
    ('0' as int + d) as char
  }

  function Decimal(n: nat): (s: string)
    ensures s != "" && forall c | c in s :: '0' <= c <= '9'
  {
    if n < 10 then [Digit(n)] else Decimal(n / 10) + [Digit(n % 10)]
  }

  function Padded(s: string): string
    decreases 3 - |s|
  {
    if |s| >= 3 then s else Padded("0" + s)
  }

  /** "id%03d" */
  function AnchorName(id: nat): string {
    "id" + Padded(Decimal(id))
  }

  /** The number that digits stand for. */
  function Number(s: string): int {
    if s == "" then 0 else Number(s[..|s| - 1]) * 10 + (s[|s| - 1] as int - '0' as int)
  }

  lemma {:induction false} NumberOfDecimal(n: nat)
    ensures Number(Decimal(n)) == n
  {
    if n >= 10 {
      NumberOfDecimal(n / 10);
      assert Decimal(n)[..|Decimal(n)| - 1] == Decimal(n / 10);
    } else {
      assert [Digit(n)][..0] == "";
    }
  }

  lemma {:induction false} NumberOfZero(s: string)
    ensures Number("0" + s) == Number(s)
  {
    if s == "" {
      assert ("0" + s)[..0] == "";
    } else {
      assert ("0" + s)[..|s|] == "0" + s[..|s| - 1];
      NumberOfZero(s[..|s| - 1]);
    }
  }

  lemma {:induction false} NumberOfPadded(s: string)
    ensures Number(Padded(s)) == Number(s)
    decreases 3 - |s|
  {
    if |s| < 3 {
      NumberOfZero(s);
      NumberOfPadded("0" + s);
    }
  }

  /** Different ids have different names. */
  lemma AnchorNamesDiffer(a: nat, b: nat)
    requires AnchorName(a) == AnchorName(b)
    ensures a == b
  {
    assert Padded(Decimal(a)) == AnchorName(a)[2..] == AnchorName(b)[2..] == Padded(Decimal(b));
    NumberOfPadded(Decimal(a));
    NumberOfPadded(Decimal(b));
    NumberOfDecimal(a);
    NumberOfDecimal(b);
  }

  lemma {:induction false} DecimalLength(n: nat, k: nat)
    requires n < Power10(k) && k > 0
    ensures |Decimal(n)| <= k
    decreases k
  {
    if n >= 10 { DecimalLength(n / 10, k - 1); }
  }

  function Power10(k: nat): nat { if k == 0 then 1 else 10 * Power10(k - 1) }

  /** An int's name and its NUL fit the 16 bytes allocated for it. */
  lemma AnchorNameFits(id: nat)
    requires id < 0x8000_0000
    ensures |AnchorName(id)| + 1 <= 16
  {
    assert Power10(10) == 10000000000;
    DecimalLength(id, 10);
    PaddedLength(Decimal(id));
  }

  lemma {:induction false} PaddedLength(s: string)
    ensures |Padded(s)| == if |s| < 3 then 3 else |s|
    decreases 3 - |s|
  {
    if |s| < 3 { PaddedLength("0" + s); }
  }

  // ----- the walk over the graph -----

  function PairIds(pairs: seq<Pair>): (ids: seq<int>)
    ensures |ids| == 2 * |pairs|
  {
    if pairs == [] then [] else
    var last := pairs[|pairs| - 1];
    PairIds(pairs[..|pairs| - 1]) + [last.key, last.value]
  }

  /** The ids that a node holds, in order: items, or keys and values in turn. */
  function Children(n: GraphNode): seq<int> {
    match n
    case ScalarNode(_, _, _) => []
    case SequenceNode(_, items, _) => items
    case MappingNode(_, pairs, _) => PairIds(pairs)
  }

  ghost predicate Ids(g: seq<GraphNode>, cs: seq<int>) { forall c | c in cs :: InRange(g, c) }

  lemma {:induction false} PairIdsInRange(g: seq<GraphNode>, pairs: seq<Pair>)
    requires PairsInRange(g, pairs)
    ensures Ids(g, PairIds(pairs))
  {
    if pairs != [] {
      PairIdsInRange(g, pairs[..|pairs| - 1]);
      assert pairs[|pairs| - 1] in pairs;
    }
  }

  lemma ChildrenInRange(g: seq<GraphNode>, c: int)
    requires GoodGraph(g) && InRange(g, c)
    ensures Ids(g, Children(g[c - 1]))
  {
    assert g[c - 1] in g && GoodNode(g, g[c - 1]);
    if g[c - 1].MappingNode? { PairIdsInRange(g, g[c - 1].pairs); }
  }

  ghost function Elems(s: seq<int>): set<int> { set x | x in s }

  ghost function UpTo(n: nat): (s: set<int>)
    ensures forall i :: i in s <==> 1 <= i <= n
  {
    if n == 0 then {} else UpTo(n - 1) + {n}
  }

  ghost function All(g: seq<GraphNode>): set<int> { UpTo(|g|) }

  /** How many nodes have not been reached yet. */
  ghost function Left(g: seq<GraphNode>, ord: seq<int>): nat { |All(g) - Elems(ord)| }

  lemma LeftShrinks(g: seq<GraphNode>, ord: seq<int>, c: int)
    requires InRange(g, c) && c !in ord
    ensures Left(g, ord + [c]) < Left(g, ord)
  {
    assert Elems(ord + [c]) == Elems(ord) + {c};
    assert All(g) - Elems(ord + [c]) == (All(g) - Elems(ord)) - {c};
    assert c in All(g) - Elems(ord);
  }

  lemma LeftMonotone(g: seq<GraphNode>, a: seq<int>, b: seq<int>)
    requires a <= b
    ensures Left(g, b) <= Left(g, a)
  {
    assert All(g) - Elems(b) <= All(g) - Elems(a);
    SubsetCount(All(g) - Elems(b), All(g) - Elems(a));
  }

  lemma SubsetCount(a: set<int>, b: set<int>)
    requires a <= b
    ensures |a| <= |b|
  {
    assert b == a + (b - a);
  }

  /** The nodes reached so far in the order of their first visit, and those visited again in the order
      of their second visit. */
  datatype Trail = Trail(ord: seq<int>, twice: seq<int>)

  ghost predicate Extends(a: Trail, b: Trail) { a.ord <= b.ord && a.twice <= b.twice }

  ghost function Visit(g: seq<GraphNode>, c: int, tr: Trail): (r: Trail)
    requires GoodGraph(g) && InRange(g, c)
    ensures Extends(tr, r)
    decreases Left(g, tr.ord), 0, 0
  {
    if c in tr.ord then (if c in tr.twice then tr else tr.(twice := tr.twice + [c]))
    else
      LeftShrinks(g, tr.ord, c);
      ChildrenInRange(g, c);
      Walk(g, Children(g[c - 1]), tr.(ord := tr.ord + [c]))
  }

  ghost function Walk(g: seq<GraphNode>, cs: seq<int>, tr: Trail): (r: Trail)
    requires GoodGraph(g) && Ids(g, cs)
    ensures Extends(tr, r)
    decreases Left(g, tr.ord), |cs|, 1
  {
    if cs == [] then tr else
    var before := Walk(g, cs[..|cs| - 1], tr);
    LeftMonotone(g, tr.ord, before.ord);
    Visit(g, cs[|cs| - 1], before)
  }

  /** The place of an element, or the length. */
  ghost function Place(s: seq<int>, x: int): (k: nat)
    ensures k <= |s| && (k < |s| <==> x in s) && (k < |s| ==> s[k] == x)
  {
    if s == [] then 0 else
    var init := s[..|s| - 1];
    assert s == init + [s[|s| - 1]];
    if x in init then Place(init, x) else if s[|s| - 1] == x then |s| - 1 else |s|
  }

  lemma {:induction false} PlaceStays(a: seq<int>, b: seq<int>, x: int)
    requires a <= b && x in a
    ensures Place(b, x) == Place(a, x) && x in b
    decreases |b|
  {
    if a != b {
      var init := b[..|b| - 1];
      assert a <= init;
      PlaceStays(a, init, x);
    }
  }

  // ----- the tree that is dumped -----

  /** A node visited twice or more has an anchor; the anchors are numbered by the second visits. */
  ghost function AnchorId(twice: seq<int>, c: int): nat {
    if c in twice then Place(twice, c) + 1 else 0
  }

  ghost function AnchorText(twice: seq<int>, c: int): Option<Text> {
    if c in twice then Some(AnchorName(AnchorId(twice, c))) else None
  }

  /** The event that begins a node, or is all of it. */
  function StartEvent(n: GraphNode, anchor: Option<Text>): Event {
    match n
    case ScalarNode(tag, value, style) =>
      Scalar(anchor, Some(tag), value, tag == DEFAULT_SCALAR_TAG, tag == DEFAULT_SCALAR_TAG, style)
    case SequenceNode(tag, _, layout) => SequenceStart(anchor, Some(tag), tag == DEFAULT_SEQUENCE_TAG, layout)
    case MappingNode(tag, _, layout) => MappingStart(anchor, Some(tag), tag == DEFAULT_MAPPING_TAG, layout)
  }

  /** The tree of a node that is visited after the trail tr, where all anchors are given by twice. */
  ghost function TreeOf(g: seq<GraphNode>, c: int, tr: Trail, twice: seq<int>): Tree
    requires GoodGraph(g) && InRange(g, c)
    decreases Left(g, tr.ord), 0, 0
  {
    if c in tr.ord then Single(Alias(AnchorName(AnchorId(twice, c))))
    else
      var n := g[c - 1];
      var start := StartEvent(n, AnchorText(twice, c));
      if n.ScalarNode? then Single(start)
      else
        LeftShrinks(g, tr.ord, c);
        ChildrenInRange(g, c);
        Collection(start, TreesOf(g, Children(n), tr.(ord := tr.ord + [c]), twice))
  }

  ghost function TreesOf(g: seq<GraphNode>, cs: seq<int>, tr: Trail, twice: seq<int>): (ts: seq<Tree>)
    requires GoodGraph(g) && Ids(g, cs)
    ensures |ts| == |cs|
    decreases Left(g, tr.ord), |cs|, 1
  {
    if cs == [] then [] else
    var before := Walk(g, cs[..|cs| - 1], tr);
    LeftMonotone(g, tr.ord, before.ord);
    TreesOf(g, cs[..|cs| - 1], tr, twice) + [TreeOf(g, cs[|cs| - 1], before, twice)]
  }

  /** What is dumped is a well-formed node. */
  lemma TreeIsGood(g: seq<GraphNode>, c: int, tr: Trail, twice: seq<int>)
    requires GoodGraph(g) && InRange(g, c)
    ensures GoodTree(TreeOf(g, c, tr, twice))
    decreases Left(g, tr.ord), 0, 0
  {
    if c !in tr.ord && !g[c - 1].ScalarNode? {
      LeftShrinks(g, tr.ord, c);
      ChildrenInRange(g, c);
      TreesAreGood(g, Children(g[c - 1]), tr.(ord := tr.ord + [c]), twice);
      ChildrenEven(g[c - 1]);
      CollectionIsGood(StartEvent(g[c - 1], AnchorText(twice, c)), TreesOf(g, Children(g[c - 1]), tr.(ord := tr.ord + [c]), twice));
    }
  }

  lemma ChildrenEven(n: GraphNode)
    ensures n.MappingNode? ==> |Children(n)| % 2 == 0
  {}

  lemma CollectionIsGood(start: Event, items: seq<Tree>)
    requires IsStart(start) && GoodTrees(items) && (start.MappingStart? ==> |items| % 2 == 0)
    ensures GoodTree(Collection(start, items))
  {}

  lemma {:induction false} TreesAreGood(g: seq<GraphNode>, cs: seq<int>, tr: Trail, twice: seq<int>)
    requires GoodGraph(g) && Ids(g, cs)
    ensures GoodTrees(TreesOf(g, cs, tr, twice))
    decreases Left(g, tr.ord), |cs|, 1
  {
    if cs != [] {
      var before := Walk(g, cs[..|cs| - 1], tr);
      LeftMonotone(g, tr.ord, before.ord);
      TreesAreGood(g, cs[..|cs| - 1], tr, twice);
      TreeIsGood(g, cs[|cs| - 1], before, twice);
      var ts := TreesOf(g, cs, tr, twice);
      assert ts[..|ts| - 1] == TreesOf(g, cs[..|cs| - 1], tr, twice);
    }
  }

  // ----- loading it again -----

  ghost predicate Distinct(s: seq<int>) {
    s == [] || (s[|s| - 1] !in s[..|s| - 1] && Distinct(s[..|s| - 1]))
  }

  lemma DistinctMore(s: seq<int>, c: int)
    requires Distinct(s) && c !in s
    ensures Distinct(s + [c]) && c in s + [c]
  {
    assert (s + [c])[..|s|] == s && (s + [c])[|s|] == c;
  }

  lemma PrefixHas(a: seq<int>, b: seq<int>)
    requires a <= b
    ensures forall c | c in a :: c in b
  {
    forall c | c in a ensures c in b { PlaceStays(a, b, c); }
  }

  ghost predicate GoodTrail(g: seq<GraphNode>, tr: Trail) {
    Distinct(tr.ord) && Distinct(tr.twice) && Ids(g, tr.ord) && (forall c | c in tr.twice :: c in tr.ord)
  }

  lemma VisitGood(g: seq<GraphNode>, c: int, tr: Trail)
    requires GoodGraph(g) && InRange(g, c) && GoodTrail(g, tr)
    ensures GoodTrail(g, Visit(g, c, tr)) && c in Visit(g, c, tr).ord
    decreases Left(g, tr.ord), 0, 0
  {
    if c !in tr.ord {
      LeftShrinks(g, tr.ord, c);
      ChildrenInRange(g, c);
      DistinctMore(tr.ord, c);
      WalkGood(g, Children(g[c - 1]), tr.(ord := tr.ord + [c]));
      PrefixHas(tr.ord + [c], Visit(g, c, tr).ord);
    } else if c !in tr.twice {
      DistinctMore(tr.twice, c);
    }
  }

  lemma {:induction false} WalkGood(g: seq<GraphNode>, cs: seq<int>, tr: Trail)
    requires GoodGraph(g) && Ids(g, cs) && GoodTrail(g, tr)
    ensures GoodTrail(g, Walk(g, cs, tr)) && forall c | c in cs :: c in Walk(g, cs, tr).ord
    decreases Left(g, tr.ord), |cs|, 1
  {
    if cs != [] {
      var before := Walk(g, cs[..|cs| - 1], tr);
      LeftMonotone(g, tr.ord, before.ord);
      WalkGood(g, cs[..|cs| - 1], tr);
      VisitGood(g, cs[|cs| - 1], before);
      PrefixHas(before.ord, Walk(g, cs, tr).ord);
      assert cs == cs[..|cs| - 1] + [cs[|cs| - 1]];
    }
  }

  /** The loader's anchors after the nodes of ord: those visited twice, with their new numbers. */
  ghost function AliasesOf(ord: seq<int>, twice: seq<int>): seq<AliasData> {
    if ord == [] then [] else
    var c := ord[|ord| - 1];
    AliasesOf(ord[..|ord| - 1], twice) + (if c in twice then [AliasData(AnchorName(AnchorId(twice, c)), |ord|)] else [])
  }

  lemma {:induction false} AliasesSound(ord: seq<int>, twice: seq<int>, a: AliasData) returns (c: int)
    requires a in AliasesOf(ord, twice) && Distinct(ord)
    ensures c in ord && c in twice && a == AliasData(AnchorName(AnchorId(twice, c)), Place(ord, c) + 1)
  {
    var init, last := ord[..|ord| - 1], ord[|ord| - 1];
    if a in AliasesOf(init, twice) {
      c := AliasesSound(init, twice, a);
      PlaceStays(init, ord, c);
    } else {
      c := last;
    }
  }

  lemma {:induction false} AliasesComplete(ord: seq<int>, twice: seq<int>, c: int)
    requires c in ord && c in twice && Distinct(ord)
    ensures AliasData(AnchorName(AnchorId(twice, c)), Place(ord, c) + 1) in AliasesOf(ord, twice)
  {
    var init, last := ord[..|ord| - 1], ord[|ord| - 1];
    if c != last {
      AliasesComplete(init, twice, c);
      PlaceStays(init, ord, c);
    }
  }

  lemma SameId(twice: seq<int>, a: int, b: int)
    requires a in twice && b in twice && AnchorName(AnchorId(twice, a)) == AnchorName(AnchorId(twice, b))
    ensures a == b
  {
    AnchorNamesDiffer(AnchorId(twice, a), AnchorId(twice, b));
  }

  /** An alias finds the node that it was made for. */
  lemma AliasFound(ord: seq<int>, twice: seq<int>, c: int)
    requires c in ord && c in twice && Distinct(ord)
    ensures var known := AliasesOf(ord, twice); var k := FindAlias(known, AnchorName(AnchorId(twice, c)));
      k < |known| && known[k].index == Place(ord, c) + 1
  {
    var known, name := AliasesOf(ord, twice), AnchorName(AnchorId(twice, c));
    AliasesComplete(ord, twice, c);
    AliasIsFound(known, AliasData(name, Place(ord, c) + 1));
    var k := FindAlias(known, name);
    var d := AliasesSound(ord, twice, known[k]);
    SameId(twice, c, d);
  }

  /** A first visit brings an anchor that is not known yet. */
  lemma AnchorIsNew(ord: seq<int>, twice: seq<int>, c: int)
    requires c !in ord && Distinct(ord)
    ensures Name(AliasesOf(ord, twice), |ord| + 1, AnchorText(twice, c)) == Some(AliasesOf(ord + [c], twice))
  {
    var known := AliasesOf(ord, twice);
    var one := if c in twice then [AliasData(AnchorName(AnchorId(twice, c)), |ord| + 1)] else [];
    assert AliasesOf(ord + [c], twice) == known + one by {
      assert (ord + [c])[..|ord|] == ord && (ord + [c])[|ord|] == c;
    }
    if c in twice {
      var k := FindAlias(known, AnchorName(AnchorId(twice, c)));
      if k < |known| {
        var d := AliasesSound(ord, twice, known[k]);
        SameId(twice, c, d);
        assert false;
      }
    } else {
      assert known + [] == known;
    }
  }

  lemma FirstPlace(ord: seq<int>, c: int, ord': seq<int>)
    requires c !in ord && ord + [c] <= ord'
    ensures Place(ord', c) == |ord|
  {
    assert (ord + [c])[|ord|] == c && (ord + [c])[..|ord|] == ord;
    PlaceStays(ord + [c], ord', c);
  }

  /** Where the children of a node are in ord, counted from 1. */
  ghost function Places(cs: seq<int>, ord: seq<int>): (ps: seq<int>)
    ensures |ps| == |cs|
  {
    if cs == [] then [] else Places(cs[..|cs| - 1], ord) + [Place(ord, cs[|cs| - 1]) + 1]
  }

  lemma {:induction false} PlacesAt(cs: seq<int>, ord: seq<int>, k: nat)
    requires k < |cs|
    ensures Places(cs, ord)[k] == Place(ord, cs[k]) + 1
  {
    if k < |cs| - 1 { PlacesAt(cs[..|cs| - 1], ord, k); }
  }

  lemma {:induction false} PlacesStay(cs: seq<int>, a: seq<int>, b: seq<int>)
    requires a <= b && forall c | c in cs :: c in a
    ensures Places(cs, a) == Places(cs, b)
  {
    if cs != [] {
      var init := cs[..|cs| - 1];
      assert forall d | d in init :: d in cs;
      PlacesStay(init, a, b);
      assert cs[|cs| - 1] in cs;
      PlaceStays(a, b, cs[|cs| - 1]);
    }
  }

  lemma PrefixTrans(a: seq<int>, b: seq<int>, c: seq<int>)
    requires a <= b <= c
    ensures a <= c
  {}

  // ----- the copy -----

  /** A node without its children; the tag "!" stands for the default one. */
  function Hollow(n: GraphNode): GraphNode { Bare(StartEvent(n, None)) }

  /** Node c with its ids replaced by places in ord. */
  ghost function Copy(g: seq<GraphNode>, c: int, ord: seq<int>): Built {
    if InRange(g, c) then Built(Hollow(g[c - 1]), Places(Children(g[c - 1]), ord)) else Built(ScalarNode("", "", AnyScalar), [])
  }

  ghost function Copies(g: seq<GraphNode>, part: seq<int>, ord: seq<int>): (r: seq<Built>)
    ensures |r| == |part|
  {
    if part == [] then [] else Copies(g, part[..|part| - 1], ord) + [Copy(g, part[|part| - 1], ord)]
  }

  lemma {:induction false} CopiesAt(g: seq<GraphNode>, part: seq<int>, ord: seq<int>, k: nat)
    requires k < |part|
    ensures Copies(g, part, ord)[k] == Copy(g, part[k], ord)
  {
    if k < |part| - 1 { CopiesAt(g, part[..|part| - 1], ord, k); }
  }

  /** All children of the nodes in part have been reached. */
  ghost predicate Closed(g: seq<GraphNode>, part: seq<int>, ord: seq<int>) {
    part == [] || (Closed(g, part[..|part| - 1], ord) && ChildrenIn(g, part[|part| - 1], ord))
  }

  ghost predicate ChildrenIn(g: seq<GraphNode>, c: int, ord: seq<int>) {
    InRange(g, c) && forall d | d in Children(g[c - 1]) :: d in ord
  }

  lemma CopiesSnoc(g: seq<GraphNode>, part: seq<int>, c: int, ord: seq<int>)
    ensures Copies(g, part + [c], ord) == Copies(g, part, ord) + [Copy(g, c, ord)]
    ensures Closed(g, part + [c], ord) <==> Closed(g, part, ord) && ChildrenIn(g, c, ord)
  {
    assert (part + [c])[..|part|] == part && (part + [c])[|part|] == c;
  }

  lemma {:induction false} JoinCopies(g: seq<GraphNode>, a: seq<int>, b: seq<int>, ord: seq<int>)
    ensures Copies(g, a + b, ord) == Copies(g, a, ord) + Copies(g, b, ord)
    decreases |b|
  {
    if b == [] {
      assert a + b == a;
    } else {
      var init, c := b[..|b| - 1], b[|b| - 1];
      JoinCopies(g, a, init, ord);
      CopiesSnoc(g, a + init, c, ord);
      CopiesSnoc(g, init, c, ord);
      AssocNodes(Copies(g, a, ord), Copies(g, init, ord), [Copy(g, c, ord)]);
      SplitLast(a, b);
    }
  }

  lemma AssocNodes(a: seq<Built>, b: seq<Built>, c: seq<Built>)
    ensures a + b + c == a + (b + c)
  {}

  lemma SplitLast(a: seq<int>, b: seq<int>)
    requires b != []
    ensures b == b[..|b| - 1] + [b[|b| - 1]] && a + b == a + b[..|b| - 1] + [b[|b| - 1]]
  {}

  lemma {:induction false} JoinClosed(g: seq<GraphNode>, a: seq<int>, b: seq<int>, ord: seq<int>)
    requires Closed(g, a, ord) && Closed(g, b, ord)
    ensures Closed(g, a + b, ord)
    decreases |b|
  {
    if b == [] {
      assert a + b == a;
    } else {
      JoinClosed(g, a, b[..|b| - 1], ord);
      CopiesSnoc(g, a + b[..|b| - 1], b[|b| - 1], ord);
      SplitLast(a, b);
    }
  }

  lemma {:induction false} CopiesStay(g: seq<GraphNode>, part: seq<int>, a: seq<int>, b: seq<int>)
    requires Closed(g, part, a) && a <= b
    ensures Closed(g, part, b) && Copies(g, part, a) == Copies(g, part, b)
  {
    if part != [] {
      CopiesStay(g, part[..|part| - 1], a, b);
      CopyStays(g, part[|part| - 1], a, b);
    }
  }

  lemma CopyStays(g: seq<GraphNode>, c: int, a: seq<int>, b: seq<int>)
    requires ChildrenIn(g, c, a) && a <= b
    ensures ChildrenIn(g, c, b) && Copy(g, c, a) == Copy(g, c, b)
  {
    PrefixHas(a, b);
    PlacesStay(Children(g[c - 1]), a, b);
  }

  lemma OneCopy(g: seq<GraphNode>, c: int, ord: seq<int>)
    requires ChildrenIn(g, c, ord)
    ensures Closed(g, [c], ord) && Copies(g, [c], ord) == [Copy(g, c, ord)]
  {
    CopiesSnoc(g, [], c, ord);
    assert [] + [c] == [c];
  }

  lemma GlueParts(g: seq<GraphNode>, x: seq<int>, y: seq<int>, b: seq<int>, c: seq<int>)
    requires b <= c && Closed(g, x, b) && Closed(g, y, c)
    ensures Closed(g, x + y, c) && Copies(g, x + y, c) == Copies(g, x, b) + Copies(g, y, c)
  {
    CopiesStay(g, x, b, c);
    JoinCopies(g, x, y, c);
    JoinClosed(g, x, y, c);
  }

  lemma SplitRest(a: seq<int>, b: seq<int>, c: seq<int>)
    requires a <= b <= c
    ensures c[|a|..] == b[|a|..] + c[|b|..] && a <= c
  {}

  // ----- the dumped tree is composed to the copies -----

  /** From the nodes of `before` on, the loader makes the copies of the other nodes of `after`. */
  ghost predicate Remakes(g: seq<GraphNode>, result: Composed, before: seq<int>, after: seq<int>, known: seq<AliasData>,
                          refs: seq<int>) {
    forall k: nat :: Unsealed(k) ==>
      && before <= after && Closed(g, after[|before|..], after)
      && result == Composed(known, refs, Copies(g, after[|before|..], after))
  }

  lemma JoinedRemakes(g: seq<GraphNode>, first: Composed, last: Composed, a: seq<int>, b: seq<int>, c: seq<int>,
                      mid: seq<AliasData>, after: seq<AliasData>, refs: seq<int>, refs': seq<int>)
    requires Remakes(g, first, a, b, mid, refs) && Remakes(g, last, b, c, after, refs')
    ensures first.Composed? && Remakes(g, Joined(first, last), a, c, after, refs + refs')
  {
    assert Unsealed(0);
    GlueParts(g, b[|a|..], c[|b|..], b, c);
    SplitRest(a, b, c);
  }

  lemma WrapRemakes(g: seq<GraphNode>, c: int, start: Event, inner: Composed, before: seq<int>, after: seq<int>,
                    known: seq<AliasData>)
    requires ChildrenIn(g, c, after) && !g[c - 1].ScalarNode? && Bare(start) == Hollow(g[c - 1])
    requires Remakes(g, inner, before + [c], after, known, Places(Children(g[c - 1]), after))
    ensures Remakes(g, Wrap(start, |before|, inner), before, after, known, [|before| + 1])
  {
    assert Unsealed(0);
    var rest := after[|before + [c]|..];
    OneCopy(g, c, after);
    GlueParts(g, [c], rest, after, after);
    SplitRest(before, before + [c], after);
    assert (before + [c])[|before|..] == [c];
    assert [Copy(g, c, after)] + Copies(g, rest, after) == Copies(g, [c] + rest, after);
  }

  lemma LeafRemakes(g: seq<GraphNode>, c: int, before: seq<int>, named: seq<AliasData>)
    requires InRange(g, c) && g[c - 1].ScalarNode?
    ensures Remakes(g, Composed(named, [|before| + 1], [Built(Hollow(g[c - 1]), [])]), before, before + [c], named, [|before| + 1])
  {
    assert Unsealed(0);
    assert (before + [c])[|before|..] == [c];
    assert Children(g[c - 1]) == [];
    OneCopy(g, c, before + [c]);
  }

  lemma AliasRemakes(g: seq<GraphNode>, ord: seq<int>, known: seq<AliasData>, index: int)
    ensures Remakes(g, Composed(known, [index], []), ord, ord, known, [index])
  {
    assert Unsealed(0);
    assert ord[|ord|..] == [];
  }

  lemma NothingRemade(g: seq<GraphNode>, ord: seq<int>, known: seq<AliasData>)
    ensures Remakes(g, Composed(known, [], []), ord, ord, known, [])
  {
    assert ord[|ord|..] == [];
  }

  lemma ComposeAlias(name: Text, base: nat, known: seq<AliasData>)
    requires FindAlias(known, name) < |known|
    ensures Compose(Single(Alias(name)), base, known) == Composed(known, [known[FindAlias(known, name)].index], [])
  {}

  lemma ComposeLeaf(e: Event, base: nat, known: seq<AliasData>, named: seq<AliasData>)
    requires e.Scalar? && Name(known, base + 1, AnchorOf(e)) == Some(named)
    ensures Compose(Single(e), base, known) == Composed(named, [base + 1], [Built(Bare(e), [])])
  {}

  lemma ComposeCollection(start: Event, items: seq<Tree>, base: nat, known: seq<AliasData>, named: seq<AliasData>)
    requires Name(known, base + 1, AnchorOf(start)) == Some(named)
    ensures Compose(Collection(start, items), base, known) == Wrap(start, base, ComposeAll(items, base + 1, named))
  {}

  lemma FreshTree(g: seq<GraphNode>, c: int, tr: Trail, twice: seq<int>)
    requires GoodGraph(g) && InRange(g, c) && c !in tr.ord
    ensures Left(g, tr.ord + [c]) < Left(g, tr.ord) && Ids(g, Children(g[c - 1]))
    ensures var n, begun := g[c - 1], tr.(ord := tr.ord + [c]); var start := StartEvent(n, AnchorText(twice, c));
      && AnchorOf(start) == AnchorText(twice, c) && Bare(start) == Hollow(n)
      && Visit(g, c, tr) == Walk(g, Children(n), begun)
      && TreeOf(g, c, tr, twice) == (if n.ScalarNode? then Single(start) else Collection(start, TreesOf(g, Children(n), begun, twice)))
      && (n.ScalarNode? ==> Visit(g, c, tr) == begun)
  {
    LeftShrinks(g, tr.ord, c);
    ChildrenInRange(g, c);
  }

  /** Loading the dumped tree of a node: its aliases are resolved, no anchor is given twice, and the
      nodes reached are copied in the order of their first visits. */
  ghost predicate TreeMade(g: seq<GraphNode>, c: int, tr: Trail, twice: seq<int>)
    requires GoodGraph(g) && InRange(g, c)
  {
    forall k: nat :: Unwrapped(k) ==>
      var r := Visit(g, c, tr);
      Remakes(g, Compose(TreeOf(g, c, tr, twice), |tr.ord|, AliasesOf(tr.ord, twice)), tr.ord, r.ord,
              AliasesOf(r.ord, twice), [Place(r.ord, c) + 1])
  }

  ghost predicate TreesMade(g: seq<GraphNode>, cs: seq<int>, tr: Trail, twice: seq<int>)
    requires GoodGraph(g) && Ids(g, cs)
  {
    forall k: nat :: Unwrapped(k) ==>
      var r := Walk(g, cs, tr);
      Remakes(g, ComposeAll(TreesOf(g, cs, tr, twice), |tr.ord|, AliasesOf(tr.ord, twice)), tr.ord, r.ord,
              AliasesOf(r.ord, twice), Places(cs, r.ord))
  }

  lemma TreeRemade(g: seq<GraphNode>, c: int, tr: Trail, twice: seq<int>)
    requires GoodGraph(g) && InRange(g, c) && GoodTrail(g, tr) && Visit(g, c, tr).twice <= twice
    ensures TreeMade(g, c, tr, twice)
    decreases Left(g, tr.ord), 0, 1
  {
    if c in tr.ord {
      KnownRemade(g, c, tr, twice);
    } else {
      FreshRemade(g, c, tr, twice);
    }
  }

  lemma KnownRemade(g: seq<GraphNode>, c: int, tr: Trail, twice: seq<int>)
    requires GoodGraph(g) && InRange(g, c) && GoodTrail(g, tr) && Visit(g, c, tr).twice <= twice && c in tr.ord
    ensures TreeMade(g, c, tr, twice)
  {
    PrefixHas(Visit(g, c, tr).twice, twice);
    assert c in Visit(g, c, tr).twice;
    AliasFound(tr.ord, twice, c);
    ComposeAlias(AnchorName(AnchorId(twice, c)), |tr.ord|, AliasesOf(tr.ord, twice));
    AliasRemakes(g, tr.ord, AliasesOf(tr.ord, twice), Place(tr.ord, c) + 1);
  }

  lemma FreshRemade(g: seq<GraphNode>, c: int, tr: Trail, twice: seq<int>)
    requires GoodGraph(g) && InRange(g, c) && GoodTrail(g, tr) && Visit(g, c, tr).twice <= twice && c !in tr.ord
    ensures TreeMade(g, c, tr, twice)
    decreases Left(g, tr.ord), 0, 0
  {
    var begun := tr.(ord := tr.ord + [c]);
    FreshTree(g, c, tr, twice);
    if g[c - 1].ScalarNode? {
      LeafRemade(g, c, tr, twice);
    } else {
      DistinctMore(tr.ord, c);
      TreesRemade(g, Children(g[c - 1]), begun, twice);
      CollectionRemade(g, c, tr, twice);
    }
  }

  lemma LeafRemade(g: seq<GraphNode>, c: int, tr: Trail, twice: seq<int>)
    requires GoodGraph(g) && InRange(g, c) && GoodTrail(g, tr) && c !in tr.ord && g[c - 1].ScalarNode?
    ensures TreeMade(g, c, tr, twice)
  {
    var begun, r := tr.(ord := tr.ord + [c]), Visit(g, c, tr);
    FreshTree(g, c, tr, twice);
    FirstPlace(tr.ord, c, r.ord);
    AnchorIsNew(tr.ord, twice, c);
    ComposeLeaf(StartEvent(g[c - 1], AnchorText(twice, c)), |tr.ord|, AliasesOf(tr.ord, twice), AliasesOf(begun.ord, twice));
    LeafRemakes(g, c, tr.ord, AliasesOf(begun.ord, twice));
  }

  lemma CollectionRemade(g: seq<GraphNode>, c: int, tr: Trail, twice: seq<int>)
    requires GoodGraph(g) && InRange(g, c) && GoodTrail(g, tr) && c !in tr.ord && !g[c - 1].ScalarNode?
    requires var cs := Children(g[c - 1]); Ids(g, cs) && TreesMade(g, cs, tr.(ord := tr.ord + [c]), twice)
    ensures TreeMade(g, c, tr, twice)
  {
    var n, begun, r := g[c - 1], tr.(ord := tr.ord + [c]), Visit(g, c, tr);
    var start := StartEvent(n, AnchorText(twice, c));
    assert Unwrapped(0);
    FreshTree(g, c, tr, twice);
    FirstPlace(tr.ord, c, r.ord);
    AnchorIsNew(tr.ord, twice, c);
    DistinctMore(tr.ord, c);
    WalkGood(g, Children(n), begun);
    CollectionMade(g, c, start, TreesOf(g, Children(n), begun, twice), tr.ord, r.ord,
                   AliasesOf(tr.ord, twice), AliasesOf(begun.ord, twice), AliasesOf(r.ord, twice));
  }

  /** The same on the collection's parts. */
  lemma CollectionMade(g: seq<GraphNode>, c: int, start: Event, items: seq<Tree>, before: seq<int>, after: seq<int>,
                       known: seq<AliasData>, named: seq<AliasData>, known': seq<AliasData>)
    requires ChildrenIn(g, c, after) && !g[c - 1].ScalarNode? && Bare(start) == Hollow(g[c - 1])
    requires Name(known, |before| + 1, AnchorOf(start)) == Some(named)
    requires Remakes(g, ComposeAll(items, |before| + 1, named), before + [c], after, known', Places(Children(g[c - 1]), after))
    ensures Remakes(g, Compose(Collection(start, items), |before|, known), before, after, known', [|before| + 1])
  {
    ComposeCollection(start, items, |before|, known, named);
    WrapRemakes(g, c, start, ComposeAll(items, |before| + 1, named), before, after, known');
  }

  lemma {:induction false} TreesRemade(g: seq<GraphNode>, cs: seq<int>, tr: Trail, twice: seq<int>)
    requires GoodGraph(g) && Ids(g, cs) && GoodTrail(g, tr) && Walk(g, cs, tr).twice <= twice
    ensures TreesMade(g, cs, tr, twice)
    decreases Left(g, tr.ord), |cs|, 2
  {
    if cs == [] {
      NothingRemade(g, tr.ord, AliasesOf(tr.ord, twice));
    } else {
      var init, last := cs[..|cs| - 1], cs[|cs| - 1];
      var before, r := Walk(g, init, tr), Walk(g, cs, tr);
      LeftMonotone(g, tr.ord, before.ord);
      WalkGood(g, init, tr);
      PrefixTrans(before.twice, r.twice, twice);
      TreesRemade(g, init, tr, twice);
      TreeRemade(g, last, before, twice);
      LastRemade(g, cs, tr, twice);
    }
  }

  lemma {:induction false} LastRemade(g: seq<GraphNode>, cs: seq<int>, tr: Trail, twice: seq<int>)
    requires GoodGraph(g) && Ids(g, cs) && cs != [] && GoodTrail(g, tr)
    requires var init := cs[..|cs| - 1]; TreesMade(g, init, tr, twice) && TreeMade(g, cs[|cs| - 1], Walk(g, init, tr), twice)
    ensures TreesMade(g, cs, tr, twice)
  {
    var init, last := cs[..|cs| - 1], cs[|cs| - 1];
    var before, r := Walk(g, init, tr), Walk(g, cs, tr);
    assert Unwrapped(0);
    WalkGood(g, init, tr);
    PlacesStay(init, before.ord, r.ord);
    ComposeTreesOf(g, cs, tr, twice);
    JoinedRemakes(g, ComposeAll(TreesOf(g, init, tr, twice), |tr.ord|, AliasesOf(tr.ord, twice)),
                  Compose(TreeOf(g, last, before, twice), |before.ord|, AliasesOf(before.ord, twice)), tr.ord, before.ord, r.ord,
                  AliasesOf(before.ord, twice), AliasesOf(r.ord, twice), Places(init, r.ord), [Place(r.ord, last) + 1]);
  }

  /** The trees but the last are composed first, then the last after the nodes that they made. */
  lemma ComposeTreesOf(g: seq<GraphNode>, cs: seq<int>, tr: Trail, twice: seq<int>)
    requires GoodGraph(g) && Ids(g, cs) && cs != []
    requires var init := cs[..|cs| - 1]; var before := Walk(g, init, tr);
      Remakes(g, ComposeAll(TreesOf(g, init, tr, twice), |tr.ord|, AliasesOf(tr.ord, twice)), tr.ord, before.ord,
              AliasesOf(before.ord, twice), Places(init, before.ord))
    ensures var init := cs[..|cs| - 1]; var before := Walk(g, init, tr);
      var first := ComposeAll(TreesOf(g, init, tr, twice), |tr.ord|, AliasesOf(tr.ord, twice));
      && first.Composed?
      && ComposeAll(TreesOf(g, cs, tr, twice), |tr.ord|, AliasesOf(tr.ord, twice))
        == Joined(first, Compose(TreeOf(g, cs[|cs| - 1], before, twice), |before.ord|, AliasesOf(before.ord, twice)))
  {
    var init := cs[..|cs| - 1];
    var before := Walk(g, init, tr);
    TreesOfSnoc(g, cs, tr, twice);
    RemakesCount(g, ComposeAll(TreesOf(g, init, tr, twice), |tr.ord|, AliasesOf(tr.ord, twice)), tr.ord, before.ord,
                 AliasesOf(before.ord, twice), Places(init, before.ord));
    ComposedSnoc(TreesOf(g, init, tr, twice), TreeOf(g, cs[|cs| - 1], before, twice), |tr.ord|, AliasesOf(tr.ord, twice),
                 |before.ord|, AliasesOf(before.ord, twice));
  }

  lemma ComposedSnoc(ts: seq<Tree>, t: Tree, base: nat, known: seq<AliasData>, base': nat, mid: seq<AliasData>)
    requires ComposeAll(ts, base, known).Composed?
    requires var first := ComposeAll(ts, base, known); base + |first.nodes| == base' && first.known == mid
    ensures ComposeAll(ts + [t], base, known) == Joined(ComposeAll(ts, base, known), Compose(t, base', mid))
  {
    ComposeSnoc(ts, t, base, known);
  }

  lemma TreesOfSnoc(g: seq<GraphNode>, cs: seq<int>, tr: Trail, twice: seq<int>)
    requires GoodGraph(g) && Ids(g, cs) && cs != []
    ensures var before := Walk(g, cs[..|cs| - 1], tr);
      TreesOf(g, cs, tr, twice) == TreesOf(g, cs[..|cs| - 1], tr, twice) + [TreeOf(g, cs[|cs| - 1], before, twice)]
  {}

  lemma RemakesCount(g: seq<GraphNode>, result: Composed, before: seq<int>, after: seq<int>, known: seq<AliasData>,
                     refs: seq<int>)
    requires Remakes(g, result, before, after, known, refs)
    ensures result.Composed? && |before| + |result.nodes| == |after| && result.known == known
  {
    assert Unsealed(0);
  }
}
