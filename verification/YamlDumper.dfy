// The dumper: counts the references to each node, then emits the document's events.
module YamlDumper {
  import opened Options
  import opened YamlEvents
  import opened YamlGraph
  import opened YamlCompose
  import opened YamlDump
  import R = YamlRoundTrip

  datatype AnchorData = AnchorData(references: nat, anchor: nat, serialized: bool)

  datatype Document = Document(nodes: seq<GraphNode>, version: Option<Version>, directives: seq<TagDirective>,
                               startImplicit: bool, endImplicit: bool)

  lemma WalkSnoc(g: seq<GraphNode>, cs: seq<int>, c: int, tr: Trail)
    requires GoodGraph(g) && Ids(g, cs) && InRange(g, c)
    ensures Ids(g, cs + [c]) && Walk(g, cs + [c], tr) == Visit(g, c, Walk(g, cs, tr))
  {
    assert (cs + [c])[..|cs|] == cs && (cs + [c])[|cs|] == c;
  }

  lemma TreesSnoc(g: seq<GraphNode>, cs: seq<int>, c: int, tr: Trail, twice: seq<int>)
    requires GoodGraph(g) && Ids(g, cs) && InRange(g, c)
    ensures Ids(g, cs + [c])
    ensures FlattenAll(TreesOf(g, cs + [c], tr, twice))
      == FlattenAll(TreesOf(g, cs, tr, twice)) + Flatten(TreeOf(g, c, Walk(g, cs, tr), twice))
  {
    assert (cs + [c])[..|cs|] == cs && (cs + [c])[|cs|] == c;
    TreesOfSnoc(g, cs + [c], tr, twice);
    FlattenSnoc(TreesOf(g, cs, tr, twice), TreeOf(g, c, Walk(g, cs, tr), twice));
  }

  lemma PairIdsSnoc(pairs: seq<Pair>, k: nat)
    requires k < |pairs|
    ensures PairIds(pairs[..k + 1]) == PairIds(pairs[..k]) + [pairs[k].key] + [pairs[k].value]
  {
    assert pairs[..k + 1][..k] == pairs[..k];
  }

  /** The anchors after the visits of tr: how often each node was met, and its anchor's number. */
  ghost predicate Counted(a: AnchorData, tr: Trail, c: int) {
    && (a.references > 0 <==> c in tr.ord) && (a.references >= 2 <==> c in tr.twice)
    && a.anchor == AnchorId(tr.twice, c) && !a.serialized
  }

  /** The anchors while the document is emitted. */
  ghost predicate Marked(a: AnchorData, tr: Trail, twice: seq<int>, c: int) {
    a.anchor == AnchorId(twice, c) && (a.serialized <==> c in tr.ord)
  }

  lemma MetFirst(a: AnchorData, tr: Trail, c: int, d: int)
    requires Counted(a, tr, d) && c !in tr.ord && c !in tr.twice
    ensures d != c ==> Counted(a, tr.(ord := tr.ord + [c]), d)
    ensures d == c ==> Counted(a.(references := a.references + 1), tr.(ord := tr.ord + [c]), d) && a.references == 0
  {
    assert (tr.ord + [c])[|tr.ord|] == c;
  }

  lemma MetAgain(a: AnchorData, tr: Trail, c: int, d: int)
    requires Counted(a, tr, d) && c in tr.ord && c !in tr.twice
    ensures d != c ==> Counted(a, tr.(twice := tr.twice + [c]), d)
    ensures d == c ==> Counted(a.(references := 2, anchor := |tr.twice| + 1), tr.(twice := tr.twice + [c]), d) && a.references == 1
  {
    var t := tr.twice + [c];
    assert t[|tr.twice|] == c && t[..|t| - 1] == tr.twice;
    if d in tr.twice { PlaceStays(tr.twice, t, d); }
  }

  ghost function DocumentEvents(document: Document): seq<Event>
    requires GoodGraph(document.nodes)
  {
    [DocumentStart(document.version, document.directives, document.startImplicit)]
    + Flatten(R.Dumped(document.nodes)) + [DocumentEnd(document.endImplicit)]
  }

  /** What is emitted stays within the grammar of event streams, one document more. */
  lemma DumpInGrammar(document: Document, es: seq<Event>, docs: seq<Doc>)
    requires GoodGraph(document.nodes) && Feed(Nothing, es) == Some(Between(docs))
    ensures exists d: Doc :: d.root == R.Dumped(document.nodes) && Feed(Nothing, es + DocumentEvents(document)) == Some(Between(docs + [d]))
  {
    var start := DocumentStart(document.version, document.directives, document.startImplicit);
    var end := DocumentEnd(document.endImplicit);
    var t := R.Dumped(document.nodes);
    var d := Doc(start, t, end);
    R.DumpedComposes(document.nodes);
    TreeReads(docs, start, Outermost, t);
    FeedConcat(Inside(docs, start, Outermost), Flatten(t), [end]);
    assert DocumentEvents(document) == [start] + (Flatten(t) + [end]);
    assert ([start] + (Flatten(t) + [end]))[1..] == Flatten(t) + [end];
    FeedConcat(Nothing, es, DocumentEvents(document));
    assert d.root == t;
  }

  class Emitter {
    var isOpened: bool
    var isClosed: bool
    var lastAnchorId: nat
    var nodes: seq<GraphNode>
    var anchors: array<AnchorData>
    var emitted: seq<Event>

    constructor ()
      ensures !isOpened && !isClosed && emitted == [] && fresh(anchors)
    {
      isOpened, isClosed, lastAnchorId, nodes, emitted := false, false, 0, [], [];
      anchors := new AnchorData[0];
    }

    /** The events go to the emitter proper, which takes nothing after the end of the stream. */
    method Emit(e: Event) returns (ok: bool)
      modifies this`emitted
      ensures ok == !isClosed && emitted == old(emitted) + (if ok then [e] else [])
    {
      ok := !isClosed;
      if ok { emitted := emitted + [e]; }
    }

    // ----- counting references -----

    ghost predicate Counting(tr: Trail)
      reads this, anchors
    {
      && GoodGraph(nodes) && anchors.Length == |nodes| && GoodTrail(nodes, tr) && lastAnchorId == |tr.twice|
      && forall i | 0 <= i < anchors.Length :: Counted(anchors[i], tr, i + 1)
    }

    /** One reference more; the second one brings the anchor its number. */
    method Refer(index: int, ghost tr: Trail) returns (references: nat, ghost r: Trail)
      requires Counting(tr) && InRange(nodes, index)
      modifies this`lastAnchorId, anchors
      ensures references == old(anchors[index - 1].references) + 1 && (references == 1 <==> index !in tr.ord)
      ensures r == if index !in tr.ord then tr.(ord := tr.ord + [index]) else Visit(nodes, index, tr)
      ensures Counting(r)
    {
      assert Counted(anchors[index - 1], tr, index);
      references := anchors[index - 1].references + 1;
      anchors[index - 1] := anchors[index - 1].(references := references);
      r := tr;
      if references == 1 {
        r := tr.(ord := tr.ord + [index]);
        DistinctMore(tr.ord, index);
        assert forall i | 0 <= i < anchors.Length :: Counted(old(anchors[i]), tr, i + 1);
        forall i | 0 <= i < anchors.Length ensures Counted(anchors[i], r, i + 1) { MetFirst(old(anchors[i]), tr, index, i + 1); }
      } else if references == 2 {
        lastAnchorId := lastAnchorId + 1;
        anchors[index - 1] := anchors[index - 1].(anchor := lastAnchorId);
        r := tr.(twice := tr.twice + [index]);
        DistinctMore(tr.twice, index);
        assert forall i | 0 <= i < anchors.Length :: Counted(old(anchors[i]), tr, i + 1);
        forall i | 0 <= i < anchors.Length ensures Counted(anchors[i], r, i + 1) { MetAgain(old(anchors[i]), tr, index, i + 1); }
      }
    }

    method AnchorNode(index: int, ghost tr: Trail) returns (ghost r: Trail)
      requires Counting(tr) && InRange(nodes, index)
      modifies this`lastAnchorId, anchors
      ensures Counting(r) && r == Visit(nodes, index, tr)
      decreases Left(nodes, tr.ord), 0
    {
      var references;
      references, r := Refer(index, tr);
      if references == 1 {
        LeftShrinks(nodes, tr.ord, index);
        ChildrenInRange(nodes, index);
        r := AnchorChildren(index, r);
      }
    }

    method AnchorChildren(index: int, ghost tr: Trail) returns (ghost r: Trail)
      requires Counting(tr) && InRange(nodes, index) && Ids(nodes, Children(nodes[index - 1]))
      modifies this`lastAnchorId, anchors
      ensures Counting(r) && r == Walk(nodes, Children(nodes[index - 1]), tr)
      decreases Left(nodes, tr.ord), 1
    {
      r := tr;
      match nodes[index - 1]
      case ScalarNode(_, _, _) =>
      case SequenceNode(_, items, _) =>
        var k := 0;
        assert items[..0] == [];
        while k < |items|
          invariant 0 <= k <= |items| && Counting(r) && Ids(nodes, items[..k]) && r == Walk(nodes, items[..k], tr)
        {
          assert items[..k + 1] == items[..k] + [items[k]] && items[k] in items;
          WalkSnoc(nodes, items[..k], items[k], tr);
          LeftMonotone(nodes, tr.ord, r.ord);
          r := AnchorNode(items[k], r);
          k := k + 1;
        }
        assert items[..k] == items;
      case MappingNode(_, pairs, _) =>
        var k := 0;
        assert pairs[..0] == [];
        while k < |pairs|
          invariant 0 <= k <= |pairs| && Counting(r) && Ids(nodes, PairIds(pairs[..k]))
          invariant r == Walk(nodes, PairIds(pairs[..k]), tr)
        {
          PairInRange(nodes, index, k);
          PairIdsSnoc(pairs, k);
          WalkSnoc(nodes, PairIds(pairs[..k]), pairs[k].key, tr);
          WalkSnoc(nodes, PairIds(pairs[..k]) + [pairs[k].key], pairs[k].value, tr);
          LeftMonotone(nodes, tr.ord, r.ord);
          r := AnchorNode(pairs[k].key, r);
          LeftMonotone(nodes, tr.ord, r.ord);
          r := AnchorNode(pairs[k].value, r);
          k := k + 1;
        }
        assert pairs[..k] == pairs;
    }

    // ----- emitting -----

    ghost predicate Dumping(tr: Trail, twice: seq<int>)
      reads this, anchors
    {
      && GoodGraph(nodes) && anchors.Length == |nodes| && GoodTrail(nodes, tr) && !isClosed
      && forall i | 0 <= i < anchors.Length :: Marked(anchors[i], tr, twice, i + 1)
    }

    method MarkSerialized(index: int, ghost tr: Trail, ghost twice: seq<int>) returns (ghost r: Trail)
      requires Dumping(tr, twice) && InRange(nodes, index) && index !in tr.ord
      modifies anchors
      ensures r == tr.(ord := tr.ord + [index]) && Dumping(r, twice)
    {
      r := tr.(ord := tr.ord + [index]);
      DistinctMore(tr.ord, index);
      anchors[index - 1] := anchors[index - 1].(serialized := true);
      assert forall i | 0 <= i < anchors.Length :: Marked(old(anchors[i]), tr, twice, i + 1);
    }

    /** A node met for the first time is emitted, any later time an alias to it. */
    method DumpNode(index: int, ghost tr: Trail, ghost twice: seq<int>) returns (ok: bool, ghost r: Trail)
      requires Dumping(tr, twice) && InRange(nodes, index) && Visit(nodes, index, tr).twice <= twice
      modifies this`emitted, anchors
      ensures ok && r == Visit(nodes, index, tr) && Dumping(r, twice)
      ensures emitted == old(emitted) + Flatten(TreeOf(nodes, index, tr, twice))
      decreases Left(nodes, tr.ord), 0
    {
      assert Marked(anchors[index - 1], tr, twice, index);
      var anchor := AnchorOfNode(index, tr, twice);
      if anchors[index - 1].serialized {
        AliasEmitted(nodes, index, tr, twice);
        r := Visit(nodes, index, tr);
        ok := Emit(Alias(anchor.value));
        return;
      }
      FreshTree(nodes, index, tr, twice);
      r := MarkSerialized(index, tr, twice);
      ok, r := DumpFresh(index, anchor, r, twice);
    }

    /** "if (anchor_id) generate_anchor" */
    method AnchorOfNode(index: int, ghost tr: Trail, ghost twice: seq<int>) returns (anchor: Option<Text>)
      requires Dumping(tr, twice) && InRange(nodes, index)
      ensures anchor == AnchorText(twice, index)
    {
      assert Marked(anchors[index - 1], tr, twice, index);
      var id := anchors[index - 1].anchor;
      anchor := if id != 0 then Some(AnchorName(id)) else None;
    }

    method DumpFresh(index: int, anchor: Option<Text>, ghost tr: Trail,
                     ghost twice: seq<int>) returns (ok: bool, ghost r: Trail)
      requires Dumping(tr, twice) && InRange(nodes, index)
      requires Ids(nodes, Children(nodes[index - 1])) && Walk(nodes, Children(nodes[index - 1]), tr).twice <= twice
      modifies this`emitted, anchors
      ensures ok && r == Walk(nodes, Children(nodes[index - 1]), tr) && Dumping(r, twice)
      ensures emitted == old(emitted) + Flatten(
        var n := nodes[index - 1];
        if n.ScalarNode? then Single(StartEvent(n, anchor))
        else Collection(StartEvent(n, anchor), TreesOf(nodes, Children(n), tr, twice)))
      decreases Left(nodes, tr.ord), 3
    {
      var n := nodes[index - 1];
      r := tr;
      match n
      case ScalarNode(tag, value, style) =>
        ok := Emit(Scalar(anchor, Some(tag), value, tag == DEFAULT_SCALAR_TAG, tag == DEFAULT_SCALAR_TAG, style));
      case SequenceNode(tag, items, layout) =>
        ok, r := DumpSequence(anchor, tag, items, layout, tr, twice);
      case MappingNode(tag, pairs, layout) =>
        ok, r := DumpMapping(anchor, tag, pairs, layout, tr, twice);
    }

    method DumpSequence(anchor: Option<Text>, tag: Text, items: seq<int>, layout: Layout, ghost tr: Trail,
                        ghost twice: seq<int>)
      returns (ok: bool, ghost r: Trail)
      requires Dumping(tr, twice) && Ids(nodes, items) && Walk(nodes, items, tr).twice <= twice
      modifies this`emitted, anchors
      ensures ok && r == Walk(nodes, items, tr) && Dumping(r, twice)
      ensures var start := SequenceStart(anchor, Some(tag), tag == DEFAULT_SEQUENCE_TAG, layout);
        emitted == old(emitted) + ([start] + FlattenAll(TreesOf(nodes, items, tr, twice)) + [SequenceEnd])
      decreases Left(nodes, tr.ord), 2, 1
    {
      var start := SequenceStart(anchor, Some(tag), tag == DEFAULT_SEQUENCE_TAG, layout);
      ok := Emit(start);
      ok, r := DumpItems(items, tr, twice);
      ok := Emit(SequenceEnd);
      Bracket(old(emitted), start, FlattenAll(TreesOf(nodes, items, tr, twice)), SequenceEnd);
    }

    method DumpMapping(anchor: Option<Text>, tag: Text, pairs: seq<Pair>, layout: Layout, ghost tr: Trail,
                       ghost twice: seq<int>)
      returns (ok: bool, ghost r: Trail)
      requires Dumping(tr, twice) && Ids(nodes, PairIds(pairs)) && Walk(nodes, PairIds(pairs), tr).twice <= twice
      modifies this`emitted, anchors
      ensures ok && r == Walk(nodes, PairIds(pairs), tr) && Dumping(r, twice)
      ensures var start := MappingStart(anchor, Some(tag), tag == DEFAULT_MAPPING_TAG, layout);
        emitted == old(emitted) + ([start] + FlattenAll(TreesOf(nodes, PairIds(pairs), tr, twice)) + [MappingEnd])
      decreases Left(nodes, tr.ord), 2, 1
    {
      var start := MappingStart(anchor, Some(tag), tag == DEFAULT_MAPPING_TAG, layout);
      ok := Emit(start);
      ok, r := DumpPairs(pairs, tr, twice);
      ok := Emit(MappingEnd);
      Bracket(old(emitted), start, FlattenAll(TreesOf(nodes, PairIds(pairs), tr, twice)), MappingEnd);
    }

    method DumpItems(items: seq<int>, ghost tr: Trail, ghost twice: seq<int>) returns (ok: bool, ghost r: Trail)
      requires Dumping(tr, twice) && Ids(nodes, items) && Walk(nodes, items, tr).twice <= twice
      modifies this`emitted, anchors
      ensures ok && r == Walk(nodes, items, tr) && Dumping(r, twice)
      ensures emitted == old(emitted) + FlattenAll(TreesOf(nodes, items, tr, twice))
      decreases Left(nodes, tr.ord), 2, 0
    {
      ghost var before := emitted;
      ok, r := true, tr;
      var k := 0;
      assert items[..0] == [];
      while k < |items|
        invariant 0 <= k <= |items| && ok && DumpedUpTo(items, k, r, tr, twice, before)
      {
        ok, r := DumpNext(items[k], items, k, r, tr, twice, before);
        k := k + 1;
      }
      assert items[..k] == items;
    }

    method DumpPairs(pairs: seq<Pair>, ghost tr: Trail, ghost twice: seq<int>) returns (ok: bool, ghost r: Trail)
      requires Dumping(tr, twice) && Ids(nodes, PairIds(pairs)) && Walk(nodes, PairIds(pairs), tr).twice <= twice
      modifies this`emitted, anchors
      ensures ok && r == Walk(nodes, PairIds(pairs), tr) && Dumping(r, twice)
      ensures emitted == old(emitted) + FlattenAll(TreesOf(nodes, PairIds(pairs), tr, twice))
      decreases Left(nodes, tr.ord), 2, 0
    {
      ghost var ids := PairIds(pairs);
      ghost var before := emitted;
      ok, r := true, tr;
      var k := 0;
      assert ids[..0] == [];
      while k < |pairs|
        invariant 0 <= k <= |pairs| && ok && DumpedUpTo(ids, 2 * k, r, tr, twice, before)
      {
        PairIdAt(pairs, k);
        ok, r := DumpNext(pairs[k].key, ids, 2 * k, r, tr, twice, before);
        ok, r := DumpNext(pairs[k].value, ids, 2 * k + 1, r, tr, twice, before);
        k := k + 1;
      }
      assert ids[..2 * k] == ids;
    }

    /** The first j children of cs have been emitted since `before`. */
    ghost predicate DumpedUpTo(cs: seq<int>, j: nat, r: Trail, tr: Trail, twice: seq<int>, before: seq<Event>)
      reads this, anchors
    {
      && j <= |cs| && Dumping(r, twice) && Ids(nodes, cs) && Ids(nodes, cs[..j]) && r == Walk(nodes, cs[..j], tr)
      && Walk(nodes, cs, tr).twice <= twice
      && emitted == before + FlattenAll(TreesOf(nodes, cs[..j], tr, twice))
    }

    method DumpNext(index: int, ghost cs: seq<int>, ghost j: nat, ghost r0: Trail, ghost tr: Trail, ghost twice: seq<int>,
                    ghost before: seq<Event>)
      returns (ok: bool, ghost r: Trail)
      requires DumpedUpTo(cs, j, r0, tr, twice, before) && j < |cs| && cs[j] == index
      modifies this`emitted, anchors
      ensures ok && DumpedUpTo(cs, j + 1, r, tr, twice, before)
      decreases Left(nodes, tr.ord), 1, 1
    {
      ItemStep(nodes, cs, j, tr, twice);
      ok, r := DumpNode(index, r0, twice);
      AssocEvents(before, FlattenAll(TreesOf(nodes, cs[..j], tr, twice)), Flatten(TreeOf(nodes, index, r0, twice)));
    }

    // ----- a document -----

    /** yaml_emitter_open */
    method OpenStream() returns (ok: bool)
      requires !isOpened && !isClosed
      modifies this`isOpened, this`emitted
      ensures ok && isOpened && emitted == old(emitted) + [StreamStart]
    {
      ok := Emit(StreamStart);
      isOpened := true;
    }

    /** yaml_emitter_close */
    method CloseStream() returns (ok: bool)
      requires isOpened
      modifies this`isClosed, this`emitted
      ensures ok && isClosed && emitted == old(emitted) + (if old(isClosed) then [] else [StreamEnd])
    {
      if isClosed { return true; }
      ok := Emit(StreamEnd);
      isClosed := true;
    }

    /** The anchors of a document before anything is counted. */
    method NewAnchors(document: Document)
      requires GoodGraph(document.nodes)
      modifies this
      ensures fresh(anchors) && nodes == document.nodes && Counting(R.NONE)
      ensures isOpened == old(isOpened) && isClosed == old(isClosed) && emitted == old(emitted)
    {
      nodes := document.nodes;
      lastAnchorId := 0;
      anchors := new AnchorData[|nodes|](_ => AnchorData(0, 0, false));
    }

    method CountReferences() returns (ghost tr: Trail)
      requires Counting(R.NONE) && !isClosed
      modifies this`lastAnchorId, anchors
      ensures tr == R.Whole(nodes) && Dumping(R.NONE, tr.twice)
    {
      tr := AnchorNode(1, R.NONE);
      assert forall i | 0 <= i < anchors.Length :: Counted(anchors[i], tr, i + 1);
    }

    /** yaml_emitter_dump: the stream is opened if need be; a document's events follow, or the end of the
        stream for an empty document. Nothing is accepted after that end. */
    method Dump(document: Document) returns (ok: bool)
      requires (isClosed ==> isOpened) && (document.nodes == [] || GoodGraph(document.nodes))
      modifies this
      ensures ok == (document.nodes == [] || !old(isClosed)) && isOpened && isClosed == (old(isClosed) || document.nodes == [])
      ensures emitted == old(emitted) + (if old(isOpened) then [] else [StreamStart])
        + (if old(isClosed) then [] else if document.nodes == [] then [StreamEnd] else DocumentEvents(document))
    {
      if !isOpened { ok := OpenStream(); }
      if document.nodes == [] {
        ok := CloseStream();
        return;
      }
      ok := DumpDocument(document);
    }

    method DumpDocument(document: Document) returns (ok: bool)
      requires GoodGraph(document.nodes)
      modifies this
      ensures ok == !isClosed && isOpened == old(isOpened) && isClosed == old(isClosed)
      ensures emitted == old(emitted) + (if isClosed then [] else DocumentEvents(document))
    {
      NewAnchors(document);
      ghost var start := DocumentStart(document.version, document.directives, document.startImplicit);
      ok := Emit(DocumentStart(document.version, document.directives, document.startImplicit));
      if !ok { return; }
      ghost var tr := CountReferences();
      ghost var r;
      ok, r := DumpNode(1, R.NONE, tr.twice);
      ok := Emit(DocumentEnd(document.endImplicit));
      Bracket(old(emitted), start, Flatten(R.Dumped(document.nodes)), DocumentEnd(document.endImplicit));
    }
  }

  lemma Bracket(a: seq<Event>, start: Event, b: seq<Event>, end: Event)
    ensures a + [start] + b + [end] == a + ([start] + b + [end])
  {}

  lemma AssocEvents(a: seq<Event>, b: seq<Event>, c: seq<Event>)
    ensures a + b + c == a + (b + c)
  {}

  /** A node that was met before is one that was met twice, so it has an anchor. */
  lemma AliasEmitted(g: seq<GraphNode>, c: int, tr: Trail, twice: seq<int>)
    requires GoodGraph(g) && InRange(g, c) && GoodTrail(g, tr) && c in tr.ord && Visit(g, c, tr).twice <= twice
    ensures c in twice && Flatten(TreeOf(g, c, tr, twice)) == [Alias(AnchorName(AnchorId(twice, c)))]
    ensures GoodTrail(g, Visit(g, c, tr)) && Visit(g, c, tr).ord == tr.ord
  {
    VisitGood(g, c, tr);
    PrefixHas(Visit(g, c, tr).twice, twice);
    assert c in Visit(g, c, tr).twice;
  }

  lemma PairInRange(g: seq<GraphNode>, c: int, k: nat)
    requires GoodGraph(g) && InRange(g, c) && g[c - 1].MappingNode? && k < |g[c - 1].pairs|
    ensures InRange(g, g[c - 1].pairs[k].key) && InRange(g, g[c - 1].pairs[k].value)
  {
    assert g[c - 1] in g && GoodNode(g, g[c - 1]);
    assert g[c - 1].pairs[k] in g[c - 1].pairs;
  }

  lemma {:induction false} PairIdAt(pairs: seq<Pair>, k: nat)
    requires k < |pairs|
    ensures PairIds(pairs)[2 * k] == pairs[k].key && PairIds(pairs)[2 * k + 1] == pairs[k].value
  {
    if k < |pairs| - 1 { PairIdAt(pairs[..|pairs| - 1], k); }
  }

  /** The item number k: it can be visited, what it yields comes next, and the walk has shrunk what is left. */
  lemma ItemStep(g: seq<GraphNode>, cs: seq<int>, k: nat, tr: Trail, twice: seq<int>)
    requires GoodGraph(g) && Ids(g, cs) && k < |cs| && Walk(g, cs, tr).twice <= twice
    ensures Ids(g, cs[..k]) && Ids(g, cs[..k + 1]) && InRange(g, cs[k])
    ensures var r := Walk(g, cs[..k], tr);
      && Left(g, r.ord) <= Left(g, tr.ord)
      && Walk(g, cs[..k + 1], tr) == Visit(g, cs[k], r) && Visit(g, cs[k], r).twice <= twice
      && FlattenAll(TreesOf(g, cs[..k + 1], tr, twice))
        == FlattenAll(TreesOf(g, cs[..k], tr, twice)) + Flatten(TreeOf(g, cs[k], r, twice))
  {
    assert cs[..k + 1] == cs[..k] + [cs[k]] && cs[k] in cs;
    WalkSnoc(g, cs[..k], cs[k], tr);
    TreesSnoc(g, cs[..k], cs[k], tr, twice);
    LeftMonotone(g, tr.ord, Walk(g, cs[..k], tr).ord);
    WalkPrefix(g, cs, k + 1, tr);
    PrefixTrans(Walk(g, cs[..k + 1], tr).twice, Walk(g, cs, tr).twice, twice);
  }

  lemma {:induction false} WalkPrefix(g: seq<GraphNode>, cs: seq<int>, k: nat, tr: Trail)
    requires GoodGraph(g) && Ids(g, cs) && k <= |cs|
    ensures Ids(g, cs[..k]) && Extends(Walk(g, cs[..k], tr), Walk(g, cs, tr))
    decreases |cs|
  {
    if k == |cs| {
      assert cs[..k] == cs;
    } else {
      var init := cs[..|cs| - 1];
      assert init[..k] == cs[..k];
      WalkPrefix(g, init, k, tr);
      PrefixTrans(Walk(g, cs[..k], tr).ord, Walk(g, init, tr).ord, Walk(g, cs, tr).ord);
      PrefixTrans(Walk(g, cs[..k], tr).twice, Walk(g, init, tr).twice, Walk(g, cs, tr).twice);
    }
  }
}
