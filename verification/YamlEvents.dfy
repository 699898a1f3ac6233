// Tokens, events, and the trees that event streams stand for.
module YamlEvents {
  import opened Options

  type Text = string
  type Mark = nat

  datatype ScalarStyle = AnyScalar | Plain | SingleQuoted | DoubleQuoted | Literal | Folded
  datatype Layout = AnyLayout | Block | Flow
  datatype Version = Version(major: int, minor: int)
  datatype TagDirective = TagDirective(handle: Text, prefix: Text)

  datatype TokenData =
    | StreamStartToken | StreamEndToken
    | VersionDirectiveToken(version: Version) | TagDirectiveToken(directive: TagDirective)
    | DocumentStartToken | DocumentEndToken
    | BlockSequenceStartToken | BlockMappingStartToken | BlockEndToken
    | FlowSequenceStartToken | FlowSequenceEndToken | FlowMappingStartToken | FlowMappingEndToken
    | BlockEntryToken | FlowEntryToken | KeyToken | ValueToken
    | AliasToken(alias: Text) | AnchorToken(anchor: Text) | TagToken(handle: Text, suffix: Text)
    | ScalarToken(value: Text, style: ScalarStyle)

  datatype Token = Token(data: TokenData, start: Mark, end: Mark)

  datatype Event =
    | StreamStart | StreamEnd
    | DocumentStart(version: Option<Version>, directives: seq<TagDirective>, implicit: bool)
    | DocumentEnd(implicit: bool)
    | Alias(name: Text)
    | Scalar(anchor: Option<Text>, tag: Option<Text>, value: Text, plainImplicit: bool, quotedImplicit: bool, style: ScalarStyle)
    | SequenceStart(anchor: Option<Text>, tag: Option<Text>, implicit: bool, layout: Layout)
    | SequenceEnd
    | MappingStart(anchor: Option<Text>, tag: Option<Text>, implicit: bool, layout: Layout)
    | MappingEnd

  // ----- the grammar of event streams -----

  /** A node with all that is inside it; the items of a mapping are its keys and values in turn. */
  datatype Tree = Single(event: Event) | Collection(start: Event, items: seq<Tree>)
  datatype Doc = Doc(start: Event, root: Tree, end: Event)

  predicate IsSingle(e: Event) { e.Alias? || e.Scalar? }
  predicate IsStart(e: Event) { e.SequenceStart? || e.MappingStart? }

  /** A sequence has any number of items, a mapping an even number: complete pairs. */
  predicate CanClose(start: Event, count: nat) {
    start.SequenceStart? || (start.MappingStart? && count % 2 == 0)
  }

  predicate GoodTree(t: Tree) {
    match t
    case Single(e) => IsSingle(e)
    case Collection(start, items) => CanClose(start, |items|) && GoodTrees(items)
  }

  predicate GoodTrees(ts: seq<Tree>) {
    ts == [] || (GoodTrees(ts[..|ts| - 1]) && GoodTree(ts[|ts| - 1]))
  }

  predicate GoodDocs(ds: seq<Doc>) {
    forall d | d in ds :: d.start.DocumentStart? && GoodTree(d.root) && d.end.DocumentEnd?
  }

  function EndOf(start: Event): Event {
    if start.MappingStart? then MappingEnd else SequenceEnd
  }

  function Flatten(t: Tree): seq<Event> {
    match t
    case Single(e) => [e]
    case Collection(start, items) => [start] + FlattenAll(items) + [EndOf(start)]
  }

  function FlattenAll(ts: seq<Tree>): seq<Event> {
    if ts == [] then [] else FlattenAll(ts[..|ts| - 1]) + Flatten(ts[|ts| - 1])
  }

  function FlattenDocs(ds: seq<Doc>): seq<Event> {
    if ds == [] then [] else
    var d := ds[|ds| - 1];
    FlattenDocs(ds[..|ds| - 1]) + [d.start] + Flatten(d.root) + [d.end]
  }

  /** STREAM-START (DOCUMENT-START node DOCUMENT-END)* STREAM-END */
  function FlattenStream(ds: seq<Doc>): seq<Event> {
    [StreamStart] + FlattenDocs(ds) + [StreamEnd]
  }

  /** The events are the start of some complete stream. */
  ghost predicate InGrammar(es: seq<Event>) {
    exists ds, more :: GoodDocs(ds) && es + more == FlattenStream(ds)
  }

  // ----- reading events one by one -----

  /** The collections that are open, innermost first, with the items they have so far. */
  datatype Open = Outermost | In(start: Event, items: seq<Tree>, around: Open)

  datatype Partial =
    | Nothing
    | Between(docs: seq<Doc>)
    | Inside(docs: seq<Doc>, start: Event, open: Open)          // a node is missing or incomplete
    | Rooted(docs: seq<Doc>, start: Event, root: Tree)          // the document's node is complete
    | Done(docs: seq<Doc>)

  function FlattenOpen(o: Open): seq<Event> {
    match o
    case Outermost => []
    case In(start, items, around) => FlattenOpen(around) + [start] + FlattenAll(items)
  }

  predicate GoodOpen(o: Open) {
    o.In? ==> IsStart(o.start) && GoodTrees(o.items) && GoodOpen(o.around)
  }

  function FlattenPartial(p: Partial): seq<Event> {
    match p
    case Nothing => []
    case Between(docs) => [StreamStart] + FlattenDocs(docs)
    case Inside(docs, start, open) => [StreamStart] + FlattenDocs(docs) + [start] + FlattenOpen(open)
    case Rooted(docs, start, root) => [StreamStart] + FlattenDocs(docs) + [start] + Flatten(root)
    case Done(docs) => FlattenStream(docs)
  }

  predicate GoodPartial(p: Partial) {
    match p
    case Nothing => true
    case Between(docs) => GoodDocs(docs)
    case Inside(docs, start, open) => GoodDocs(docs) && start.DocumentStart? && GoodOpen(open)
    case Rooted(docs, start, root) => GoodDocs(docs) && start.DocumentStart? && GoodTree(root)
    case Done(docs) => GoodDocs(docs)
  }

  /** A complete node takes its place. */
  function Place(docs: seq<Doc>, start: Event, open: Open, t: Tree): Partial {
    match open
    case Outermost => Rooted(docs, start, t)
    case In(s, items, around) => Inside(docs, start, In(s, items + [t], around))
  }

  function Extend(p: Partial, e: Event): Option<Partial> {
    match p
    case Nothing => if e.StreamStart? then Some(Between([])) else None
    case Between(docs) =>
      if e.DocumentStart? then Some(Inside(docs, e, Outermost)) else if e.StreamEnd? then Some(Done(docs)) else None
    case Inside(docs, start, open) =>
      if IsSingle(e) then Some(Place(docs, start, open, Single(e)))
      else if IsStart(e) then Some(Inside(docs, start, In(e, [], open)))
      else if open.In? && e == EndOf(open.start) && CanClose(open.start, |open.items|)
        then Some(Place(docs, start, open.around, Collection(open.start, open.items)))
      else None
    case Rooted(docs, start, root) => if e.DocumentEnd? then Some(Between(docs + [Doc(start, root, e)])) else None
    case Done(_) => None
  }

  function Feed(p: Partial, es: seq<Event>): Option<Partial>
    decreases |es|
  {
    if es == [] then Some(p) else
    match Extend(p, es[0])
    case None => None
    case Some(p') => Feed(p', es[1..])
  }

  lemma PlaceFlattens(docs: seq<Doc>, start: Event, open: Open, t: Tree)
    requires GoodDocs(docs) && start.DocumentStart? && GoodOpen(open) && GoodTree(t)
    ensures var p := Place(docs, start, open, t);
      GoodPartial(p) && FlattenPartial(p) == FlattenPartial(Inside(docs, start, open)) + Flatten(t)
  {
    if open.In? {
      var its := open.items + [t];
      assert its[..|its| - 1] == open.items;
      var a, b := [StreamStart] + FlattenDocs(docs) + [start], FlattenOpen(open.around) + [open.start];
      assert a + (b + (FlattenAll(open.items) + Flatten(t))) == a + (b + FlattenAll(open.items)) + Flatten(t);
    }
  }

  /** The bookkeeping loses nothing: the partial tree flattens to exactly the events read. */
  lemma ExtendFlattens(p: Partial, e: Event)
    requires GoodPartial(p) && Extend(p, e).Some?
    ensures var p' := Extend(p, e).value; GoodPartial(p') && FlattenPartial(p') == FlattenPartial(p) + [e]
  {
    match p
    case Nothing =>
    case Between(docs) =>
    case Done(docs) =>
    case Rooted(docs, start, root) =>
      DocFlattens(docs, Doc(start, root, e));
      RootGlue([StreamStart], FlattenDocs(docs), start, Flatten(root), e);
    case Inside(docs, start, open) => ExtendInside(docs, start, open, e);
  }

  lemma DocFlattens(docs: seq<Doc>, d: Doc)
    ensures FlattenDocs(docs + [d]) == FlattenDocs(docs) + [d.start] + Flatten(d.root) + [d.end]
  {
    var ds := docs + [d];
    assert ds[..|ds| - 1] == docs;
  }

  lemma ExtendInside(docs: seq<Doc>, start: Event, open: Open, e: Event)
    requires var p := Inside(docs, start, open); GoodPartial(p) && Extend(p, e).Some?
    ensures var p := Inside(docs, start, open); var p' := Extend(p, e).value;
      GoodPartial(p') && FlattenPartial(p') == FlattenPartial(p) + [e]
  {
    if IsSingle(e) {
      PlaceFlattens(docs, start, open, Single(e));
    } else if IsStart(e) {
      NestGlue([StreamStart] + FlattenDocs(docs) + [start], FlattenOpen(open), e);
    } else {
      PlaceFlattens(docs, start, open.around, Collection(open.start, open.items));
      CloseGlue([StreamStart] + FlattenDocs(docs) + [start], FlattenOpen(open.around), open.start, FlattenAll(open.items), e);
    }
  }

  lemma NestGlue(a: seq<Event>, b: seq<Event>, e: Event)
    ensures a + (b + [e] + []) == a + b + [e]
  {}

  lemma CloseGlue(a: seq<Event>, b: seq<Event>, s: Event, items: seq<Event>, e: Event)
    ensures a + b + ([s] + items + [e]) == a + (b + [s] + items) + [e]
  {}

  lemma RootGlue(a: seq<Event>, b: seq<Event>, s: Event, root: seq<Event>, e: Event)
    ensures a + (b + [s] + root + [e]) == a + b + [s] + root + [e]
  {}

  /** The events of the current document so far. */
  function DocEvents(p: Partial): seq<Event> {
    match p
    case Inside(_, _, open) => FlattenOpen(open)
    case Rooted(_, _, root) => Flatten(root)
    case _ => []
  }

  lemma PlacedEvents(docs: seq<Doc>, start: Event, open: Open, t: Tree)
    ensures DocEvents(Place(docs, start, open, t)) == FlattenOpen(open) + Flatten(t)
  {
    if open.In? {
      var its := open.items + [t];
      assert its[..|its| - 1] == open.items;
    }
  }

  lemma DocExtends(p: Partial, e: Event)
    requires p.Inside? && Extend(p, e).Some?
    ensures var p' := Extend(p, e).value;
      DocEvents(p') == DocEvents(p) + [e] && (p'.Inside? || p'.Rooted?) && p'.docs == p.docs && p'.start == p.start
  {
    if IsSingle(e) {
      PlacedEvents(p.docs, p.start, p.open, Single(e));
    } else if IsStart(e) {
      assert FlattenOpen(In(e, [], p.open)) == FlattenOpen(p.open) + [e] + [];
    } else {
      DocCloses(p, e);
    }
  }

  lemma DocCloses(p: Partial, e: Event)
    requires p.Inside? && p.open.In? && e == EndOf(p.open.start)
    ensures DocEvents(Place(p.docs, p.start, p.open.around, Collection(p.open.start, p.open.items))) == DocEvents(p) + [e]
  {
    PlacedEvents(p.docs, p.start, p.open.around, Collection(p.open.start, p.open.items));
    CloseGlue([], FlattenOpen(p.open.around), p.open.start, FlattenAll(p.open.items), e);
  }

  lemma {:induction false} FeedFlattens(p: Partial, es: seq<Event>)
    requires GoodPartial(p) && Feed(p, es).Some?
    ensures GoodPartial(Feed(p, es).value) && FlattenPartial(Feed(p, es).value) == FlattenPartial(p) + es
    decreases |es|
  {
    if es != [] {
      ExtendFlattens(p, es[0]);
      FeedFlattens(Extend(p, es[0]).value, es[1..]);
    }
  }

  lemma {:induction false} FeedConcat(p: Partial, a: seq<Event>, b: seq<Event>)
    ensures Feed(p, a + b) == match Feed(p, a) case None => None case Some(p') => Feed(p', b)
    decreases |a|
  {
    if a == [] {
      assert a + b == b;
    } else {
      assert (a + b)[1..] == a[1..] + b;
      match Extend(p, a[0])
      case None =>
      case Some(p') => FeedConcat(p', a[1..], b);
    }
  }

  // ----- readable is the same as grammatical -----

  function Depth(o: Open): nat {
    match o case Outermost => 0 case In(_, _, around) => 1 + Depth(around)
  }

  function ToGo(p: Partial): nat {
    match p
    case Done(_) => 0
    case Between(_) => 1
    case Nothing => 2
    case Rooted(_, _, _) => 2
    case Inside(_, _, o) => 3 + 2 * Depth(o) + (if o.In? && !CanClose(o.start, |o.items|) then 1 else 0)
  }

  /** An event that brings a partial stream nearer to its end. */
  function Closer(p: Partial): Event
    requires !p.Done?
  {
    match p
    case Nothing => StreamStart
    case Between(_) => StreamEnd
    case Rooted(_, _, _) => DocumentEnd(true)
    case Inside(_, _, o) => if o.In? && CanClose(o.start, |o.items|) then EndOf(o.start) else Alias("")
  }

  lemma CloserCloses(p: Partial)
    requires GoodPartial(p) && !p.Done?
    ensures var q := Extend(p, Closer(p)); q.Some? && GoodPartial(q.value) && ToGo(q.value) < ToGo(p)
  {
    ExtendFlattens(p, Closer(p));
    if p.Inside? && p.open.In? { CollectionCloser(p); }
  }

  lemma CollectionCloser(p: Partial)
    requires GoodPartial(p) && p.Inside? && p.open.In?
    ensures var q := Extend(p, Closer(p)); q.Some? && ToGo(q.value) < ToGo(p)
  {
    var o := p.open;
    if CanClose(o.start, |o.items|) {
      var t := Collection(o.start, o.items);
      assert Extend(p, EndOf(o.start)) == Some(Place(p.docs, p.start, o.around, t));
      if o.around.In? { PlacedDepth(p.docs, p.start, o.around, t); }
    } else {
      PlacedDepth(p.docs, p.start, o, Single(Alias("")));
    }
  }

  lemma PlacedDepth(docs: seq<Doc>, start: Event, o: Open, t: Tree)
    requires o.In?
    ensures var p := Place(docs, start, o, t); p.Inside? && Depth(p.open) == Depth(o)
  {}

  lemma {:induction false} Completes(p: Partial) returns (more: seq<Event>)
    requires GoodPartial(p)
    ensures Feed(p, more).Some? && Feed(p, more).value.Done?
    decreases ToGo(p)
  {
    if p.Done? { return []; }
    CloserCloses(p);
    var rest := Completes(Extend(p, Closer(p)).value);
    more := [Closer(p)] + rest;
    assert more[1..] == rest;
  }

  /** What can be read event by event is the start of a complete stream. */
  lemma ReadableInGrammar(es: seq<Event>)
    requires Feed(Nothing, es).Some?
    ensures InGrammar(es)
  {
    FeedFlattens(Nothing, es);
    var p := Feed(Nothing, es).value;
    var more := Completes(p);
    FeedFlattens(p, more);
    var ds := Feed(p, more).value.docs;
    assert es + more == FlattenStream(ds);
  }

  lemma TreeReads(docs: seq<Doc>, start: Event, o: Open, t: Tree)
    requires GoodTree(t)
    ensures Feed(Inside(docs, start, o), Flatten(t)) == Some(Place(docs, start, o, t))
    decreases t, 0
  {
    match t
    case Single(e) =>
    case Collection(s, items) =>
      var p := Inside(docs, start, In(s, [], o));
      ItemsRead(docs, start, o, s, items);
      FeedConcat(p, FlattenAll(items), [EndOf(s)]);
      assert Flatten(t)[1..] == FlattenAll(items) + [EndOf(s)];
  }

  lemma {:induction false} ItemsRead(docs: seq<Doc>, start: Event, o: Open, s: Event, items: seq<Tree>)
    requires GoodTrees(items)
    ensures Feed(Inside(docs, start, In(s, [], o)), FlattenAll(items)) == Some(Inside(docs, start, In(s, items, o)))
    decreases items, 1
  {
    if items != [] {
      var init, last := items[..|items| - 1], items[|items| - 1];
      ItemsRead(docs, start, o, s, init);
      TreeReads(docs, start, In(s, init, o), last);
      FeedConcat(Inside(docs, start, In(s, [], o)), FlattenAll(init), Flatten(last));
      assert init + [last] == items;
    }
  }

  lemma {:induction false} DocsRead(ds: seq<Doc>)
    requires GoodDocs(ds)
    ensures Feed(Between([]), FlattenDocs(ds)) == Some(Between(ds))
    decreases |ds|
  {
    if ds != [] {
      var init, d := ds[..|ds| - 1], ds[|ds| - 1];
      assert d in ds;
      DocsRead(init);
      OneDocRead(init, d);
      FeedConcat(Between([]), FlattenDocs(init), [d.start] + (Flatten(d.root) + [d.end]));
      DocGlue(FlattenDocs(init), d.start, Flatten(d.root), d.end);
      assert init + [d] == ds;
    }
  }

  lemma DocGlue(a: seq<Event>, s: Event, root: seq<Event>, e: Event)
    ensures a + [s] + root + [e] == a + ([s] + (root + [e]))
  {}

  lemma OneDocRead(init: seq<Doc>, d: Doc)
    requires d.start.DocumentStart? && GoodTree(d.root) && d.end.DocumentEnd?
    ensures Feed(Between(init), [d.start] + (Flatten(d.root) + [d.end])) == Some(Between(init + [d]))
  {
    TreeReads(init, d.start, Outermost, d.root);
    FeedConcat(Inside(init, d.start, Outermost), Flatten(d.root), [d.end]);
    assert ([d.start] + (Flatten(d.root) + [d.end]))[1..] == Flatten(d.root) + [d.end];
  }

  /** Every start of a complete stream can be read. */
  lemma GrammarReadable(es: seq<Event>)
    requires InGrammar(es)
    ensures Feed(Nothing, es).Some?
  {
    var ds, more :| GoodDocs(ds) && es + more == FlattenStream(ds);
    DocsRead(ds);
    FeedConcat(Between([]), FlattenDocs(ds), [StreamEnd]);
    assert FlattenStream(ds)[1..] == FlattenDocs(ds) + [StreamEnd];
    FeedConcat(Nothing, es, more);
  }

  /** A stream that has ended is complete, and only then. */
  lemma DoneIsComplete(es: seq<Event>)
    ensures (exists ds :: GoodDocs(ds) && es == FlattenStream(ds)) <==> Feed(Nothing, es).Some? && Feed(Nothing, es).value.Done?
  {
    if Feed(Nothing, es).Some? && Feed(Nothing, es).value.Done? {
      FeedFlattens(Nothing, es);
      var ds := Feed(Nothing, es).value.docs;
      assert GoodDocs(ds) && es == FlattenStream(ds);
    }
    if exists ds :: GoodDocs(ds) && es == FlattenStream(ds) {
      var ds :| GoodDocs(ds) && es == FlattenStream(ds);
      StreamRead(ds);
    }
  }

  lemma StreamRead(ds: seq<Doc>)
    requires GoodDocs(ds)
    ensures Feed(Nothing, FlattenStream(ds)) == Some(Done(ds))
  {
    DocsRead(ds);
    FeedConcat(Between([]), FlattenDocs(ds), [StreamEnd]);
    assert FlattenStream(ds)[1..] == FlattenDocs(ds) + [StreamEnd];
    assert [StreamEnd][1..] == [];
  }
}
