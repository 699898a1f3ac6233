// Whatever the tokens are: the events are the start of a well-formed stream, no stack is popped when
// empty, and every call makes progress.
module YamlSafety {
  import opened Options
  import opened YamlEvents
  import opened YamlMachine

  // ----- how the state stack mirrors the open collections -----

  /** The states that wait on the stack for a node to be complete. */
  predicate IsWaiting(c: State) {
    c.BlockSequenceEntry? || c.IndentlessSequenceEntry? || c.BlockMappingKey? || c.BlockMappingValue? || c.FlowSequenceEntry?
    || c.FlowPairValue? || c.FlowPairEnd? || c.FlowMappingKey? || c.FlowMappingValue? || c.FlowMappingEmptyValue?
  }

  predicate ListState(c: State) {
    c.BlockSequenceFirstEntry? || c.BlockSequenceEntry? || c.IndentlessSequenceEntry? || c.FlowSequenceFirstEntry? || c.FlowSequenceEntry?
  }

  predicate KeyState(c: State) {
    c.BlockMappingFirstKey? || c.BlockMappingKey? || c.FlowMappingFirstKey? || c.FlowMappingKey? || c.FlowPairKey? || c.FlowPairEnd?
  }

  predicate ValueState(c: State) {
    c.BlockMappingValue? || c.FlowMappingValue? || c.FlowMappingEmptyValue? || c.FlowPairValue?
  }

  predicate NodeState(c: State) { c.BlockNode? || c.BlockNodeOrIndentlessSequence? || c.FlowNode? }

  /** State c can go on in the innermost open collection once that has `extra` more items. */
  ghost predicate InCollection(c: State, o: Open, extra: nat) {
    && o.In?
    && (ListState(c) || KeyState(c) || ValueState(c))
    && (ListState(c) ==> o.start.SequenceStart?)
    && (KeyState(c) ==> IsPaired(o, extra))
    && (ValueState(c) ==> IsPaired(o, extra + 1))
    && (IsFlowPair(c) ==> InSequence(o.around))
  }

  ghost predicate IsPaired(o: Open, extra: nat)
    requires o.In?
  {
    o.start.MappingStart? && (|o.items| + extra) % 2 == 0
  }

  ghost predicate InSequence(o: Open) { o.In? && o.start.SequenceStart? }

  predicate IsFlowPair(c: State) { c.FlowPairKey? || c.FlowPairValue? || c.FlowPairEnd? }

  /** What is open around the collection that state c works on; a flow pair is closed together with
      nothing else, but its state also stands for the flow sequence that it is in. */
  ghost function Outside(c: State, o: Open): Open
    requires o.In?
  {
    if IsFlowPair(c) && o.around.In? then o.around.around else o.around
  }

  /** A node is missing, and behind it the stacked states complete everything that is open. */
  ghost predicate Waits(states: seq<State>, o: Open)
    decreases |states|
  {
    states != [] &&
    var c, below := states[|states| - 1], states[..|states| - 1];
    if c == DocumentEndState then below == [] && o == Outermost
    else IsWaiting(c) && InCollection(c, o, 1) && Waits(below, Outside(c, o))
  }

  /** One mark for every collection that was entered; indentless sequences and flow pairs have none. */
  ghost function MarkCount(states: seq<State>): nat {
    if states == [] then 0 else MarkCount(states[..|states| - 1]) + OwnMark(states[|states| - 1])
  }

  ghost function OwnMark(c: State): nat {
    if (IsWaiting(c) && c != IndentlessSequenceEntry) || c.FlowPairKey? then 1 else 0
  }

  ghost predicate Fits(m: Machine, p: Partial) {
    match p
    case Nothing => m.states == [] && m.state == StreamStartState
    case Between(_) => m.states == [] && (m.state == ImplicitDocumentStart || m.state == DocumentStartState)
    case Rooted(_, _, _) => m.states == [] && m.state == DocumentEndState
    case Done(_) => m.states == [] && m.state == EndState
    case Inside(_, _, o) =>
      if m.state == DocumentContent then m.states == [DocumentEndState] && o == Outermost
      else if NodeState(m.state) then Waits(m.states, o)
      else InCollection(m.state, o, 0) && Waits(m.states, Outside(m.state, o))
  }

  /** The token that made the parser enter a first-entry state. */
  predicate Begins(c: State, d: TokenData) {
    match c
    case BlockSequenceFirstEntry => d.BlockSequenceStartToken?
    case BlockMappingFirstKey => d.BlockMappingStartToken?
    case FlowSequenceFirstEntry => d.FlowSequenceStartToken?
    case FlowMappingFirstKey => d.FlowMappingStartToken?
    case _ => false
  }

  /** The parser has no error and its state fits the events it has yielded, which p has read. */
  ghost predicate Sound(m: Machine, p: Partial) {
    && m.error == NoError && (m.available ==> m.rest != [])
    && (IsFirst(m.state) ==> m.available && Begins(m.state, Head(m)))
    && Fits(m, p) && |m.marks| == MarkCount(m.states) + OwnMark(m.state)
  }

  lemma SoundReady(m: Machine, p: Partial)
    requires Sound(m, p)
    ensures Ready(m)
  {
    if NeedsStates(m.state) && p.Inside? && p.open.In? {
      assert Waits(m.states, p.open) || Waits(m.states, Outside(m.state, p.open));
    }
  }

  /** A step keeps the parser sound, and what it yields can be read next; or it fails with an error. */
  ghost predicate Keeps(r: Result, p: Partial) {
    match r
    case Emitted(e, m') => Extend(p, e).Some? && Sound(m', Extend(p, e).value)
    case Failed(m') => m'.error != NoError
  }

  // ----- nodes -----

  lemma MarkCountPush(states: seq<State>, c: State)
    ensures MarkCount(states + [c]) == MarkCount(states) + OwnMark(c)
  {
    assert (states + [c])[..|states|] == states;
  }

  lemma WaitsPush(states: seq<State>, c: State, o: Open)
    requires IsWaiting(c) && InCollection(c, o, 1) && Waits(states, Outside(c, o))
    ensures Waits(states + [c], o)
  {
    var s := states + [c];
    assert s[..|s| - 1] == states;
  }

  /** A node is due: the parser is sound but for its state, which the node's production ignores. */
  ghost predicate Due(m: Machine, p: Partial) {
    m.error == NoError && p.Inside? && Waits(m.states, p.open) && |m.marks| == MarkCount(m.states) && (m.available ==> m.rest != [])
  }

  /** Returning to the state on top of the stack after a complete node. */
  lemma PopSound(m: Machine, p: Partial, t: Tree)
    requires Due(m, p)
    ensures m.states != [] && Sound(Pop(m), Place(p.docs, p.start, p.open, t))
  {
    var c := m.states[|m.states| - 1];
    if c != DocumentEndState {
      assert InCollection(c, In(p.open.start, p.open.items + [t], p.open.around), 0);
    }
  }

  lemma LeafSound(m: Machine, e: Event, p: Partial)
    requires Due(m, p) && IsSingle(e)
    ensures m.states != [] && Keeps(Emitted(e, Pop(m)), p) && (m.rest != [] ==> Keeps(Emitted(e, Skip(Pop(m))), p))
  {
    PopSound(m, p, Single(e));
    if m.rest != [] { PopSound(Skip(m), p, Single(e)); }
  }

  /** A collection begins: its first-entry state knows that the token is still there. */
  lemma StartSound(m: Machine, e: Event, c: State, p: Partial)
    requires Due(m, p) && m.available && (c.IndentlessSequenceEntry? || (IsFirst(c) && Begins(c, Head(m))))
    requires if c.BlockMappingFirstKey? || c.FlowMappingFirstKey? then e.MappingStart? else e.SequenceStart?
    ensures Keeps(Emitted(e, m.(state := c)), p)
  {
    var o := In(e, [], p.open);
    assert Outside(c, o) == p.open;
  }

  /** Content is a leaf and a return, or the start of a collection with its first-entry state. */
  /** What a node's content leads to: a whole leaf, or the first event of a collection. */
  predicate Shaped(m: Machine, r: Result)
    requires m.rest != [] && m.states != []
  {
    match r
    case Failed(m') => m'.error != NoError
    case Emitted(e, m') =>
      || (IsSingle(e) && (m' == Pop(m) || m' == Skip(Pop(m))))
      || (IsStart(e) && m' == m.(state := m'.state)
          && (m'.state.IndentlessSequenceEntry? || (IsFirst(m'.state) && Begins(m'.state, Head(m))))
          && if m'.state.BlockMappingFirstKey? || m'.state.FlowMappingFirstKey? then e.MappingStart? else e.SequenceStart?)
  }

  lemma ContentShape(m: Machine, anchor: Option<Text>, tag: Option<Text>, block: bool, indentless: bool, start: Mark)
    requires m.rest != [] && m.states != []
    ensures Shaped(m, ContentStep(m, anchor, tag, block, indentless, start))
  {
    NoContentShape(m, anchor, tag, start);
    match Head(m)
    case BlockEntryToken =>
    case ScalarToken(_, _) =>
    case FlowSequenceStartToken =>
    case FlowMappingStartToken =>
    case BlockSequenceStartToken =>
    case BlockMappingStartToken =>
    case _ =>
  }

  lemma NoContentShape(m: Machine, anchor: Option<Text>, tag: Option<Text>, start: Mark)
    requires m.rest != [] && m.states != []
    ensures Shaped(m, NoContentStep(m, anchor, tag, start))
  {}

  lemma ContentSound(m: Machine, anchor: Option<Text>, tag: Option<Text>, block: bool, indentless: bool, start: Mark,
                     p: Partial)
    requires Due(m, p) && m.rest != [] && m.available
    ensures m.states != [] && Keeps(ContentStep(m, anchor, tag, block, indentless, start), p)
  {
    var r := ContentStep(m, anchor, tag, block, indentless, start);
    ContentShape(m, anchor, tag, block, indentless, start);
    if r.Emitted? {
      if IsSingle(r.event) { LeafSound(m, r.event, p); } else { StartSound(m, r.event, r.m.state, p); }
    }
  }

  lemma NodeSound(m: Machine, block: bool, indentless: bool, p: Partial)
    requires Due(m, p)
    ensures m.states != [] && Keeps(NodeStep(m, block, indentless), p)
  {
    var n := Peek(m);
    if !Bad(n) {
      if Head(n).AliasToken? {
        LeafSound(n, Alias(Head(n).alias), p);
      } else {
        var q := ReadProperties(n);
        if !Bad(q.m) {
          PropertiesKeep(n);
          var tag := if q.tag == None then None else ResolveTag(q.m.tagDirectives, q.tag.value);
          ContentSound(q.m, q.anchor, tag, block, indentless, n.rest[0].start, p);
        }
      }
    }
  }

  /** Reading properties only moves over tokens. */
  lemma PropertiesKeep(m: Machine)
    requires m.rest != [] && m.available && m.error == NoError && !Bad(ReadProperties(m).m)
    ensures var n := ReadProperties(m).m;
      n.available && n.states == m.states && n.marks == m.marks && n.state == m.state && n.tagDirectives == m.tagDirectives
      && |n.rest| <= |m.rest| && (ReadProperties(m).anchor.Some? || ReadProperties(m).tag.Some? ==> |n.rest| < |m.rest|)
  {}

  lemma ItemSound(m: Machine, empty: bool, k: State, block: bool, indentless: bool, p: Partial)
    requires m.error == NoError && m.rest != [] && p.Inside? && IsWaiting(k)
    requires InCollection(k, p.open, 1) && Waits(m.states, Outside(k, p.open))
    requires |m.marks| == MarkCount(m.states) + OwnMark(k)
    ensures Keeps(ItemStep(m, empty, k, block, indentless), p)
  {
    if empty {
      assert InCollection(k, In(p.open.start, p.open.items + [Single(EMPTY_SCALAR)], p.open.around), 0);
    } else {
      WaitsPush(m.states, k, p.open);
      MarkCountPush(m.states, k);
      NodeSound(Push(m, k), block, indentless, p);
    }
  }

  lemma CloseSound(m: Machine, end: Event, p: Partial)
    requires m.error == NoError && m.rest != [] && p.Inside? && p.open.In? && Waits(m.states, p.open.around)
    requires |m.marks| == MarkCount(m.states) + 1 && end == EndOf(p.open.start)
    requires CanClose(p.open.start, |p.open.items|)
    requires IsStart(p.open.start)
    ensures m.states != [] && Keeps(CloseStep(m, end), p)
  {
    var up := Inside(p.docs, p.start, p.open.around);
    PopSound(PopMark(m), up, Collection(p.open.start, p.open.items));
    CloseExtends(p, end);
    SkipSound(Pop(PopMark(m)), Extend(p, end).value);
  }

  lemma CloseExtends(p: Partial, end: Event)
    requires p.Inside? && p.open.In? && end == EndOf(p.open.start) && CanClose(p.open.start, |p.open.items|)
    requires IsStart(p.open.start)
    ensures Extend(p, end) == Some(Place(p.docs, p.start, p.open.around, Collection(p.open.start, p.open.items)))
  {}

  lemma SkipSound(m: Machine, p: Partial)
    requires Sound(m, p) && m.rest != [] && m.error == NoError && (IsWaiting(m.state) || m.state == DocumentEndState)
    ensures Sound(Skip(m), p)
  {}

  // ----- the productions -----

  /** In a collection: m is at c, with the marks of everything around and its own. */
  ghost predicate At(m: Machine, c: State, p: Partial) {
    && m.error == NoError && p.Inside? && InCollection(c, p.open, 0) && Waits(m.states, Outside(c, p.open))
    && |m.marks| == MarkCount(m.states) + OwnMark(c)
  }

  lemma EnterAt(m: Machine, first: bool, p: Partial)
    requires Sound(m, p) && first == IsFirst(m.state) && (first || NeedsMarks(m.state))
    ensures m.states != [] && (first ==> m.rest != []) && (!first ==> m.marks != [])
    ensures var n := Peek(Enter(m, first)); if Bad(n) then n.error != NoError else At(n, Entered(m.state), p)
  {
    SoundReady(m, p);
  }

  /** Behind the comma, if one is due. */
  lemma CommaAt(m: Machine, first: bool, end: TokenData, c: State, p: Partial)
    requires At(m, c, p) && m.rest != [] && m.marks != []
    ensures var n := Comma(m, first, end); if Bad(n) then n.error != NoError else At(n, c, p)
  {}

  /** The state for the entries after the first one. */
  function Entered(c: State): State {
    match c
    case BlockSequenceFirstEntry => BlockSequenceEntry
    case BlockMappingFirstKey => BlockMappingKey
    case FlowSequenceFirstEntry => FlowSequenceEntry
    case FlowMappingFirstKey => FlowMappingKey
    case _ => c
  }

  lemma BlockSequenceSound(n: Machine, p: Partial)
    requires At(n, BlockSequenceEntry, p) && n.rest != []
    ensures n.states != [] && n.marks != [] && Keeps(BlockSequenceNext(n), p)
  {
    if Head(n).BlockEntryToken? {
      var k := Peek(Skip(n));
      if !Bad(k) {
        ItemSound(k, Head(k).BlockEntryToken? || Head(k).BlockEndToken?, BlockSequenceEntry, true, false, p);
      }
    } else if Head(n).BlockEndToken? {
      CloseSound(n, SequenceEnd, p);
    }
  }

  lemma IndentlessSequenceSound(m: Machine, p: Partial)
    requires Sound(m, p) && m.state == IndentlessSequenceEntry
    ensures Ready(m) && Keeps(IndentlessSequenceStep(m), p)
  {
    SoundReady(m, p);
    var n := Peek(m);
    if !Bad(n) {
      if Head(n).BlockEntryToken? {
        var k := Peek(Skip(n));
        if !Bad(k) {
          var empty := Head(k).BlockEntryToken? || Head(k).KeyToken? || Head(k).ValueToken? || Head(k).BlockEndToken?;
          ItemSound(k, empty, IndentlessSequenceEntry, true, false, p);
        }
      } else {
        IndentlessEndSound(n, p);
      }
    }
  }

  lemma IndentlessEndSound(m: Machine, p: Partial)
    requires Sound(m, p) && m.state == IndentlessSequenceEntry && m.error == NoError
    ensures m.states != [] && Keeps(Emitted(SequenceEnd, Pop(m)), p)
  {
    PopSound(m, Inside(p.docs, p.start, p.open.around), Collection(p.open.start, p.open.items));
    CloseExtends(p, SequenceEnd);
  }

  lemma BlockMappingKeySound(n: Machine, p: Partial)
    requires At(n, BlockMappingKey, p) && n.rest != []
    ensures n.states != [] && n.marks != [] && Keeps(BlockMappingNext(n), p)
  {
    if Head(n).KeyToken? {
      var k := Peek(Skip(n));
      if !Bad(k) { ItemSound(k, EndsBlockPair(Head(k)), BlockMappingValue, true, true, p); }
    } else if Head(n).BlockEndToken? {
      CloseSound(n, MappingEnd, p);
    }
  }

  lemma BlockMappingValueSound(m: Machine, p: Partial)
    requires Sound(m, p) && m.state == BlockMappingValue
    ensures Ready(m) && Keeps(BlockMappingValueStep(m), p)
  {
    SoundReady(m, p);
    var n := Peek(m);
    if !Bad(n) {
      if Head(n).ValueToken? {
        var k := Peek(Skip(n));
        if !Bad(k) { ItemSound(k, EndsBlockPair(Head(k)), BlockMappingKey, true, true, p); }
      } else {
        ItemSound(n, true, BlockMappingKey, true, true, p);
      }
    }
  }

  lemma FlowSequenceSound(n: Machine, p: Partial)
    requires At(n, FlowSequenceEntry, p) && n.rest != []
    ensures n.states != [] && n.marks != [] && Keeps(FlowSequenceNext(n), p)
  {
    if Head(n).FlowSequenceEndToken? {
      CloseSound(n, SequenceEnd, p);
    } else if Head(n).KeyToken? {
      PairSound(n, p);
    } else {
      ItemSound(n, false, FlowSequenceEntry, false, false, p);
    }
  }

  /** "KEY" in a flow sequence begins a mapping of one pair. */
  lemma PairSound(m: Machine, p: Partial)
    requires At(m, FlowSequenceEntry, p) && m.rest != []
    ensures Keeps(Emitted(MappingStart(None, None, true, Flow), Skip(m.(state := FlowPairKey))), p)
  {
    var o := In(MappingStart(None, None, true, Flow), [], p.open);
    assert Outside(FlowPairKey, o) == p.open.around;
  }

  lemma FlowPairKeySound(m: Machine, p: Partial)
    requires Sound(m, p) && m.state == FlowPairKey
    ensures Ready(m) && Keeps(FlowPairKeyStep(m), p)
  {
    SoundReady(m, p);
    var n := Peek(m);
    if !Bad(n) {
      if Head(n).ValueToken? || Head(n).FlowEntryToken? || Head(n).FlowSequenceEndToken? {
        ItemSound(n, true, FlowPairValue, false, false, p);
      } else {
        ItemSound(n, false, FlowPairValue, false, false, p);
      }
    }
  }

  lemma FlowPairValueSound(m: Machine, p: Partial)
    requires Sound(m, p) && m.state == FlowPairValue
    ensures Ready(m) && Keeps(FlowPairValueStep(m), p)
  {
    SoundReady(m, p);
    var n := Peek(m);
    if !Bad(n) {
      if Head(n).ValueToken? {
        var k := Peek(Skip(n));
        if !Bad(k) {
          ItemSound(k, Head(k).FlowEntryToken? || Head(k).FlowSequenceEndToken?, FlowPairEnd, false, false, p);
        }
      } else {
        ItemSound(n, true, FlowPairEnd, false, false, p);
      }
    }
  }

  lemma FlowPairEndSound(m: Machine, p: Partial)
    requires Sound(m, p) && m.state == FlowPairEnd
    ensures Ready(m) && Keeps(FlowPairEndStep(m), p)
  {
    SoundReady(m, p);
  }

  lemma FlowMappingKeySound(n: Machine, p: Partial)
    requires At(n, FlowMappingKey, p) && n.rest != []
    ensures n.states != [] && n.marks != [] && Keeps(FlowMappingNext(n), p)
  {
    if Head(n).FlowMappingEndToken? {
      CloseSound(n, MappingEnd, p);
    } else if Head(n).KeyToken? {
      var k := Peek(Skip(n));
      if !Bad(k) {
        var empty := Head(k).ValueToken? || Head(k).FlowEntryToken? || Head(k).FlowMappingEndToken?;
        ItemSound(k, empty, FlowMappingValue, false, false, p);
      }
    } else {
      ItemSound(n, false, FlowMappingEmptyValue, false, false, p);
    }
  }

  lemma FlowMappingValueSound(m: Machine, p: Partial)
    requires Sound(m, p) && (m.state == FlowMappingValue || m.state == FlowMappingEmptyValue)
    ensures Ready(m) && Keeps(FlowMappingValueStep(m, m.state == FlowMappingEmptyValue), p)
  {
    SoundReady(m, p);
    var n := Peek(m);
    if !Bad(n) {
      if m.state == FlowMappingValue && Head(n).ValueToken? {
        var k := Peek(Skip(n));
        if !Bad(k) {
          ItemSound(k, Head(k).FlowEntryToken? || Head(k).FlowMappingEndToken?, FlowMappingKey, false, false, p);
        }
      } else {
        ItemSound(n, true, FlowMappingKey, false, false, p);
      }
    }
  }

  // ----- documents -----

  lemma {:induction false} SkipEndsKeeps(m: Machine)
    requires m.error == NoError && (m.available ==> m.rest != [])
    ensures var n := SkipDocumentEnds(m);
      && n.states == m.states && n.marks == m.marks && n.state == m.state && n.tagDirectives == m.tagDirectives
      && |n.rest| <= |m.rest| && (if Bad(n) then n.error != NoError else n.available)
    decreases |m.rest|
  {
    var n := Peek(m);
    if !Bad(n) && Head(n).DocumentEndToken? { SkipEndsKeeps(Skip(n)); }
  }

  lemma {:induction false} DirectivesKeep(m: Machine, version: Option<Version>, ds: seq<TagDirective>)
    requires m.error == NoError && (m.available ==> m.rest != [])
    ensures var n := Directives(m, version, ds).m;
      && n.states == m.states && n.marks == m.marks && n.state == m.state && |n.rest| <= |m.rest|
      && (n.error == NoError ==> n.rest != [] && n.available)
    decreases |m.rest|
  {
    var n := Peek(m);
    if !Bad(n) {
      match Head(n)
      case VersionDirectiveToken(v) => if !(version.Some? || !Supported(v)) { DirectivesKeep(Skip(n), Some(v), ds); }
      case TagDirectiveToken(d) =>
        var k := AppendDirective(n, d, false, n.rest[0].start);
        if !Bad(k) { DirectivesKeep(Skip(k), version, ds + [d]); }
      case _ =>
    }
  }

  lemma DocumentStartSound(m: Machine, implicit: bool, p: Partial)
    requires Sound(m, p) && m.state == if implicit then ImplicitDocumentStart else DocumentStartState
    ensures Keeps(DocumentStartStep(m, implicit), p)
  {
    SkipEndsKeeps(m);
    var n := if implicit then Peek(m) else SkipDocumentEnds(m);
    if !Bad(n) && !Head(n).StreamEndToken? {
      DirectivesKeep(n, None, []);
      var q := Directives(n, None, []);
      if !Bad(q.m) { BeginSound(q, implicit && !StartsDocument(Head(n)), p); }
    }
  }

  lemma BeginSound(q: Prologue, bare: bool, p: Partial)
    requires q.m.error == NoError && q.m.available && q.m.rest != [] && q.m.states == [] && q.m.marks == []
    requires p.Between?
    ensures Keeps(BeginDocument(q, bare), p)
  {
    BegunSound(q.m, BlockNode, DocumentStart(None, [], true), p);
    BegunSound(q.m, DocumentContent, DocumentStart(q.version, q.directives, false), p);
  }

  /** A document begins: only its end is on the state stack. */
  lemma BegunSound(m: Machine, c: State, e: Event, p: Partial)
    requires m.error == NoError && m.available && m.rest != [] && m.states == [] && m.marks == [] && p.Between?
    requires e.DocumentStart?
    requires c == BlockNode || c == DocumentContent
    ensures var n := Push(m, DocumentEndState).(state := c); Keeps(Emitted(e, n), p) && Keeps(Emitted(e, Skip(n)), p)
  {
    var n := Push(m, DocumentEndState).(state := c);
    var p' := Inside(p.docs, e, Outermost);
    assert [] + [DocumentEndState] == [DocumentEndState];
    MarkCountPush([], DocumentEndState);
    assert Waits([DocumentEndState], Outermost);
    assert Sound(n, p') && Sound(Skip(n), p');
  }

  lemma DocumentContentSound(m: Machine, p: Partial)
    requires Sound(m, p) && m.state == DocumentContent
    ensures Ready(m) && Keeps(DocumentContentStep(m), p)
  {
    var n := Peek(m);
    assert Waits([DocumentEndState], Outermost);
    if !Bad(n) {
      LeafSound(n, EMPTY_SCALAR, p);
      NodeSound(n, true, false, p);
    }
  }

  lemma StreamStartSound(m: Machine, p: Partial)
    requires Sound(m, p) && m.state == StreamStartState
    ensures Keeps(StreamStartStep(m), p)
  {}

  lemma DocumentEndSound(m: Machine, p: Partial)
    requires Sound(m, p) && m.state == DocumentEndState
    ensures Keeps(DocumentEndStep(m), p)
  {}

  // ----- the main result -----

  /** Whatever token comes next, a step of a sound parser yields an event that can follow in the grammar
      and leaves a sound parser, or it fails with the error set. */
  lemma StepSound(m: Machine, p: Partial)
    requires Sound(m, p) && m.state != EndState
    ensures Ready(m) && Keeps(Step(m), p)
  {
    SoundReady(m, p);
    match m.state
    case StreamStartState => StreamStartSound(m, p);
    case DocumentEndState => DocumentEndSound(m, p);
    case ImplicitDocumentStart => DocumentStartSound(m, true, p);
    case DocumentStartState => DocumentStartSound(m, false, p);
    case DocumentContent => DocumentContentSound(m, p);
    case BlockNode => NodeSound(m, true, false, p);
    case BlockNodeOrIndentlessSequence => NodeSound(m, true, true, p);
    case FlowNode => NodeSound(m, false, false, p);
    case IndentlessSequenceEntry => IndentlessSequenceSound(m, p);
    case BlockMappingValue => BlockMappingValueSound(m, p);
    case FlowPairKey => FlowPairKeySound(m, p);
    case FlowPairValue => FlowPairValueSound(m, p);
    case FlowPairEnd => FlowPairEndSound(m, p);
    case FlowMappingValue => FlowMappingValueSound(m, p);
    case FlowMappingEmptyValue => FlowMappingValueSound(m, p);
    case _ => EntrySound(m, p);
  }

  /** The states that look for the next entry of a collection or for its end. */
  lemma EntrySound(m: Machine, p: Partial)
    requires Sound(m, p) && Ready(m) && (IsFirst(m.state) || NeedsMarks(m.state))
    ensures Keeps(Step(m), p)
  {
    var first := IsFirst(m.state);
    EnterAt(m, first, p);
    var n := Peek(Enter(m, first));
    if !Bad(n) {
      match Entered(m.state)
      case BlockSequenceEntry => BlockSequenceSound(n, p);
      case BlockMappingKey => BlockMappingKeySound(n, p);
      case FlowSequenceEntry =>
        CommaAt(n, first, FlowSequenceEndToken, FlowSequenceEntry, p);
        var k := Comma(n, first, FlowSequenceEndToken);
        if !Bad(k) { FlowSequenceSound(k, p); }
      case FlowMappingKey =>
        CommaAt(n, first, FlowMappingEndToken, FlowMappingKey, p);
        var k := Comma(n, first, FlowMappingEndToken);
        if !Bad(k) { FlowMappingKeySound(k, p); }
    }
  }
}
