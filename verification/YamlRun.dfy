// Whole runs of the YAML parser: they end, and their events are grammatical.
module YamlRun {
  import opened Options
  import opened YamlEvents
  import opened YamlMachine
  import opened YamlSafety

  // ----- progress -----

  /** How many events a state can yield before a token is consumed. */
  function Rank(c: State): nat {
    match c
    case ImplicitDocumentStart => 4
    case FlowPairKey => 3
    case FlowPairValue => 2
    case DocumentContent => 1
    case DocumentEndState => 1
    case BlockNode => 1
    case BlockNodeOrIndentlessSequence => 2
    case FlowNode => 1
    case IndentlessSequenceEntry => 1
    case BlockMappingValue => 1
    case FlowMappingValue => 1
    case FlowMappingEmptyValue => 1
    case FlowPairEnd => 1
    case _ => 0
  }

  function Weight(m: Machine): nat { 2 * |m.states| + Rank(m.state) }

  /** Tokens are consumed, or fewer events can be yielded without consuming one. */
  predicate Lighter(m': Machine, rest: nat, weight: nat) {
    |m'.rest| < rest || (|m'.rest| == rest && Weight(m') < weight)
  }

  lemma NodeProgress(m: Machine, block: bool, indentless: bool)
    requires m.states != [] && m.error == NoError && (m.available ==> m.rest != [])
    ensures match NodeStep(m, block, indentless)
      case Failed(_) => true
      case Emitted(e, m') =>
        || |m'.rest| < |m.rest|
        || (m'.rest == m.rest && m'.states == m.states && (IsFirst(m'.state) || (indentless && m'.state.IndentlessSequenceEntry?)))
  {
    var n := Peek(m);
    if !Bad(n) && !Head(n).AliasToken? {
      var q := ReadProperties(n);
      if !Bad(q.m) {
        PropertiesKeep(n);
        PropertiesRest(n);
        var tag := if q.tag == None then None else ResolveTag(q.m.tagDirectives, q.tag.value);
        if !(q.tag.Some? && tag == None) {
          ContentProgress(q.m, q.anchor, tag, block, indentless, n.rest[0].start);
        }
      }
    }
  }

  lemma PropertiesRest(m: Machine)
    requires m.rest != [] && !Bad(ReadProperties(m).m)
    ensures var p := ReadProperties(m); |p.m.rest| <= |m.rest| && (p.m.rest == m.rest || |p.m.rest| < |m.rest|)
    ensures var p := ReadProperties(m); p.anchor.Some? || p.tag.Some? ==> |p.m.rest| < |m.rest|
  {}

  lemma ContentProgress(m: Machine, anchor: Option<Text>, tag: Option<Text>, block: bool, indentless: bool, start: Mark)
    requires m.rest != [] && m.states != []
    ensures match ContentStep(m, anchor, tag, block, indentless, start)
      case Failed(_) => true
      case Emitted(e, m') =>
        || |m'.rest| < |m.rest|
        || (m'.rest == m.rest && (anchor.Some? || tag.Some?))
        || (m'.rest == m.rest && m'.states == m.states && (IsFirst(m'.state) || (indentless && m'.state.IndentlessSequenceEntry?)))
  {}

  lemma ItemProgress(m: Machine, empty: bool, k: State, block: bool, indentless: bool)
    requires m.error == NoError && m.rest != []
    ensures match ItemStep(m, empty, k, block, indentless)
      case Failed(_) => true
      case Emitted(e, m') => |m'.rest| <= |m.rest|
  {
    if !empty { NodeProgress(Push(m, k), block, indentless); }
  }

  lemma EntryProgress(m: Machine, p: Partial)
    requires Sound(m, p) && Ready(m) && (IsFirst(m.state) || NeedsMarks(m.state))
    ensures Nearer(Step(m), m)
  {
    var first := IsFirst(m.state);
    EnterAt(m, first, p);
    var n := Peek(Enter(m, first));
    if !Bad(n) {
      match Entered(m.state)
      case BlockSequenceEntry => BlockNextProgress(n);
      case BlockMappingKey => BlockNextProgress(n);
      case FlowSequenceEntry => FlowSequenceProgress(n, first);
      case FlowMappingKey => FlowMappingProgress(n, first);
    }
  }

  lemma FlowSequenceProgress(n: Machine, first: bool)
    requires n.states != [] && n.marks != [] && n.rest != [] && n.error == NoError
    ensures var k := Comma(n, first, FlowSequenceEndToken);
      !Bad(k) && FlowSequenceNext(k).Emitted? ==> |FlowSequenceNext(k).m.rest| < |n.rest| + (if first then 1 else 0)
  {
    var k := Comma(n, first, FlowSequenceEndToken);
    if !Bad(k) { FlowNextProgress(k); }
  }

  lemma FlowMappingProgress(n: Machine, first: bool)
    requires n.states != [] && n.marks != [] && n.rest != [] && n.error == NoError
    ensures var k := Comma(n, first, FlowMappingEndToken);
      !Bad(k) && FlowMappingNext(k).Emitted? ==> |FlowMappingNext(k).m.rest| < |n.rest| + (if first then 1 else 0)
  {
    var k := Comma(n, first, FlowMappingEndToken);
    if !Bad(k) { FlowNextProgress(k); }
  }

  lemma BlockNextProgress(n: Machine)
    requires n.states != [] && n.marks != [] && n.rest != [] && n.error == NoError
    ensures BlockSequenceNext(n).Emitted? ==> |BlockSequenceNext(n).m.rest| < |n.rest|
    ensures BlockMappingNext(n).Emitted? ==> |BlockMappingNext(n).m.rest| < |n.rest|
  {
    var k := Peek(Skip(n));
    if !Bad(k) {
      ItemProgress(k, Head(k).BlockEntryToken? || Head(k).BlockEndToken?, BlockSequenceEntry, true, false);
      ItemProgress(k, EndsBlockPair(Head(k)), BlockMappingValue, true, true);
    }
  }

  /** In a flow collection the token before the entry has been consumed, so the entry need not consume one. */
  lemma FlowNextProgress(n: Machine)
    requires n.states != [] && n.marks != [] && n.rest != [] && n.error == NoError
    ensures FlowSequenceNext(n).Emitted? ==>
      var m' := FlowSequenceNext(n).m; |m'.rest| <= |n.rest| && (Head(n).FlowSequenceEndToken? ==> |m'.rest| < |n.rest|)
    ensures FlowMappingNext(n).Emitted? ==>
      var m' := FlowMappingNext(n).m; |m'.rest| <= |n.rest| && (Head(n).FlowMappingEndToken? ==> |m'.rest| < |n.rest|)
  {
    NodeProgress(Push(n, FlowSequenceEntry), false, false);
    NodeProgress(Push(n, FlowMappingEmptyValue), false, false);
    var k := Peek(Skip(n));
    if !Bad(k) {
      ItemProgress(k, Head(k).ValueToken? || Head(k).FlowEntryToken? || Head(k).FlowMappingEndToken?, FlowMappingValue, false, false);
    }
  }

  /** A value state without its ':' yields an empty value and moves on to a lighter state. */
  lemma BlockValueProgress(m: Machine)
    requires m.error == NoError && m.state == BlockMappingValue
    ensures Nearer(BlockMappingValueStep(m), m)
  {
    var n := Peek(m);
    if !Bad(n) {
      var k := Peek(Skip(n));
      if !Bad(k) { ItemProgress(k, EndsBlockPair(Head(k)), BlockMappingKey, true, true); }
    }
  }

  lemma FlowValueProgress(m: Machine, empty: bool)
    requires m.error == NoError && m.state == if empty then FlowMappingEmptyValue else FlowMappingValue
    ensures Nearer(FlowMappingValueStep(m, empty), m)
  {
    var n := Peek(m);
    if !Bad(n) {
      var k := Peek(Skip(n));
      if !Bad(k) { ItemProgress(k, Head(k).FlowEntryToken? || Head(k).FlowMappingEndToken?, FlowMappingKey, false, false); }
    }
  }

  lemma PairValueProgress(m: Machine)
    requires m.error == NoError && m.state == FlowPairValue
    ensures Nearer(FlowPairValueStep(m), m)
  {
    var n := Peek(m);
    if !Bad(n) {
      var k := Peek(Skip(n));
      if !Bad(k) { ItemProgress(k, Head(k).FlowEntryToken? || Head(k).FlowSequenceEndToken?, FlowPairEnd, false, false); }
    }
  }

  predicate Nearer(r: Result, m: Machine) {
    r.Emitted? ==> Lighter(r.m, |m.rest|, Weight(m))
  }

  lemma PairKeyProgress(m: Machine)
    requires m.error == NoError && m.state == FlowPairKey
    ensures Nearer(FlowPairKeyStep(m), m)
  {
    var n := Peek(m);
    if !Bad(n) { NodeProgress(Push(n, FlowPairValue), false, false); }
  }

  /** An indentless sequence ends without a token of its own, but what it returns to is waiting. */
  lemma IndentlessProgress(m: Machine)
    requires m.error == NoError && m.state == IndentlessSequenceEntry && m.states != []
    requires Rank(m.states[|m.states| - 1]) <= 2
    ensures Nearer(IndentlessSequenceStep(m), m)
  {
    var n := Peek(m);
    if !Bad(n) && Head(n).BlockEntryToken? {
      var k := Peek(Skip(n));
      if !Bad(k) {
        var empty := Head(k).BlockEntryToken? || Head(k).KeyToken? || Head(k).ValueToken? || Head(k).BlockEndToken?;
        ItemProgress(k, empty, IndentlessSequenceEntry, true, false);
      }
    }
  }

  lemma DocumentProgress(m: Machine, p: Partial)
    requires Sound(m, p)
    ensures m.state == ImplicitDocumentStart ==> Nearer(DocumentStartStep(m, true), m)
    ensures m.state == DocumentStartState ==> Nearer(DocumentStartStep(m, false), m)
  {
    SkipEndsKeeps(m);
    var n := if m.state == ImplicitDocumentStart then Peek(m) else SkipDocumentEnds(m);
    if !Bad(n) { DirectivesKeep(n, None, []); }
  }

  lemma ContentStateProgress(m: Machine)
    requires m.error == NoError && m.state == DocumentContent && m.states == [DocumentEndState]
    ensures Nearer(DocumentContentStep(m), m)
  {
    var n := Peek(m);
    if !Bad(n) { NodeProgress(n, true, false); }
  }

  lemma NodeStateProgress(m: Machine, block: bool, indentless: bool)
    requires m.error == NoError && NodeState(m.state) && m.states != [] && (m.available ==> m.rest != [])
    requires indentless ==> m.state == BlockNodeOrIndentlessSequence
    ensures Nearer(NodeStep(m, block, indentless), m)
  {
    NodeProgress(m, block, indentless);
  }

  lemma WaitingRank(m: Machine, p: Partial)
    requires Sound(m, p) && m.state == IndentlessSequenceEntry
    ensures m.states != [] && Rank(m.states[|m.states| - 1]) <= 2
  {
    assert Waits(m.states, Outside(m.state, p.open));
  }

  /** Every event brings the parser closer to the end of its tokens. */
  lemma StepProgress(m: Machine, p: Partial)
    requires Sound(m, p) && m.state != EndState
    ensures Ready(m) && Nearer(Step(m), m)
  {
    SoundReady(m, p);
    match m.state
    case StreamStartState =>
    case DocumentEndState =>
    case ImplicitDocumentStart => DocumentProgress(m, p);
    case DocumentStartState => DocumentProgress(m, p);
    case DocumentContent => ContentStateProgress(m);
    case BlockNode => NodeStateProgress(m, true, false);
    case BlockNodeOrIndentlessSequence => NodeStateProgress(m, true, true);
    case FlowNode => NodeStateProgress(m, false, false);
    case IndentlessSequenceEntry => WaitingRank(m, p); IndentlessProgress(m);
    case FlowPairKey => PairKeyProgress(m);
    case FlowPairEnd =>
    case BlockMappingValue => BlockValueProgress(m);
    case FlowPairValue => PairValueProgress(m);
    case FlowMappingValue => FlowValueProgress(m, false);
    case FlowMappingEmptyValue => FlowValueProgress(m, true);
    case _ => EntryProgress(m, p);
  }

  predicate Quiet(r: Result) {
    r.m.streamEndProduced ==> r.Emitted? && r.m.state == EndState
  }

  lemma NodeQuiet(m: Machine, block: bool, indentless: bool)
    requires !m.streamEndProduced && m.states != []
    ensures !NodeStep(m, block, indentless).m.streamEndProduced
  {
    var n := Peek(m);
    if !Bad(n) && !Head(n).AliasToken? {
      var q := ReadProperties(n);
      PropertiesQuiet(n);
      if !Bad(q.m) {
        var tag := if q.tag == None then None else ResolveTag(q.m.tagDirectives, q.tag.value);
        ContentQuiet(q.m, q.anchor, tag, block, indentless, n.rest[0].start);
      }
    }
  }

  lemma PropertiesQuiet(m: Machine)
    requires !m.streamEndProduced && m.rest != []
    ensures var q := ReadProperties(m).m; !q.streamEndProduced && q.states == m.states
  {}

  lemma ContentQuiet(m: Machine, anchor: Option<Text>, tag: Option<Text>, block: bool, indentless: bool, start: Mark)
    requires !m.streamEndProduced && m.rest != [] && m.states != []
    ensures !ContentStep(m, anchor, tag, block, indentless, start).m.streamEndProduced
  {}

  lemma {:induction false} DirectivesQuiet(m: Machine, version: Option<Version>, ds: seq<TagDirective>)
    requires !m.streamEndProduced
    ensures !Directives(m, version, ds).m.streamEndProduced
    decreases |m.rest|
  {
    var n := Peek(m);
    if !Bad(n) {
      match Head(n)
      case VersionDirectiveToken(v) => if !(version.Some? || !Supported(v)) { DirectivesQuiet(Skip(n), Some(v), ds); }
      case TagDirectiveToken(d) =>
        var k := AppendDirective(n, d, false, n.rest[0].start);
        if !Bad(k) { DirectivesQuiet(Skip(k), version, ds + [d]); }
      case _ =>
    }
  }

  lemma {:induction false} SkipEndsQuiet(m: Machine)
    requires !m.streamEndProduced
    ensures !SkipDocumentEnds(m).streamEndProduced
    decreases |m.rest|
  {
    var n := Peek(m);
    if !Bad(n) && Head(n).DocumentEndToken? { SkipEndsQuiet(Skip(n)); }
  }

  lemma DocumentQuiet(m: Machine, implicit: bool)
    requires !m.streamEndProduced
    ensures Quiet(DocumentStartStep(m, implicit))
  {
    SkipEndsQuiet(m);
    var n := if implicit then Peek(m) else SkipDocumentEnds(m);
    if !Bad(n) { DirectivesQuiet(n, None, []); }
  }

  lemma ItemQuiet(m: Machine, empty: bool, k: State, block: bool, indentless: bool)
    requires !m.streamEndProduced
    ensures !ItemStep(m, empty, k, block, indentless).m.streamEndProduced
  {
    if !empty { NodeQuiet(Push(m, k), block, indentless); }
  }

  lemma EntryQuiet(n: Machine)
    requires !n.streamEndProduced && n.states != [] && n.marks != [] && n.rest != []
    ensures Quiet(BlockSequenceNext(n)) && Quiet(BlockMappingNext(n))
  {
    var k := Peek(Skip(n));
    if !Bad(k) && (Head(n).BlockEntryToken? || Head(n).KeyToken?) {
      ItemQuiet(k, Head(k).BlockEntryToken? || Head(k).BlockEndToken?, BlockSequenceEntry, true, false);
      ItemQuiet(k, EndsBlockPair(Head(k)), BlockMappingValue, true, true);
    }
  }

  lemma FlowEntryQuiet(n: Machine)
    requires !n.streamEndProduced && n.states != [] && n.marks != [] && n.rest != []
    ensures Quiet(FlowSequenceNext(n)) && Quiet(FlowMappingNext(n))
  {
    var k := Peek(Skip(n));
    if !Bad(k) && Head(n).KeyToken? {
      ItemQuiet(k, Head(k).ValueToken? || Head(k).FlowEntryToken? || Head(k).FlowMappingEndToken?, FlowMappingValue, false, false);
    }
    NodeQuiet(Push(n, FlowSequenceEntry), false, false);
    NodeQuiet(Push(n, FlowMappingEmptyValue), false, false);
  }

  lemma ValueQuiet(m: Machine)
    requires !m.streamEndProduced
    ensures Quiet(BlockMappingValueStep(m)) && Quiet(FlowPairValueStep(m)) && Quiet(FlowPairKeyStep(m))
    ensures Quiet(FlowMappingValueStep(m, true)) && Quiet(FlowMappingValueStep(m, false))
    ensures m.states != [] ==> Quiet(IndentlessSequenceStep(m))
  {
    var n := Peek(m);
    if !Bad(n) {
      NodeQuiet(Push(n, FlowPairValue), false, false);
      var k := Peek(Skip(n));
      if !Bad(k) && (Head(n).ValueToken? || Head(n).BlockEntryToken?) {
        ItemQuiet(k, EndsBlockPair(Head(k)), BlockMappingKey, true, true);
        ItemQuiet(k, Head(k).FlowEntryToken? || Head(k).FlowSequenceEndToken?, FlowPairEnd, false, false);
        ItemQuiet(k, Head(k).FlowEntryToken? || Head(k).FlowMappingEndToken?, FlowMappingKey, false, false);
        var empty := Head(k).BlockEntryToken? || Head(k).KeyToken? || Head(k).ValueToken? || Head(k).BlockEndToken?;
        ItemQuiet(k, empty, IndentlessSequenceEntry, true, false);
      }
    }
  }

  /** Only the step that ends the stream marks it as ended. */
  lemma StreamEndOnce(m: Machine, p: Partial)
    requires Sound(m, p) && m.state != EndState && !m.streamEndProduced
    ensures Ready(m) && Quiet(Step(m))
  {
    SoundReady(m, p);
    match m.state
    case ImplicitDocumentStart => DocumentQuiet(m, true);
    case DocumentStartState => DocumentQuiet(m, false);
    case DocumentContent => NodeQuiet(Peek(m), true, false);
    case BlockNode => NodeQuiet(m, true, false);
    case BlockNodeOrIndentlessSequence => NodeQuiet(m, true, true);
    case FlowNode => NodeQuiet(m, false, false);
    case StreamStartState =>
    case DocumentEndState =>
    case FlowPairEnd =>
    case _ =>
      if IsFirst(m.state) || NeedsMarks(m.state) { EntryStepQuiet(m, p); } else { ValueQuiet(m); }
  }

  /** The end state is only reached by passing the end of the stream. */
  lemma StreamEndMarked(m: Machine, p: Partial)
    requires Sound(m, p) && m.state != EndState
    ensures Ready(m) && (Step(m).Emitted? && Step(m).m.state == EndState ==> Step(m).m.streamEndProduced)
  {
    StepSound(m, p);
    if Step(m).Emitted? && Step(m).m.state == EndState {
      EndAfter(Step(m), p);
      BetweenStates(m, p);
      DocumentEndMarked(m, m.state == ImplicitDocumentStart);
    }
  }

  /** The end state is reached only from between two documents. */
  lemma EndAfter(r: Result, p: Partial)
    requires Keeps(r, p) && r.Emitted? && r.m.state == EndState
    ensures p.Between?
  {}

  lemma BetweenStates(m: Machine, p: Partial)
    requires Sound(m, p) && p.Between?
    ensures m.state == ImplicitDocumentStart || m.state == DocumentStartState
  {}

  lemma DocumentEndMarked(m: Machine, implicit: bool)
    ensures var r := DocumentStartStep(m, implicit); r.Emitted? && r.m.state == EndState ==> r.m.streamEndProduced
  {}

  lemma EntryStepQuiet(m: Machine, p: Partial)
    requires Sound(m, p) && Ready(m) && !m.streamEndProduced && (IsFirst(m.state) || NeedsMarks(m.state))
    ensures Quiet(Step(m))
  {
    var first := IsFirst(m.state);
    EnterAt(m, first, p);
    var n := Peek(Enter(m, first));
    if !Bad(n) {
      match Entered(m.state)
      case BlockSequenceEntry => EntryQuiet(n);
      case BlockMappingKey => EntryQuiet(n);
      case FlowSequenceEntry =>
        var k := Comma(n, first, FlowSequenceEndToken);
        if !Bad(k) { FlowEntryQuiet(k); }
      case FlowMappingKey =>
        var k := Comma(n, first, FlowMappingEndToken);
        if !Bad(k) { FlowEntryQuiet(k); }
    }
  }

  // ----- runs -----

  function Start(tokens: seq<Token>): Machine {
    Machine(tokens, false, false, NoError, StreamStartState, [], [], [])
  }

  /** All the events that calls yield until the stream ends or an error comes, and the parser then. */
  ghost function Run(m: Machine, p: Partial): (r: (seq<Event>, Machine))
    requires Sound(m, p)
    decreases |m.rest|, Weight(m)
  {
    if m.state == EndState then ([], m) else
    StepSound(m, p);
    StepProgress(m, p);
    match Step(m)
    case Failed(m') => ([], m')
    case Emitted(e, m') => var r := Run(m', Extend(p, e).value); ([e] + r.0, r.1)
  }

  lemma FeedCons(p: Partial, e: Event, es: seq<Event>)
    requires Extend(p, e).Some?
    ensures Feed(p, [e] + es) == Feed(Extend(p, e).value, es)
  {
    assert ([e] + es)[1..] == es;
  }

  lemma {:induction false} RunReads(m: Machine, p: Partial)
    requires Sound(m, p)
    ensures var (es, m') := Run(m, p); Feed(p, es).Some? && (m'.error == NoError ==> m'.state == EndState && Feed(p, es).value.Done?)
    decreases |m.rest|, Weight(m)
  {
    if m.state != EndState {
      StepSound(m, p);
      StepProgress(m, p);
      match Step(m)
      case Failed(m') =>
      case Emitted(e, m') =>
        RunReads(m', Extend(p, e).value);
        FeedCons(p, e, Run(m', Extend(p, e).value).0);
    }
  }

  /** Whatever tokens the parser is given, well formed or not: its events are the start of a stream
      STREAM-START (DOCUMENT-START node DOCUMENT-END)* STREAM-END, and a run without an error is a whole one. */
  lemma RunInGrammar(tokens: seq<Token>)
    ensures Sound(Start(tokens), Nothing)
    ensures var (es, m) := Run(Start(tokens), Nothing);
      InGrammar(es) && (m.error == NoError ==> exists ds :: GoodDocs(ds) && es == FlattenStream(ds))
  {
    RunReads(Start(tokens), Nothing);
    var es := Run(Start(tokens), Nothing).0;
    ReadableInGrammar(es);
    DoneIsComplete(es);
  }
}
