// The YAML parser as a pure machine: what one call does to its state and which event it yields.
module YamlMachine {
  import opened Options
  import opened YamlEvents

  datatype State =
    | StreamStartState | ImplicitDocumentStart | DocumentStartState | DocumentContent | DocumentEndState
    | BlockNode | BlockNodeOrIndentlessSequence | FlowNode
    | BlockSequenceFirstEntry | BlockSequenceEntry | IndentlessSequenceEntry
    | BlockMappingFirstKey | BlockMappingKey | BlockMappingValue
    | FlowSequenceFirstEntry | FlowSequenceEntry
    | FlowPairKey | FlowPairValue | FlowPairEnd   // YAML_PARSE_FLOW_SEQUENCE_ENTRY_MAPPING_{KEY,VALUE,END}_STATE
    | FlowMappingFirstKey | FlowMappingKey | FlowMappingValue | FlowMappingEmptyValue
    | EndState

  /** NoMoreTokens stands for whatever made fetching the next token fail; ComposerError is the loader's. */
  datatype Error = NoError | NoMoreTokens | ParserError(context: Option<Mark>, problem: Mark) | ComposerError

  /** rest is what the scanner has queued and will still deliver; available tells whether its head has been peeked at. */
  datatype Machine = Machine(rest: seq<Token>, available: bool, streamEndProduced: bool, error: Error,
                             state: State, states: seq<State>, marks: seq<Mark>, tagDirectives: seq<TagDirective>)

  datatype Result = Emitted(event: Event, m: Machine) | Failed(m: Machine)

  const EMPTY_SCALAR := Scalar(None, None, "", true, false, Plain)

  /** PEEK_TOKEN */
  function Peek(m: Machine): Machine {
    if m.rest != [] then m.(available := true) else m.(error := NoMoreTokens)
  }

  predicate Bad(m: Machine) { m.error != NoError || m.rest == [] }

  function Head(m: Machine): TokenData
    requires m.rest != []
  {
    m.rest[0].data
  }

  /** SKIP_TOKEN */
  function Skip(m: Machine): Machine
    requires m.rest != []
  {
    m.(available := false, streamEndProduced := Head(m).StreamEndToken?, rest := m.rest[1..])
  }

  function Pop(m: Machine): Machine
    requires m.states != []
  {
    m.(state := m.states[|m.states| - 1], states := m.states[..|m.states| - 1])
  }

  function Push(m: Machine, k: State): Machine { m.(states := m.states + [k]) }

  function PopMark(m: Machine): Machine
    requires m.marks != []
  {
    m.(marks := m.marks[..|m.marks| - 1])
  }

  /** An error inside a collection names the mark where the collection began. */
  function CollectionError(m: Machine): Machine
    requires m.marks != [] && m.rest != []
  {
    PopMark(m).(error := ParserError(Some(m.marks[|m.marks| - 1]), m.rest[0].start))
  }

  // ----- directives -----

  /** The place of the first directive for a handle, or the number of directives. */
  function FindHandle(ds: seq<TagDirective>, handle: Text): (k: nat)
    ensures k <= |ds| && (k < |ds| ==> ds[k].handle == handle)
  {
    if ds == [] || ds[0].handle == handle then 0 else FindHandle(ds[1..], handle) + 1
  }

  /** The search of the loops: k is the first directive for the handle. */
  lemma {:induction false} FirstHandle(ds: seq<TagDirective>, handle: Text, k: nat)
    requires k <= |ds| && (k < |ds| ==> ds[k].handle == handle)
    requires forall i | 0 <= i < k :: ds[i].handle != handle
    ensures FindHandle(ds, handle) == k
  {
    if k > 0 { FirstHandle(ds[1..], handle, k - 1); }
  }

  function AppendDirective(m: Machine, d: TagDirective, allowDuplicates: bool, mark: Mark): Machine {
    if FindHandle(m.tagDirectives, d.handle) == |m.tagDirectives| then m.(tagDirectives := m.tagDirectives + [d])
    else if allowDuplicates then m
    else m.(error := ParserError(None, mark))
  }

  datatype Prologue = Prologue(m: Machine, version: Option<Version>, directives: seq<TagDirective>)

  const PRIMARY := TagDirective("!", "!")
  const SECONDARY := TagDirective("!!", "tag:yaml.org,2002:")

  predicate Supported(v: Version) { v.major == 1 && (v.minor == 1 || v.minor == 2) }

  /** Directive tokens up to the first other token; then the two default handles. */
  function Directives(m0: Machine, version: Option<Version>, ds: seq<TagDirective>): Prologue
    decreases |m0.rest|
  {
    var m := Peek(m0);
    if Bad(m) then Prologue(m, version, ds) else
    match Head(m)
    case VersionDirectiveToken(v) =>
      if version.Some? || !Supported(v) then Prologue(m.(error := ParserError(None, m.rest[0].start)), version, ds)
      else Directives(Skip(m), Some(v), ds)
    case TagDirectiveToken(d) =>
      var m := AppendDirective(m, d, false, m.rest[0].start);
      if Bad(m) then Prologue(m, version, ds) else Directives(Skip(m), version, ds + [d])
    case _ =>
      var mark := m.rest[0].start;
      Prologue(AppendDirective(AppendDirective(m, PRIMARY, true, mark), SECONDARY, true, mark), version, ds)
  }

  // ----- documents -----

  function StreamStartStep(m0: Machine): Result {
    var m := Peek(m0);
    if Bad(m) then Failed(m)
    else if !Head(m).StreamStartToken? then Failed(m.(error := ParserError(None, m.rest[0].start)))
    else Emitted(StreamStart, Skip(m.(state := ImplicitDocumentStart)))
  }

  function SkipDocumentEnds(m0: Machine): Machine
    decreases |m0.rest|
  {
    var m := Peek(m0);
    if Bad(m) || !Head(m).DocumentEndToken? then m else SkipDocumentEnds(Skip(m))
  }

  predicate StartsDocument(d: TokenData) {
    d.VersionDirectiveToken? || d.TagDirectiveToken? || d.DocumentStartToken?
  }

  function DocumentStartStep(m0: Machine, implicit: bool): Result {
    var m := if implicit then Peek(m0) else SkipDocumentEnds(m0);
    if Bad(m) then Failed(m)
    else if Head(m).StreamEndToken? then Emitted(StreamEnd, Skip(m.(state := EndState)))
    else
      var p := Directives(m, None, []);
      if Bad(p.m) then Failed(p.m) else BeginDocument(p, implicit && !StartsDocument(Head(m)))
  }

  /** A bare document begins with its first node, any other with a "---". */
  function BeginDocument(p: Prologue, bare: bool): Result
    requires p.m.rest != []
  {
    if bare then Emitted(DocumentStart(None, [], true), Push(p.m, DocumentEndState).(state := BlockNode))
    else if !Head(p.m).DocumentStartToken? then Failed(p.m.(error := ParserError(None, p.m.rest[0].start)))
    else Emitted(DocumentStart(p.version, p.directives, false), Skip(Push(p.m, DocumentEndState).(state := DocumentContent)))
  }

  function DocumentContentStep(m0: Machine): Result
    requires m0.states != []
  {
    var m := Peek(m0);
    if Bad(m) then Failed(m)
    else if StartsDocument(Head(m)) || Head(m).DocumentEndToken? || Head(m).StreamEndToken?
      then Emitted(EMPTY_SCALAR, Pop(m))
    else NodeStep(m, true, false)
  }

  function DocumentEndStep(m0: Machine): Result {
    var m := Peek(m0);
    if Bad(m) then Failed(m) else
    var implicit := !Head(m).DocumentEndToken?;
    var m := if implicit then m else Skip(m);
    Emitted(DocumentEnd(implicit), m.(tagDirectives := [], state := DocumentStartState))
  }

  // ----- nodes -----

  /** The properties of a node, and the machine behind them; m.error tells whether it went well. */
  datatype Properties = Properties(m: Machine, anchor: Option<Text>, tag: Option<TagUse>)
  datatype TagUse = TagUse(handle: Text, suffix: Text, mark: Mark)

  function ReadAnchor(p: Properties): Properties
    requires p.m.rest != []
  {
    if Head(p.m).AnchorToken? then Properties(Peek(Skip(p.m)), Some(Head(p.m).anchor), p.tag) else p
  }

  function ReadTag(p: Properties): Properties
    requires p.m.rest != []
  {
    if Head(p.m).TagToken? then
      Properties(Peek(Skip(p.m)), p.anchor, Some(TagUse(Head(p.m).handle, Head(p.m).suffix, p.m.rest[0].start)))
    else p
  }

  /** ANCHOR TAG? | TAG ANCHOR? | nothing */
  function ReadProperties(m: Machine): Properties
    requires m.rest != []
  {
    var none := Properties(m, None, None);
    if Head(m).TagToken? then
      var p := ReadTag(none);
      if Bad(p.m) then p else ReadAnchor(p)
    else
      var p := ReadAnchor(none);
      if Bad(p.m) then p else ReadTag(p)
  }

  /** The full tag: a handle stands for the prefix that the document declared for it. */
  function ResolveTag(ds: seq<TagDirective>, t: TagUse): Option<Text> {
    if t.handle == "" then Some(t.suffix) else
    var k := FindHandle(ds, t.handle);
    if k == |ds| then None else Some(ds[k].prefix + t.suffix)
  }

  /** Block or flow content behind the properties. */
  function ContentStep(m: Machine, anchor: Option<Text>, tag: Option<Text>, block: bool, indentless: bool, start: Mark): Result
    requires m.rest != [] && m.states != []
  {
    var implicit := tag == None || tag == Some("");
    match Head(m)
    case BlockEntryToken =>
      if indentless then Emitted(SequenceStart(anchor, tag, implicit, Block), m.(state := IndentlessSequenceEntry))
      else NoContentStep(m, anchor, tag, start)
    case ScalarToken(value, style) =>
      var plain := (style == Plain && tag == None) || tag == Some("!");
      Emitted(Scalar(anchor, tag, value, plain, !plain && tag == None, style), Skip(Pop(m)))
    case FlowSequenceStartToken => Emitted(SequenceStart(anchor, tag, implicit, Flow), m.(state := FlowSequenceFirstEntry))
    case FlowMappingStartToken => Emitted(MappingStart(anchor, tag, implicit, Flow), m.(state := FlowMappingFirstKey))
    case BlockSequenceStartToken =>
      if block then Emitted(SequenceStart(anchor, tag, implicit, Block), m.(state := BlockSequenceFirstEntry))
      else NoContentStep(m, anchor, tag, start)
    case BlockMappingStartToken =>
      if block then Emitted(MappingStart(anchor, tag, implicit, Block), m.(state := BlockMappingFirstKey))
      else NoContentStep(m, anchor, tag, start)
    case _ => NoContentStep(m, anchor, tag, start)
  }

  /** Properties alone make an empty scalar; nothing at all is an error. */
  function NoContentStep(m: Machine, anchor: Option<Text>, tag: Option<Text>, start: Mark): Result
    requires m.rest != [] && m.states != []
  {
    if anchor.Some? || tag.Some? then
      Emitted(Scalar(anchor, tag, "", tag == None || tag == Some(""), false, Plain), Pop(m))
    else Failed(m.(error := ParserError(Some(start), m.rest[0].start)))
  }

  function NodeStep(m0: Machine, block: bool, indentless: bool): Result
    requires m0.states != []
  {
    var m := Peek(m0);
    if Bad(m) then Failed(m)
    else if Head(m).AliasToken? then Emitted(Alias(Head(m).alias), Skip(Pop(m)))
    else
      var start := m.rest[0].start;
      var p := ReadProperties(m);
      if Bad(p.m) then Failed(p.m) else
      var tag := if p.tag == None then None else ResolveTag(p.m.tagDirectives, p.tag.value);
      if p.tag.Some? && tag == None then Failed(p.m.(error := ParserError(Some(start), p.tag.value.mark)))
      else ContentStep(p.m, p.anchor, tag, block, indentless, start)
  }

  // ----- collections -----

  /** An item, or an empty scalar where there is none; then the machine goes on in state k. */
  function ItemStep(m: Machine, empty: bool, k: State, block: bool, indentless: bool): Result {
    if empty then Emitted(EMPTY_SCALAR, m.(state := k)) else NodeStep(Push(m, k), block, indentless)
  }

  function CloseStep(m: Machine, end: Event): Result
    requires m.states != [] && m.marks != [] && m.rest != []
  {
    Emitted(end, Skip(PopMark(Pop(m))))
  }

  /** The token that began the collection is remembered and skipped on the first entry. */
  function Enter(m: Machine, first: bool): Machine
    requires first ==> m.rest != []
  {
    if first then Skip(m.(available := true, marks := m.marks + [m.rest[0].start])) else m
  }

  function BlockSequenceStep(m0: Machine, first: bool): Result
    requires m0.states != [] && (first ==> m0.rest != []) && (!first ==> m0.marks != [])
  {
    var m := Peek(Enter(m0, first));
    if Bad(m) then Failed(m) else BlockSequenceNext(m)
  }

  function BlockSequenceNext(m: Machine): Result
    requires m.states != [] && m.marks != [] && m.rest != []
  {
    if Head(m).BlockEntryToken? then
      var n := Peek(Skip(m));
      if Bad(n) then Failed(n)
      else ItemStep(n, Head(n).BlockEntryToken? || Head(n).BlockEndToken?, BlockSequenceEntry, true, false)
    else if Head(m).BlockEndToken? then CloseStep(m, SequenceEnd)
    else Failed(CollectionError(m))
  }

  function IndentlessSequenceStep(m0: Machine): Result
    requires m0.states != []
  {
    var m := Peek(m0);
    if Bad(m) then Failed(m)
    else if Head(m).BlockEntryToken? then
      var n := Peek(Skip(m));
      if Bad(n) then Failed(n) else
      var empty := Head(n).BlockEntryToken? || Head(n).KeyToken? || Head(n).ValueToken? || Head(n).BlockEndToken?;
      ItemStep(n, empty, IndentlessSequenceEntry, true, false)
    else Emitted(SequenceEnd, Pop(m))
  }

  predicate EndsBlockPair(d: TokenData) { d.KeyToken? || d.ValueToken? || d.BlockEndToken? }

  function BlockMappingKeyStep(m0: Machine, first: bool): Result
    requires m0.states != [] && (first ==> m0.rest != []) && (!first ==> m0.marks != [])
  {
    var m := Peek(Enter(m0, first));
    if Bad(m) then Failed(m) else BlockMappingNext(m)
  }

  function BlockMappingNext(m: Machine): Result
    requires m.states != [] && m.marks != [] && m.rest != []
  {
    if Head(m).KeyToken? then
      var n := Peek(Skip(m));
      if Bad(n) then Failed(n) else ItemStep(n, EndsBlockPair(Head(n)), BlockMappingValue, true, true)
    else if Head(m).BlockEndToken? then CloseStep(m, MappingEnd)
    else Failed(CollectionError(m))
  }

  function BlockMappingValueStep(m0: Machine): Result {
    var m := Peek(m0);
    if Bad(m) then Failed(m)
    else if Head(m).ValueToken? then
      var n := Peek(Skip(m));
      if Bad(n) then Failed(n) else ItemStep(n, EndsBlockPair(Head(n)), BlockMappingKey, true, true)
    else Emitted(EMPTY_SCALAR, m.(state := BlockMappingKey))
  }

  /** Past the ',' that must separate flow entries; on the first entry there is none. */
  function Comma(m: Machine, first: bool, end: TokenData): Machine
    requires m.rest != [] && (!first ==> m.marks != [])
  {
    if first || Head(m) == end then m
    else if Head(m).FlowEntryToken? then Peek(Skip(m))
    else CollectionError(m)
  }

  function FlowSequenceStep(m0: Machine, first: bool): Result
    requires m0.states != [] && (first ==> m0.rest != []) && (!first ==> m0.marks != [])
  {
    var m := Peek(Enter(m0, first));
    if Bad(m) then Failed(m) else
    var n := Comma(m, first, FlowSequenceEndToken);
    if Bad(n) then Failed(n) else FlowSequenceNext(n)
  }

  function FlowSequenceNext(n: Machine): Result
    requires n.states != [] && n.marks != [] && n.rest != []
  {
    if Head(n).FlowSequenceEndToken? then CloseStep(n, SequenceEnd)
    else if Head(n).KeyToken? then Emitted(MappingStart(None, None, true, Flow), Skip(n.(state := FlowPairKey)))
    else NodeStep(Push(n, FlowSequenceEntry), false, false)
  }

  function FlowPairKeyStep(m0: Machine): Result {
    var m := Peek(m0);
    if Bad(m) then Failed(m)
    else if Head(m).ValueToken? || Head(m).FlowEntryToken? || Head(m).FlowSequenceEndToken?
      then Emitted(EMPTY_SCALAR, Skip(m).(state := FlowPairValue))
    else NodeStep(Push(m, FlowPairValue), false, false)
  }

  function FlowPairValueStep(m0: Machine): Result {
    var m := Peek(m0);
    if Bad(m) then Failed(m)
    else if Head(m).ValueToken? then
      var n := Peek(Skip(m));
      if Bad(n) then Failed(n)
      else ItemStep(n, Head(n).FlowEntryToken? || Head(n).FlowSequenceEndToken?, FlowPairEnd, false, false)
    else Emitted(EMPTY_SCALAR, m.(state := FlowPairEnd))
  }

  function FlowPairEndStep(m0: Machine): Result {
    var m := Peek(m0);
    if Bad(m) then Failed(m) else Emitted(MappingEnd, m.(state := FlowSequenceEntry))
  }

  function FlowMappingKeyStep(m0: Machine, first: bool): Result
    requires m0.states != [] && (first ==> m0.rest != []) && (!first ==> m0.marks != [])
  {
    var m := Peek(Enter(m0, first));
    if Bad(m) then Failed(m) else
    var n := Comma(m, first, FlowMappingEndToken);
    if Bad(n) then Failed(n) else FlowMappingNext(n)
  }

  function FlowMappingNext(n: Machine): Result
    requires n.states != [] && n.marks != [] && n.rest != []
  {
    if Head(n).FlowMappingEndToken? then CloseStep(n, MappingEnd)
    else if Head(n).KeyToken? then
      var k := Peek(Skip(n));
      if Bad(k) then Failed(k) else
      var empty := Head(k).ValueToken? || Head(k).FlowEntryToken? || Head(k).FlowMappingEndToken?;
      ItemStep(k, empty, FlowMappingValue, false, false)
    else NodeStep(Push(n, FlowMappingEmptyValue), false, false)
  }

  function FlowMappingValueStep(m0: Machine, empty: bool): Result {
    var m := Peek(m0);
    if Bad(m) then Failed(m)
    else if !empty && Head(m).ValueToken? then
      var n := Peek(Skip(m));
      if Bad(n) then Failed(n)
      else ItemStep(n, Head(n).FlowEntryToken? || Head(n).FlowMappingEndToken?, FlowMappingKey, false, false)
    else Emitted(EMPTY_SCALAR, m.(state := FlowMappingKey))
  }

  // ----- one event -----

  /** What the productions rely on: a state to return to, a mark to pop, a token that was peeked at. */
  predicate Ready(m: Machine) {
    && (m.available ==> m.rest != [])
    && (NeedsStates(m.state) ==> m.states != [])
    && (IsFirst(m.state) ==> m.available)
    && (NeedsMarks(m.state) ==> m.marks != [])
  }

  predicate IsFirst(c: State) {
    c.BlockSequenceFirstEntry? || c.BlockMappingFirstKey? || c.FlowSequenceFirstEntry? || c.FlowMappingFirstKey?
  }

  predicate NeedsStates(c: State) {
    !(c.StreamStartState? || c.ImplicitDocumentStart? || c.DocumentStartState? || c.DocumentEndState? || c.EndState?)
  }

  predicate NeedsMarks(c: State) {
    c.BlockSequenceEntry? || c.BlockMappingKey? || c.FlowSequenceEntry? || c.FlowMappingKey?
  }

  function Step(m: Machine): Result
    requires Ready(m) && m.state != EndState
  {
    match m.state
    case StreamStartState => StreamStartStep(m)
    case ImplicitDocumentStart => DocumentStartStep(m, true)
    case DocumentStartState => DocumentStartStep(m, false)
    case DocumentContent => DocumentContentStep(m)
    case DocumentEndState => DocumentEndStep(m)
    case BlockNode => NodeStep(m, true, false)
    case BlockNodeOrIndentlessSequence => NodeStep(m, true, true)
    case FlowNode => NodeStep(m, false, false)
    case BlockSequenceFirstEntry => BlockSequenceStep(m, true)
    case BlockSequenceEntry => BlockSequenceStep(m, false)
    case IndentlessSequenceEntry => IndentlessSequenceStep(m)
    case BlockMappingFirstKey => BlockMappingKeyStep(m, true)
    case BlockMappingKey => BlockMappingKeyStep(m, false)
    case BlockMappingValue => BlockMappingValueStep(m)
    case FlowSequenceFirstEntry => FlowSequenceStep(m, true)
    case FlowSequenceEntry => FlowSequenceStep(m, false)
    case FlowPairKey => FlowPairKeyStep(m)
    case FlowPairValue => FlowPairValueStep(m)
    case FlowPairEnd => FlowPairEndStep(m)
    case FlowMappingFirstKey => FlowMappingKeyStep(m, true)
    case FlowMappingKey => FlowMappingKeyStep(m, false)
    case FlowMappingValue => FlowMappingValueStep(m, false)
    case FlowMappingEmptyValue => FlowMappingValueStep(m, true)
  }
}
