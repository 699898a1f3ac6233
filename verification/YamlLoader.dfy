// The loader: composes a document's node graph from the parser's events.
module YamlLoader {
  import opened Options
  import opened YamlEvents
  import M = YamlMachine
  import opened YamlSafety
  import opened YamlRun
  import opened YamlParser
  import opened YamlGraph
  import opened YamlReload

  /** What a call comes to: "return 1", "return 0", or a failed assert. */
  datatype Outcome = Success | Failure | Abort

  class Loader {
    const parser: Parser

    // the document
    var nodes: seq<GraphNode>
    var version: Option<Version>
    var directives: seq<TagDirective>
    var startImplicit: bool
    var endImplicit: bool

    var aliases: seq<AliasData>
    var ctx: seq<int>

    constructor (parser: Parser)
      ensures this.parser == parser
    {
      this.parser := parser;
      nodes, version, directives, startImplicit, endImplicit, aliases, ctx := [], None, [], false, false, [], [];
    }

    ghost function Now(): Loading
      reads this
    {
      Loading(nodes, aliases, ctx)
    }

    /** The call did what r says; a refused document leaves its error with the parser. */
    ghost predicate Did(r: LoadResult, outcome: Outcome)
      reads this, parser
    {
      match r
      case Next(s) => outcome == Success && Now() == s
      case ComposerError => outcome == Failure && parser.error == M.ComposerError
      case Aborted => outcome == Abort
    }

    // ----- one event -----

    method RegisterAnchor(index: int, anchor: Option<Text>) returns (outcome: Outcome)
      modifies this`aliases, parser`error
      ensures Did(Register(old(Now()), index, anchor), outcome)
      ensures outcome == Success ==> parser.error == old(parser.error)
      ensures outcome != Abort
    {
      if anchor == None { return Success; }
      var i := 0;
      while i < |aliases|
        invariant 0 <= i <= |aliases| && Now() == old(Now()) && parser.error == old(parser.error)
        invariant forall j | 0 <= j < i :: aliases[j].anchor != anchor.value
      {
        if aliases[i].anchor == anchor.value {
          FirstAlias(aliases, anchor.value, i);
          parser.error := M.ComposerError;
          return Failure;
        }
        i := i + 1;
      }
      FirstAlias(aliases, anchor.value, i);
      aliases := aliases + [AliasData(anchor.value, index)];
      outcome := Success;
    }

    method LoadNodeAdd(index: int) returns (outcome: Outcome)
      modifies this`nodes
      ensures Did(AddNode(old(Now()), index), outcome)
    {
      if ctx == [] { return Success; }
      var parent := ctx[|ctx| - 1];
      if !InRange(nodes, parent) { return Abort; }
      var n := nodes[parent - 1];
      match n {
      case SequenceNode(tag, items, layout) =>
        nodes := nodes[parent - 1 := SequenceNode(tag, items + [index], layout)];
      case MappingNode(tag, pairs, layout) =>
        if pairs != [] && pairs[|pairs| - 1].key != 0 && pairs[|pairs| - 1].value == 0 {
          var last := |pairs| - 1;
          nodes := nodes[parent - 1 := MappingNode(tag, pairs[last := pairs[last].(value := index)], layout)];
        } else {
          nodes := nodes[parent - 1 := MappingNode(tag, pairs + [Pair(index, 0)], layout)];
        }
      case ScalarNode(_, _, _) =>
        return Abort;
      }
      outcome := Success;
    }

    method PushNode(n: GraphNode, anchor: Option<Text>) returns (outcome: Outcome, index: int)
      modifies this`nodes, this`aliases, parser`error
      ensures Did(NewNode(old(Now()), n, anchor), outcome)
      ensures outcome == Success ==> parser.error == old(parser.error) && index == old(|nodes|) + 1
    {
      nodes := nodes + [n];
      index := |nodes|;
      outcome := RegisterAnchor(index, anchor);
      if outcome == Success { outcome := LoadNodeAdd(index); }
    }

    method LoadAlias(name: Text) returns (outcome: Outcome)
      modifies this`nodes, parser`error
      ensures Did(LoadEvent(old(Now()), Alias(name)), outcome)
      ensures outcome == Success ==> parser.error == old(parser.error)
    {
      var i := 0;
      while i < |aliases|
        invariant 0 <= i <= |aliases| && Now() == old(Now()) && parser.error == old(parser.error)
        invariant forall j | 0 <= j < i :: aliases[j].anchor != name
      {
        if aliases[i].anchor == name {
          FirstAlias(aliases, name, i);
          outcome := LoadNodeAdd(aliases[i].index);
          return;
        }
        i := i + 1;
      }
      FirstAlias(aliases, name, i);
      parser.error := M.ComposerError;
      outcome := Failure;
    }

    method LoadScalar(e: Event) returns (outcome: Outcome)
      requires e.Scalar?
      modifies this`nodes, this`aliases, parser`error
      ensures Did(LoadEvent(old(Now()), e), outcome)
      ensures outcome == Success ==> parser.error == old(parser.error)
    {
      var tag := if e.tag == None || e.tag.value == "!" then DEFAULT_SCALAR_TAG else e.tag.value;
      var index;
      outcome, index := PushNode(ScalarNode(tag, e.value, e.style), e.anchor);
    }

    method LoadSequence(e: Event) returns (outcome: Outcome)
      requires e.SequenceStart?
      modifies this`nodes, this`aliases, this`ctx, parser`error
      ensures Did(LoadEvent(old(Now()), e), outcome)
      ensures outcome == Success ==> parser.error == old(parser.error)
    {
      var tag := if e.tag == None || e.tag.value == "!" then DEFAULT_SEQUENCE_TAG else e.tag.value;
      var index;
      outcome, index := PushNode(SequenceNode(tag, [], e.layout), e.anchor);
      if outcome == Success { ctx := ctx + [index]; }
    }

    method LoadMapping(e: Event) returns (outcome: Outcome)
      requires e.MappingStart?
      modifies this`nodes, this`aliases, this`ctx, parser`error
      ensures Did(LoadEvent(old(Now()), e), outcome)
      ensures outcome == Success ==> parser.error == old(parser.error)
    {
      var tag := if e.tag == None || e.tag.value == "!" then DEFAULT_MAPPING_TAG else e.tag.value;
      var index;
      outcome, index := PushNode(MappingNode(tag, [], e.layout), e.anchor);
      if outcome == Success { ctx := ctx + [index]; }
    }

    method LoadEnd(sequence: bool) returns (outcome: Outcome)
      modifies this`ctx
      ensures Did(Close(old(Now()), sequence), outcome)
    {
      if |ctx| == 0 { return Abort; }
      var index := ctx[|ctx| - 1];
      if !InRange(nodes, index) { return Abort; }
      if !(if sequence then nodes[index - 1].SequenceNode? else nodes[index - 1].MappingNode?) { return Abort; }
      ctx := ctx[..|ctx| - 1];
      outcome := Success;
    }

    method LoadOne(e: Event) returns (outcome: Outcome)
      modifies this`nodes, this`aliases, this`ctx, parser`error
      ensures Did(LoadEvent(old(Now()), e), outcome)
      ensures outcome == Success ==> parser.error == old(parser.error)
    {
      match e
      case Alias(name) => outcome := LoadAlias(name);
      case Scalar(_, _, _, _, _, _) => outcome := LoadScalar(e);
      case SequenceStart(_, _, _, _) => outcome := LoadSequence(e);
      case MappingStart(_, _, _, _) => outcome := LoadMapping(e);
      case SequenceEnd => outcome := LoadEnd(true);
      case MappingEnd => outcome := LoadEnd(false);
      case _ => outcome := Abort;
    }

    // ----- a document -----

    /** Inside a stream without an error, a call of the parser that succeeds yields an event. */
    method NextEvent(ghost p: Partial) returns (ok: bool, event: Option<Event>)
      requires parser.error == M.NoError && parser.Valid(p) && !p.Done?
      modifies parser
      ensures ok <==> event.Some?
      ensures ok ==> parser.error == M.NoError && Extend(p, event.value).Some? && parser.Valid(Extend(p, event.value).value)
      ensures ok ==> Lighter(parser.Now(), old(|parser.rest|), old(Weight(parser.Now())))
      ensures !ok ==> parser.error != M.NoError && !parser.streamEndProduced && parser.Valid(p)
    {
      ok, event := parser.Parse(p);
    }

    /** Between the events of a document: the state fits them and is what they compose to. */
    ghost predicate Loads(p: Partial)
      reads this, parser
    {
      parser.error == M.NoError && parser.Valid(p) && Composing(Now(), p) && LoadAll(EMPTY, DocEvents(p)) == Next(Now())
    }

    method LoadStep(e: Event, ghost p: Partial) returns (outcome: Outcome, ghost p': Partial)
      requires parser.error == M.NoError && Composing(Now(), p) && LoadAll(EMPTY, DocEvents(p)) == Next(Now())
      requires GoodPartial(p)
      requires p.Inside? && Extend(p, e).Some? && parser.Valid(Extend(p, e).value)
      modifies this`nodes, this`aliases, this`ctx, parser`error
      ensures outcome != Abort && p' == Extend(p, e).value && (p'.Inside? || p'.Rooted?) && p'.docs == p.docs && p'.start == p.start
      ensures outcome == Success ==> Loads(p') && parser.Now() == old(parser.Now())
      ensures outcome == Failure ==> parser.error != M.NoError && !parser.streamEndProduced && parser.Valid(p')
    {
      p' := Extend(p, e).value;
      EventComposes(Now(), p, e);
      DocExtends(p, e);
      LoadConcat(EMPTY, DocEvents(p), [e]);
      LoadOneMore(Now(), e);
      outcome := LoadOne(e);
    }

    /** "do parse ... while not DOCUMENT-END": no assert fails, and the loop ends. */
    method LoadNodes(ghost p0: Partial) returns (outcome: Outcome, ghost p: Partial)
      requires p0.Inside? && Loads(p0)
      modifies this`nodes, this`aliases, this`ctx, this`endImplicit, parser
      ensures outcome != Abort && (outcome == Failure ==> parser.error != M.NoError && !parser.streamEndProduced && parser.Valid(p))
      ensures outcome == Success ==> parser.error == M.NoError && parser.Valid(p) && AddsDocument(p, p0.docs, p0.start, endImplicit, Now())
    {
      p := p0;
      while true
        invariant (p.Inside? || p.Rooted?) && p.docs == p0.docs && p.start == p0.start && Loads(p)
        decreases |parser.rest|, Weight(parser.Now())
      {
        var ok, event := NextEvent(p);
        if !ok { return Failure, p; }
        if event == None { return Abort, p; }
        if event.value.DocumentEnd? {
          endImplicit := event.value.implicit;
          DocumentAdded(Now(), p, event.value);
          p := Extend(p, event.value).value;
          return Success, p;
        }
        outcome, p := LoadStep(event.value, p);
        if outcome != Success { return; }
      }
    }

    method KeepStart(e: Event)
      requires e.DocumentStart?
      modifies this`version, this`directives, this`startImplicit
      ensures e == DocumentStart(version, directives, startImplicit)
    {
      version, directives, startImplicit := e.version, e.directives, e.implicit;
    }

    method LoadDocument(e: Event, ghost p: Partial) returns (outcome: Outcome, ghost p': Partial)
      requires parser.error == M.NoError && p.Inside? && p.open == Outermost && parser.Valid(p) && p.start == e
      requires e.DocumentStart?
      requires Now() == EMPTY
      modifies this, parser
      ensures outcome != Abort && (outcome == Failure ==> parser.error != M.NoError && !parser.streamEndProduced && parser.Valid(p'))
      ensures outcome == Success ==> Loaded(p', p.docs)
    {
      DocumentBegun(p);
      assert Loads(p);
      KeepStart(e);
      assert Loads(p);
      outcome, p' := LoadNodes(p);
    }

    /** A document more; the next call can go on from here. */
    ghost predicate Loaded(p: Partial, before: seq<Doc>)
      reads this, parser
    {
      && parser.error == M.NoError && parser.Valid(p)
      && AddsDocument(p, before, DocumentStart(version, directives, startImplicit), endImplicit, Now())
    }

    method Reset()
      modifies this
      ensures Now() == EMPTY
    {
      nodes, aliases, ctx := [], [], [];
    }

    /** yaml_parser_load: the next document, or an empty one at the end of the stream. An assert fails
        exactly when an error is still recorded from before and the stream has not ended, so always when
        the call before has failed. */
    method Load(ghost p: Partial) returns (outcome: Outcome, ghost p': Partial)
      requires parser.Valid(p) && (parser.error == M.NoError ==> p.Nothing? || p.Between? || p.Done?)
      modifies this, parser
      ensures outcome == Abort <==> old(parser.error != M.NoError && !parser.streamEndProduced)
      ensures outcome == Failure ==> parser.error != M.NoError && !parser.streamEndProduced && parser.Valid(p') && nodes == []
      ensures old(parser.error == M.NoError && !parser.streamEndProduced && parser.rest == []) ==> outcome == Failure
      ensures outcome == Success && nodes == [] ==> parser.streamEndProduced && (parser.error == M.NoError ==> parser.Valid(p') && p'.Done?)
      ensures outcome == Success && nodes != [] ==> Loaded(p', if p.Nothing? then [] else p.docs)
    {
      Reset();
      p' := p;
      var ok, event;
      if parser.state == M.StreamStartState {
        ok, event := parser.Parse(p);
        if !ok { return Failure, p'; }
        if event != Some(StreamStart) { return Abort, p'; }
        p' := Extend(p', StreamStart).value;
      }
      if parser.streamEndProduced {
        return Success, p';
      }
      outcome, p' := LoadNext(p');
    }

    /** The next event begins a document or ends the stream. */
    method LoadNext(ghost p: Partial) returns (outcome: Outcome, ghost p': Partial)
      requires parser.Valid(p) && (parser.error == M.NoError ==> p.Between? || p.Done?) && !parser.streamEndProduced
      requires parser.state != M.StreamStartState && nodes == [] && aliases == [] && ctx == []
      modifies this, parser
      ensures outcome == Abort <==> old(parser.error != M.NoError)
      ensures outcome == Failure ==> parser.error != M.NoError && !parser.streamEndProduced && parser.Valid(p') && nodes == []
      ensures old(parser.error == M.NoError && !parser.streamEndProduced && parser.rest == []) ==> outcome == Failure
      ensures outcome == Success && nodes == [] ==> parser.streamEndProduced && (parser.error == M.NoError ==> parser.Valid(p') && p'.Done?)
      ensures outcome == Success && nodes != [] ==> Loaded(p', p.docs)
    {
      p' := p;
      var ok, event := parser.Parse(p');
      if !ok { return Failure, p'; }
      if event == Some(StreamEnd) {
        p' := Extend(p', StreamEnd).value;
        return Success, p';
      }
      if event == None || !event.value.DocumentStart? { return Abort, p'; }
      p' := Extend(p', event.value).value;
      outcome, p' := LoadDocument(event.value, p');
      if outcome == Failure { Reset(); }
    }
  }

  /** The assert can be reached: a call that finds no token fails, and the next one aborts. */
  method FailThenAbort() returns (first: Outcome, second: Outcome)
    ensures first == Failure && second == Abort
  {
    var parser := new Parser([]);
    var loader := new Loader(parser);
    ghost var p;
    first, p := loader.Load(Nothing);
    second, p := loader.Load(p);
  }

  /** A document more, with this start and end, and the state s is what is loaded from it. */
  ghost predicate AddsDocument(p: Partial, before: seq<Doc>, start: Event, endImplicit: bool, s: Loading) {
    && p.Between? && |p.docs| == |before| + 1 && p.docs[..|before|] == before
    && var d := p.docs[|before|];
    d.start == start && d.end == DocumentEnd(endImplicit) && LoadedDocument(s, d.root)
  }

  lemma DocumentBegun(p: Partial)
    requires p.Inside? && p.open == Outermost
    ensures Composing(EMPTY, p) && LoadAll(EMPTY, DocEvents(p)) == Next(EMPTY)
  {}

  lemma DocumentAdded(s: Loading, p: Partial, e: Event)
    requires GoodPartial(p) && Composing(s, p) && LoadAll(EMPTY, DocEvents(p)) == Next(s)
    requires (p.Inside? || p.Rooted?) && e.DocumentEnd? && Extend(p, e).Some?
    ensures AddsDocument(Extend(p, e).value, p.docs, p.start, e.implicit, s)
  {
    RootedIsGood(s, p);
    LoadedFits(s, p.root);
  }

  lemma LoadOneMore(s: Loading, e: Event)
    ensures LoadAll(s, [e]) == LoadEvent(s, e)
  {
    assert [e][1..] == [];
  }
}
