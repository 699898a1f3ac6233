// The YAML parser object: its productions update the parser's fields in place.
module YamlParser {
  import opened Options
  import opened YamlEvents
  import M = YamlMachine
  import opened YamlSafety
  import opened YamlRun

  class Parser {
    var rest: seq<Token>             // queued and future tokens
    var available: bool
    var streamEndProduced: bool
    var error: M.Error
    var state: M.State
    var states: seq<M.State>
    var marks: seq<Mark>
    var tagDirectives: seq<TagDirective>

    ghost function Now(): M.Machine
      reads this
    {
      M.Machine(rest, available, streamEndProduced, error, state, states, marks, tagDirectives)
    }

    /** The production did what the machine does: None stands for "return 0". */
    ghost predicate Did(r: M.Result, event: Option<Event>)
      reads this
    {
      Now() == r.m && event == (if r.Emitted? then Some(r.event) else None)
    }

    constructor (tokens: seq<Token>)
      ensures Now() == Start(tokens)
    {
      rest, available, streamEndProduced, error := tokens, false, false, M.NoError;
      state, states, marks, tagDirectives := M.StreamStartState, [], [], [];
    }

    // ----- tokens and stacks -----

    /** PEEK_TOKEN: false if there is no next token. */
    method Peek() returns (ok: bool)
      requires error == M.NoError && (available ==> rest != [])
      modifies this
      ensures Now() == M.Peek(old(Now())) && ok == !M.Bad(Now())
    {
      if !available {
        if rest == [] {
          error := M.NoMoreTokens;
          return false;
        }
        available := true;
      }
      ok := true;
    }

    /** SKIP_TOKEN */
    method Skip()
      requires rest != []
      modifies this
      ensures Now() == M.Skip(old(Now()))
    {
      available := false;
      streamEndProduced := rest[0].data.StreamEndToken?;
      rest := rest[1..];
    }

    method PopState()
      requires states != []
      modifies this
      ensures Now() == M.Pop(old(Now()))
    {
      state := states[|states| - 1];
      states := states[..|states| - 1];
    }

    method PushState(k: M.State)
      modifies this
      ensures Now() == M.Push(old(Now()), k)
    {
      states := states + [k];
    }

    method PopMark() returns (mark: Mark)
      requires marks != []
      modifies this
      ensures Now() == M.PopMark(old(Now())) && mark == old(marks[|marks| - 1])
    {
      mark := marks[|marks| - 1];
      marks := marks[..|marks| - 1];
    }

    method SetError(context: Option<Mark>, problem: Mark) returns (event: Option<Event>)
      modifies this
      ensures Now() == old(Now()).(error := M.ParserError(context, problem)) && event == None
    {
      error := M.ParserError(context, problem);
      event := None;
    }

    /** The first visit of a collection remembers its mark and passes its first token. */
    method EnterCollection()
      requires available && rest != [] && error == M.NoError
      modifies this
      ensures Now() == M.Enter(old(Now()), true)
    {
      var ok := Peek();
      marks := marks + [rest[0].start];
      Skip();
    }

    /** The end of a collection: both stacks are popped and the token is passed. */
    method CloseCollection(end: Event) returns (event: Option<Event>)
      requires states != [] && marks != [] && rest != []
      modifies this
      ensures Did(M.CloseStep(old(Now()), end), event)
    {
      PopState();
      var mark := PopMark();
      event := Some(end);
      Skip();
    }

    /** An unexpected token inside a collection. */
    method FailCollection() returns (event: Option<Event>)
      requires marks != [] && rest != []
      modifies this
      ensures Now() == M.CollectionError(old(Now())) && event == None
    {
      var mark := PopMark();
      event := SetError(Some(mark), rest[0].start);
    }

    // ----- documents -----

    method ParseStreamStart() returns (event: Option<Event>)
      requires error == M.NoError && (available ==> rest != [])
      modifies this
      ensures Did(M.StreamStartStep(old(Now())), event)
    {
      var ok := Peek();
      if !ok { return None; }
      if !rest[0].data.StreamStartToken? {
        event := SetError(None, rest[0].start);
        return;
      }
      state := M.ImplicitDocumentStart;
      event := Some(StreamStart);
      Skip();
    }

    method SkipDocumentEnds() returns (ok: bool)
      requires error == M.NoError && (available ==> rest != [])
      modifies this
      ensures Now() == M.SkipDocumentEnds(old(Now())) && ok == !M.Bad(Now()) && (ok ==> available)
    {
      ghost var end := M.SkipDocumentEnds(Now());
      ok := Peek();
      while ok && rest[0].data.DocumentEndToken?
        invariant ok == !M.Bad(Now()) && M.SkipDocumentEnds(Now()) == end && (ok ==> available)
        invariant !ok ==> Now() == end
        decreases |rest|, ok
      {
        Skip();
        ok := Peek();
      }
    }

    method ParseDocumentStart(implicit: bool) returns (event: Option<Event>)
      requires error == M.NoError && (available ==> rest != [])
      modifies this
      ensures Did(M.DocumentStartStep(old(Now()), implicit), event)
    {
      var ok;
      if implicit { ok := Peek(); } else { ok := SkipDocumentEnds(); }
      if !ok { return None; }
      if implicit && !M.StartsDocument(rest[0].data) && !rest[0].data.StreamEndToken? {
        var version, ds;
        ok, version, ds := ProcessDirectives();
        if !ok { return None; }
        PushState(M.DocumentEndState);
        state := M.BlockNode;
        return Some(DocumentStart(None, [], true));
      } else if !rest[0].data.StreamEndToken? {
        var version, ds;
        ok, version, ds := ProcessDirectives();
        if !ok { return None; }
        if !rest[0].data.DocumentStartToken? {
          event := SetError(None, rest[0].start);
          return;
        }
        PushState(M.DocumentEndState);
        state := M.DocumentContent;
        event := Some(DocumentStart(version, ds, false));
        Skip();
      } else {
        state := M.EndState;
        event := Some(StreamEnd);
        Skip();
      }
    }

    method ParseDocumentContent() returns (event: Option<Event>)
      requires error == M.NoError && (available ==> rest != []) && states != []
      modifies this
      ensures Did(M.DocumentContentStep(old(Now())), event)
    {
      var ok := Peek();
      if !ok { return None; }
      var d := rest[0].data;
      if M.StartsDocument(d) || d.DocumentEndToken? || d.StreamEndToken? {
        PopState();
        return Some(M.EMPTY_SCALAR);
      }
      event := ParseNode(true, false);
    }

    method ParseDocumentEnd() returns (event: Option<Event>)
      requires error == M.NoError && (available ==> rest != [])
      modifies this
      ensures Did(M.DocumentEndStep(old(Now())), event)
    {
      var ok := Peek();
      if !ok { return None; }
      var implicit := true;
      if rest[0].data.DocumentEndToken? {
        Skip();
        implicit := false;
      }
      ghost var was := Now();
      while tagDirectives != []
        invariant Now() == was.(tagDirectives := tagDirectives)
        decreases |tagDirectives|
      {
        tagDirectives := tagDirectives[..|tagDirectives| - 1];
      }
      state := M.DocumentStartState;
      event := Some(DocumentEnd(implicit));
    }

    /** The directives before a document; false if one of them is refused or tokens run out. */
    method ProcessDirectives() returns (ok: bool, version: Option<Version>, ds: seq<TagDirective>)
      requires error == M.NoError && (available ==> rest != [])
      modifies this
      ensures var p := M.Directives(old(Now()), None, []);
        Now() == p.m && ok == !M.Bad(p.m) && version == p.version && ds == p.directives
    {
      ghost var p := M.Directives(Now(), None, []);
      version, ds := None, [];
      ok := Peek();
      while ok && (rest[0].data.VersionDirectiveToken? || rest[0].data.TagDirectiveToken?)
        invariant ok == !M.Bad(Now()) && (ok ==> available)
        invariant ok ==> M.Directives(Now(), version, ds) == p
        invariant !ok ==> p == M.Prologue(Now(), version, ds)
        decreases |rest|, ok
      {
        var t := rest[0];
        if t.data.VersionDirectiveToken? {
          if version.Some? {
            error := M.ParserError(None, t.start);
            return false, version, ds;
          }
          if t.data.version.major != 1 || (t.data.version.minor != 1 && t.data.version.minor != 2) {
            error := M.ParserError(None, t.start);
            return false, version, ds;
          }
          version := Some(t.data.version);
        } else {
          ok := AppendDirective(t.data.directive, false, t.start);
          if !ok { return; }
          ds := ds + [t.data.directive];
        }
        Skip();
        ok := Peek();
      }
      if !ok { return; }
      ok := AppendDirective(M.PRIMARY, true, rest[0].start);
      ok := AppendDirective(M.SECONDARY, true, rest[0].start);
    }

    method AppendDirective(d: TagDirective, allowDuplicates: bool, mark: Mark) returns (ok: bool)
      requires error == M.NoError
      modifies this
      ensures Now() == M.AppendDirective(old(Now()), d, allowDuplicates, mark) && ok == (error == M.NoError)
      ensures allowDuplicates ==> ok
    {
      var i := 0;
      while i < |tagDirectives|
        invariant 0 <= i <= |tagDirectives| && Now() == old(Now())
        invariant forall j | 0 <= j < i :: tagDirectives[j].handle != d.handle
      {
        if d.handle == tagDirectives[i].handle {
          M.FirstHandle(tagDirectives, d.handle, i);
          if allowDuplicates { return true; }
          error := M.ParserError(None, mark);
          return false;
        }
        i := i + 1;
      }
      M.FirstHandle(tagDirectives, d.handle, i);
      tagDirectives := tagDirectives + [d];
      ok := true;
    }

    // ----- nodes -----

    method ParseNode(block: bool, indentless: bool) returns (event: Option<Event>)
      requires error == M.NoError && (available ==> rest != []) && states != []
      modifies this
      ensures Did(M.NodeStep(old(Now()), block, indentless), event)
    {
      var ok := Peek();
      if !ok { return None; }
      if rest[0].data.AliasToken? {
        PopState();
        event := Some(Alias(rest[0].data.alias));
        Skip();
        return;
      }
      var start := rest[0].start;
      var anchor, tagToken;
      ok, anchor, tagToken := ParseProperties();
      if !ok { return None; }
      var tag: Option<Text> := None;
      if tagToken.Some? {
        tag := FindTag(tagToken.value);
        if tag == None {
          event := SetError(Some(start), tagToken.value.mark);
          return;
        }
      }
      event := ParseContent(anchor, tag, block, indentless, start);
    }

    /** An anchor and a tag in either order. */
    method ParseProperties() returns (ok: bool, anchor: Option<Text>, tag: Option<M.TagUse>)
      requires error == M.NoError && available && rest != []
      modifies this
      ensures var p := M.ReadProperties(old(Now()));
        Now() == p.m && ok == !M.Bad(p.m) && anchor == p.anchor && tag == p.tag && (ok ==> states == old(states))
    {
      anchor, tag, ok := None, None, true;
      if rest[0].data.AnchorToken? {
        anchor := Some(rest[0].data.anchor);
        Skip();
        ok := Peek();
        if !ok { return; }
        if rest[0].data.TagToken? {
          tag := Some(M.TagUse(rest[0].data.handle, rest[0].data.suffix, rest[0].start));
          Skip();
          ok := Peek();
        }
      } else if rest[0].data.TagToken? {
        tag := Some(M.TagUse(rest[0].data.handle, rest[0].data.suffix, rest[0].start));
        Skip();
        ok := Peek();
        if !ok { return; }
        if rest[0].data.AnchorToken? {
          anchor := Some(rest[0].data.anchor);
          Skip();
          ok := Peek();
        }
      }
    }

    method FindTag(t: M.TagUse) returns (tag: Option<Text>)
      ensures tag == M.ResolveTag(tagDirectives, t)
    {
      if t.handle == "" { return Some(t.suffix); }
      var i := 0;
      while i < |tagDirectives|
        invariant 0 <= i <= |tagDirectives| && forall j | 0 <= j < i :: tagDirectives[j].handle != t.handle
      {
        if tagDirectives[i].handle == t.handle {
          M.FirstHandle(tagDirectives, t.handle, i);
          return Some(tagDirectives[i].prefix + t.suffix);
        }
        i := i + 1;
      }
      M.FirstHandle(tagDirectives, t.handle, i);
      tag := None;
    }

    method ParseContent(anchor: Option<Text>, tag: Option<Text>, block: bool, indentless: bool, start: Mark)
      returns (event: Option<Event>)
      requires error == M.NoError && rest != [] && states != []
      modifies this
      ensures Did(M.ContentStep(old(Now()), anchor, tag, block, indentless, start), event)
    {
      var d := rest[0].data;
      var implicit := tag == None || tag == Some("");
      if indentless && d.BlockEntryToken? {
        state := M.IndentlessSequenceEntry;
        event := Some(SequenceStart(anchor, tag, implicit, Block));
      } else if d.ScalarToken? {
        event := ParseScalar(anchor, tag, d.value, d.style);
      } else if d.FlowSequenceStartToken? {
        state := M.FlowSequenceFirstEntry;
        event := Some(SequenceStart(anchor, tag, implicit, Flow));
      } else if d.FlowMappingStartToken? {
        state := M.FlowMappingFirstKey;
        event := Some(MappingStart(anchor, tag, implicit, Flow));
      } else if block && d.BlockSequenceStartToken? {
        state := M.BlockSequenceFirstEntry;
        event := Some(SequenceStart(anchor, tag, implicit, Block));
      } else if block && d.BlockMappingStartToken? {
        state := M.BlockMappingFirstKey;
        event := Some(MappingStart(anchor, tag, implicit, Block));
      } else {
        event := ParseNoContent(anchor, tag, start);
      }
    }

    /** Properties alone make an empty scalar; nothing at all is an error. */
    method ParseNoContent(anchor: Option<Text>, tag: Option<Text>, start: Mark) returns (event: Option<Event>)
      requires rest != [] && states != []
      modifies this
      ensures Did(M.NoContentStep(old(Now()), anchor, tag, start), event)
    {
      if anchor.Some? || tag.Some? {
        PopState();
        event := Some(Scalar(anchor, tag, "", tag == None || tag == Some(""), false, Plain));
      } else {
        event := SetError(Some(start), rest[0].start);
      }
    }

    method ParseScalar(anchor: Option<Text>, tag: Option<Text>, value: Text, style: ScalarStyle)
        returns (event: Option<Event>)
      requires rest != [] && states != []
      modifies this
      ensures var plain := (style == Plain && tag == None) || tag == Some("!");
        Did(M.Emitted(Scalar(anchor, tag, value, plain, !plain && tag == None, style), M.Skip(M.Pop(old(Now())))), event)
    {
      var plainImplicit, quotedImplicit := false, false;
      if (style == Plain && tag == None) || tag == Some("!") {
        plainImplicit := true;
      } else if tag == None {
        quotedImplicit := true;
      }
      PopState();
      event := Some(Scalar(anchor, tag, value, plainImplicit, quotedImplicit, style));
      Skip();
    }

    // ----- collections -----

    method ParseBlockSequenceEntry(first: bool) returns (event: Option<Event>)
      requires error == M.NoError && (available ==> rest != []) && states != [] && (if first then available else marks != [])
      modifies this
      ensures Did(M.BlockSequenceStep(old(Now()), first), event)
    {
      if first { EnterCollection(); }
      var ok := Peek();
      if !ok { return None; }
      if rest[0].data.BlockEntryToken? {
        Skip();
        ok := Peek();
        if !ok { return None; }
        if !rest[0].data.BlockEntryToken? && !rest[0].data.BlockEndToken? {
          PushState(M.BlockSequenceEntry);
          event := ParseNode(true, false);
        } else {
          state := M.BlockSequenceEntry;
          event := Some(M.EMPTY_SCALAR);
        }
      } else if rest[0].data.BlockEndToken? {
        event := CloseCollection(SequenceEnd);
      } else {
        event := FailCollection();
      }
    }

    method ParseIndentlessSequenceEntry() returns (event: Option<Event>)
      requires error == M.NoError && (available ==> rest != []) && states != []
      modifies this
      ensures Did(M.IndentlessSequenceStep(old(Now())), event)
    {
      var ok := Peek();
      if !ok { return None; }
      if rest[0].data.BlockEntryToken? {
        Skip();
        ok := Peek();
        if !ok { return None; }
        var d := rest[0].data;
        if !d.BlockEntryToken? && !d.KeyToken? && !d.ValueToken? && !d.BlockEndToken? {
          PushState(M.IndentlessSequenceEntry);
          event := ParseNode(true, false);
        } else {
          state := M.IndentlessSequenceEntry;
          event := Some(M.EMPTY_SCALAR);
        }
      } else {
        PopState();
        event := Some(SequenceEnd);
      }
    }

    method ParseBlockMappingKey(first: bool) returns (event: Option<Event>)
      requires error == M.NoError && (available ==> rest != []) && states != [] && (if first then available else marks != [])
      modifies this
      ensures Did(M.BlockMappingKeyStep(old(Now()), first), event)
    {
      if first { EnterCollection(); }
      var ok := Peek();
      if !ok { return None; }
      if rest[0].data.KeyToken? {
        Skip();
        ok := Peek();
        if !ok { return None; }
        var d := rest[0].data;
        if !d.KeyToken? && !d.ValueToken? && !d.BlockEndToken? {
          PushState(M.BlockMappingValue);
          event := ParseNode(true, true);
        } else {
          state := M.BlockMappingValue;
          event := Some(M.EMPTY_SCALAR);
        }
      } else if rest[0].data.BlockEndToken? {
        event := CloseCollection(MappingEnd);
      } else {
        event := FailCollection();
      }
    }

    method ParseBlockMappingValue() returns (event: Option<Event>)
      requires error == M.NoError && (available ==> rest != [])
      modifies this
      ensures Did(M.BlockMappingValueStep(old(Now())), event)
    {
      var ok := Peek();
      if !ok { return None; }
      if rest[0].data.ValueToken? {
        Skip();
        ok := Peek();
        if !ok { return None; }
        var d := rest[0].data;
        if !d.KeyToken? && !d.ValueToken? && !d.BlockEndToken? {
          PushState(M.BlockMappingKey);
          event := ParseNode(true, true);
        } else {
          state := M.BlockMappingKey;
          event := Some(M.EMPTY_SCALAR);
        }
      } else {
        state := M.BlockMappingKey;
        event := Some(M.EMPTY_SCALAR);
      }
    }

    method ParseFlowSequenceEntry(first: bool) returns (event: Option<Event>)
      requires error == M.NoError && (available ==> rest != []) && states != [] && (if first then available else marks != [])
      modifies this
      ensures Did(M.FlowSequenceStep(old(Now()), first), event)
    {
      if first { EnterCollection(); }
      var ok := Peek();
      if !ok { return None; }
      if !rest[0].data.FlowSequenceEndToken? {
        if !first {
          if rest[0].data.FlowEntryToken? {
            Skip();
            ok := Peek();
            if !ok { return None; }
          } else {
            event := FailCollection();
            return;
          }
        }
        if rest[0].data.KeyToken? {
          state := M.FlowPairKey;
          event := Some(MappingStart(None, None, true, Flow));
          Skip();
          return;
        } else if !rest[0].data.FlowSequenceEndToken? {
          PushState(M.FlowSequenceEntry);
          event := ParseNode(false, false);
          return;
        }
      }
      event := CloseCollection(SequenceEnd);
    }

    method ParseFlowPairKey() returns (event: Option<Event>)
      requires error == M.NoError && (available ==> rest != [])
      modifies this
      ensures Did(M.FlowPairKeyStep(old(Now())), event)
    {
      var ok := Peek();
      if !ok { return None; }
      var d := rest[0].data;
      if !d.ValueToken? && !d.FlowEntryToken? && !d.FlowSequenceEndToken? {
        PushState(M.FlowPairValue);
        event := ParseNode(false, false);
      } else {
        Skip();
        state := M.FlowPairValue;
        event := Some(M.EMPTY_SCALAR);
      }
    }

    method ParseFlowPairValue() returns (event: Option<Event>)
      requires error == M.NoError && (available ==> rest != [])
      modifies this
      ensures Did(M.FlowPairValueStep(old(Now())), event)
    {
      var ok := Peek();
      if !ok { return None; }
      if rest[0].data.ValueToken? {
        Skip();
        ok := Peek();
        if !ok { return None; }
        if !rest[0].data.FlowEntryToken? && !rest[0].data.FlowSequenceEndToken? {
          PushState(M.FlowPairEnd);
          event := ParseNode(false, false);
          return;
        }
      }
      state := M.FlowPairEnd;
      event := Some(M.EMPTY_SCALAR);
    }

    method ParseFlowPairEnd() returns (event: Option<Event>)
      requires error == M.NoError && (available ==> rest != [])
      modifies this
      ensures Did(M.FlowPairEndStep(old(Now())), event)
    {
      var ok := Peek();
      if !ok { return None; }
      state := M.FlowSequenceEntry;
      event := Some(MappingEnd);
    }

    method ParseFlowMappingKey(first: bool) returns (event: Option<Event>)
      requires error == M.NoError && (available ==> rest != []) && states != [] && (if first then available else marks != [])
      modifies this
      ensures Did(M.FlowMappingKeyStep(old(Now()), first), event)
    {
      if first { EnterCollection(); }
      var ok := Peek();
      if !ok { return None; }
      if !rest[0].data.FlowMappingEndToken? {
        if !first {
          if rest[0].data.FlowEntryToken? {
            Skip();
            ok := Peek();
            if !ok { return None; }
          } else {
            event := FailCollection();
            return;
          }
        }
        if !rest[0].data.FlowMappingEndToken? {
          event := ParseFlowKey();
          return;
        }
      }
      event := CloseCollection(MappingEnd);
    }

    /** A key behind KEY, which may be empty, or one that has no value. */
    method ParseFlowKey() returns (event: Option<Event>)
      requires error == M.NoError && available && rest != [] && !rest[0].data.FlowMappingEndToken? && states != [] && marks != []
      modifies this
      ensures Did(M.FlowMappingNext(old(Now())), event)
    {
      if rest[0].data.KeyToken? {
        Skip();
        var ok := Peek();
        if !ok { return None; }
        var d := rest[0].data;
        if !d.ValueToken? && !d.FlowEntryToken? && !d.FlowMappingEndToken? {
          PushState(M.FlowMappingValue);
          event := ParseNode(false, false);
        } else {
          state := M.FlowMappingValue;
          event := Some(M.EMPTY_SCALAR);
        }
      } else {
        PushState(M.FlowMappingEmptyValue);
        event := ParseNode(false, false);
      }
    }

    method ParseFlowMappingValue(empty: bool) returns (event: Option<Event>)
      requires error == M.NoError && (available ==> rest != [])
      modifies this
      ensures Did(M.FlowMappingValueStep(old(Now()), empty), event)
    {
      var ok := Peek();
      if !ok { return None; }
      if empty {
        state := M.FlowMappingKey;
        return Some(M.EMPTY_SCALAR);
      }
      if rest[0].data.ValueToken? {
        Skip();
        ok := Peek();
        if !ok { return None; }
        if !rest[0].data.FlowEntryToken? && !rest[0].data.FlowMappingEndToken? {
          PushState(M.FlowMappingKey);
          event := ParseNode(false, false);
          return;
        }
      }
      state := M.FlowMappingKey;
      event := Some(M.EMPTY_SCALAR);
    }

    // ----- one event -----

    method StateMachine() returns (event: Option<Event>)
      requires error == M.NoError && M.Ready(Now()) && state != M.EndState
      modifies this
      ensures Did(M.Step(old(Now())), event)
    {
      match state
      case StreamStartState => event := ParseStreamStart();
      case ImplicitDocumentStart => event := ParseDocumentStart(true);
      case DocumentStartState => event := ParseDocumentStart(false);
      case DocumentContent => event := ParseDocumentContent();
      case DocumentEndState => event := ParseDocumentEnd();
      case BlockNode => event := ParseNode(true, false);
      case BlockNodeOrIndentlessSequence => event := ParseNode(true, true);
      case FlowNode => event := ParseNode(false, false);
      case BlockSequenceFirstEntry => event := ParseBlockSequenceEntry(true);
      case BlockSequenceEntry => event := ParseBlockSequenceEntry(false);
      case IndentlessSequenceEntry => event := ParseIndentlessSequenceEntry();
      case BlockMappingFirstKey => event := ParseBlockMappingKey(true);
      case BlockMappingKey => event := ParseBlockMappingKey(false);
      case BlockMappingValue => event := ParseBlockMappingValue();
      case FlowSequenceFirstEntry => event := ParseFlowSequenceEntry(true);
      case FlowSequenceEntry => event := ParseFlowSequenceEntry(false);
      case FlowPairKey => event := ParseFlowPairKey();
      case FlowPairValue => event := ParseFlowPairValue();
      case FlowPairEnd => event := ParseFlowPairEnd();
      case FlowMappingFirstKey => event := ParseFlowMappingKey(true);
      case FlowMappingKey => event := ParseFlowMappingKey(false);
      case FlowMappingValue => event := ParseFlowMappingValue(false);
      case FlowMappingEmptyValue => event := ParseFlowMappingValue(true);
    }

    /** Without an error the parser's state fits the events so far, which p has read. */
    ghost predicate Valid(p: Partial)
      reads this
    {
      && (streamEndProduced ==> state == M.EndState)
      && (error == M.NoError ==> Sound(Now(), p) && GoodPartial(p) && (state == M.EndState ==> streamEndProduced))
    }

    /** yaml_parser_parse: the next event; ok without an event after the end or after an error. */
    method Parse(ghost p: Partial) returns (ok: bool, event: Option<Event>)
      requires Valid(p)
      modifies this
      ensures old(error != M.NoError || state == M.EndState) ==> ok && event == None && Now() == old(Now())
      ensures old(error == M.NoError && state != M.EndState) ==> Did(M.Step(old(Now())), event) && ok == event.Some?
      ensures event.Some? ==>
        && Extend(p, event.value).Some? && error == M.NoError && Valid(Extend(p, event.value).value)
        && Lighter(Now(), old(|rest|), old(Weight(Now())))
      ensures !ok ==> error != M.NoError && !streamEndProduced && Valid(p)
    {
      if streamEndProduced || error != M.NoError || state == M.EndState {
        return true, None;
      }
      StepSound(Now(), p);
      StepProgress(Now(), p);
      StreamEndOnce(Now(), p);
      StreamEndMarked(Now(), p);
      event := StateMachine();
      ok := event.Some?;
      if ok { ExtendFlattens(p, event.value); }
    }
  }
}
