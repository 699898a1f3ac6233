// The YAML scanner's bookkeeping: the token queue with its late insertions, simple keys and indentation.
module YamlScanner {
  import opened YamlEvents

  datatype Place = Place(index: nat, line: nat, column: nat)

  datatype SimpleKey = SimpleKey(possible: bool, required: bool, number: nat, mark: Place)

  const NO_KEY := SimpleKey(false, false, 0, Place(0, 0, 0))

  /** What the characters at the current position are. at is the position behind blanks, comments and
      line breaks, newline tells of a line break among them; after is the position behind the token. */
  datatype Lexeme = Lexeme(kind: Kind, at: Place, newline: bool, after: Place)
  datatype Kind =
    | EndOfInput | Unknown
    | Directive(data: TokenData) | DocumentIndicator(begins: bool)
    | FlowStart(sequence: bool) | FlowEnd(sequence: bool) | FlowComma
    | Dash | Question | Colon
    | Name(alias: bool, text: Text) | TagText(handle: Text, suffix: Text)
    | BlockScalar(value: Text, style: ScalarStyle) | QuotedScalar(value: Text, style: ScalarStyle)
    | PlainScalar(value: Text, leadingBlanks: bool)
    | Malformed(kind: Kind)   // the start of such a token, but its scanning fails

  // ----- the token stream -----

  predicate IsBlockStart(d: TokenData) { d.BlockSequenceStartToken? || d.BlockMappingStartToken? }

  /** Block starts minus block ends. */
  function OpenBlocks(ts: seq<Token>): int {
    if ts == [] then 0 else
    var d := ts[|ts| - 1].data;
    OpenBlocks(ts[..|ts| - 1]) + (if IsBlockStart(d) then 1 else if d.BlockEndToken? then -1 else 0)
  }

  /** No prefix has more block ends than block starts. */
  predicate Balanced(ts: seq<Token>) {
    OpenBlocks(ts) >= 0 && (ts == [] || Balanced(ts[..|ts| - 1]))
  }

  lemma BlocksSnoc(ts: seq<Token>, t: Token)
    ensures OpenBlocks(ts + [t]) == OpenBlocks(ts) + (if IsBlockStart(t.data) then 1 else if t.data.BlockEndToken? then -1 else 0)
    ensures Balanced(ts + [t]) <==> Balanced(ts) && OpenBlocks(ts + [t]) >= 0
  {
    assert (ts + [t])[..|ts|] == ts && (ts + [t])[|ts|] == t;
  }

  /** Putting a block start, or a token that is neither start nor end, anywhere into the stream. */
  lemma {:induction false} BlocksInsert(a: seq<Token>, t: Token, b: seq<Token>)
    requires Balanced(a + b) && !t.data.BlockEndToken?
    ensures OpenBlocks(a + [t] + b) == OpenBlocks(a + b) + (if IsBlockStart(t.data) then 1 else 0)
    ensures Balanced(a + [t] + b)
    decreases |b|
  {
    if b == [] {
      assert a + b == a && a + [t] + b == a + [t];
      BlocksSnoc(a, t);
    } else {
      var init, last := b[..|b| - 1], b[|b| - 1];
      assert a + b == (a + init) + [last] && a + [t] + b == (a + [t] + init) + [last];
      BlocksSnoc(a + init, last);
      BlocksInsert(a, t, init);
      BlocksSnoc(a + [t] + init, last);
    }
  }

  function Insert(ts: seq<Token>, n: nat, t: Token): seq<Token>
    requires n <= |ts|
  {
    ts[..n] + [t] + ts[n..]
  }

  // ----- simple keys -----

  /** Tokens that may turn out to begin a simple key. */
  predicate StartsKey(d: TokenData) {
    d.FlowSequenceStartToken? || d.FlowMappingStartToken? || d.AliasToken? || d.AnchorToken? || d.TagToken? || d.ScalarToken?
  }

  /** A possible key names a token, not yet handed to the parser, that it was saved for. */
  predicate Names(k: SimpleKey, stream: seq<Token>, parsed: nat) {
    k.possible ==>
      parsed <= k.number < |stream| && StartsKey(stream[k.number].data) && stream[k.number].start == k.mark.index
  }

  /** All possible keys name tokens, in strictly increasing order along the flow levels. */
  predicate KeysOk(keys: seq<SimpleKey>, stream: seq<Token>, parsed: nat) {
    && (forall i | 0 <= i < |keys| :: Names(keys[i], stream, parsed))
    && (forall i, j | 0 <= i < j < |keys| :: keys[i].possible && keys[j].possible ==> keys[i].number < keys[j].number)
  }

  /** Every possible key is before n. */
  predicate KeysBefore(keys: seq<SimpleKey>, n: nat) {
    forall i | 0 <= i < |keys| :: keys[i].possible ==> keys[i].number < n
  }

  lemma KeysEnqueue(keys: seq<SimpleKey>, stream: seq<Token>, parsed: nat, t: Token)
    requires KeysOk(keys, stream, parsed)
    ensures KeysOk(keys, stream + [t], parsed) && KeysBefore(keys, |stream|)
  {
    forall i | 0 <= i < |keys| ensures Names(keys[i], stream + [t], parsed) { assert Names(keys[i], stream, parsed); }
    forall i | 0 <= i < |keys| ensures keys[i].possible ==> keys[i].number < |stream| { assert Names(keys[i], stream, parsed); }
  }

  lemma KeysAppend(keys: seq<SimpleKey>, stream: seq<Token>, parsed: nat, more: seq<Token>)
    requires KeysOk(keys, stream, parsed)
    ensures KeysOk(keys, stream + more, parsed)
  {
    forall i | 0 <= i < |keys| ensures Names(keys[i], stream + more, parsed) { assert Names(keys[i], stream, parsed); }
  }

  /** An insertion behind all possible keys changes none of the tokens that they name. */
  lemma KeysInsert(keys: seq<SimpleKey>, stream: seq<Token>, parsed: nat, n: nat, t: Token)
    requires KeysOk(keys, stream, parsed) && n <= |stream| && KeysBefore(keys, n)
    ensures KeysOk(keys, Insert(stream, n, t), parsed)
    ensures forall i | 0 <= i < |keys| && keys[i].possible ::
      keys[i].number < |stream| && Insert(stream, n, t)[keys[i].number] == stream[keys[i].number]
  {
    forall i | 0 <= i < |keys|
      ensures Names(keys[i], Insert(stream, n, t), parsed)
      ensures keys[i].possible ==> keys[i].number < |stream| && Insert(stream, n, t)[keys[i].number] == stream[keys[i].number]
    {
      assert Names(keys[i], stream, parsed);
    }
  }

  lemma KeysTop(keys: seq<SimpleKey>, stream: seq<Token>, parsed: nat, top: SimpleKey)
    requires keys != [] && KeysOk(keys[..|keys| - 1], stream, parsed) && Names(top, stream, parsed)
    requires top.possible ==> KeysBefore(keys[..|keys| - 1], top.number)
    ensures KeysOk(keys[..|keys| - 1] + [top], stream, parsed)
  {
    var below, all := keys[..|keys| - 1], keys[..|keys| - 1] + [top];
    forall i | 0 <= i < |all| ensures Names(all[i], stream, parsed) {
      if i < |below| { assert Names(below[i], stream, parsed) && all[i] == below[i]; }
    }
  }

  lemma KeysBelow(keys: seq<SimpleKey>, stream: seq<Token>, parsed: nat, k: nat)
    requires KeysOk(keys, stream, parsed) && k <= |keys|
    ensures KeysOk(keys[..k], stream, parsed)
    ensures k < |keys| && keys[k].possible ==> KeysBefore(keys[..k], keys[k].number) && Names(keys[k], stream, parsed)
  {
    forall i | 0 <= i < k ensures Names(keys[..k][i], stream, parsed) { assert Names(keys[i], stream, parsed); }
  }

  /** A possible key for one of the first n tokens was there before, at the same flow level. */
  predicate NoneNew(keys: seq<SimpleKey>, keys': seq<SimpleKey>, n: nat) {
    forall i | 0 <= i < |keys'| && keys'[i].possible && keys'[i].number < n :: i < |keys| && keys[i] == keys'[i]
  }

  /** Tokens only come in: a possible key for an old token was there before, and names that same token. */
  ghost predicate Kept(keys: seq<SimpleKey>, stream: seq<Token>, keys': seq<SimpleKey>, stream': seq<Token>) {
    && |stream| <= |stream'| && NoneNew(keys, keys', |stream|)
    && forall i | 0 <= i < |keys'| && keys'[i].possible && keys'[i].number < |stream| :: stream'[keys'[i].number] == stream[keys'[i].number]
  }

  lemma KeptByAppend(keys: seq<SimpleKey>, stream: seq<Token>, keys': seq<SimpleKey>, more: seq<Token>)
    requires NoneNew(keys, keys', |stream|)
    ensures Kept(keys, stream, keys', stream + more)
  {}

  lemma DroppedNoneNew(keys: seq<SimpleKey>, n: nat)
    requires keys != []
    ensures var below := keys[..|keys| - 1]; var dropped := below + [keys[|keys| - 1].(possible := false)];
      NoneNew(keys, dropped, n) && NoneNew(keys, dropped[..|dropped| - 1], n)
  {}

  lemma KeptTwice(keys: seq<SimpleKey>, stream: seq<Token>, keys1: seq<SimpleKey>, stream1: seq<Token>,
                  keys2: seq<SimpleKey>, stream2: seq<Token>)
    requires Kept(keys, stream, keys1, stream1) && Kept(keys1, stream1, keys2, stream2)
    ensures Kept(keys, stream, keys2, stream2)
  {}

  /** The top key is given up. */
  lemma KeysRemoved(keys: seq<SimpleKey>, stream: seq<Token>, parsed: nat)
    requires keys != [] && KeysOk(keys, stream, parsed)
    ensures KeysOk(keys[..|keys| - 1] + [keys[|keys| - 1].(possible := false)], stream, parsed)
  {
    KeysBelow(keys, stream, parsed, |keys| - 1);
    KeysTop(keys, stream, parsed, keys[|keys| - 1].(possible := false));
  }

  /** The token t, just queued, is named by a new key on top. */
  lemma KeysSaved(keys: seq<SimpleKey>, stream: seq<Token>, parsed: nat, t: Token, required: bool, at: Place)
    requires keys != [] && KeysOk(keys, stream, parsed) && parsed <= |stream| && StartsKey(t.data)
    requires t.start == at.index
    ensures KeysOk(keys[..|keys| - 1] + [SimpleKey(true, required, |stream|, at)], stream + [t], parsed)
  {
    KeysBelow(keys, stream, parsed, |keys| - 1);
    KeysEnqueue(keys[..|keys| - 1], stream, parsed, t);
    KeysTop(keys, stream + [t], parsed, SimpleKey(true, required, |stream|, at));
  }

  lemma KeysPushed(keys: seq<SimpleKey>, stream: seq<Token>, parsed: nat, k: SimpleKey)
    requires KeysOk(keys, stream, parsed) && !k.possible
    ensures KeysOk(keys + [k], stream, parsed)
  {
    assert (keys + [k])[..|keys + [k]| - 1] == keys;
    KeysTop(keys + [k], stream, parsed, k);
  }

  // ----- indentation -----

  /** The indents on the stack and the current one rise strictly from -1. */
  predicate Rising(indents: seq<int>, indent: int)
    decreases |indents|
  {
    if indents == [] then indent == -1
    else indents[|indents| - 1] < indent && Rising(indents[..|indents| - 1], indents[|indents| - 1])
  }

  lemma {:induction false} RisingAboveMinusOne(indents: seq<int>, indent: int)
    requires Rising(indents, indent)
    ensures indent >= -1 && (indent == -1 <==> indents == [])
    decreases |indents|
  {
    if indents != [] { RisingAboveMinusOne(indents[..|indents| - 1], indents[|indents| - 1]); }
  }

  /** How many levels are deeper than the column. */
  function Deeper(indents: seq<int>, indent: int, column: int): (n: nat)
    ensures n <= |indents|
    decreases |indents|
  {
    if indents == [] || indent <= column then 0 else 1 + Deeper(indents[..|indents| - 1], indents[|indents| - 1], column)
  }

  lemma {:induction false} AllDeeper(indents: seq<int>, indent: int)
    requires Rising(indents, indent)
    ensures Deeper(indents, indent, -1) == |indents|
    decreases |indents|
  {
    RisingAboveMinusOne(indents, indent);
    if indents != [] { AllDeeper(indents[..|indents| - 1], indents[|indents| - 1]); }
  }

  function Refreshed(k: SimpleKey, mark: Place): SimpleKey {
    if Stale(k, mark) then k.(possible := false) else k
  }

  /** The stream and the indents fit together. */
  predicate Fits(stream: seq<Token>, indents: seq<int>, indent: int) {
    Rising(indents, indent) && Balanced(stream) && OpenBlocks(stream) == |indents|
  }

  lemma StartFits(t: Token)
    requires !IsBlockStart(t.data) && !t.data.BlockEndToken?
    ensures Fits([t], [], -1) && KeysOk([NO_KEY], [t], 0)
  {
    BlocksSnoc([], t);
    assert [] + [t] == [t];
  }

  lemma RollFits(stream: seq<Token>, indents: seq<int>, indent: int, column: nat, n: nat, t: Token)
    requires Fits(stream, indents, indent) && indent < column && n <= |stream| && IsBlockStart(t.data)
    ensures Fits(Insert(stream, n, t), indents + [indent], column) && Fits(stream + [t], indents + [indent], column)
  {
    assert (indents + [indent])[..|indents|] == indents;
    assert stream == stream[..n] + stream[n..];
    BlocksInsert(stream[..n], t, stream[n..]);
    BlocksSnoc(stream, t);
  }

  lemma UnrollFits(stream: seq<Token>, indents: seq<int>, indent: int, t: Token)
    requires Fits(stream, indents, indent) && indents != [] && t.data.BlockEndToken?
    ensures Fits(stream + [t], indents[..|indents| - 1], indents[|indents| - 1])
  {
    BlocksSnoc(stream, t);
  }

  function Ends(n: nat, at: Place): seq<Token> {
    if n == 0 then [] else Ends(n - 1, at) + [Token(BlockEndToken, at.index, at.index)]
  }

  /** A key is out of reach: it was on an earlier line or is too far back. */
  predicate Stale(k: SimpleKey, mark: Place) {
    k.possible && (k.mark.line < mark.line || k.mark.index + 1024 < mark.index)
  }

  lemma AppendMore(a: seq<Token>, b: seq<Token>, t: Token)
    ensures a + b + [t] == a + (b + [t])
  {}

  class Scanner {
    var tokens: seq<Token>        // the queue
    var tokensParsed: nat
    var tokenAvailable: bool
    var streamStartProduced: bool
    var simpleKeys: seq<SimpleKey>
    var simpleKeyAllowed: bool
    var flowLevel: nat
    var indents: seq<int>
    var indent: int
    var mark: Place
    var error: bool
    ghost var handed: seq<Token>  // the tokens that the parser has taken

    /** All tokens in order, those taken and those queued. */
    ghost function Stream(): seq<Token>
      reads this
    {
      handed + tokens
    }

    ghost predicate Indented()
      reads this
    {
      Fits(Stream(), indents, indent)
    }

    ghost predicate Valid()
      reads this
    {
      && !error && tokensParsed == |handed|
      && (streamStartProduced ==> |simpleKeys| == flowLevel + 1)
      && (!streamStartProduced ==> simpleKeys == [] && Stream() == [] && flowLevel == 0 && indents == [])
      && (streamStartProduced ==> KeysOk(simpleKeys, Stream(), tokensParsed) && Indented())
      && (tokenAvailable ==> tokens != [])
      && (tokenAvailable ==> forall i | 0 <= i < |simpleKeys| && simpleKeys[i].possible :: simpleKeys[i].number != tokensParsed)
    }

    constructor ()
      ensures Valid() && Stream() == [] && !streamStartProduced
    {
      tokens, tokensParsed, tokenAvailable, streamStartProduced, simpleKeys, simpleKeyAllowed := [], 0, false, false, [], false;
      flowLevel, indents, indent, mark, error, handed := 0, [], 0, Place(0, 0, 0), false, [];
    }

    /** The parser takes the head of the queue; no possible key can name it any more. */
    method Skip()
      requires Valid() && tokenAvailable && streamStartProduced
      modifies this
      ensures Valid() && !tokenAvailable && Stream() == old(Stream()) && handed == old(handed) + [old(tokens[0])]
    {
      assert handed + tokens == (handed + [tokens[0]]) + tokens[1..];
      forall i | 0 <= i < |simpleKeys| ensures Names(simpleKeys[i], Stream(), tokensParsed + 1) {
        assert Names(simpleKeys[i], Stream(), tokensParsed);
      }
      tokenAvailable := false;
      tokensParsed := tokensParsed + 1;
      handed := handed + [tokens[0]];
      tokens := tokens[1..];
    }

    // ----- queue, keys, levels -----

    method SetError() returns (ok: bool)
      modifies this`error
      ensures !ok && error
    {
      error := true;
      ok := false;
    }

    method Enqueue(t: Token)
      modifies this`tokens
      ensures Stream() == old(Stream()) + [t]
    {
      assert handed + (tokens + [t]) == handed + tokens + [t];
      tokens := tokens + [t];
    }

    method QueueInsert(index: nat, t: Token)
      requires index <= |tokens|
      modifies this`tokens
      ensures Stream() == Insert(old(Stream()), |handed| + index, t)
    {
      assert (handed + tokens)[..|handed| + index] == handed + tokens[..index];
      assert (handed + tokens)[|handed| + index..] == tokens[index..];
      tokens := tokens[..index] + [t] + tokens[index..];
    }

    /** Fails if the key of the current flow level was required to become one. */
    method RemoveSimpleKey() returns (ok: bool)
      requires simpleKeys != [] && !error
      modifies this`simpleKeys, this`error
      ensures var top := old(simpleKeys[|simpleKeys| - 1]);
        && ok == !(top.possible && top.required) && error == !ok
        && (ok ==> simpleKeys == old(simpleKeys[..|simpleKeys| - 1]) + [top.(possible := false)])
    {
      var top := simpleKeys[|simpleKeys| - 1];
      if top.possible && top.required {
        ok := SetError();
        return;
      }
      simpleKeys := simpleKeys[..|simpleKeys| - 1] + [top.(possible := false)];
      ok := true;
    }

    /** If a key may start here, the next token to be queued is a possible one. */
    method SaveSimpleKey() returns (ok: bool)
      requires simpleKeys != [] && !error && tokensParsed == |handed|
      modifies this`simpleKeys, this`error
      ensures ok == !error
      ensures ok && !simpleKeyAllowed ==> simpleKeys == old(simpleKeys)
      ensures ok && simpleKeyAllowed ==>
        simpleKeys == old(simpleKeys[..|simpleKeys| - 1]) + [SimpleKey(true, flowLevel == 0 && indent == mark.column, |Stream()|, mark)]
    {
      var required := flowLevel == 0 && indent == mark.column;
      ok := true;
      if simpleKeyAllowed {
        var key := SimpleKey(true, required, tokensParsed + |tokens|, mark);
        ok := RemoveSimpleKey();
        if !ok { return; }
        simpleKeys := simpleKeys[..|simpleKeys| - 1] + [key];
      }
    }

    /** Keys out of reach are given up; fails if one of them was required. */
    method StaleSimpleKeys() returns (ok: bool)
      requires !error
      modifies this`simpleKeys, this`error
      ensures ok == !error && (ok <==> forall k | k in old(simpleKeys) :: !(Stale(k, mark) && k.required))
      ensures ok ==> |simpleKeys| == |old(simpleKeys)|
      ensures ok ==> forall i | 0 <= i < |simpleKeys| :: simpleKeys[i] == Refreshed(old(simpleKeys)[i], mark) && !Stale(simpleKeys[i], mark)
    {
      var i := 0;
      while i < |simpleKeys|
        invariant 0 <= i <= |simpleKeys| == |old(simpleKeys)| && !error
        invariant forall j | 0 <= j < i :: !(Stale(old(simpleKeys)[j], mark) && old(simpleKeys)[j].required)
        invariant forall j | 0 <= j < i :: simpleKeys[j] == Refreshed(old(simpleKeys)[j], mark)
        invariant forall j | i <= j < |simpleKeys| :: simpleKeys[j] == old(simpleKeys)[j]
      {
        var k := simpleKeys[i];
        if k.possible && (k.mark.line < mark.line || k.mark.index + 1024 < mark.index) {
          if k.required {
            assert old(simpleKeys)[i] in old(simpleKeys);
            ok := SetError();
            return;
          }
          simpleKeys := simpleKeys[i := k.(possible := false)];
        }
        i := i + 1;
      }
      ok := true;
    }

    /** One level deeper if the column is: its start goes to the end of the queue (number == -1) or in front
        of the token with that number. */
    method RollIndent(column: nat, number: int, data: TokenData, at: Place)
      requires Indented() && tokensParsed == |handed| && IsBlockStart(data)
      requires number == -1 || tokensParsed <= number <= |Stream()|
      modifies this`indents, this`indent, this`tokens
      ensures Indented()
      ensures var rolls := flowLevel == 0 && old(indent) < column; var t := Token(data, at.index, at.index);
        && indent == (if rolls then column else old(indent))
        && indents == (if rolls then old(indents + [indent]) else old(indents))
        && Stream() == if !rolls then old(Stream()) else if number == -1 then old(Stream()) + [t] else Insert(old(Stream()), number, t)
    {
      if flowLevel != 0 { return; }
      if indent < column {
        var t := Token(data, at.index, at.index);
        RollFits(Stream(), indents, indent, column, if number == -1 then 0 else number, t);
        indents := indents + [indent];
        indent := column;
        if number == -1 {
          Enqueue(t);
        } else {
          QueueInsert(number - tokensParsed, t);
        }
      }
    }

    method UnrollOne()
      requires Indented() && indents != []
      modifies this`indents, this`indent, this`tokens
      ensures Indented() && Stream() == old(Stream()) + [Token(BlockEndToken, mark.index, mark.index)]
      ensures indents == old(indents)[..|old(indents)| - 1] && indent == old(indents)[|old(indents)| - 1]
    {
      var t := Token(BlockEndToken, mark.index, mark.index);
      UnrollFits(Stream(), indents, indent, t);
      Enqueue(t);
      indent := indents[|indents| - 1];
      indents := indents[..|indents| - 1];
    }

    /** One BLOCK-END for each level deeper than the column. */
    method UnrollIndent(column: int)
      requires column >= -1 && Indented() && tokensParsed == |handed| && KeysOk(simpleKeys, Stream(), tokensParsed)
      modifies this`indents, this`indent, this`tokens
      ensures Indented() && KeysOk(simpleKeys, Stream(), tokensParsed)
      ensures var n := if flowLevel == 0 then Deeper(old(indents), old(indent), column) else 0;
        && Stream() == old(Stream()) + Ends(n, mark) && indents == old(indents)[..|old(indents)| - n]
      ensures flowLevel == 0 ==> indent <= column || indents == []
    {
      if flowLevel != 0 {
        assert Stream() == old(Stream()) + Ends(0, mark);
        return;
      }
      ghost var n := 0;
      ghost var total := Deeper(indents, indent, column);
      while indent > column
        invariant Indented() && n + Deeper(indents, indent, column) == total <= |old(indents)|
        invariant Stream() == old(Stream()) + Ends(n, mark) && indents == old(indents)[..|old(indents)| - n]
        decreases |indents|
      {
        RisingAboveMinusOne(indents, indent);
        AppendMore(old(Stream()), Ends(n, mark), Token(BlockEndToken, mark.index, mark.index));
        UnrollOne();
        n := n + 1;
      }
      RisingAboveMinusOne(indents, indent);
      KeysAppend(simpleKeys, old(Stream()), tokensParsed, Ends(n, mark));
    }

    // ----- fetchers -----

    /** What holds whenever a token may be fetched. */
    ghost predicate Ready()
      reads this
    {
      Valid() && streamStartProduced && !tokenAvailable
    }

    /** "Consume the token" and append it to the queue. */
    method Append(data: TokenData, after: Place)
      requires Ready() && !IsBlockStart(data) && !data.BlockEndToken?
      modifies this`tokens, this`mark
      ensures Ready() && mark == after && Stream() == old(Stream()) + [Token(data, old(mark).index, after.index)]
    {
      var t := Token(data, mark.index, after.index);
      KeysEnqueue(simpleKeys, Stream(), tokensParsed, t);
      BlocksSnoc(Stream(), t);
      mark := after;
      Enqueue(t);
    }

    /** RemoveSimpleKey between tokens. */
    method DropKey() returns (ok: bool)
      requires Ready()
      modifies this`simpleKeys, this`error
      ensures var top := old(simpleKeys[|simpleKeys| - 1]); ok == !(top.possible && top.required)
      ensures ok ==> Ready() && simpleKeys == old(simpleKeys[..|simpleKeys| - 1]) + [old(simpleKeys[|simpleKeys| - 1]).(possible := false)]
      ensures !ok ==> error
    {
      KeysRemoved(simpleKeys, Stream(), tokensParsed);
      ok := RemoveSimpleKey();
    }

    /** yaml_parser_fetch_stream_start */
    method FetchStreamStart()
      requires Valid() && !streamStartProduced && !tokenAvailable
      modifies this`indent, this`simpleKeys, this`simpleKeyAllowed, this`streamStartProduced, this`tokens
      ensures Ready() && Stream() == [Token(StreamStartToken, mark.index, mark.index)]
    {
      var t := Token(StreamStartToken, mark.index, mark.index);
      StartFits(t);
      assert Stream() == [];
      indent := -1;
      simpleKeys := [NO_KEY];
      simpleKeyAllowed := true;
      streamStartProduced := true;
      Enqueue(t);
      assert Stream() == [t];
    }

    /** Levels are closed, the key is given up, and a token that ends the context is queued: STREAM-END,
        a directive or a document indicator. */
    method FetchReset(data: TokenData, after: Place, scans: bool) returns (ok: bool)
      requires Ready() && !IsBlockStart(data) && !data.BlockEndToken?
      modifies this`tokens, this`simpleKeys, this`simpleKeyAllowed, this`indents, this`indent, this`mark, this`error
      ensures ok ==> Ready() && !simpleKeyAllowed && flowLevel == old(flowLevel)
      ensures ok ==> var n := if flowLevel == 0 then |old(indents)| else 0;
        Stream() == old(Stream()) + Ends(n, old(mark)) + [Token(data, old(mark).index, after.index)]
      ensures ok && flowLevel == 0 ==> OpenBlocks(Stream()) == 0 && indents == []
      ensures ok ==> Kept(old(simpleKeys), old(Stream()), simpleKeys, Stream())
      ensures !ok ==> error
    {
      if flowLevel == 0 { AllDeeper(indents, indent); }
      ghost var n := if flowLevel == 0 then |indents| else 0;
      UnrollIndent(-1);
      assert flowLevel == 0 ==> indents == [];
      ok := DropKey();
      if !ok { return; }
      simpleKeyAllowed := false;
      if !scans {
        ok := SetError();
        return;
      }
      Append(data, after);
      AppendMore(old(Stream()), Ends(n, old(mark)), Token(data, old(mark).index, after.index));
      KeptByAppend(old(simpleKeys), old(Stream()), simpleKeys, Ends(n, old(mark)) + [Token(data, old(mark).index, after.index)]);
    }

    /** yaml_parser_fetch_stream_end: outside of flow collections every block is closed. */
    method FetchStreamEnd() returns (ok: bool)
      requires Ready()
      modifies this`tokens, this`simpleKeys, this`simpleKeyAllowed, this`indents, this`indent, this`mark, this`error
      ensures ok ==> Ready() && flowLevel == old(flowLevel) && Stream() != [] && Stream()[|Stream()| - 1].data == StreamEndToken
      ensures ok && flowLevel == 0 ==> OpenBlocks(Stream()) == 0 && indents == []
      ensures ok ==> old(Stream()) <= Stream() && Kept(old(simpleKeys), old(Stream()), simpleKeys, Stream())
      ensures !ok ==> error
    {
      if mark.column != 0 { mark := Place(mark.index, mark.line + 1, 0); }
      ok := FetchReset(StreamEndToken, mark, true);
    }

    /** yaml_parser_fetch_flow_collection_start */
    method FetchFlowCollectionStart(sequence: bool, after: Place) returns (ok: bool)
      requires Ready()
      modifies this`tokens, this`simpleKeys, this`simpleKeyAllowed, this`flowLevel, this`mark, this`error
      ensures ok ==> Ready() && flowLevel == old(flowLevel) + 1 && simpleKeyAllowed
      ensures ok ==> var data := if sequence then FlowSequenceStartToken else FlowMappingStartToken;
        Stream() == old(Stream()) + [Token(data, old(mark).index, after.index)]
      ensures ok ==> Kept(old(simpleKeys), old(Stream()), simpleKeys, Stream())
      ensures !ok ==> error
    {
      var data := if sequence then FlowSequenceStartToken else FlowMappingStartToken;
      ok := SaveAndAppend(data, after, true);
      if !ok { return; }
      KeptByAppend(old(simpleKeys), old(Stream()), simpleKeys + [NO_KEY], [Token(data, old(mark).index, after.index)]);
      IncreaseFlowLevel();
      simpleKeyAllowed := true;
    }

    /** A token that may begin a key is saved as one and queued, if it scans. */
    method SaveAndAppend(data: TokenData, after: Place, scans: bool) returns (ok: bool)
      requires Ready() && StartsKey(data)
      modifies this`tokens, this`simpleKeys, this`mark, this`error
      ensures ok ==> Ready() && Stream() == old(Stream()) + [Token(data, old(mark).index, after.index)]
      ensures ok && simpleKeyAllowed ==> var k := simpleKeys[|simpleKeys| - 1]; k.possible && k.number == |old(Stream())|
      ensures ok ==> NoneNew(old(simpleKeys), simpleKeys, |old(Stream())|)
      ensures !ok ==> error
    {
      var t := Token(data, mark.index, after.index);
      ghost var required := flowLevel == 0 && indent == mark.column;
      KeysSaved(simpleKeys, Stream(), tokensParsed, t, required, mark);
      KeysEnqueue(simpleKeys, Stream(), tokensParsed, t);
      BlocksSnoc(Stream(), t);
      ok := SaveSimpleKey();
      if !ok { return; }
      if !scans {
        ok := SetError();
        return;
      }
      mark := after;
      Enqueue(t);
    }

    method IncreaseFlowLevel()
      requires Ready()
      modifies this`simpleKeys, this`flowLevel
      ensures Ready() && flowLevel == old(flowLevel) + 1 && simpleKeys == old(simpleKeys) + [NO_KEY]
    {
      KeysPushed(simpleKeys, Stream(), tokensParsed, NO_KEY);
      simpleKeys := simpleKeys + [NO_KEY];
      flowLevel := flowLevel + 1;
    }

    method DecreaseFlowLevel()
      requires Ready()
      modifies this`simpleKeys, this`flowLevel
      ensures Ready() && flowLevel == (if old(flowLevel) > 0 then old(flowLevel) - 1 else 0)
      ensures simpleKeys == if old(flowLevel) > 0 then old(simpleKeys)[..|old(simpleKeys)| - 1] else old(simpleKeys)
    {
      if flowLevel > 0 {
        KeysBelow(simpleKeys, Stream(), tokensParsed, |simpleKeys| - 1);
        flowLevel := flowLevel - 1;
        simpleKeys := simpleKeys[..|simpleKeys| - 1];
      }
    }

    /** The level's key is given up, and the level. */
    method DropLevel() returns (ok: bool)
      requires Ready()
      modifies this`simpleKeys, this`flowLevel, this`error
      ensures ok ==> Ready() && flowLevel == (if old(flowLevel) > 0 then old(flowLevel) - 1 else 0)
      ensures ok ==> NoneNew(old(simpleKeys), simpleKeys, |Stream()|)
      ensures !ok ==> error
    {
      ghost var keys, n := simpleKeys, |Stream()|;
      ok := DropKey();
      if !ok { return; }
      DroppedNoneNew(keys, n);
      DecreaseFlowLevel();
    }

    /** yaml_parser_fetch_flow_collection_end */
    method FetchFlowCollectionEnd(sequence: bool, after: Place) returns (ok: bool)
      requires Ready()
      modifies this`tokens, this`simpleKeys, this`simpleKeyAllowed, this`flowLevel, this`mark, this`error
      ensures ok ==> Ready() && flowLevel == (if old(flowLevel) > 0 then old(flowLevel) - 1 else 0) && !simpleKeyAllowed
      ensures ok ==> var data := if sequence then FlowSequenceEndToken else FlowMappingEndToken;
        Stream() == old(Stream()) + [Token(data, old(mark).index, after.index)]
      ensures ok ==> Kept(old(simpleKeys), old(Stream()), simpleKeys, Stream())
      ensures !ok ==> error
    {
      ok := DropLevel();
      if !ok { return; }
      simpleKeyAllowed := false;
      var data := if sequence then FlowSequenceEndToken else FlowMappingEndToken;
      KeptByAppend(old(simpleKeys), old(Stream()), simpleKeys, [Token(data, mark.index, after.index)]);
      Append(data, after);
    }

    /** yaml_parser_fetch_flow_entry */
    method FetchFlowEntry(after: Place) returns (ok: bool)
      requires Ready()
      modifies this`tokens, this`simpleKeys, this`simpleKeyAllowed, this`mark, this`error
      ensures ok ==> Ready() && simpleKeyAllowed && Stream() == old(Stream()) + [Token(FlowEntryToken, old(mark).index, after.index)]
      ensures ok ==> Kept(old(simpleKeys), old(Stream()), simpleKeys, Stream())
      ensures !ok ==> error
    {
      ok := DropKey();
      if !ok { return; }
      simpleKeyAllowed := true;
      KeptByAppend(old(simpleKeys), old(Stream()), simpleKeys, [Token(FlowEntryToken, mark.index, after.index)]);
      Append(FlowEntryToken, after);
    }

    /** "Add the start token if needed", at the end of the queue. */
    method OpenBlock(data: TokenData)
      requires Ready() && IsBlockStart(data)
      modifies this`tokens, this`indents, this`indent
      ensures Ready()
      ensures var opens := flowLevel == 0 && old(indent) < mark.column;
        && Stream() == old(Stream()) + (if opens then [Token(data, mark.index, mark.index)] else [])
        && indents == (if opens then old(indents + [indent]) else old(indents)) && indent == (if opens then mark.column else old(indent))
    {
      KeysEnqueue(simpleKeys, Stream(), tokensParsed, Token(data, mark.index, mark.index));
      RollIndent(mark.column, -1, data, mark);
    }

    /** Block entries and keys: outside flow context they must be allowed here, and a block may begin. The
        key that may have begun here is given up. */
    method BeginEntry(start: TokenData) returns (ok: bool)
      requires Ready() && IsBlockStart(start)
      modifies this`tokens, this`simpleKeys, this`indents, this`indent, this`error
      ensures ok ==> Ready() && (flowLevel == 0 ==> simpleKeyAllowed)
      ensures ok ==> var opens := flowLevel == 0 && old(indent) < mark.column;
        Stream() == old(Stream()) + (if opens then [Token(start, mark.index, mark.index)] else [])
      ensures ok ==> NoneNew(old(simpleKeys), simpleKeys, |old(Stream())|)
      ensures !ok ==> error
    {
      ghost var keys, n := simpleKeys, |Stream()|;
      if flowLevel == 0 {
        if !simpleKeyAllowed {
          ok := SetError();
          return;
        }
        OpenBlock(start);
      }
      ok := DropKey();
      if ok { DroppedNoneNew(keys, n); }
    }

    /** yaml_parser_fetch_block_entry */
    method FetchBlockEntry(after: Place) returns (ok: bool)
      requires Ready()
      modifies this`tokens, this`simpleKeys, this`simpleKeyAllowed, this`indents, this`indent, this`mark, this`error
      ensures ok ==> Ready() && simpleKeyAllowed && (flowLevel == 0 ==> old(simpleKeyAllowed))
      ensures ok ==> var opens := flowLevel == 0 && old(indent) < old(mark).column;
        Stream() == old(Stream()) + (if opens then [Token(BlockSequenceStartToken, old(mark).index, old(mark).index)] else [])
          + [Token(BlockEntryToken, old(mark).index, after.index)]
      ensures ok ==> Kept(old(simpleKeys), old(Stream()), simpleKeys, Stream())
      ensures !ok ==> error
    {
      ghost var keys, stream := simpleKeys, Stream();
      ok := BeginEntry(BlockSequenceStartToken);
      if !ok { return; }
      simpleKeyAllowed := true;
      ghost var added, t := Stream()[|stream|..], Token(BlockEntryToken, mark.index, after.index);
      AppendMore(stream, added, t);
      KeptByAppend(keys, stream, simpleKeys, added + [t]);
      Append(BlockEntryToken, after);
    }

    /** yaml_parser_fetch_key */
    method FetchKey(after: Place) returns (ok: bool)
      requires Ready()
      modifies this`tokens, this`simpleKeys, this`simpleKeyAllowed, this`indents, this`indent, this`mark, this`error
      ensures ok ==> Ready() && simpleKeyAllowed == (flowLevel == 0) && (flowLevel == 0 ==> old(simpleKeyAllowed))
      ensures ok ==> var opens := flowLevel == 0 && old(indent) < old(mark).column;
        Stream() == old(Stream()) + (if opens then [Token(BlockMappingStartToken, old(mark).index, old(mark).index)] else [])
          + [Token(KeyToken, old(mark).index, after.index)]
      ensures ok ==> Kept(old(simpleKeys), old(Stream()), simpleKeys, Stream())
      ensures !ok ==> error
    {
      ghost var keys, stream := simpleKeys, Stream();
      ok := BeginEntry(BlockMappingStartToken);
      if !ok { return; }
      simpleKeyAllowed := flowLevel == 0;
      ghost var added, t := Stream()[|stream|..], Token(KeyToken, mark.index, after.index);
      AppendMore(stream, added, t);
      KeptByAppend(keys, stream, simpleKeys, added + [t]);
      Append(KeyToken, after);
    }

    /** Anchors, aliases, tags, quoted and plain scalars: each may turn out to begin a key. scans tells
        whether the rest of the token is well formed. */
    method FetchContent(data: TokenData, after: Place, scans: bool) returns (ok: bool)
      requires Ready() && StartsKey(data)
      modifies this`tokens, this`simpleKeys, this`simpleKeyAllowed, this`mark, this`error
      ensures ok ==> Ready() && !simpleKeyAllowed && Stream() == old(Stream()) + [Token(data, old(mark).index, after.index)]
      ensures ok && old(simpleKeyAllowed) ==> var k := simpleKeys[|simpleKeys| - 1]; k.possible && k.number == |old(Stream())|
      ensures ok ==> Kept(old(simpleKeys), old(Stream()), simpleKeys, Stream())
      ensures !ok ==> error
    {
      ok := SaveAndAppend(data, after, scans);
      simpleKeyAllowed := false;
      if ok { KeptByAppend(old(simpleKeys), old(Stream()), simpleKeys, [Token(data, old(mark).index, after.index)]); }
    }

    /** yaml_parser_fetch_block_scalar */
    method FetchBlockScalar(data: TokenData, after: Place, scans: bool) returns (ok: bool)
      requires Ready() && data.ScalarToken?
      modifies this`tokens, this`simpleKeys, this`simpleKeyAllowed, this`mark, this`error
      ensures ok ==> Ready() && simpleKeyAllowed && Stream() == old(Stream()) + [Token(data, old(mark).index, after.index)]
      ensures ok ==> Kept(old(simpleKeys), old(Stream()), simpleKeys, Stream())
      ensures !ok ==> error
    {
      ok := DropKey();
      if !ok { return; }
      simpleKeyAllowed := true;
      if !scans {
        ok := SetError();
        return;
      }
      KeptByAppend(old(simpleKeys), old(Stream()), simpleKeys, [Token(data, mark.index, after.index)]);
      Append(data, after);
    }

    /** The key that was possible becomes one: in front of its token go KEY and, if it begins a mapping,
        BLOCK-MAPPING-START. No other possible key is concerned. */
    method InsertKey()
      requires Ready() && simpleKeys[|simpleKeys| - 1].possible
      modifies this`tokens, this`simpleKeys, this`indents, this`indent
      ensures Ready()
      ensures var k := old(simpleKeys[|simpleKeys| - 1]); var begins := flowLevel == 0 && old(indent) < k.mark.column;
        && simpleKeys == old(simpleKeys[..|simpleKeys| - 1]) + [k.(possible := false)]
        && |handed| <= k.number < |old(Stream())|
        && Stream() == WithKey(old(Stream()), k, begins)
        && indents == (if begins then old(indents + [indent]) else old(indents))
        && indent == (if begins then k.mark.column else old(indent))
      ensures Kept(old(simpleKeys), old(Stream()), simpleKeys, Stream())
    {
      var k := simpleKeys[|simpleKeys| - 1];
      KeysWithKey(simpleKeys, Stream(), tokensParsed, flowLevel == 0 && indent < k.mark.column);
      InsertInFront(k);
      simpleKeys := simpleKeys[..|simpleKeys| - 1] + [k.(possible := false)];
    }

    method InsertInFront(k: SimpleKey)
      requires Indented() && tokensParsed == |handed| && tokensParsed <= k.number <= |Stream()|
      modifies this`tokens, this`indents, this`indent
      ensures Indented()
      ensures var begins := flowLevel == 0 && old(indent) < k.mark.column;
        && Stream() == WithKey(old(Stream()), k, begins)
        && indents == (if begins then old(indents + [indent]) else old(indents))
        && indent == (if begins then k.mark.column else old(indent))
    {
      var t := Token(KeyToken, k.mark.index, k.mark.index);
      ghost var stream := Stream();
      NeutralInsert(stream, indents, indent, k.number, t);
      QueueInsert(k.number - tokensParsed, t);
      RollIndent(k.mark.column, k.number, BlockMappingStartToken, k.mark);
      WithKeyInserted(stream, k);
    }

    /** A value without a possible key: in block context it may begin a mapping. */
    method OpenValue(ghost after: Place) returns (ok: bool)
      requires Ready() && !simpleKeys[|simpleKeys| - 1].possible
      modifies this`tokens, this`simpleKeyAllowed, this`indents, this`indent, this`error
      ensures ok ==> Ready() && simpleKeyAllowed == (flowLevel == 0) && (flowLevel == 0 ==> old(simpleKeyAllowed))
      ensures var value := Token(ValueToken, mark.index, after.index);
        var begins := flowLevel == 0 && old(indent) < mark.column;
        var added := if begins then [Token(BlockMappingStartToken, mark.index, mark.index)] else [];
        ok ==> Stream() == old(Stream()) + added && Kept(simpleKeys, old(Stream()), simpleKeys, Stream() + [value])
      ensures !ok ==> error
    {
      ok := true;
      if flowLevel == 0 {
        if !simpleKeyAllowed {
          ok := SetError();
          return;
        }
        OpenBlock(BlockMappingStartToken);
      }
      simpleKeyAllowed := flowLevel == 0;
      ghost var begins := flowLevel == 0 && old(indent) < mark.column;
      ghost var added := if begins then [Token(BlockMappingStartToken, mark.index, mark.index)] else [];
      ghost var t := Token(ValueToken, mark.index, after.index);
      assert Stream() == old(Stream()) + added;
      AppendMore(old(Stream()), added, t);
      KeptByAppend(simpleKeys, old(Stream()), simpleKeys, added + [t]);
    }

    /** yaml_parser_fetch_value */
    method FetchValue(after: Place) returns (ok: bool)
      requires Ready()
      modifies this`tokens, this`simpleKeys, this`simpleKeyAllowed, this`indents, this`indent, this`mark, this`error
      ensures ok ==> Ready()
      ensures var k := old(simpleKeys[|simpleKeys| - 1]);
        var value := Token(ValueToken, old(mark).index, after.index);
        var begins := flowLevel == 0 && old(indent) < (if k.possible then k.mark.column else old(mark).column);
        && (k.possible ==> ok && !simpleKeyAllowed && |handed| <= k.number < |old(Stream())|)
        && (k.possible ==> Stream() == WithKey(old(Stream()), k, begins) + [value])
        && (!k.possible && ok ==> simpleKeyAllowed == (flowLevel == 0) && (flowLevel == 0 ==> old(simpleKeyAllowed)))
        && (!k.possible && ok ==>
          Stream() == old(Stream()) + (if begins then [Token(BlockMappingStartToken, old(mark).index, old(mark).index)] else []) + [value])
      ensures ok ==> Kept(old(simpleKeys), old(Stream()), simpleKeys, Stream())
      ensures !ok ==> error
    {
      var k := simpleKeys[|simpleKeys| - 1];
      ok := true;
      if k.possible {
        InsertKey();
        simpleKeyAllowed := false;
        KeptThenAppend(old(simpleKeys), old(Stream()), simpleKeys, Stream(), Token(ValueToken, mark.index, after.index));
      } else {
        ok := OpenValue(after);
        if !ok { return; }
      }
      Append(ValueToken, after);
    }

    // ----- the next token, and enough of them -----

    method DropStaleKeys() returns (ok: bool)
      requires Ready()
      modifies this`simpleKeys, this`error
      ensures ok ==> Ready() && forall i | 0 <= i < |simpleKeys| :: !Stale(simpleKeys[i], mark)
      ensures ok ==> Kept(old(simpleKeys), Stream(), simpleKeys, Stream())
      ensures !ok ==> error
    {
      KeysRefreshed(simpleKeys, Stream(), tokensParsed, mark);
      ok := StaleSimpleKeys();
    }

    /** Behind the blanks before a token: keys out of reach and deeper levels are gone. */
    method Settle(l: Lexeme) returns (ok: bool)
      requires Ready()
      modifies this`tokens, this`simpleKeys, this`simpleKeyAllowed, this`indents, this`indent, this`mark, this`error
      ensures ok ==> Ready() && mark == l.at && flowLevel == old(flowLevel)
      ensures ok ==> forall i | 0 <= i < |simpleKeys| :: !Stale(simpleKeys[i], mark)
      ensures ok && flowLevel == 0 ==> indent <= l.at.column
      ensures ok ==> Kept(old(simpleKeys), old(Stream()), simpleKeys, Stream())
      ensures !ok ==> error
    {
      ghost var keys, stream := simpleKeys, Stream();
      mark := l.at;
      if l.newline && flowLevel == 0 { simpleKeyAllowed := true; }
      ok := DropStaleKeys();
      if !ok { return; }
      DropDeeper();
      KeptTwice(keys, stream, simpleKeys, stream, simpleKeys, Stream());
    }

    /** The levels that are deeper than the mark end. */
    method DropDeeper()
      requires Ready() && mark.column >= 0
      modifies this`tokens, this`indents, this`indent
      ensures Ready() && (flowLevel == 0 ==> indent <= mark.column)
      ensures Kept(simpleKeys, old(Stream()), simpleKeys, Stream())
    {
      ghost var stream := Stream();
      ghost var n := if flowLevel == 0 then Deeper(indents, indent, mark.column) else 0;
      UnrollIndent(mark.column);
      RisingAboveMinusOne(indents, indent);
      KeptByAppend(simpleKeys, stream, simpleKeys, Ends(n, mark));
    }

    /** yaml_parser_fetch_next_token */
    method FetchNextToken(l: Lexeme) returns (ok: bool)
      requires Valid() && !tokenAvailable
      modifies this`tokens, this`simpleKeys, this`simpleKeyAllowed, this`flowLevel, this`indents, this`indent, this`mark
      modifies this`error, this`streamStartProduced
      ensures ok ==> Ready()
      ensures ok && old(streamStartProduced) && l.kind.EndOfInput? && flowLevel == 0 ==> OpenBlocks(Stream()) == 0
      ensures ok ==> Kept(old(simpleKeys), old(Stream()), simpleKeys, Stream())
      ensures !ok ==> error
    {
      ok := true;
      if !streamStartProduced {
        FetchStreamStart();
        return;
      }
      ok := Settle(l);
      if !ok { return; }
      ghost var keys, stream := simpleKeys, Stream();
      ok := Dispatch(l.kind, l.after, true);
      if ok { KeptTwice(old(simpleKeys), old(Stream()), keys, stream, simpleKeys, Stream()); }
    }

    method Dispatch(kind: Kind, after: Place, scans: bool) returns (ok: bool)
      requires Ready()
      modifies this`tokens, this`simpleKeys, this`simpleKeyAllowed, this`flowLevel, this`indents, this`indent, this`mark, this`error
      ensures ok ==> Ready()
      ensures ok && kind.EndOfInput? && flowLevel == 0 ==> OpenBlocks(Stream()) == 0
      ensures ok ==> Kept(old(simpleKeys), old(Stream()), simpleKeys, Stream())
      ensures !ok ==> error
      decreases kind
    {
      match kind
      case EndOfInput => ok := FetchStreamEnd();
      case Directive(data) =>
        if data.VersionDirectiveToken? || data.TagDirectiveToken? { ok := FetchReset(data, after, scans); } else { ok := SetError(); }
      case DocumentIndicator(begins) => ok := FetchReset(if begins then DocumentStartToken else DocumentEndToken, after, true);
      case FlowStart(sequence) => ok := FetchFlowCollectionStart(sequence, after);
      case FlowEnd(sequence) => ok := FetchFlowCollectionEnd(sequence, after);
      case FlowComma => ok := FetchFlowEntry(after);
      case Dash => ok := FetchBlockEntry(after);
      case Question => ok := FetchKey(after);
      case Colon => ok := FetchValue(after);
      case Name(alias, text) => ok := FetchContent(if alias then AliasToken(text) else AnchorToken(text), after, scans);
      case TagText(handle, suffix) => ok := FetchContent(TagToken(handle, suffix), after, scans);
      case BlockScalar(value, style) =>
        if flowLevel == 0 { ok := FetchBlockScalar(ScalarToken(value, style), after, scans); } else { ok := SetError(); }
      case QuotedScalar(value, style) => ok := FetchContent(ScalarToken(value, style), after, scans);
      case PlainScalar(value, leadingBlanks) =>
        ok := FetchContent(ScalarToken(value, Plain), after, scans);
        if leadingBlanks { simpleKeyAllowed := true; }
      case Malformed(k) => ok := Dispatch(k, after, false);
      case Unknown => ok := SetError();
    }

    /** Whether the head of the queue may still turn out to begin a key. */
    method HeadMayBeKey() returns (may: bool)
      ensures may <==> exists i :: 0 <= i < |simpleKeys| && simpleKeys[i].possible && simpleKeys[i].number == tokensParsed
    {
      var i := 0;
      while i < |simpleKeys|
        invariant 0 <= i <= |simpleKeys|
        invariant forall j | 0 <= j < i :: !(simpleKeys[j].possible && simpleKeys[j].number == tokensParsed)
      {
        if simpleKeys[i].possible && simpleKeys[i].number == tokensParsed { return true; }
        i := i + 1;
      }
      may := false;
    }

    /** yaml_parser_fetch_more_tokens: tokens are fetched until there is one that can be handed out, because
        nothing can be inserted in front of it any more. The input is what the lexemes are. */
    method FetchMoreTokens(input: seq<Lexeme>) returns (ok: bool, used: nat)
      requires Valid() && !tokenAvailable
      modifies this`tokens, this`simpleKeys, this`simpleKeyAllowed, this`flowLevel, this`indents, this`indent, this`mark
      modifies this`error, this`streamStartProduced, this`tokenAvailable
      ensures used <= |input|
      ensures ok ==> Valid() && streamStartProduced && tokenAvailable
      ensures ok ==> Kept(old(simpleKeys), old(Stream()), simpleKeys, Stream())
      ensures !ok ==> error
    {
      used := 0;
      while true
        invariant used <= |input| && Valid() && !tokenAvailable
        invariant Kept(old(simpleKeys), old(Stream()), simpleKeys, Stream())
        decreases |input| - used
      {
        var need := true;
        ghost var keys, stream := simpleKeys, Stream();
        if tokens != [] {
          EmptyBeforeStart();
          ok := DropStaleKeys();
          if !ok { return; }
          KeptTwice(old(simpleKeys), old(Stream()), keys, stream, simpleKeys, Stream());
          need := HeadMayBeKey();
        }
        if !need { break; }
        if used == |input| {
          ok := SetError();
          return;
        }
        keys, stream := simpleKeys, Stream();
        ok := FetchNextToken(input[used]);
        if !ok { return; }
        KeptTwice(old(simpleKeys), old(Stream()), keys, stream, simpleKeys, Stream());
        used := used + 1;
      }
      tokenAvailable := true;
      ok := true;
    }

    lemma EmptyBeforeStart()
      requires Valid() && tokens != []
      ensures streamStartProduced
    {
      assert |Stream()| == |handed| + |tokens|;
    }
  }

  lemma KeysRefreshed(keys: seq<SimpleKey>, stream: seq<Token>, parsed: nat, mark: Place)
    requires KeysOk(keys, stream, parsed)
    ensures forall keys': seq<SimpleKey> ::
      |keys'| == |keys| && (forall i | 0 <= i < |keys'| :: keys'[i] == Refreshed(keys[i], mark)) ==> KeysOk(keys', stream, parsed)
  {
    forall keys': seq<SimpleKey> | |keys'| == |keys| && (forall i | 0 <= i < |keys'| :: keys'[i] == Refreshed(keys[i], mark))
      ensures KeysOk(keys', stream, parsed)
    {
      forall i | 0 <= i < |keys'| ensures Names(keys'[i], stream, parsed) { assert Names(keys[i], stream, parsed); }
    }
  }

  function WithKey(stream: seq<Token>, k: SimpleKey, begins: bool): seq<Token>
    requires k.number <= |stream|
  {
    stream[..k.number] + (if begins then [Token(BlockMappingStartToken, k.mark.index, k.mark.index)] else [])
    + [Token(KeyToken, k.mark.index, k.mark.index)] + stream[k.number..]
  }

  lemma WithKeyInserted(stream: seq<Token>, k: SimpleKey)
    requires k.number <= |stream|
    ensures var t, start := Token(KeyToken, k.mark.index, k.mark.index), Token(BlockMappingStartToken, k.mark.index, k.mark.index);
      && Insert(stream, k.number, t) == WithKey(stream, k, false)
      && Insert(Insert(stream, k.number, t), k.number, start) == WithKey(stream, k, true)
  {
    var t := Token(KeyToken, k.mark.index, k.mark.index);
    var s := Insert(stream, k.number, t);
    assert s[..k.number] == stream[..k.number] && s[k.number..] == [t] + stream[k.number..];
  }

  /** The insertion keeps every other possible key and the token that it names. */
  lemma KeysWithKey(keys: seq<SimpleKey>, stream: seq<Token>, parsed: nat, begins: bool)
    requires keys != [] && KeysOk(keys, stream, parsed) && keys[|keys| - 1].possible
    ensures var k := keys[|keys| - 1]; var keys' := keys[..|keys| - 1] + [k.(possible := false)];
      && parsed <= k.number < |stream|
      && KeysOk(keys', WithKey(stream, k, begins), parsed) && Kept(keys, stream, keys', WithKey(stream, k, begins))
  {
    var k, below := keys[|keys| - 1], keys[..|keys| - 1];
    var t, start := Token(KeyToken, k.mark.index, k.mark.index), Token(BlockMappingStartToken, k.mark.index, k.mark.index);
    KeysBelow(keys, stream, parsed, |keys| - 1);
    WithKeyInserted(stream, k);
    KeysInsert(below, stream, parsed, k.number, t);
    if begins { KeysInsert(below, Insert(stream, k.number, t), parsed, k.number, start); }
    KeysTop(keys, WithKey(stream, k, begins), parsed, k.(possible := false));
    forall i | 0 <= i < |below| && below[i].possible ensures below[i].number < k.number && keys[i] == below[i] {}
  }

  lemma NeutralInsert(stream: seq<Token>, indents: seq<int>, indent: int, n: nat, t: Token)
    requires Fits(stream, indents, indent) && n <= |stream| && !IsBlockStart(t.data) && !t.data.BlockEndToken?
    ensures Fits(Insert(stream, n, t), indents, indent)
  {
    assert stream == stream[..n] + stream[n..];
    BlocksInsert(stream[..n], t, stream[n..]);
  }

  lemma KeptThenAppend(keys: seq<SimpleKey>, stream: seq<Token>, keys': seq<SimpleKey>, stream': seq<Token>, t: Token)
    requires Kept(keys, stream, keys', stream')
    ensures Kept(keys, stream, keys', stream' + [t])
  {}
}
