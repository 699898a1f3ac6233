// The reader: raw bytes come in pieces of any size, are decoded, and wait as UTF-8 for the scanner.
module YamlReader {
  import opened Records
  import opened Options
  import opened YamlUtf
  import opened Sealing

  const RAW: nat := 16384
  const SIZE: nat := 3 * RAW
  const MAX_FILE_SIZE: nat := 0x7fff_ffff_ffff_ffff

  /** The most characters that may be asked for: the rest of the buffer takes what a full raw buffer gives. */
  const MOST: nat := 6144

  datatype Error = NoError | InputError | Malformed | TooLong

  lemma {:induction false} EncLength(cs: seq<code>)
    ensures |EncAll(Utf8, cs)| <= 4 * |cs|
  {
    if cs != [] { EncLength(cs[1..]); }
  }

  /** Decoded to UTF-8, a character grows by half at most. */
  lemma GrowsByHalf(e: Encoding, v: code)
    ensures 2 * |Enc8(v)| <= 3 * |Enc(e, v)|
  {}

  lemma EncAllSnoc(e: Encoding, cs: seq<code>, v: code)
    ensures EncAll(e, cs + [v]) == EncAll(e, cs) + Enc(e, v)
  {
    EncAllConcat(e, cs, [v]);
    EncAllOne(e, v);
  }

  /** Of the text, the bytes before `raw` and `input` have been decoded to cs. */
  ghost predicate DecodedTo(text: seq<byte>, bom: seq<byte>, e: Encoding, cs: seq<code>, raw: seq<byte>, input: seq<byte>,
                            offset: nat)
  {
    forall k: nat :: Unsealed(k) ==>
      text == bom + EncAll(e, cs) + raw + input && AllAllowed(cs) && offset == |bom| + |EncAll(e, cs)|
  }

  lemma DecodedSplit(text: seq<byte>, bom: seq<byte>, e: Encoding, cs: seq<code>, raw: seq<byte>, input: seq<byte>,
                     raw': seq<byte>, input': seq<byte>, offset: nat)
    requires DecodedTo(text, bom, e, cs, raw, input, offset) && raw' + input' == raw + input
    ensures DecodedTo(text, bom, e, cs, raw', input', offset)
  {
    assert Unsealed(0);
    assert bom + EncAll(e, cs) + raw + input == bom + EncAll(e, cs) + (raw + input);
    assert bom + EncAll(e, cs) + raw' + input' == bom + EncAll(e, cs) + (raw' + input');
  }

  lemma DecodedMore(text: seq<byte>, bom: seq<byte>, e: Encoding, cs: seq<code>, raw: seq<byte>, input: seq<byte>, offset: nat)
    requires DecodedTo(text, bom, e, cs, raw, input, offset) && raw != [] && Decode(e, raw).Char?
    requires Allowed(Decode(e, raw).value)
    ensures var d := Decode(e, raw); DecodedTo(text, bom, e, cs + [d.value], raw[d.width..], input, offset + d.width)
  {
    assert Unsealed(0);
    var d := Decode(e, raw);
    DecodedIsEncoded(e, raw);
    EncAllSnoc(e, cs, d.value);
    assert raw == Enc(e, d.value) + raw[d.width..];
    EncAssoc(bom + EncAll(e, cs), Enc(e, d.value), raw[d.width..]);
    EncAssoc(bom, EncAll(e, cs), Enc(e, d.value));
  }

  lemma DecodedStuck(text: seq<byte>, bom: seq<byte>, e: Encoding, cs: seq<code>, raw: seq<byte>, input: seq<byte>, offset: nat)
    requires DecodedTo(text, bom, e, cs, raw, input, offset) && raw != []
    requires var d := Decode(e, raw); d == Illegal || (d == Partial && input == []) || (d.Char? && !Allowed(d.value))
    ensures bom <= text && !WellFormed(e, text[|bom|..])
  {
    assert Unsealed(0);
    if Decode(e, raw) != Partial {
      DecodeMore(e, raw, raw + input);
    } else {
      assert raw + input == raw;
    }
    NotWellFormed(e, cs, raw + input);
    assert text == bom + (EncAll(e, cs) + (raw + input));
  }

  lemma DecodedAll(text: seq<byte>, bom: seq<byte>, e: Encoding, cs: seq<code>, offset: nat)
    requires DecodedTo(text, bom, e, cs, [], [], offset)
    ensures bom <= text && text[|bom|..] == EncAll(e, cs) && WellFormed(e, text[|bom|..])
  {
    assert Unsealed(0);
    assert text == bom + EncAll(e, cs);
  }

  /** An incomplete character is at most three bytes long. */
  lemma PartialIsShort(e: Encoding, s: seq<byte>)
    requires s != [] && Decode(e, s) == Partial
    ensures |s| < 4
  {}

  /** The bytes that wait are the last `unread` characters of the content. */
  ghost predicate Waits(bytes: seq<byte>, content: seq<code>, unread: nat) {
    forall k: nat :: Unsealed(k) ==> unread <= |content| && bytes == EncAll(Utf8, content[|content| - unread..])
  }

  lemma WaitsMore(bytes: seq<byte>, content: seq<code>, unread: nat, v: code)
    requires Waits(bytes, content, unread)
    ensures Waits(bytes + Enc8(v), content + [v], unread + 1)
  {
    assert Unsealed(0);
    var rest := content[|content| - unread..];
    EncAllSnoc(Utf8, rest, v);
    assert (content + [v])[|content| - unread..] == rest + [v];
  }

  /** The first character that waits, and what is left when it is taken. */
  lemma WaitsLess(bytes: seq<byte>, content: seq<code>, unread: nat)
    requires Waits(bytes, content, unread) && 0 < unread <= |content|
    ensures var v := content[|content| - unread]; var w := |Enc8(v)|;
      && w <= |bytes| && bytes[..w] == Enc8(v) && Waits(bytes[w..], content, unread - 1)
  {
    assert Unsealed(0);
    var rest := content[|content| - unread..];
    assert rest[1..] == content[|content| - (unread - 1)..];
    assert bytes == Enc8(rest[0]) + EncAll(Utf8, rest[1..]);
  }

  /** The width that the first octet of an encoded character tells. */
  lemma WidthOfEncoded(v: code)
    ensures Width8(Enc8(v)[0]) == |Enc8(v)| && (Enc8(v)[0] == 0 <==> v == 0)
  {}

  /** memmove to the start of the buffer */
  method Move(a: array<byte>, from: nat, to: nat)
    requires from <= to <= a.Length
    modifies a
    ensures a[..to - from] == old(a[from..to])
  {
    forall i | 0 <= i < to - from { a[i] := a[from + i]; }
  }

  method Put(a: array<byte>, at: nat, bytes: seq<byte>)
    requires at + |bytes| <= a.Length
    modifies a
    ensures a[..at + |bytes|] == old(a[..at]) + bytes
  {
    forall i | 0 <= i < |bytes| { a[at + i] := bytes[i]; }
  }

  lemma SliceAppended(s: seq<byte>, t: seq<byte>, from: nat, bytes: seq<byte>)
    requires from <= |s| && t == s + bytes
    ensures t[from..] == s[from..] + bytes
  {}

  /** out is the encoding of the first `taken` characters, and no NUL is among them. */
  predicate HasRead(content: seq<code>, taken: nat, out: seq<byte>) {
    taken <= |content| && out == EncAll(Utf8, content[..taken]) && forall k | 0 <= k < taken :: content[k] != 0
  }

  lemma HasReadMore(content: seq<code>, taken: nat, out: seq<byte>)
    requires taken < |content| && HasRead(content, taken, out)
    ensures out + Enc8(content[taken]) == EncAll(Utf8, content[..taken + 1])
    ensures content[taken] != 0 ==> HasRead(content, taken + 1, out + Enc8(content[taken]))
  {
    EncAllSnoc(Utf8, content[..taken], content[taken]);
    assert content[..taken + 1] == content[..taken] + [content[taken]];
  }

  datatype Status = Going | Stuck | Failed

  class Reader {
    // the handler's side: what it has not given yet, and the sizes of its next answers (0 is a failure)
    var input: seq<byte>
    var chunks: seq<nat>

    const raw: array<byte>
    var rawPointer: nat
    var rawLast: nat
    const buffer: array<byte>
    var pointer: nat
    var last: nat
    var unread: nat
    var offset: nat
    var eof: bool
    var encoding: Encoding
    var error: Error

    ghost const text: seq<byte>
    ghost const declared: Encoding
    ghost var bom: seq<byte>
    ghost var chars: seq<code>
    ghost var ended: bool

    ghost predicate RawShape()
      reads this`rawPointer, this`rawLast
    {
      raw.Length == RAW && buffer.Length == SIZE && raw != buffer && rawPointer <= rawLast <= RAW
    }

    ghost function Raw(): (s: seq<byte>)
      requires RawShape()
      reads this`rawPointer, this`rawLast, raw
      ensures |s| == rawLast - rawPointer
    {
      raw[rawPointer..rawLast]
    }

    /** The encoding is the one that was set, or the one that the text begins with. */
    ghost predicate Detected()
      reads this`encoding, this`bom, this`chars, this`ended
    {
      && (encoding == AnyEncoding ==> declared == AnyEncoding && bom == [] && chars == [] && !ended)
      && (encoding != AnyEncoding ==> (encoding, bom) == if declared == AnyEncoding then Detect(text) else (declared, []))
    }

    ghost predicate Source()
      reads this`rawPointer, this`rawLast, this`input, this`offset, this`eof, this`encoding, this`bom, this`chars
      reads this`ended, raw
    {
      && RawShape() && Detected() && (eof ==> input == [])
      && DecodedTo(text, bom, encoding, chars, Raw(), input, offset)
    }

    /** The characters so far, and the final NUL. */
    ghost function Content(): seq<code>
      reads this`chars, this`ended
    {
      if ended then chars + [0] else chars
    }

    ghost predicate Sink()
      reads this`pointer, this`last, this`unread, this`chars, this`ended, buffer
    {
      pointer <= last <= buffer.Length && unread <= |Content()| && Waits(buffer[pointer..last], Content(), unread)
    }

    ghost predicate Valid()
      reads this, raw, buffer
    {
      Source() && Sink() && (ended <==> eof && rawPointer == rawLast)
    }

    /** The text is no YAML text. */
    ghost predicate Bad()
      reads this`bom, this`encoding
    {
      bom <= text && !WellFormed(encoding, text[|bom|..])
    }

    constructor (text: seq<byte>, chunks: seq<nat>, declared: Encoding)
      ensures Valid() && this.text == text && this.declared == declared && error == NoError
      ensures unread == 0 && Content() == []
    {
      input, this.chunks, this.text, this.declared := text, chunks, text, declared;
      raw, rawPointer, rawLast := new byte[RAW], 0, 0;
      buffer, pointer, last := new byte[SIZE], 0, 0;
      unread, offset, eof, encoding, error := 0, 0, false, declared, NoError;
      bom, chars, ended := [], [], false;
      new;
      assert bom + EncAll(encoding, chars) + Raw() + input == text;
    }

    // ----- the raw buffer -----

    method ReadHandler(size: nat) returns (ok: bool, bytes: seq<byte>)
      requires size > 0
      modifies this`input, this`chunks
      ensures bytes + input == old(input) && |bytes| <= size && (ok && bytes == [] ==> old(input) == [])
      ensures !ok ==> bytes == []
    {
      ok, bytes := true, [];
      var n := size;
      if chunks != [] {
        ok, n := chunks[0] != 0, if chunks[0] < size then chunks[0] else size;
        chunks := chunks[1..];
      }
      if ok {
        n := if n < |input| then n else |input|;
        bytes, input := input[..n], input[n..];
      }
    }

    /** The bytes that are left move to the front. */
    method MoveRaw()
      requires RawShape()
      modifies this`rawPointer, this`rawLast, raw
      ensures RawShape() && rawPointer == 0 && Raw() == old(Raw())
    {
      if 0 < rawPointer < rawLast {
        Move(raw, rawPointer, rawLast);
      }
      rawLast := rawLast - rawPointer;
      rawPointer := 0;
    }

    method MoveKeepsSource()
      requires Source()
      modifies this`rawPointer, this`rawLast, raw
      ensures Source() && rawPointer == 0 && rawLast == old(rawLast - rawPointer)
    {
      MoveRaw();
    }

    method AppendRaw(bytes: seq<byte>)
      requires RawShape() && rawLast + |bytes| <= RAW
      modifies this`rawLast, raw
      ensures RawShape() && Raw() == old(Raw()) + bytes
    {
      ghost var s := raw[..rawLast];
      Put(raw, rawLast, bytes);
      rawLast := rawLast + |bytes|;
      SliceAppended(s, raw[..rawLast], rawPointer, bytes);
    }

    /** The handler is asked once for what the raw buffer has room for; an empty answer is the end. */
    method Ask() returns (ok: bool)
      requires Source() && rawPointer == 0 && rawLast < RAW && !eof
      modifies this`rawLast, this`input, this`chunks, this`eof, raw
      ensures Source() && |input| <= |old(input)| && (ok ==> |input| < |old(input)| || eof) && (!ok ==> !eof)
      ensures rawLast >= old(rawLast) && (eof ==> rawLast == old(rawLast))
    {
      ghost var s, t := Raw(), input;
      var bytes;
      ok, bytes := ReadHandler(RAW - rawLast);
      AppendRaw(bytes);
      Handed(s, bytes, input, t);
      DecodedSplit(text, bom, encoding, chars, s, t, Raw(), input, offset);
      if ok && |bytes| == 0 { eof := true; }
    }

    lemma Handed(s: seq<byte>, bytes: seq<byte>, rest: seq<byte>, t: seq<byte>)
      requires bytes + rest == t
      ensures s + bytes + rest == s + t
    {}

    /** yaml_parser_update_raw_buffer: unless the buffer is full or the input has ended, the handler is asked. */
    method UpdateRawBuffer() returns (ok: bool)
      requires Source()
      modifies this`rawPointer, this`rawLast, this`input, this`chunks, this`eof, this`error, raw
      ensures Source() && |input| <= |old(input)|
      ensures rawLast - rawPointer >= old(rawLast - rawPointer)
      ensures ok ==> error == old(error)
      ensures ok && old(rawLast - rawPointer) < RAW ==> |input| < |old(input)| || eof
      ensures eof ==> rawLast - rawPointer == old(rawLast - rawPointer)
      ensures !ok ==> error == InputError
    {
      ok := true;
      if rawPointer == 0 && rawLast == RAW { return; }
      if eof { return; }
      MoveKeepsSource();
      ok := Ask();
      if !ok { error := InputError; }
    }

    // ----- the encoding -----

    /** yaml_parser_determine_encoding */
    method DetermineEncoding() returns (ok: bool)
      requires Source() && encoding == AnyEncoding
      modifies this`rawPointer, this`rawLast, this`input, this`chunks, this`eof, this`error, this`offset
      modifies this`encoding, this`bom, raw
      ensures Source() && (ok ==> encoding != AnyEncoding && error == old(error)) && (!ok ==> error == InputError)
    {
      while !eof && rawLast - rawPointer < 3
        invariant Source() && encoding == AnyEncoding && error == old(error)
        decreases |input|, if eof then 0 else 1
      {
        ok := UpdateRawBuffer();
        if !ok { return; }
      }
      ok := true;
      SkipMark();
    }

    method SkipMark()
      requires Source() && encoding == AnyEncoding && (eof || rawLast - rawPointer >= 3)
      modifies this`rawPointer, this`offset, this`encoding, this`bom
      ensures Source() && encoding != AnyEncoding
    {
      TextAhead();
      var e, n := FindMark();
      MarkSkipped(Raw(), n);
      rawPointer := rawPointer + n;
      offset := offset + n;
      encoding := e;
      bom := Detect(text).1;
    }

    method FindMark() returns (e: Encoding, n: nat)
      requires RawShape()
      ensures e != AnyEncoding && n <= rawLast - rawPointer && (e, Raw()[..n]) == Detect(Raw())
    {
      DetectOctets(Raw());
      var have := rawLast - rawPointer;
      if have >= 2 && raw[rawPointer] == 0xFF && raw[rawPointer + 1] == 0xFE {
        return Utf16LE, 2;
      }
      if have >= 2 && raw[rawPointer] == 0xFE && raw[rawPointer + 1] == 0xFF {
        return Utf16BE, 2;
      }
      if have >= 3 && raw[rawPointer] == 0xEF && raw[rawPointer + 1] == 0xBB && raw[rawPointer + 2] == 0xBF {
        return Utf8, 3;
      }
      return Utf8, 0;
    }

    /** Before the encoding is known nothing has been decoded, so the raw buffer begins with the text. */
    lemma TextAhead()
      requires Source() && encoding == AnyEncoding && (eof || |Raw()| >= 3)
      ensures text == Raw() + input && Detect(Raw()) == Detect(text) && offset == 0
    {
      assert Unsealed(0);
      if eof { assert Raw() + [] == Raw(); }
      DetectMore(Raw(), text);
    }

    lemma MarkSkipped(s: seq<byte>, n: nat)
      requires n <= |s| && text == s + input
      ensures forall e: Encoding :: DecodedTo(text, s[..n], e, [], s[n..], input, n)
    {
      assert Unsealed(0);
      assert s[..n] + [] + s[n..] == s;
    }

    // ----- one character -----

    /** The character at the front of the raw buffer. */
    method DecodeChar() returns (d: Decoded)
      requires RawShape() && rawPointer < rawLast && encoding != AnyEncoding
      ensures d == Decode(encoding, Raw())
    {
      if encoding == Utf8 {
        d := DecodeUtf8();
      } else {
        d := DecodeUtf16(encoding == Utf16LE);
      }
    }

    method DecodeUtf8() returns (d: Decoded)
      requires RawShape() && rawPointer < rawLast
      ensures d == Decode8(Raw())
    {
      var octet := raw[rawPointer];
      var width := Width8(octet);
      if width == 0 { return Illegal; }
      if width > rawLast - rawPointer { return Partial; }
      var value: nat := Lead8(octet);
      var k := 1;
      while k < width
        invariant 1 <= k <= width && Trail8(Raw(), 1, width, Lead8(Raw()[0])) == Trail8(Raw(), k, width, value)
      {
        octet := raw[rawPointer + k];
        assert octet == Raw()[k];
        if octet / 64 != 2 { return Illegal; }
        var low: int := octet % 64;
        value := value * 64 + low;
        k := k + 1;
      }
      d := if Shortest8(value, width) && value <= 0x10_FFFF && Scalar(value) then Char(value, width) else Illegal;
    }

    method DecodeUtf16(little: bool) returns (d: Decoded)
      requires RawShape() && rawPointer < rawLast
      ensures d == Decode16(Raw(), little)
    {
      var low, high := if little then 0 else 1, if little then 1 else 0;
      if rawLast - rawPointer < 2 { return Partial; }
      var a: int, b: int := raw[rawPointer + low], raw[rawPointer + high];
      var value := a + 256 * b;
      assert value == Unit16(Raw(), 0, little);
      if value / 1024 == 55 { return Illegal; }
      if value / 1024 != 54 { return Char(value, 2); }
      if rawLast - rawPointer < 4 { return Partial; }
      a, b := raw[rawPointer + low + 2], raw[rawPointer + high + 2];
      var value2 := a + 256 * b;
      assert value2 == Unit16(Raw(), 2, little);
      if value2 / 1024 != 55 { return Illegal; }
      d := Char(0x1_0000 + value % 1024 * 1024 + value2 % 1024, 4);
    }

    // ----- the buffer -----

    /** The unread characters move to the front. */
    method MoveBuffer()
      requires Sink()
      modifies this`pointer, this`last, buffer
      ensures Sink() && pointer == 0
    {
      if 0 < pointer < last {
        Move(buffer, pointer, last);
        pointer, last := 0, last - pointer;
      } else if pointer == last {
        pointer, last := 0, 0;
      }
    }

    method PutBytes(bytes: seq<byte>)
      requires pointer <= last && last + |bytes| <= buffer.Length
      modifies this`last, buffer
      ensures last == old(last) + |bytes| && buffer[pointer..last] == old(buffer[pointer..last]) + bytes
    {
      ghost var s := buffer[..last];
      Put(buffer, last, bytes);
      last := last + |bytes|;
      SliceAppended(s, buffer[..last], pointer, bytes);
    }

    /** One more character waits for the scanner; at the end of the input that is a NUL. */
    method PutChar(v: code, final: bool)
      requires Sink() && !ended && last + |Enc8(v)| <= buffer.Length && (final ==> v == 0)
      modifies this`last, this`unread, this`chars, this`ended, buffer
      ensures Sink() && Content() == old(Content()) + [v] && unread == old(unread) + 1 && last == old(last) + |Enc8(v)|
      ensures ended == final && chars == if final then old(chars) else old(chars) + [v]
    {
      WaitsMore(buffer[pointer..last], Content(), unread, v);
      PutBytes(Enc8(v));
      unread := unread + 1;
      if final { ended := true; } else { chars := chars + [v]; }
    }

    /** Room for all that the raw buffer can still give, and for the NUL. */
    ghost predicate Roomy()
      reads this`last, this`rawPointer, this`rawLast
    {
      2 * last + 3 * (rawLast - rawPointer) <= 2 * (SIZE - 1)
    }

    method TakeRaw(v: code, width: nat)
      requires Source() && rawPointer < rawLast && Decode(encoding, Raw()) == Char(v, width) && Allowed(v) && !ended
      requires encoding != AnyEncoding
      modifies this`rawPointer, this`offset, this`chars
      ensures Source() && chars == old(chars) + [v] && rawPointer == old(rawPointer) + width
      ensures width == |Enc(encoding, v)|
    {
      DecodedIsEncoded(encoding, Raw());
      DecodedMore(text, bom, encoding, chars, Raw(), input, offset);
      chars := chars + [v];
      rawPointer := rawPointer + width;
      offset := offset + width;
    }

    // ----- the reader as a whole -----

    /** The reader is consistent; since its characters were cs nothing is lost, and all but `taken` of
        them wait. */
    ghost predicate Since(cs: seq<code>, taken: int)
      reads this, raw, buffer
    {
      forall k: nat :: Unsealed(k) ==> Source() && Sink() && cs <= Content() && |Content()| - unread == taken
    }

    method Update(ghost cs: seq<code>, ghost taken: int) returns (ok: bool)
      requires Since(cs, taken)
      modifies this`rawPointer, this`rawLast, this`input, this`chunks, this`eof, this`error, raw
      ensures Since(cs, taken) && |input| <= |old(input)| && if ok then error == old(error) else error == InputError
      ensures ok && old(rawLast - rawPointer) < 4 ==> |input| < |old(input)| || eof
    {
      assert Unsealed(0);
      ok := UpdateRawBuffer();
    }

    method Determine(ghost cs: seq<code>, ghost taken: int) returns (ok: bool)
      requires Since(cs, taken) && encoding == AnyEncoding
      modifies this`rawPointer, this`rawLast, this`input, this`chunks, this`eof, this`error, this`offset
      modifies this`encoding, this`bom, raw
      ensures Since(cs, taken) && (ok ==> encoding != AnyEncoding && error == old(error)) && (!ok ==> error == InputError)
    {
      assert Unsealed(0);
      ok := DetermineEncoding();
    }

    method Compact(ghost cs: seq<code>, ghost taken: int)
      requires Since(cs, taken)
      modifies this`pointer, this`last, buffer
      ensures Since(cs, taken) && pointer == 0
    {
      assert Unsealed(0);
      MoveBuffer();
    }

    method TakeChar(v: code, width: nat)
      requires Source() && Sink() && !ended && Roomy() && rawPointer < rawLast
      requires Decode(encoding, Raw()) == Char(v, width)
      requires Allowed(v) && encoding != AnyEncoding
      modifies this`rawPointer, this`offset, this`last, this`unread, this`chars, buffer
      ensures Source() && Sink() && Roomy() && rawPointer > old(rawPointer) && unread == old(unread) + 1
      ensures Content() == old(Content()) + [v]
    {
      GrowsByHalf(encoding, v);
      PutKeepsSource(v);
      TakeRaw(v, width);
    }

    method PutKeepsSource(v: code)
      requires Source() && Sink() && !ended && last + |Enc8(v)| <= buffer.Length
      modifies this`last, this`unread, buffer
      ensures Source() && pointer <= last == old(last) + |Enc8(v)| <= buffer.Length && unread == old(unread) + 1
      ensures Waits(buffer[pointer..last], Content() + [v], unread)
    {
      ghost var content, bytes := Content(), buffer[pointer..last];
      WaitsMore(bytes, content, unread, v);
      PutBytes(Enc8(v));
      assert buffer[pointer..last] == bytes + Enc8(v);
      unread := unread + 1;
    }

    /** One turn of the inner loop. */
    method DecodeStep(ghost cs: seq<code>, ghost taken: int) returns (status: Status)
      requires Since(cs, taken) && !ended && Roomy() && rawPointer < rawLast && encoding != AnyEncoding
      modifies this`rawPointer, this`offset, this`last, this`unread, this`chars, this`error, buffer
      ensures Since(cs, taken) && Roomy() && rawPointer <= rawLast
      ensures status == Going ==> rawPointer > old(rawPointer) && error == old(error)
      ensures status == Stuck ==> !eof && rawLast - rawPointer < 4 && error == old(error)
      ensures status == Failed ==> error == Malformed && Bad()
    {
      assert Unsealed(0);
      var d := DecodeChar();
      if d == Partial && !eof {
        PartialIsShort(encoding, Raw());
        return Stuck;
      }
      if !d.Char? || !Allowed(d.value) {
        DecodedStuck(text, bom, encoding, chars, Raw(), input, offset);
        error := Malformed;
        return Failed;
      }
      TakeChar(d.value, d.width);
      status := Going;
    }

    /** The inner loop: all of the raw buffer but an incomplete character at its end is decoded. */
    method DecodeRound(ghost cs: seq<code>, ghost taken: int) returns (ok: bool)
      requires Since(cs, taken) && !ended && Roomy() && encoding != AnyEncoding && rawPointer <= rawLast
      modifies this`rawPointer, this`offset, this`last, this`unread, this`chars, this`error, buffer
      ensures Since(cs, taken) && Roomy() && rawPointer <= rawLast
      ensures ok ==> error == old(error) && if eof then rawPointer == rawLast else rawLast - rawPointer < 4
      ensures !ok ==> error == Malformed && Bad()
    {
      while rawPointer != rawLast
        invariant Since(cs, taken) && Roomy() && rawPointer <= rawLast && error == old(error)
        decreases rawLast - rawPointer
      {
        var status := DecodeStep(cs, taken);
        if status == Stuck { return true; }
        if status == Failed { return false; }
      }
      ok := true;
    }

    /** On the end of the input a NUL is put behind the characters. */
    method Finish(ghost cs: seq<code>, ghost taken: int)
      requires Since(cs, taken) && !ended && last < SIZE && eof && rawPointer == rawLast && encoding != AnyEncoding
      modifies this`last, this`unread, this`chars, this`ended, buffer
      ensures Since(cs, taken) && ended
    {
      assert Unsealed(0);
      PutChar(0, true);
    }

    lemma UnreadIsShort(cs: seq<code>, taken: int)
      requires Since(cs, taken) && pointer == 0 && unread < MOST
      ensures Roomy() && rawPointer <= rawLast
    {
      assert Unsealed(0);
      EncLength(Content()[|Content()| - unread..]);
    }

    // ----- filling the buffer -----

    /** yaml_parser_update_buffer: makes at least `length` characters available, or all that are left
        and a NUL. It fails only if the handler does, if the text is no YAML text, or if it is too long. */
    method UpdateBuffer(length: nat) returns (ok: bool)
      requires Valid() && length <= MOST
      modifies this, raw, buffer
      ensures Since(old(Content()), |old(Content())| - old(unread))
      ensures ok ==> Valid() && (unread >= length || ended) && error == old(error)
      ensures !ok ==> error == InputError || (error == Malformed && Bad()) || (error == TooLong && offset >= MAX_FILE_SIZE)
    {
      ghost var cs, taken := Content(), |Content()| - unread;
      ok := true;
      if eof && rawPointer == rawLast { return; }
      if unread >= length { return; }
      var done;
      ok, done := UpdateMore(length, cs, taken);
      if ok { WholeAgain(cs, taken); }
      if ok && !done && offset >= MAX_FILE_SIZE {
        error := TooLong;
        ok := false;
      }
    }

    method UpdateMore(length: nat, ghost cs: seq<code>, ghost taken: int) returns (ok: bool, done: bool)
      requires Since(cs, taken) && !ended && unread < length <= MOST
      modifies this, raw, buffer
      ensures Since(cs, taken)
      ensures ok ==> error == old(error) && (unread >= length || ended) && done == ended && (ended <==> eof && rawPointer == rawLast)
      ensures !ok ==> error == InputError || (error == Malformed && Bad())
    {
      ok, done := true, false;
      if encoding == AnyEncoding {
        ok := Determine(cs, taken);
        if !ok { return; }
      }
      Compact(cs, taken);
      ok, done := Fill(length, cs, taken);
    }

    lemma WholeAgain(cs: seq<code>, taken: int)
      requires Since(cs, taken) && (ended <==> eof && rawPointer == rawLast)
      ensures Valid()
    {
      assert Unsealed(0);
    }

    /** The outer loop. */
    method Fill(length: nat, ghost cs: seq<code>, ghost taken: int) returns (ok: bool, done: bool)
      requires Since(cs, taken) && !ended && encoding != AnyEncoding && pointer == 0 && unread < length <= MOST
      modifies this`rawPointer, this`rawLast, this`input, this`chunks, this`eof, this`error, raw
      modifies this`offset, this`last, this`unread, this`chars, this`ended, buffer
      ensures Since(cs, taken)
      ensures ok ==> error == old(error) && (unread >= length || ended) && done == ended && (ended <==> eof && rawPointer == rawLast)
      ensures !ok ==> error == InputError || (error == Malformed && Bad())
    {
      ok, done := true, false;
      var first := true;
      while unread < length
        invariant Since(cs, taken) && !ended && error == old(error) && ok && !done
        invariant if first then unread < length else !eof && rawLast - rawPointer < 4
        decreases |input|, if first then 1 else 0
      {
        ok, done := FillOnce(first, cs, taken);
        if !ok || done { return; }
        first := false;
      }
    }

    method FillOnce(first: bool, ghost cs: seq<code>, ghost taken: int) returns (ok: bool, done: bool)
      requires Since(cs, taken) && !ended && encoding != AnyEncoding && pointer == 0 && unread < MOST
      requires !first ==> !eof && rawLast - rawPointer < 4
      modifies this`rawPointer, this`rawLast, this`input, this`chunks, this`eof, this`error, raw
      modifies this`offset, this`last, this`unread, this`chars, this`ended, buffer
      ensures Since(cs, taken) && done == ended
      ensures ok ==> error == old(error) && (ended <==> eof && rawPointer == rawLast)
      ensures ok && !ended ==> !eof && rawLast - rawPointer < 4
      ensures ok && !ended ==> |input| < |old(input)| || (first && |input| == |old(input)|)
      ensures !ok ==> error == InputError || (error == Malformed && Bad())
    {
      ok, done := true, false;
      if !first || rawPointer == rawLast {
        ok := Update(cs, taken);
        if !ok { return; }
      }
      UnreadIsShort(cs, taken);
      ok := DecodeRound(cs, taken);
      if !ok { return; }
      if eof {
        Finish(cs, taken);
        done := true;
      }
    }

    // ----- the scanner's side -----

    /** READ: the first unread character is copied, and skipped by the width that its first octet tells. */
    method Read(ghost v: code) returns (bytes: seq<byte>)
      requires pointer <= last <= buffer.Length && unread > 0 && Enc8(v) <= buffer[pointer..last]
      modifies this`pointer, this`unread
      ensures unread == old(unread) - 1 && bytes == Enc8(v)
      ensures pointer == old(pointer) + |Enc8(v)| <= last
      ensures buffer[pointer..last] == buffer[old(pointer)..last][|Enc8(v)|..]
    {
      WidthOfEncoded(v);
      var width := Width8(buffer[pointer]);
      bytes := buffer[pointer..pointer + width];
      assert bytes == buffer[pointer..last][..width];
      pointer := pointer + width;
      unread := unread - 1;
    }

    method ReadValid(ghost v: code, ghost taken: nat) returns (bytes: seq<byte>)
      requires Valid() && unread > 0 && taken + unread == |Content()| && v == Content()[taken]
      modifies this`pointer, this`unread
      ensures Valid() && taken + 1 + unread == |Content()| && bytes == Enc8(v)
    {
      WaitsLess(buffer[pointer..last], Content(), unread);
      bytes := Read(v);
    }

    /** The first `taken` characters have been read, and out is their UTF-8 encoding. */
    ghost predicate ReadSoFar(out: seq<byte>, taken: nat)
      reads this, raw, buffer
    {
      forall k: nat :: Unsealed(k) ==> Valid() && taken + unread == |Content()| <= |text| + 1 && HasRead(Content(),
          taken, out)
    }

    /** The whole text has been read, and the NUL behind it. */
    ghost predicate ReadWhole(out: seq<byte>)
      reads this, raw, buffer
    {
      && Valid() && AllAllowed(chars) && out == EncAll(Utf8, chars + [0])
      && bom <= text && text[|bom|..] == EncAll(encoding, chars) && WellFormed(encoding, text[|bom|..])
    }

    /** The scanner's loop over a whole text: one character after the other, up to the NUL. If neither
        the handler fails nor the text is too long, it succeeds exactly if the bytes behind the mark are
        well-formed; and what it has read is then the text in UTF-8, and one NUL. */
    method ReadAll() returns (ok: bool, out: seq<byte>)
      requires Valid() && error == NoError && unread == |Content()|
      modifies this, raw, buffer
      ensures error == InputError || error == TooLong || (bom <= text && (ok <==> WellFormed(encoding, text[|bom|..])))
      ensures ok ==> error == NoError && ReadWhole(out)
    {
      out := [];
      ok := true;
      ghost var taken := 0;
      NotTooMany();
      while true
        invariant error == NoError && ReadSoFar(out, taken) && taken <= |text| + 1
        decreases |text| + 1 - taken
      {
        var done;
        ok, done, out := ReadNext(out, taken);
        if !ok || done { return; }
        taken := taken + 1;
      }
    }

    method ReadNext(out: seq<byte>, ghost taken: nat) returns (ok: bool, done: bool, out': seq<byte>)
      requires error == NoError && ReadSoFar(out, taken)
      modifies this, raw, buffer
      ensures ok ==> error == NoError && taken <= |text|
      ensures ok && !done ==> ReadSoFar(out', taken + 1)
      ensures ok && done ==> ReadWhole(out')
      ensures !ok ==> error == InputError || error == TooLong || Bad()
    {
      assert Unsealed(0);
      done, out' := false, out;
      ghost var cs := Content();
      ok := UpdateBuffer(1);
      if !ok { return; }
      KeepsRead(cs, taken, out);
      done, out' := ReadOne(out, taken);
    }

    method ReadOne(out: seq<byte>, ghost taken: nat) returns (done: bool, out': seq<byte>)
      requires Valid() && unread > 0 && taken + unread == |Content()| && HasRead(Content(), taken, out)
      modifies this`pointer, this`unread
      ensures taken <= |text| && if done then ReadWhole(out') else ReadSoFar(out', taken + 1)
    {
      ghost var v := Content()[taken];
      if v == 0 { NulIsLast(taken); }
      HasReadMore(Content(), taken, out);
      NotTooMany();
      var bytes := ReadValid(v, taken);
      WidthOfEncoded(v);
      out' := out + bytes;
      done := bytes[0] == 0;
      if done { AllRead(taken); }
    }

    lemma KeepsRead(cs: seq<code>, taken: nat, out: seq<byte>)
      requires Since(cs, taken) && Valid() && taken <= |cs| && HasRead(cs, taken, out) && (unread >= 1 || ended)
      ensures unread >= 1 && taken + unread == |Content()| && HasRead(Content(), taken, out)
    {
      assert Unsealed(0);
      var content := Content();
      assert content[..taken] == cs[..taken];
      assert ended ==> content[|content| - 1] == 0;
      assert forall k | 0 <= k < taken :: content[k] == cs[k];
    }

    lemma NotTooMany()
      requires Valid()
      ensures |Content()| <= |text| + 1
    {
      assert Unsealed(0);
      EncNotShorter(encoding, chars);
    }

    /** The NUL has been read: all is read, and it was the whole text. */
    lemma AllRead(taken: nat)
      requires Valid() && unread == 0 && taken + 1 == |Content()| && Content()[taken] == 0
      ensures ended && AllAllowed(chars) && Content()[..taken + 1] == chars + [0]
      ensures bom <= text && text[|bom|..] == EncAll(encoding, chars) && WellFormed(encoding, text[|bom|..])
    {
      assert Unsealed(0);
      assert forall k | 0 <= k < |chars| :: chars[k] in chars;
      DecodedAll(text, bom, encoding, chars, offset);
    }

    /** A NUL is only at the end. */
    lemma NulIsLast(taken: nat)
      requires Valid() && taken < |Content()| && Content()[taken] == 0
      ensures ended && taken + 1 == |Content()|
    {
      assert Unsealed(0);
      assert forall k | 0 <= k < |chars| :: chars[k] in chars;
    }
  }

  lemma {:induction false} EncNotShorter(e: Encoding, cs: seq<code>)
    ensures |cs| <= |EncAll(e, cs)|
  {
    if cs != [] { EncNotShorter(e, cs[1..]); }
  }
}
