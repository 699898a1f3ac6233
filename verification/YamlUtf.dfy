// The encodings that the reader decodes, and the texts that they stand for (RFC 3629, RFC 2781).
module YamlUtf {
  import opened Records
  import opened Options

  datatype Encoding = AnyEncoding | Utf8 | Utf16LE | Utf16BE

  type code = v: nat | v <= 0x10_FFFF

  /** The characters that a YAML stream may hold. */
  predicate Allowed(v: code) {
    v == 9 || v == 10 || v == 13 || 0x20 <= v <= 0x7E || v == 0x85
    || 0xA0 <= v <= 0xD7FF || 0xE000 <= v <= 0xFFFD || 0x1_0000 <= v <= 0x10_FFFF
  }

  /** A Unicode scalar value. */
  predicate Scalar(v: code) { v < 0xD800 || 0xDFFF < v <= 0x10_FFFF }

  // ----- the encodings as RFC 3629 and RFC 2781 give them -----

  function Enc8(v: code): (s: seq<byte>)
    ensures 1 <= |s| <= 4
  {
    if v <= 0x7F then [v]
    else if v <= 0x7FF then [0xC0 + v / 64, 0x80 + v % 64]
    else if v <= 0xFFFF then [0xE0 + v / 4096, 0x80 + v / 64 % 64, 0x80 + v % 64]
    else [0xF0 + v / 262144, 0x80 + v / 4096 % 64, 0x80 + v / 64 % 64, 0x80 + v % 64]
  }

  function Unit(u: nat, little: bool): (s: seq<byte>)
    requires u <= 0xFFFF
    ensures |s| == 2
  {
    if little then [u % 256, u / 256] else [u / 256, u % 256]
  }

  function Enc16(v: code, little: bool): (s: seq<byte>)
    ensures |s| in {2, 4}
  {
    if v <= 0xFFFF then Unit(v, little)
    else Unit(0xD800 + (v - 0x1_0000) / 1024, little) + Unit(0xDC00 + (v - 0x1_0000) % 1024, little)
  }

  function Enc(e: Encoding, v: code): (s: seq<byte>)
    ensures 1 <= |s| <= 4
  {
    match e
    case Utf16LE => Enc16(v, true)
    case Utf16BE => Enc16(v, false)
    case _ => Enc8(v)
  }

  // ----- what the reader decodes -----

  datatype Decoded = Partial | Illegal | Char(value: code, width: nat)

  function Width8(octet: byte): (w: nat)
    ensures w <= 4
  {
    if octet < 0x80 then 1 else if octet / 32 == 6 then 2 else if octet / 16 == 14 then 3 else if octet / 8 == 30 then 4 else 0
  }

  function Lead8(octet: byte): nat {
    if octet < 0x80 then octet else if octet / 32 == 6 then octet % 32 else if octet / 16 == 14 then octet % 16 else octet % 8
  }

  /** The value with the trailing octets from k on, if they all are trailing octets. */
  function Trail8(s: seq<byte>, k: nat, width: nat, value: nat): Option<nat>
    requires k <= width <= |s|
    decreases width - k
  {
    if k == width then Some(value)
    else if s[k] / 64 != 2 then None
    else
      var low: int := s[k] % 64;
      Trail8(s, k + 1, width, value * 64 + low)
  }

  predicate Shortest8(value: nat, width: nat) {
    width == 1 || (width == 2 && value >= 0x80) || (width == 3 && value >= 0x800) || (width == 4 && value >= 0x1_0000)
  }

  function Decode8(s: seq<byte>): (d: Decoded)
    requires s != []
    ensures d.Char? ==> 1 <= d.width <= 4 && d.width <= |s| && Scalar(d.value)
  {
    var w := Width8(s[0]);
    if w == 0 then Illegal
    else if w > |s| then Partial
    else
      match Trail8(s, 1, w, Lead8(s[0]))
      case None => Illegal
      case Some(value) => if Shortest8(value, w) && value <= 0x10_FFFF && Scalar(value) then Char(value, w) else Illegal
  }

  function Unit16(s: seq<byte>, at: nat, little: bool): (u: nat)
    requires at + 2 <= |s|
    ensures u <= 0xFFFF
  {
    var a: int, b: int := s[at], s[at + 1];
    if little then a + 256 * b else b + 256 * a
  }

  function Decode16(s: seq<byte>, little: bool): (d: Decoded)
    ensures d.Char? ==> d.width in {2, 4} && d.width <= |s| && Scalar(d.value)
  {
    if |s| < 2 then Partial
    else
      var u := Unit16(s, 0, little);
      if u / 1024 == 55 then Illegal
      else if u / 1024 == 54 then
        if |s| < 4 then Partial
        else
          var u2 := Unit16(s, 2, little);
          if u2 / 1024 != 55 then Illegal else Char(0x1_0000 + u % 1024 * 1024 + u2 % 1024, 4)
      else Char(u, 2)
  }

  function Decode(e: Encoding, s: seq<byte>): (d: Decoded)
    requires s != []
    ensures d.Char? ==> 1 <= d.width <= 4 && d.width <= |s| && Scalar(d.value)
  {
    match e
    case Utf16LE => Decode16(s, true)
    case Utf16BE => Decode16(s, false)
    case _ => Decode8(s)
  }

  // ----- decoding is exact -----

  lemma Decode8Encoded(s: seq<byte>, v: code)
    requires Scalar(v) && Enc8(v) <= s
    ensures Decode8(s) == Char(v, |Enc8(v)|)
  {
    var c, w := Enc8(v), |Enc8(v)|;
    assert forall k | 0 <= k < w :: s[k] == c[k];
    if w == 2 {
      assert Trail8(s, 1, 2, Lead8(s[0])) == Some(v);
    } else if w == 3 {
      ThreeBack(s, v);
    } else if w == 4 {
      FourBack(s, v);
    }
  }

  lemma ThreeBack(s: seq<byte>, v: code)
    requires 0x7FF < v <= 0xFFFF && |s| >= 3 && s[0] == 0xE0 + v / 4096 && s[1] == 0x80 + v / 64 % 64
    requires s[2] == 0x80 + v % 64
    ensures Width8(s[0]) == 3 && Trail8(s, 1, 3, Lead8(s[0])) == Some(v)
  {
    assert Trail8(s, 2, 3, v / 64) == Some(v);
  }

  lemma FourBack(s: seq<byte>, v: code)
    requires 0xFFFF < v && |s| >= 4
    requires s[0] == 0xF0 + v / 262144 && s[1] == 0x80 + v / 4096 % 64 && s[2] == 0x80 + v / 64 % 64
    requires s[3] == 0x80 + v % 64
    ensures Width8(s[0]) == 4 && Trail8(s, 1, 4, Lead8(s[0])) == Some(v)
  {
    FourLead(s[0], v / 262144);
    FourTrail(s, v / 262144, v / 4096 % 64, v / 64 % 64, v % 64);
    SixBitsBack(v);
  }

  lemma FourLead(octet: byte, x: nat)
    requires x < 5 && octet == 0xF0 + x
    ensures Width8(octet) == 4 && Lead8(octet) == x
  {}

  lemma FourTrail(s: seq<byte>, x: nat, y: nat, z: nat, t: nat)
    requires |s| >= 4 && y < 64 && z < 64 && t < 64 && s[1] == 0x80 + y && s[2] == 0x80 + z && s[3] == 0x80 + t
    ensures Trail8(s, 1, 4, x) == Some(((x * 64 + y) * 64 + z) * 64 + t)
  {
    assert Trail8(s, 3, 4, (x * 64 + y) * 64 + z) == Some(((x * 64 + y) * 64 + z) * 64 + t);
    assert Trail8(s, 2, 4, x * 64 + y) == Trail8(s, 3, 4, (x * 64 + y) * 64 + z);
    assert Trail8(s, 1, 4, x) == Trail8(s, 2, 4, x * 64 + y);
  }

  lemma SixBitsBack(v: nat)
    ensures ((v / 262144 * 64 + v / 4096 % 64) * 64 + v / 64 % 64) * 64 + v % 64 == v
  {
    var q, t := v / 64, v % 64;
    var p, z := q / 64, q % 64;
    var x, y := p / 64, p % 64;
    assert v == q * 64 + t && q == p * 64 + z && p == x * 64 + y;
    SixBits(x, y, z, t);
  }

  lemma Encoded8Decoded(s: seq<byte>)
    requires s != [] && Decode8(s).Char?
    ensures var d := Decode8(s); Enc8(d.value) == s[..d.width]
  {
    var d := Decode8(s);
    if d.width == 2 {
      TwoOctets(s[0], s[1], d.value);
    } else if d.width == 3 {
      assert Trail8(s, 2, 3, Lead8(s[0]) * 64 + s[1] % 64).Some?;
      ThreeOctets(s[0], s[1], s[2], d.value);
    } else if d.width == 4 {
      assert Trail8(s, 2, 4, Lead8(s[0]) * 64 + s[1] % 64).Some?;
      assert Trail8(s, 3, 4, (Lead8(s[0]) * 64 + s[1] % 64) * 64 + s[2] % 64).Some?;
      FourOctets(s[0], s[1], s[2], s[3], d.value);
    }
  }

  lemma TwoOctets(a: byte, b: byte, v: code)
    requires Width8(a) == 2 && b / 64 == 2 && v == Lead8(a) * 64 + b % 64 && v >= 0x80
    ensures Enc8(v) == [a, b]
  {}

  lemma ThreeOctets(a: byte, b: byte, c: byte, v: code)
    requires Width8(a) == 3 && b / 64 == 2 && c / 64 == 2 && v == (Lead8(a) * 64 + b % 64) * 64 + c % 64 && v >= 0x800
    ensures v <= 0xFFFF && Enc8(v) == [a, b, c]
  {
    var x: int, y: int, z: int := Lead8(a), b % 64, c % 64;
    SixBits(0, x, y, z);
    assert a == 0xE0 + x && b == 0x80 + y && c == 0x80 + z;
  }

  lemma FourOctets(a: byte, b: byte, c: byte, d: byte, v: code)
    requires Width8(a) == 4 && b / 64 == 2 && c / 64 == 2 && d / 64 == 2
    requires v == ((Lead8(a) * 64 + b % 64) * 64 + c % 64) * 64 + d % 64 && 0x1_0000 <= v
    ensures Enc8(v) == [a, b, c, d]
  {
    var x: int, y: int, z: int, t: int := Lead8(a), b % 64, c % 64, d % 64;
    SixBits(x, y, z, t);
    assert a == 0xF0 + x && b == 0x80 + y && c == 0x80 + z && d == 0x80 + t;
  }

  lemma SixBits(x: nat, y: nat, z: nat, t: nat)
    requires y < 64 && z < 64 && t < 64
    ensures var v := ((x * 64 + y) * 64 + z) * 64 + t; v % 64 == t && v / 64 % 64 == z && v / 4096 % 64 == y && v / 262144 == x
  {
    var v := ((x * 64 + y) * 64 + z) * 64 + t;
    assert v / 64 == (x * 64 + y) * 64 + z;
    assert v / 4096 == x * 64 + y;
  }

  lemma Decode16Encoded(s: seq<byte>, v: code, little: bool)
    requires Scalar(v) && Enc16(v, little) <= s
    ensures Decode16(s, little) == Char(v, |Enc16(v, little)|)
  {
    var c := Enc16(v, little);
    assert s[0] == c[0] && s[1] == c[1];
    if v > 0xFFFF {
      assert s[2] == c[2] && s[3] == c[3];
      assert c[..2] == Unit(0xD800 + (v - 0x1_0000) / 1024, little) && c[2..] == Unit(0xDC00 + (v - 0x1_0000) % 1024, little);
    }
  }

  lemma UnitBack(s: seq<byte>, at: nat, little: bool)
    requires at + 2 <= |s|
    ensures Unit(Unit16(s, at, little), little) == s[at..at + 2]
  {
    assert s[at..at + 2] == [s[at], s[at + 1]];
  }

  lemma PairBack(u: nat, u2: nat)
    requires u / 1024 == 54 && u2 / 1024 == 55
    ensures var v := 0x1_0000 + u % 1024 * 1024 + u2 % 1024;
      0xFFFF < v <= 0x10_FFFF && 0xD800 + (v - 0x1_0000) / 1024 == u && 0xDC00 + (v - 0x1_0000) % 1024 == u2
  {
    var w := u % 1024 * 1024 + u2 % 1024;
    assert w / 1024 == u % 1024 && w % 1024 == u2 % 1024;
  }

  lemma Encoded16Decoded(s: seq<byte>, little: bool)
    requires Decode16(s, little).Char?
    ensures var d := Decode16(s, little); Enc16(d.value, little) == s[..d.width]
  {
    UnitBack(s, 0, little);
    if Decode16(s, little).width == 4 {
      UnitBack(s, 2, little);
      PairBack(Unit16(s, 0, little), Unit16(s, 2, little));
      assert s[..4] == s[0..2] + s[2..4];
    }
  }

  /** The reader decodes a character exactly where its encoding stands. */
  lemma DecodeExact(e: Encoding, s: seq<byte>, v: code)
    requires s != [] && Scalar(v)
    ensures Decode(e, s) == Char(v, |Enc(e, v)|) <==> Enc(e, v) <= s
  {
    match e
    case Utf16LE => ExactOne16(s, v, true);
    case Utf16BE => ExactOne16(s, v, false);
    case _ =>
      if Enc8(v) <= s { Decode8Encoded(s, v); }
      if Decode8(s).Char? { Encoded8Decoded(s); }
  }

  lemma ExactOne16(s: seq<byte>, v: code, little: bool)
    requires Scalar(v)
    ensures Decode16(s, little) == Char(v, |Enc16(v, little)|) <==> Enc16(v, little) <= s
  {
    if Enc16(v, little) <= s { Decode16Encoded(s, v, little); }
    if Decode16(s, little).Char? { Encoded16Decoded(s, little); }
  }

  lemma DecodedIsEncoded(e: Encoding, s: seq<byte>)
    requires s != [] && Decode(e, s).Char?
    ensures var d := Decode(e, s); d.width == |Enc(e, d.value)| && Enc(e, d.value) == s[..d.width]
  {
    match e
    case Utf16LE => Encoded16Decoded(s, true);
    case Utf16BE => Encoded16Decoded(s, false);
    case _ => Encoded8Decoded(s);
  }

  lemma {:induction false} TrailMore(s: seq<byte>, t: seq<byte>, k: nat, width: nat, value: nat)
    requires k <= width <= |s| && s <= t
    ensures Trail8(t, k, width, value) == Trail8(s, k, width, value)
    decreases width - k
  {
    if k < width && s[k] / 64 == 2 {
      var low: int := s[k] % 64;
      TrailMore(s, t, k + 1, width, value * 64 + low);
    }
  }

  /** What follows changes nothing once there is enough for a character. */
  lemma DecodeMore(e: Encoding, s: seq<byte>, t: seq<byte>)
    requires s != [] && s <= t && Decode(e, s) != Partial
    ensures Decode(e, t) == Decode(e, s)
  {
    var w := Width8(s[0]);
    if 1 <= w <= |s| { TrailMore(s, t, 1, w, Lead8(s[0])); }
  }

  // ----- texts -----

  predicate AllAllowed(cs: seq<code>) { forall v | v in cs :: Allowed(v) }

  function EncAll(e: Encoding, cs: seq<code>): (s: seq<byte>)
  {
    if cs == [] then [] else Enc(e, cs[0]) + EncAll(e, cs[1..])
  }

  lemma {:induction false} EncAllConcat(e: Encoding, a: seq<code>, b: seq<code>)
    ensures EncAll(e, a + b) == EncAll(e, a) + EncAll(e, b)
  {
    if a == [] {
      assert a + b == b;
    } else {
      EncAllConcat(e, a[1..], b);
      assert (a + b)[1..] == a[1..] + b;
      EncAssoc(Enc(e, a[0]), EncAll(e, a[1..]), EncAll(e, b));
    }
  }

  lemma EncAssoc(a: seq<byte>, b: seq<byte>, c: seq<byte>)
    ensures a + (b + c) == a + b + c
  {}

  lemma EncAllOne(e: Encoding, v: code)
    ensures EncAll(e, [v]) == Enc(e, v)
  {
    assert [v][1..] == [];
  }

  /** The bytes s are the encoding of a text of allowed characters. */
  ghost predicate WellFormed(e: Encoding, s: seq<byte>) { exists cs: seq<code> :: AllAllowed(cs) && EncAll(e, cs) == s }

  lemma FirstDecoded(e: Encoding, cs: seq<code>, rest: seq<byte>)
    requires AllAllowed(cs) && cs != []
    ensures EncAll(e, cs) + rest == Enc(e, cs[0]) + (EncAll(e, cs[1..]) + rest) && AllAllowed(cs[1..])
    ensures EncAll(e, cs) + rest != [] && Decode(e, EncAll(e, cs) + rest) == Char(cs[0], |Enc(e, cs[0])|)
  {
    assert cs[0] in cs;
    EncAssoc(Enc(e, cs[0]), EncAll(e, cs[1..]), rest);
    DecodeExact(e, EncAll(e, cs) + rest, cs[0]);
  }

  lemma SameTail(a: seq<byte>, b: seq<byte>, c: seq<byte>)
    requires a + b == a + c
    ensures b == c
  {
    assert (a + b)[|a|..] == b && (a + c)[|a|..] == c;
  }

  /** A text that goes on with something that is not the encoding of an allowed character is none. */
  lemma {:induction false} NotAText(e: Encoding, cs: seq<code>, rest: seq<byte>, ds: seq<code>)
    requires AllAllowed(cs) && rest != [] && AllAllowed(ds)
    requires Decode(e, rest).Char? ==> !Allowed(Decode(e, rest).value)
    ensures EncAll(e, cs) + rest != EncAll(e, ds)
    decreases |cs|
  {
    var s := EncAll(e, cs) + rest;
    assert cs == [] ==> s == rest;
    if s == EncAll(e, ds) {
      assert EncAll(e, ds) + [] == s && ds[0] in ds;
      FirstDecoded(e, ds, []);
      if cs != [] {
        FirstDecoded(e, cs, rest);
        SameTail(Enc(e, cs[0]), EncAll(e, ds[1..]) + [], EncAll(e, cs[1..]) + rest);
        NotAText(e, cs[1..], rest, ds[1..]);
      }
      assert false;
    }
  }

  lemma NotWellFormed(e: Encoding, cs: seq<code>, rest: seq<byte>)
    requires AllAllowed(cs) && rest != []
    requires Decode(e, rest).Char? ==> !Allowed(Decode(e, rest).value)
    ensures !WellFormed(e, EncAll(e, cs) + rest)
  {
    forall ds: seq<code> | AllAllowed(ds) ensures EncAll(e, ds) != EncAll(e, cs) + rest { NotAText(e, cs, rest, ds); }
  }

  // ----- byte order marks -----

  const BOM8: seq<byte> := [0xEF, 0xBB, 0xBF]
  const BOM16LE: seq<byte> := [0xFF, 0xFE]
  const BOM16BE: seq<byte> := [0xFE, 0xFF]

  /** The encoding that the first bytes of a text tell, and the mark that tells it. */
  function Detect(s: seq<byte>): (r: (Encoding, seq<byte>))
    ensures r.1 <= s
  {
    if BOM16LE <= s then (Utf16LE, BOM16LE)
    else if BOM16BE <= s then (Utf16BE, BOM16BE)
    else if BOM8 <= s then (Utf8, BOM8)
    else (Utf8, [])
  }

  lemma DetectMore(s: seq<byte>, t: seq<byte>)
    requires s <= t && (|s| >= 3 || s == t)
    ensures Detect(s) == Detect(t)
  {}

  /** The marks byte by byte. */
  lemma DetectOctets(s: seq<byte>)
    ensures Detect(s) ==
      if |s| >= 2 && s[0] == 0xFF && s[1] == 0xFE then (Utf16LE, s[..2])
      else if |s| >= 2 && s[0] == 0xFE && s[1] == 0xFF then (Utf16BE, s[..2])
      else if |s| >= 3 && s[0] == 0xEF && s[1] == 0xBB && s[2] == 0xBF then (Utf8, s[..3])
      else (Utf8, s[..0])
  {
    if |s| >= 2 { assert s[..2] == [s[0], s[1]]; }
    if |s| >= 3 { assert s[..3] == [s[0], s[1], s[2]]; }
  }
}
