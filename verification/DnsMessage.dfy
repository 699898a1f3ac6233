// DNS messages: the questions of a request and the reply built for them (section 4.1 of RFC 1035).
module DnsMessage {
  import opened Records
  import opened NetworkOrder
  import opened Lru
  import opened Sealing

  const HEADER: nat := 12
  const MAX_QUESTIONS: nat := 32
  const DOT: byte := 46

  // ----- reading a name -----

  /** Where the name at off ends (just behind its zero byte), if it ends within q. */
  ghost function NameEnd(q: seq<byte>, off: nat): (e: int)
    ensures e == -1 || off < e <= |q|
    decreases |q| - off
  {
    if off >= |q| then -1
    else if q[off] == 0 then off + 1
    else NameEnd(q, off + 1 + q[off])
  }

  /** The labels from off on, each with a dot in the place of its length byte. */
  ghost function Dotted(q: seq<byte>, off: nat): seq<byte>
    decreases |q| - off
  {
    if off >= |q| || q[off] == 0 || off + 1 + q[off] >= |q| then []
    else [DOT] + q[off + 1..off + 1 + q[off]] + Dotted(q, off + 1 + q[off])
  }

  /** The bytes before the first NUL. */
  function CString(s: seq<byte>): (t: seq<byte>)
    ensures |t| <= |s|
  {
    if s == [] || s[0] == 0 then [] else [s[0]] + CString(s[1..])
  }

  /** The name asked for at off: its labels joined by dots. */
  ghost function NameAt(q: seq<byte>, off: nat): Name {
    var d := Dotted(q, off);
    if d == [] then [] else CString(d[1..])
  }

  lemma {:induction false} DottedLength(q: seq<byte>, off: nat)
    requires NameEnd(q, off) != -1
    ensures |Dotted(q, off)| == NameEnd(q, off) - 1 - off
    decreases |q| - off
  {
    if q[off] != 0 {
      DottedLength(q, off + 1 + q[off]);
    }
  }

  /** The walk of one name ends inside the buffer or is refused, and leaves the dotted name behind. */
  method ReadName(rb: array<byte>, start: nat) returns (off: int)
    modifies rb
    ensures off == NameEnd(old(rb[..]), start)
    ensures off != -1 ==> rb[..] == old(rb[..start] + Dotted(rb[..], start) + rb[NameEnd(rb[..], start) - 1..])
  {
    ghost var q := rb[..];
    if start >= rb.Length {
      return -1;
    }
    off := start;
    while rb[off] != 0
      invariant start <= off < rb.Length
      invariant NameEnd(q, start) == NameEnd(q, off) && Dotted(q, start) == rb[start..off] + Dotted(q, off)
      invariant rb[..start] == q[..start] && rb[off..] == q[off..]
      decreases rb.Length - off
    {
      assert rb[off] == q[off] by { assert rb[off..][0] == q[off..][0]; }
      var poff := off;
      off := off + 1 + rb[off];
      if off >= rb.Length {
        return -1;
      }
      ghost var before := rb[..];
      rb[poff] := DOT;
      DottedStep(q, before, rb[..], start, poff, off);
    }
    NameDone(q, rb[..], start, off);
    off := off + 1;
  }

  lemma NameDone(q: seq<byte>, b: seq<byte>, start: nat, off: nat)
    requires start <= off < |q| == |b| && b[..start] == q[..start] && b[off..] == q[off..] && b[off] == 0
    requires NameEnd(q, start) == NameEnd(q, off) && Dotted(q, start) == b[start..off] + Dotted(q, off)
    ensures NameEnd(q, start) == off + 1 && b == q[..start] + Dotted(q, start) + q[off..]
  {
    assert b[off..][0] == q[off..][0];
    assert b == b[..start] + b[start..off] + b[off..];
  }

  lemma {:induction false} DottedStep(q: seq<byte>, b: seq<byte>, b': seq<byte>, start: nat, poff: nat, off: nat)
    requires start <= poff < |q| && q[poff] != 0 && off == poff + 1 + q[poff] < |q| && |b| == |q|
    requires Dotted(q, start) == b[start..poff] + Dotted(q, poff) && b[poff..] == q[poff..] && b' == b[poff := DOT]
    ensures Dotted(q, start) == b'[start..off] + Dotted(q, off)
    ensures b'[..start] == b[..start] && b'[off..] == q[off..]
  {
    assert forall i | poff <= i < |q| :: b[i] == b[poff..][i - poff] == q[poff..][i - poff] == q[i];
    assert b'[start..off] == b[start..poff] + ([DOT] + q[poff + 1..off]);
    assert b'[start..off] + Dotted(q, off) == b[start..poff] + ([DOT] + q[poff + 1..off] + Dotted(q, off));
  }

  /** strdup of the text behind the first dot: up to the next NUL byte. */
  method CStringAt(rb: array<byte>, start: nat) returns (name: Name)
    requires start < rb.Length
    ensures name == CString(rb[start..])
  {
    var n := start;
    while n < rb.Length && rb[n] != 0
      invariant start <= n <= rb.Length
      invariant CString(rb[start..]) == rb[start..n] + CString(rb[n..])
    {
      assert rb[n..][1..] == rb[n + 1..];
      assert rb[start..n + 1] == rb[start..n] + [rb[n]];
      n := n + 1;
    }
    name := rb[start..n];
  }

  /** What the search sees behind the dot is the name of the question. */
  lemma NameSeen(q: seq<byte>, rb: seq<byte>, start: nat)
    requires NameEnd(q, start) != -1
    requires rb == q[..start] + Dotted(q, start) + q[NameEnd(q, start) - 1..]
    requires q[start] == 0 ==> start + 1 < |q| && q[start + 1] == 0
    ensures start + 1 < |rb| && CString(rb[start + 1..]) == NameAt(q, start)
  {
    var d, e := Dotted(q, start), NameEnd(q, start) - 1;
    DottedLength(q, start);
    NameEndsInZero(q, start);
    if d == [] {
      assert rb == q;
      assert rb[start + 1..][0] == 0;
    } else {
      assert rb[start + 1..] == d[1..] + q[e..];
      CStringStops(d[1..], q[e..]);
    }
  }

  lemma {:induction false} NameEndsInZero(q: seq<byte>, off: nat)
    requires NameEnd(q, off) != -1
    ensures q[NameEnd(q, off) - 1] == 0
    decreases |q| - off
  {
    if q[off] != 0 { NameEndsInZero(q, off + 1 + q[off]); }
  }

  lemma {:induction false} CStringStops(s: seq<byte>, t: seq<byte>)
    requires t != [] && t[0] == 0
    ensures CString(s + t) == CString(s)
  {
    if s != [] && s[0] != 0 {
      assert (s + t)[1..] == s[1..] + t;
      CStringStops(s[1..], t);
    }
  }

  // ----- the questions -----

  datatype Question = Question(at: nat, name: Name, wanted: bool)

  /** The well-formed questions at the start, where they end, and whether that was all of them. */
  datatype Parsed = Parsed(qs: seq<Question>, end: nat, whole: bool)

  datatype Reading = Broken | Good(question: Question, next: nat)

  /** The question at off; it is wanted if it asks for an A record (1) of class IN (1). */
  ghost function QuestionAt(q: seq<byte>, off: nat): (r: Reading)
    ensures r.Good? ==> off < r.next <= |q|
  {
    var e := NameEnd(q, off);
    if e == -1 || e + 3 >= |q| then Broken
    else Good(Question(off, NameAt(q, off), U16(q, e) == 1 && U16(q, e + 2) == 1), e + 4)
  }

  /** n questions from off on. */
  ghost function Parse(q: seq<byte>, off: nat, n: nat): (p: Parsed)
    ensures |p.qs| <= n && off <= p.end && (p.end <= |q| || p.end == off)
    ensures p.whole ==> |p.qs| == n
    decreases n
  {
    if n == 0 then Parsed([], off, true) else
    match QuestionAt(q, off)
    case Broken => Parsed([], off, false)
    case Good(first, next) => More(first, Parse(q, next, n - 1))
  }

  /** q and r have the same bytes from off to end. */
  ghost predicate Same(q: seq<byte>, r: seq<byte>, off: nat, end: nat) {
    forall k: nat :: Unsealed(k) ==> off <= end <= |q| && end <= |r| && q[off..end] == r[off..end]
  }

  lemma SamePart(q: seq<byte>, r: seq<byte>, off: nat, next: nat, end: nat)
    requires Same(q, r, off, end) && off <= next <= end
    ensures end <= |q| && end <= |r| && q[off..next] == r[off..next] && Same(q, r, next, end) && (off < end ==> q[off] == r[off])
  {
    assert Unsealed(0);
    PartKept(q, r, off, next, end);
    assert q[off..next] == q[off..end][..next - off] == r[off..end][..next - off] == r[off..next];
    if off < end { assert q[off] == q[off..end][0] == r[off..end][0] == r[off]; }
  }

  /** Names and questions depend only on the bytes from their start to their end. */
  lemma {:induction false} NameKept(q: seq<byte>, r: seq<byte>, off: nat, end: nat)
    requires Same(q, r, off, end) && off < NameEnd(q, off) <= end
    ensures NameEnd(r, off) == NameEnd(q, off) && Dotted(r, off) == Dotted(q, off)
    decreases |q| - off
  {
    SamePart(q, r, off, off, end);
    if q[off] != 0 {
      var o := off + 1 + q[off];
      SamePart(q, r, off, off + 1, end);
      SamePart(q, r, off + 1, o, end);
      NameKept(q, r, o, end);
    }
  }

  lemma QuestionKept(q: seq<byte>, r: seq<byte>, off: nat, end: nat)
    requires off <= end <= |q| && end <= |r| && q[off..end] == r[off..end]
    requires QuestionAt(q, off).Good? && QuestionAt(q, off).next <= end
    ensures QuestionAt(r, off) == QuestionAt(q, off)
  {
    NameKept(q, r, off, end);
    assert forall i | off <= i < end :: q[i] == q[off..end][i - off] == r[off..end][i - off] == r[i];
  }

  ghost function More(first: Question, rest: Parsed): Parsed {
    Parsed([first] + rest.qs, rest.end, rest.whole)
  }

  lemma PartKept(q: seq<byte>, r: seq<byte>, off: nat, next: nat, end: nat)
    requires off <= next <= end <= |q| && end <= |r| && q[off..end] == r[off..end]
    ensures q[next..end] == r[next..end]
  {
    assert q[next..end] == q[off..end][next - off..] == r[off..end][next - off..] == r[next..end];
  }

  lemma {:induction false} ParseKept(q: seq<byte>, r: seq<byte>, off: nat, n: nat, end: nat)
    requires off <= end <= |q| && end <= |r| && q[off..end] == r[off..end]
    requires Parse(q, off, n).whole && Parse(q, off, n).end <= end
    ensures Parse(r, off, n) == Parse(q, off, n)
    decreases n
  {
    if n > 0 {
      var first, next := ParseHead(q, off, n);
      QuestionKept(q, r, off, end);
      PartKept(q, r, off, next, end);
      ParseKept(q, r, next, n - 1, end);
    }
  }

  lemma ParseHead(q: seq<byte>, off: nat, n: nat) returns (first: Question, next: nat)
    requires n > 0 && Parse(q, off, n).whole
    ensures QuestionAt(q, off) == Good(first, next)
    ensures off < next <= Parse(q, off, n).end
    ensures var rest := Parse(q, next, n - 1); rest.whole && Parse(q, off, n) == More(first, rest)
  {
    first, next := QuestionAt(q, off).question, QuestionAt(q, off).next;
  }

  /** Overwriting what lies before off changes no question from off on. */
  lemma {:induction false} NameBehind(q: seq<byte>, r: seq<byte>, off: nat)
    requires off <= |q| == |r| && q[off..] == r[off..]
    ensures NameEnd(r, off) == NameEnd(q, off) && Dotted(r, off) == Dotted(q, off)
    decreases |q| - off
  {
    if off < |q| {
      assert forall i | off <= i < |q| :: q[i] == q[off..][i - off] == r[off..][i - off] == r[i];
      var o := off + 1 + q[off];
      if q[off] != 0 && o < |q| {
        assert q[o..] == q[off..][o - off..] == r[off..][o - off..] == r[o..];
        NameBehind(q, r, o);
        assert q[off + 1..o] == r[off + 1..o];
      }
    }
  }

  lemma QuestionBehind(q: seq<byte>, r: seq<byte>, off: nat)
    requires off <= |q| == |r| && q[off..] == r[off..]
    ensures QuestionAt(r, off) == QuestionAt(q, off)
  {
    NameBehind(q, r, off);
    assert forall i | off <= i < |q| :: q[i] == q[off..][i - off] == r[off..][i - off] == r[i];
  }

  // ----- answering -----

  datatype Answer = Answer(at: nat, name: Name, idx: int)

  /** Asks the cache for a name; without memory an unknown name gets no index. */
  ghost function Ask1(es: seq<Entry>, max: nat, name: Name, memory: bool): (r: (seq<Entry>, int))
    requires max > 0
  {
    if Find(es, name) == |es| && !memory then (es, -1)
    else var es' := Touch(es, max, name); (es', if es' == [] then -1 else es'[|es'| - 1].idx)
  }

  /** A question that is not wanted changes nothing and gets no index. */
  ghost function Round(es: seq<Entry>, max: nat, question: Question, memory: bool): (r: (seq<Entry>, int))
    requires max > 0
  {
    if question.wanted then Ask1(es, max, question.name, memory) else (es, -1)
  }

  ghost function One(question: Question, idx: int): seq<Answer> {
    if idx >= 0 then [Answer(question.at, question.name, idx)] else []
  }

  /** The cache after the questions were served in order, and the answers. */
  ghost function Serve(es: seq<Entry>, max: nat, qs: seq<Question>, memory: seq<bool>): (r: (seq<Entry>, seq<Answer>))
    requires max > 0 && |memory| >= |qs|
    ensures |r.1| <= |qs| && forall i | 0 <= i < |r.1| :: r.1[i].idx >= 0
    decreases |qs|
  {
    if qs == [] then (es, []) else
    var r := Round(es, max, qs[0], memory[0]);
    var rest := Serve(r.0, max, qs[1..], memory[1..]);
    (rest.0, One(qs[0], r.1) + rest.1)
  }

  /** Being done with es', a' and rest to go amounts to serving p from es. */
  ghost predicate Continues(es: seq<Entry>, max: nat, p: Parsed, memory: seq<bool>,
                            es': seq<Entry>, done: seq<Answer>, rest: Parsed, memory': seq<bool>)
    requires max > 0
  {
    && |memory| >= |p.qs| && |memory'| >= |rest.qs| && p.whole == rest.whole && p.end == rest.end
    && var s, s' := Serve(es, max, p.qs, memory), Serve(es', max, rest.qs, memory');
      s.0 == s'.0 && s.1 == done + s'.1
  }

  /** One more question served. */
  lemma ContinueStep(es: seq<Entry>, max: nat, p: Parsed, memory: seq<bool>,
                     es': seq<Entry>, done: seq<Answer>, question: Question, rest: Parsed, memory': seq<bool>)
    requires max > 0 && Continues(es, max, p, memory, es', done, More(question, rest), memory')
    ensures var r := Round(es', max, question, memory'[0]);
      Continues(es, max, p, memory, r.0, done + One(question, r.1), rest, memory'[1..])
  {
    var m := More(question, rest);
    assert m.qs[0] == question && m.qs[1..] == rest.qs;
    var r := Round(es', max, question, memory'[0]);
    var s := Serve(r.0, max, rest.qs, memory'[1..]);
    assert done + One(question, r.1) + s.1 == done + (One(question, r.1) + s.1);
  }

  /** Nothing follows a malformed question or the last one. */
  lemma ContinueEnds(es: seq<Entry>, max: nat, p: Parsed, memory: seq<bool>,
                     es': seq<Entry>, done: seq<Answer>, off: nat, memory': seq<bool>, whole: bool)
    requires max > 0 && Continues(es, max, p, memory, es', done, Parsed([], off, whole), memory')
    ensures Serve(es, max, p.qs, memory) == (es', done) && p.whole == whole && p.end == off
  {
    assert done + [] == done;
  }

  /** What the next round of the loop has to do. */
  lemma ContinueNext(es: seq<Entry>, max: nat, p: Parsed, memory: seq<bool>,
                     es': seq<Entry>, done: seq<Answer>, q: seq<byte>, off: nat, k: nat, memory': seq<bool>)
    requires max > 0 && k > 0 && |memory'| >= k && Continues(es, max, p, memory, es', done, Parse(q, off, k), memory')
    ensures match QuestionAt(q, off)
      case Broken => Serve(es, max, p.qs, memory).0 == es' && !p.whole
      case Good(question, next) =>
        var r := Round(es', max, question, memory'[0]);
        Continues(es, max, p, memory, r.0, done + One(question, r.1), Parse(q, next, k - 1), memory'[1..])
  {
    match QuestionAt(q, off)
    case Broken => ContinueEnds(es, max, p, memory, es', done, off, memory', false);
    case Good(question, next) => ContinueStep(es, max, p, memory, es', done, question, Parse(q, next, k - 1), memory');
  }

  /** The first i questions of q are served; what is left starts at off. */
  ghost predicate Served(es: seq<Entry>, max: nat, q: seq<byte>, n: nat, memory: seq<bool>,
                         now: seq<Entry>, done: seq<Answer>, off: nat, i: nat)
    requires max > 0
  {
    i <= n <= |memory| && Continues(es, max, Parse(q, HEADER, n), memory, now, done, Parse(q, off, n - i), memory[i..])
  }

  lemma ServedNone(es: seq<Entry>, max: nat, q: seq<byte>, n: nat, memory: seq<bool>)
    requires max > 0 && n <= |memory|
    ensures Served(es, max, q, n, memory, es, [], HEADER, 0)
  {
    assert memory[0..] == memory;
    var s := Serve(es, max, Parse(q, HEADER, n).qs, memory);
    assert [] + s.1 == s.1;
  }

  /** What a finished or broken loop has computed. */
  ghost predicate Outcome(es: seq<Entry>, max: nat, q: seq<byte>, n: nat, memory: seq<bool>,
                          now: seq<Entry>, done: seq<Answer>, off: int)
    requires max > 0
  {
    var p := Parse(q, HEADER, n);
    && |memory| >= n && now == Serve(es, max, p.qs, memory).0 && off == (if p.whole then p.end else -1)
    && (p.whole ==> done == Serve(es, max, p.qs, memory).1)
  }

  lemma ServedAll(es: seq<Entry>, max: nat, q: seq<byte>, n: nat, memory: seq<bool>,
                  now: seq<Entry>, done: seq<Answer>, off: nat)
    requires max > 0 && Served(es, max, q, n, memory, now, done, off, n)
    ensures Outcome(es, max, q, n, memory, now, done, off)
  {
    ContinueEnds(es, max, Parse(q, HEADER, n), memory, now, done, off, memory[n..], true);
  }

  lemma OutcomeEnd(es: seq<Entry>, max: nat, q: seq<byte>, n: nat, memory: seq<bool>,
                   now: seq<Entry>, done: seq<Answer>, off: int)
    requires max > 0 && HEADER <= |q| && Outcome(es, max, q, n, memory, now, done, off)
    ensures off != -1 ==> HEADER <= off <= |q|
  {}

  lemma ServedOne(es: seq<Entry>, max: nat, q: seq<byte>, n: nat, memory: seq<bool>,
                  now: seq<Entry>, done: seq<Answer>, off: nat, i: nat)
    requires max > 0 && i < n && Served(es, max, q, n, memory, now, done, off, i)
    ensures match QuestionAt(q, off)
      case Broken => Outcome(es, max, q, n, memory, now, done, -1)
      case Good(question, next) =>
        var r := Round(now, max, question, memory[i]);
        Served(es, max, q, n, memory, r.0, done + One(question, r.1), next, i + 1)
  {
    assert memory[i..][1..] == memory[i + 1..];
    ContinueNext(es, max, Parse(q, HEADER, n), memory, now, done, q, off, n - i, memory[i..]);
  }

  // ----- the reply -----

  /** 0xc000 | at, cut to 16 bits: the two top bits set, the other fourteen from at. */
  function Pointer(at: nat): (p: nat)
    ensures 0xc000 <= p < 0x1_0000 && (p - 0xc000 == at <==> at < 0x4000)
  {
    0xc000 + at % 0x4000
  }

  /** One answer record: pointer to the name, type A, class IN, one second to live, the address. */
  function Record(at: nat, ip: nat): (r: seq<byte>)
    ensures |r| == 16
  {
    Bytes16(Pointer(at)) + Bytes16(1) + Bytes16(1) + Bytes32(1) + Bytes16(4) + Bytes32(ip)
  }

  ghost function Recs(answers: seq<Answer>, net: nat): (r: seq<byte>)
    requires forall i | 0 <= i < |answers| :: answers[i].idx >= 0
    ensures |r| == 16 * |answers|
  {
    if answers == [] then []
    else Record(answers[0].at, net + answers[0].idx) + Recs(answers[1..], net)
  }

  /** A byte with its top bit set. */
  function TopBit(b: byte): (t: byte)
    ensures t >= 128 && t % 128 == b % 128
  {
    if b < 128 then b + 128 else b
  }

  /** The reply's header: the request's id and question count, the response bit, recursion available
      if it was desired, and the answer count. */
  function Header(q: seq<byte>, answers: nat): (h: seq<byte>)
    requires |q| >= HEADER
    ensures |h| == HEADER
  {
    q[..2] + [TopBit(q[2]), if q[2] % 2 == 1 then TopBit(q[3]) else q[3]] + q[4..6] + Bytes16(answers) + [0, 0, 0, 0]
  }

  ghost function Reply(q: seq<byte>, end: nat, answers: seq<Answer>, net: nat): (r: seq<byte>)
    requires HEADER <= end <= |q| && forall i | 0 <= i < |answers| :: answers[i].idx >= 0
    ensures |r| == end + 16 * |answers|
  {
    Header(q, |answers|) + q[HEADER..end] + Recs(answers, net)
  }

  method Write16(sb: array<byte>, off: nat, v: nat)
    requires off + 1 < sb.Length
    modifies sb
    ensures sb[..] == old(sb[..off]) + Bytes16(v) + old(sb[off + 2..])
  {
    sb[off] := (v / 256) % 256;
    sb[off + 1] := v % 256;
  }

  method Write32(sb: array<byte>, off: nat, v: nat)
    requires off + 3 < sb.Length
    modifies sb
    ensures sb[..] == old(sb[..off]) + Bytes32(v) + old(sb[off + 4..])
  {
    var high := v / 0x1_0000;
    sb[off] := (high / 256) % 256;
    sb[off + 1] := high % 256;
    sb[off + 2] := (v / 256) % 256;
    sb[off + 3] := v % 256;
  }

  /** The answers go behind the questions if there is room for all of them. */
  method WriteAnswers(sb: array<byte>, end: nat, ipo: array<int>, ips: array<int>, ipn: nat,
                      ghost answers: seq<Answer>, ghost net: nat) returns (off: int)
    requires end <= sb.Length && ipn == |answers| <= ipo.Length && ipn <= ips.Length && Tabled(answers, net, ipo, ips)
    modifies sb
    ensures off == if end + 16 * ipn <= sb.Length then end + 16 * ipn else -1
    ensures off != -1 ==> sb[..off] == old(sb[..end]) + Recs(answers, net)
  {
    off := end;
    ghost var s := sb[..end];
    var i := 0;
    while i < ipn
      invariant 0 <= i <= ipn && off == end + 16 * i <= sb.Length
      invariant sb[..off] == s + Recs(answers[..i], net)
    {
      if off + 15 >= sb.Length {
        return -1;
      }
      ghost var done := sb[..off];
      WriteRecord(sb, off, ipo[i], ips[i]);
      assert sb[..off + 16] == done + Record(answers[i].at, net + answers[i].idx);
      RecsMore(s, answers, net, i);
      off := off + 16;
      i := i + 1;
    }
    assert answers[..ipn] == answers;
  }

  /** i questions have been served; the buffer b still holds the rest of q. */
  ghost predicate Rounds(es: seq<Entry>, max: nat, q: seq<byte>, b: seq<byte>, n: nat, memory: seq<bool>,
                         now: seq<Entry>, done: seq<Answer>, off: int, i: nat)
    requires max > 0
  {
    forall k: nat :: Unsealed(k) ==>
      HEADER <= off <= |q| == |b| && b[off..] == q[off..] && Served(es, max, q, n, memory, now, done, off, i)
  }

  lemma RoundsBegin(es: seq<Entry>, max: nat, q: seq<byte>, b: seq<byte>, n: nat, memory: seq<bool>)
    requires max > 0 && n <= |memory| && HEADER <= |q| == |b| && b[HEADER..] == q[HEADER..]
    ensures Rounds(es, max, q, b, n, memory, es, [], HEADER, 0)
  {
    ServedNone(es, max, q, n, memory);
  }

  /** A malformed question ends the loop; what b shows at off is what q asks there. */
  lemma RoundStarts(es: seq<Entry>, max: nat, q: seq<byte>, b: seq<byte>, n: nat, memory: seq<bool>,
                    now: seq<Entry>, done: seq<Answer>, off: int, i: nat)
    requires max > 0 && i < n && Rounds(es, max, q, b, n, memory, now, done, off, i)
    ensures off >= 0 && (QuestionAt(b, off).Broken? ==> Outcome(es, max, q, n, memory, now, done, -1))
  {
    assert Unsealed(0);
    QuestionBehind(q, b, off);
    ServedOne(es, max, q, n, memory, now, done, off, i);
  }

  lemma RoundGoesOn(es: seq<Entry>, max: nat, q: seq<byte>, b: seq<byte>, b': seq<byte>, n: nat, memory: seq<bool>,
                    now: seq<Entry>, done: seq<Answer>, off: nat, i: nat)
    requires max > 0 && i < n <= |memory| && Rounds(es, max, q, b, n, memory, now, done, off, i)
    requires QuestionAt(b, off).Good? && |b'| == |b|
    requires var next := QuestionAt(b, off).next; b'[next..] == b[next..]
    ensures var question, next := QuestionAt(b, off).question, QuestionAt(b, off).next;
      var r := Round(now, max, question, memory[i]);
      Rounds(es, max, q, b', n, memory, r.0, done + One(question, r.1), next, i + 1)
  {
    assert Unsealed(0);
    QuestionBehind(q, b, off);
    ServedOne(es, max, q, n, memory, now, done, off, i);
    var next := QuestionAt(b, off).next;
    assert b[next..] == b[off..][next - off..] == q[off..][next - off..] == q[next..];
  }

  lemma RoundsEnd(es: seq<Entry>, max: nat, q: seq<byte>, b: seq<byte>, n: nat, memory: seq<bool>,
                  now: seq<Entry>, done: seq<Answer>, off: int)
    requires max > 0 && Rounds(es, max, q, b, n, memory, now, done, off, n)
    ensures Outcome(es, max, q, n, memory, now, done, off)
  {
    assert Unsealed(0);
    ServedAll(es, max, q, n, memory, now, done, off);
  }

  /** The two tables of the handler hold where the questions are and the addresses for them. */
  ghost predicate Tabled(answers: seq<Answer>, net: nat, ipo: array<int>, ips: array<int>)
    reads ipo, ips
  {
    && |answers| <= ipo.Length && |answers| <= ips.Length
    && (forall i | 0 <= i < |answers| :: answers[i].idx >= 0 && ipo[i] == answers[i].at && ips[i] == net + answers[i].idx)
  }

  lemma RecsMore(s: seq<byte>, answers: seq<Answer>, net: nat, i: nat)
    requires i < |answers| && forall i | 0 <= i < |answers| :: answers[i].idx >= 0
    ensures s + Recs(answers[..i + 1], net) == s + Recs(answers[..i], net) + Record(answers[i].at, net + answers[i].idx)
  {
    assert answers[..i + 1] == answers[..i] + [answers[i]];
    RecsConcat(answers[..i], [answers[i]], net);
    assert Recs([answers[i]], net) == Record(answers[i].at, net + answers[i].idx) + Recs([], net);
  }

  lemma {:induction false} RecsConcat(a: seq<Answer>, b: seq<Answer>, net: nat)
    requires (forall i | 0 <= i < |a| :: a[i].idx >= 0) && (forall i | 0 <= i < |b| :: b[i].idx >= 0)
    ensures Recs(a + b, net) == Recs(a, net) + Recs(b, net)
  {
    if a == [] {
      assert a + b == b;
    } else {
      assert (a + b)[1..] == a[1..] + b;
      RecsConcat(a[1..], b, net);
    }
  }

  method Next16(sb: array<byte>, off: nat, v: nat)
    requires off + 1 < sb.Length
    modifies sb
    ensures sb[..off + 2] == old(sb[..off]) + Bytes16(v)
  {
    Write16(sb, off, v);
  }

  method Next32(sb: array<byte>, off: nat, v: nat)
    requires off + 3 < sb.Length
    modifies sb
    ensures sb[..off + 4] == old(sb[..off]) + Bytes32(v)
  {
    Write32(sb, off, v);
  }

  method WriteRecord(sb: array<byte>, off: nat, at: nat, ip: nat)
    requires off + 15 < sb.Length
    modifies sb
    ensures sb[..off + 16] == old(sb[..off]) + Record(at, ip)
  {
    Next16(sb, off, Pointer(at));
    Next16(sb, off + 2, 1);
    Next16(sb, off + 4, 1);
    Next32(sb, off + 6, 1);
    Next16(sb, off + 10, 4);
    Next32(sb, off + 12, ip);
    SixParts(old(sb[..off]), Bytes16(Pointer(at)), Bytes16(1), Bytes16(1), Bytes32(1), Bytes16(4), Bytes32(ip));
  }

  lemma SixParts(s: seq<byte>, a: seq<byte>, b: seq<byte>, c: seq<byte>, d: seq<byte>, e: seq<byte>, f: seq<byte>)
    ensures s + a + b + c + d + e + f == s + (a + b + c + d + e + f)
  {
    Assoc(s, a, b);
    Assoc(s, a + b, c);
    Assoc(s, a + b + c, d);
    Assoc(s, a + b + c + d, e);
    Assoc(s, a + b + c + d + e, f);
  }

  /** The start of the handler: the request is copied and its question count put into host order,
      which for a little-endian host swaps two bytes, as it does for the copied flags. */
  method CopyRequest(rb: array<byte>, sb: array<byte>) returns (qd: nat)
    requires HEADER <= rb.Length <= sb.Length && rb != sb
    modifies rb, sb
    ensures qd == U16(old(rb[..]), 4) && rb[HEADER..] == old(rb[HEADER..])
    ensures sb[..HEADER] == Unfinished(old(rb[..])) && sb[HEADER..rb.Length] == old(rb[HEADER..])
  {
    Copy(rb, sb);
    rb[4], rb[5] := rb[5], rb[4];
    qd := U16([rb[5], rb[4]], 0);
    ResetHeader(sb);
  }

  method Copy(rb: array<byte>, sb: array<byte>)
    requires rb.Length <= sb.Length && rb != sb
    modifies sb
    ensures sb[..rb.Length] == rb[..]
  {
    forall i | 0 <= i < rb.Length {
      sb[i] := rb[i];
    }
  }

  method ResetHeader(sb: array<byte>)
    requires HEADER <= sb.Length
    modifies sb
    ensures sb[..] == Unfinished(old(sb[..])) + old(sb[HEADER..])
  {
    sb[2], sb[3] := sb[3], sb[2];
    sb[6], sb[7], sb[8], sb[9], sb[10], sb[11] := 0, 0, 0, 0, 0, 0;
  }

  /** The reply's header before the flags are final: flags in host order and empty sections. */
  function Unfinished(q: seq<byte>): (h: seq<byte>)
    requires |q| >= HEADER
    ensures |h| == HEADER
  {
    q[..2] + [q[3], q[2]] + q[4..6] + [0, 0, 0, 0, 0, 0]
  }

  /** "fl | 0x8000 | ((fl & 0x100) >> 1)" and the answer count, in network order. */
  method FinishHeader(sb: array<byte>, ipn: nat, ghost q: seq<byte>)
    requires |q| >= HEADER && sb.Length >= HEADER && sb[..HEADER] == Unfinished(q)
    modifies sb
    ensures sb[..] == Header(q, ipn) + old(sb[HEADER..])
  {
    assert forall i | 0 <= i < HEADER :: sb[i] == sb[..HEADER][i];
    var high, low := sb[3], sb[2];
    sb[2] := TopBit(high);
    sb[3] := if high % 2 == 1 then TopBit(low) else low;
    sb[6] := (ipn / 256) % 256;
    sb[7] := ipn % 256;
  }

  /** The end of the handler: the answers and the header. */
  method Complete(sb: array<byte>, end: nat, ipo: array<int>, ips: array<int>, ipn: nat,
                  ghost answers: seq<Answer>, ghost net: nat, ghost q: seq<byte>) returns (r: int)
    requires ipn == |answers| <= ipo.Length && ipn <= ips.Length && Tabled(answers, net, ipo, ips)
    requires HEADER <= end <= |q| <= sb.Length && sb[..HEADER] == Unfinished(q) && sb[HEADER..|q|] == q[HEADER..]
    modifies sb
    ensures if end + 16 * ipn <= sb.Length then r == end + 16 * ipn && sb[..r] == Reply(q, end, answers, net) else r == -1
  {
    ghost var was := sb[..];
    r := WriteAnswers(sb, end, ipo, ips, ipn, answers, net);
    if r == -1 {
      return;
    }
    Overlaid(q, was, sb[..], end, r, Recs(answers, net));
    ghost var written := sb[..];
    FinishHeader(sb, ipn, q);
    Assembled(written, sb[..], r, Header(q, ipn), q[HEADER..end] + Recs(answers, net));
    Assoc(Header(q, ipn), q[HEADER..end], Recs(answers, net));
  }

  lemma Assoc(a: seq<byte>, b: seq<byte>, c: seq<byte>)
    ensures a + (b + c) == a + b + c
  {}

  lemma Assembled(written: seq<byte>, now: seq<byte>, r: nat, header: seq<byte>, rest: seq<byte>)
    requires HEADER <= r <= |written| && |header| == HEADER && now == header + written[HEADER..]
    requires written[HEADER..r] == rest
    ensures r <= |now| && now[..r] == header + rest
  {}

  lemma Overlaid(q: seq<byte>, was: seq<byte>, now: seq<byte>, end: nat, r: nat, recs: seq<byte>)
    requires HEADER <= end <= |q| <= |was| && was[..HEADER] == Unfinished(q) && was[HEADER..|q|] == q[HEADER..]
    requires end <= r <= |now| && now[..r] == was[..end] + recs
    ensures now[..HEADER] == Unfinished(q) && now[HEADER..r] == q[HEADER..end] + recs
  {
    assert was[..end][..HEADER] == was[..HEADER];
    assert now[..r][..HEADER] == now[..HEADER] && now[..r][HEADER..] == now[HEADER..r];
    assert was[HEADER..end] == was[HEADER..|q|][..end - HEADER] == q[HEADER..][..end - HEADER] == q[HEADER..end];
  }

  datatype Response = Rejected | Sent(bytes: seq<byte>)

  /** The handler as a function: the cache it leaves and what it answers with room bytes to write to. */
  ghost function Respond(q: seq<byte>, room: nat, es: seq<Entry>, max: nat, net: nat,
                         memory: seq<bool>): (r: (seq<Entry>, Response))
    requires max > 0 && |memory| >= MAX_QUESTIONS
  {
    if room < |q| || |q| < HEADER || U16(q, 4) > MAX_QUESTIONS then (es, Rejected) else
    var p := Parse(q, HEADER, U16(q, 4));
    var s := Serve(es, max, p.qs, memory);
    (s.0, if p.whole && p.end + 16 * |s.1| <= room then Sent(Reply(q, p.end, s.1, net)) else Rejected)
  }

  lemma Responded(q: seq<byte>, room: nat, es: seq<Entry>, max: nat, net: nat, memory: seq<bool>,
                  now: seq<Entry>, answers: seq<Answer>, off: int)
    requires max > 0 && HEADER <= |q| <= room && U16(q, 4) <= MAX_QUESTIONS <= |memory|
    requires Outcome(es, max, q, U16(q, 4), memory, now, answers, off)
    ensures var a := Respond(q, room, es, max, net, memory);
      && a.0 == now && (off == -1 ==> a.1 == Rejected)
      && (off != -1 ==>
        && HEADER <= off <= |q| && (forall i | 0 <= i < |answers| :: answers[i].idx >= 0)
        && a.1 == if off + 16 * |answers| <= room then Sent(Reply(q, off, answers, net)) else Rejected)
  {}
}
