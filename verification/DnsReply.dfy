// What a client can rely on when it reads a reply of the mapper.
module DnsReply {
  import opened Records
  import opened NetworkOrder
  import opened Lru
  import opened DnsMessage

  // ----- reading a reply -----

  datatype Address = Address(target: int, ip: nat)

  /** A 32-bit number in network order. */
  ghost function U32(r: seq<byte>, off: nat): nat
    requires off + 3 < |r|
  {
    U16(r, off) * 0x1_0000 + U16(r, off + 2)
  }

  /** n answer records from off on, as a client reads them: what the name pointer points to, and the address. */
  ghost function ReadAnswers(r: seq<byte>, off: nat, n: nat): (a: seq<Address>)
    requires off + 16 * n <= |r|
    ensures |a| == n
    decreases n
  {
    if n == 0 then [] else [Address(U16(r, off) - 0xc000, U32(r, off + 12))] + ReadAnswers(r, off + 16, n - 1)
  }

  ghost function AddressOf(a: Answer, net: nat): Address
    requires a.idx >= 0
  {
    Address(Pointer(a.at) - 0xc000, (net + a.idx) % 0x1_0000_0000)
  }

  ghost function Addresses(answers: seq<Answer>, net: nat): (a: seq<Address>)
    requires forall i | 0 <= i < |answers| :: answers[i].idx >= 0
    ensures |a| == |answers|
  {
    if answers == [] then [] else [AddressOf(answers[0], net)] + Addresses(answers[1..], net)
  }

  lemma RecordRead(head: seq<byte>, at: nat, ip: nat, tail: seq<byte>)
    ensures var r := head + Record(at, ip) + tail;
      U16(r, |head|) == Pointer(at) && U32(r, |head| + 12) == ip % 0x1_0000_0000
  {
    var r, rec := head + Record(at, ip) + tail, Record(at, ip);
    assert forall i | 0 <= i < 16 :: r[|head| + i] == rec[i];
    assert rec[0] == Bytes16(Pointer(at))[0] && rec[1] == Bytes16(Pointer(at))[1];
    assert forall i | 0 <= i < 4 :: rec[12 + i] == Bytes32(ip)[i];
  }

  /** Reading gives back what was written. */
  lemma {:induction false} AnswersRead(head: seq<byte>, answers: seq<Answer>, net: nat)
    requires forall i | 0 <= i < |answers| :: answers[i].idx >= 0
    ensures ReadAnswers(head + Recs(answers, net), |head|, |answers|) == Addresses(answers, net)
    decreases |answers|
  {
    if answers != [] {
      var a, rest := answers[0], answers[1..];
      var rec := Record(a.at, net + a.idx);
      Assoc(head, rec, Recs(rest, net));
      RecordRead(head, a.at, net + a.idx, Recs(rest, net));
      AnswersRead(head + rec, rest, net);
      ReadFirst(head, rec, Recs(rest, net), AddressOf(a, net), |rest|);
    }
  }

  lemma ReadFirst(head: seq<byte>, rec: seq<byte>, tail: seq<byte>, first: Address, n: nat)
    requires |rec| == 16 && |tail| == 16 * n
    requires var r := head + rec + tail; first == Address(U16(r, |head|) - 0xc000, U32(r, |head| + 12))
    ensures ReadAnswers(head + rec + tail, |head|, n + 1) == [first] + ReadAnswers(head + rec + tail, |head + rec|, n)
  {}

  /** The reply carries the id, the question count and the questions as they came, the response bit,
      and the number of its answers; read back, the answers are those that were served. */
  lemma ReplyReads(q: seq<byte>, room: nat, es: seq<Entry>, max: nat, net: nat, memory: seq<bool>)
    requires max > 0 && |memory| >= MAX_QUESTIONS && Respond(q, room, es, max, net, memory).1.Sent?
    ensures var r := Respond(q, room, es, max, net, memory).1.bytes;
      var p := Parse(q, HEADER, U16(q, 4)); var answers := Serve(es, max, p.qs, memory).1;
      && HEADER <= p.end <= |q| && |r| == p.end + 16 * |answers| <= room
      && r[..2] == q[..2] && U16(r, 4) == U16(q, 4) && U16(r, 6) == |answers| && r[HEADER..p.end] == q[HEADER..p.end]
      && r[2] >= 128 && Parse(r, HEADER, U16(r, 4)) == p
      && ReadAnswers(r, p.end, U16(r, 6)) == Addresses(answers, net)
  {
    var r := Respond(q, room, es, max, net, memory).1.bytes;
    var p := Parse(q, HEADER, U16(q, 4));
    var answers := Serve(es, max, p.qs, memory).1;
    var h := Header(q, |answers|);
    assert r == h + q[HEADER..p.end] + Recs(answers, net);
    HeaderReads(q, |answers|, q[HEADER..p.end] + Recs(answers, net));
    Assoc(h, q[HEADER..p.end], Recs(answers, net));
    assert r[HEADER..p.end] == q[HEADER..p.end];
    ParseKept(q, r, HEADER, U16(q, 4), p.end);
    AnswersRead(h + q[HEADER..p.end], answers, net);
  }

  lemma HeaderReads(q: seq<byte>, n: nat, rest: seq<byte>)
    requires |q| >= HEADER && n <= MAX_QUESTIONS
    ensures var r := Header(q, n) + rest;
      r[..2] == q[..2] && U16(r, 4) == U16(q, 4) && U16(r, 6) == n && r[2] >= 128
  {
    var r, h := Header(q, n) + rest, Header(q, n);
    assert h[4] == q[4..6][0] && h[5] == q[4..6][1];
    assert h[6] == Bytes16(n)[0] && h[7] == Bytes16(n)[1];
  }

  // ----- which questions are answered -----

  ghost function Wanted(qs: seq<Question>): (w: seq<Question>)
    ensures |w| <= |qs|
  {
    if qs == [] then [] else (if qs[0].wanted then [qs[0]] else []) + Wanted(qs[1..])
  }

  ghost function WantedNames(qs: seq<Question>): set<Name> {
    set i | 0 <= i < |qs| && qs[i].wanted :: qs[i].name
  }

  lemma RoundFine(es: seq<Entry>, max: nat, question: Question, memory: bool)
    requires max > 0 && Fine(es, max)
    ensures var r := Round(es, max, question, memory);
      Fine(r.0, max) && r.1 < max && (question.wanted && memory ==> r.1 >= 0)
      && (r.1 >= 0 ==> r.0 == Touch(es, max, question.name) && r.0 != [] && r.0[|r.0| - 1] == Entry(question.name, r.1))
      && (r.1 < 0 ==> r.0 == es)
  {
    TouchFine(es, max, question.name);
    var z := Touch(es, max, question.name);
    assert z != [] && z[|z| - 1].name == question.name && 0 <= z[|z| - 1].idx < max;
  }

  /** As long as memory lasts, there is one answer for each wanted question, in order. */
  lemma {:induction false} EveryWantedAnswered(es: seq<Entry>, max: nat, qs: seq<Question>, memory: seq<bool>)
    requires max > 0 && |memory| >= |qs| && Fine(es, max) && forall i | 0 <= i < |qs| :: memory[i]
    ensures AllAnswer(Serve(es, max, qs, memory).1, Wanted(qs), max)
    decreases |qs|
  {
    if qs != [] {
      var r := Round(es, max, qs[0], memory[0]);
      RoundFine(es, max, qs[0], memory[0]);
      EveryWantedAnswered(r.0, max, qs[1..], memory[1..]);
      OneMoreAnswer(qs[0], r.1, Serve(r.0, max, qs[1..], memory[1..]).1, Wanted(qs[1..]), max);
    }
  }

  /** One answer for each question, in order, each with an index that is in use. */
  ghost predicate AllAnswer(a: seq<Answer>, w: seq<Question>, max: nat) {
    |a| == |w| && (a == [] || (a[0].at == w[0].at && a[0].name == w[0].name && 0 <= a[0].idx < max && AllAnswer(a[1..], w[1..], max)))
  }

  lemma OneMoreAnswer(question: Question, idx: int, a: seq<Answer>, w: seq<Question>, max: nat)
    requires AllAnswer(a, w, max) && idx < max && (idx >= 0 <==> question.wanted)
    ensures AllAnswer(One(question, idx) + a, (if question.wanted then [question] else []) + w, max)
  {
    var a', w' := One(question, idx) + a, (if question.wanted then [question] else []) + w;
    if question.wanted {
      assert a'[1..] == a && w'[1..] == w;
    } else {
      assert a' == a && w' == w;
    }
  }

  // ----- the addresses stay good -----

  /** The questions put to the cache while serving. */
  ghost function Asked(es: seq<Entry>, max: nat, qs: seq<Question>, memory: seq<bool>): seq<Op>
    requires max > 0 && |memory| >= |qs|
    decreases |qs|
  {
    if qs == [] then [] else
    var r := Round(es, max, qs[0], memory[0]);
    (if r.1 >= 0 then [Ask(qs[0].name)] else []) + Asked(r.0, max, qs[1..], memory[1..])
  }

  lemma {:induction false} ServeIsRun(es: seq<Entry>, max: nat, qs: seq<Question>, memory: seq<bool>, later: seq<Op>)
    requires max > 0 && |memory| >= |qs| && Fine(es, max)
    ensures Run(es, max, Asked(es, max, qs, memory) + later) == Run(Serve(es, max, qs, memory).0, max, later)
    ensures TouchedBy(es, max, Asked(es, max, qs, memory) + later)
      <= WantedNames(qs) + TouchedBy(Serve(es, max, qs, memory).0, max, later)
    decreases |qs|
  {
    if qs == [] {
      assert [] + later == later;
    } else {
      var r := Round(es, max, qs[0], memory[0]);
      RoundFine(es, max, qs[0], memory[0]);
      ServeIsRun(r.0, max, qs[1..], memory[1..], later);
      ServeFirst(es, max, qs, memory, later);
    }
  }

  lemma ServeFirst(es: seq<Entry>, max: nat, qs: seq<Question>, memory: seq<bool>, later: seq<Op>)
    requires max > 0 && |memory| >= |qs| && Fine(es, max) && qs != []
    ensures var r := Round(es, max, qs[0], memory[0]); var rest := Asked(r.0, max, qs[1..], memory[1..]) + later;
      && Serve(es, max, qs, memory).0 == Serve(r.0, max, qs[1..], memory[1..]).0
      && Run(es, max, Asked(es, max, qs, memory) + later) == Run(r.0, max, rest)
      && TouchedBy(es, max, Asked(es, max, qs, memory) + later) <= WantedNames(qs) + TouchedBy(r.0, max, rest)
      && WantedNames(qs[1..]) <= WantedNames(qs)
  {
    var r := Round(es, max, qs[0], memory[0]);
    RoundFine(es, max, qs[0], memory[0]);
    WantedNamesHead(qs);
    AskedFirst(es, max, qs[0], r.0, r.1, Asked(r.0, max, qs[1..], memory[1..]), later);
    assert r.1 >= 0 ==> qs[0].wanted;
  }

  lemma AskedFirst(es: seq<Entry>, max: nat, question: Question, es': seq<Entry>, idx: int, rest: seq<Op>, later: seq<Op>)
    requires max > 0 && (idx >= 0 ==> es' == Touch(es, max, question.name)) && (idx < 0 ==> es' == es)
    ensures var ops := (if idx >= 0 then [Ask(question.name)] else []) + rest + later;
      && Run(es, max, ops) == Run(es', max, rest + later)
      && TouchedBy(es, max, ops) == (if idx >= 0 then {question.name} else {}) + TouchedBy(es', max, rest + later)
  {
    var ops := (if idx >= 0 then [Ask(question.name)] else []) + rest + later;
    if idx >= 0 {
      assert ops[0] == Ask(question.name) && ops[1..] == rest + later;
    } else {
      assert ops == rest + later;
    }
  }

  lemma WantedNamesHead(qs: seq<Question>)
    requires qs != []
    ensures WantedNames(qs[1..]) <= WantedNames(qs) && (qs[0].wanted ==> qs[0].name in WantedNames(qs))
  {
    forall n | n in WantedNames(qs[1..]) ensures n in WantedNames(qs) {
      var i :| 0 <= i < |qs[1..]| && qs[1..][i].wanted && qs[1..][i].name == n;
      assert qs[i + 1].wanted;
    }
  }

  /** Every index given out stays with its name until the message is served, and after that through
      any run of questions and packets, if all the names touched are at most max. */
  lemma {:induction false} AnswersStay(es: seq<Entry>, max: nat, qs: seq<Question>, memory: seq<bool>, later: seq<Op>,
                                       names: set<Name>)
    requires max > 0 && |memory| >= |qs| && Fine(es, max) && |names| <= max
    requires WantedNames(qs) <= names && TouchedBy(Serve(es, max, qs, memory).0, max, later) <= names
    ensures forall a | a in Serve(es, max, qs, memory).1 :: Entry(a.name, a.idx) in Run(Serve(es, max, qs, memory).0, max, later)
    decreases |qs|
  {
    if qs != [] {
      var r := Round(es, max, qs[0], memory[0]);
      RoundFine(es, max, qs[0], memory[0]);
      WantedNamesHead(qs);
      AnswersStay(r.0, max, qs[1..], memory[1..], later, names);
      if r.1 >= 0 {
        var ops := Asked(r.0, max, qs[1..], memory[1..]) + later;
        ServeIsRun(r.0, max, qs[1..], memory[1..], later);
        OthersFewer(TouchedBy(r.0, max, ops), names, qs[0].name);
        NameKeepsIndex(es, max, qs[0].name, ops);
      }
    }
  }

  lemma OthersFewer(touched: set<Name>, names: set<Name>, name: Name)
    requires touched <= names && name in names
    ensures |touched - {name}| < |names|
  {
    SubsetSize(touched - {name}, names - {name});
  }

  // ----- the round trip -----

  lemma {:induction false} QuestionsNamed(q: seq<byte>, off: nat, n: nat)
    requires Parse(q, off, n).whole
    ensures forall u | u in Parse(q, off, n).qs :: off <= u.at < Parse(q, off, n).end && u.name == NameAt(q, u.at)
    decreases n
  {
    if n > 0 {
      var first, next := ParseHead(q, off, n);
      QuestionsNamed(q, next, n - 1);
    }
  }

  /** Every answer belongs to one of the questions. */
  lemma {:induction false} AnswersAreOfQuestions(es: seq<Entry>, max: nat, qs: seq<Question>, memory: seq<bool>)
    requires max > 0 && |memory| >= |qs|
    ensures forall a | a in Serve(es, max, qs, memory).1 :: exists u :: u in qs && u.wanted && a.at == u.at && a.name == u.name
    decreases |qs|
  {
    if qs != [] {
      var r := Round(es, max, qs[0], memory[0]);
      AnswersAreOfQuestions(r.0, max, qs[1..], memory[1..]);
      forall a | a in Serve(es, max, qs, memory).1 ensures exists u :: u in qs && u.wanted && a.at == u.at && a.name == u.name {
        if a in One(qs[0], r.1) {
          assert qs[0] in qs;
        } else {
          var u :| u in qs[1..] && u.wanted && a.at == u.at && a.name == u.name;
        }
      }
    }
  }

  /** Answer i of the reply r to a message of `size` bytes belongs to a wanted question, and its pointer
      leads there if and only if that starts in the first 0x4000 bytes. In a message of at most 0x4000
      bytes every question does. */
  ghost predicate PointsTo(r: seq<byte>, p: Parsed, a: Answer, i: nat, size: nat) {
    && |r| >= HEADER && p == Parse(r, HEADER, U16(r, 4)) && p.end + 16 * U16(r, 6) <= |r| && i < U16(r, 6)
    && (exists u :: u in p.qs && u.wanted && u.at == a.at < |r| && u.name == a.name == NameAt(r, a.at))
    && (ReadAnswers(r, p.end, U16(r, 6))[i].target == a.at <==> a.at < 0x4000)
    && (size <= 0x4000 ==> a.at < 0x4000)
  }

  lemma PointerReach(q: seq<byte>, room: nat, es: seq<Entry>, max: nat, net: nat, memory: seq<bool>, i: nat)
    requires max > 0 && |memory| >= MAX_QUESTIONS && Respond(q, room, es, max, net, memory).1.Sent?
    requires i < |Serve(es, max, Parse(q, HEADER, U16(q, 4)).qs, memory).1|
    ensures var p := Parse(q, HEADER, U16(q, 4));
      PointsTo(Respond(q, room, es, max, net, memory).1.bytes, p, Serve(es, max, p.qs, memory).1[i], i, |q|)
  {
    var r := Respond(q, room, es, max, net, memory).1.bytes;
    var p := Parse(q, HEADER, U16(q, 4));
    var answers := Serve(es, max, p.qs, memory).1;
    ReplyReads(q, room, es, max, net, memory);
    AddressAt(answers, net, i);
    AnswersAreOfQuestions(es, max, p.qs, memory);
    QuestionsNamed(r, HEADER, U16(r, 4));
    var u :| u in p.qs && u.wanted && answers[i].at == u.at && answers[i].name == u.name;
    assert HEADER <= u.at < p.end <= |q|;
  }

  /** The round trip: a client that follows the name pointer of an answer finds the question it
      belongs to, and a packet to the answered address is for the name of that question. It holds
      for every answer that a pointer can reach. */
  lemma AnswersLookUp(q: seq<byte>, room: nat, es: seq<Entry>, max: nat, net: nat, hosts: nat, memory: seq<bool>,
                      later: seq<Op>, names: set<Name>, i: nat)
    requires 0 < max < hosts && net % hosts == 0 && net + hosts <= 0x1_0000_0000 && Fine(es, max)
    requires |memory| >= MAX_QUESTIONS
    requires Respond(q, room, es, max, net, memory).1.Sent?
    requires var p := Parse(q, HEADER, U16(q, 4)); var s := Serve(es, max, p.qs, memory);
      i < |s.1| && |names| <= max && WantedNames(p.qs) <= names && TouchedBy(s.0, max, later) <= names
    ensures var at := Serve(es, max, Parse(q, HEADER, U16(q, 4)).qs, memory).1[i].at;
      |q| <= 0x4000 || at < 0x4000 ==>
        var a := Respond(q, room, es, max, net, memory);
        var r := a.1.bytes; var p := Parse(r, HEADER, U16(r, 4));
        && p.end + 16 * U16(r, 6) <= |r| && i < U16(r, 6)
        && GoodAnswer(ReadAnswers(r, p.end, U16(r, 6))[i], r, p.qs, hosts, Run(a.0, max, later))
  {
    var p := Parse(q, HEADER, U16(q, 4));
    var s := Serve(es, max, p.qs, memory);
    PointerReach(q, room, es, max, net, memory, i);
    ReplyReads(q, room, es, max, net, memory);
    var r := Respond(q, room, es, max, net, memory).1.bytes;
    AddressAt(s.1, net, i);
    if s.1[i].at < 0x4000 { ServedWell(r, U16(r, 4), es, max, memory, net, hosts, later, names, s.1[i]); }
  }

  lemma {:induction false} AddressAt(answers: seq<Answer>, net: nat, i: nat)
    requires i < |answers| && forall i | 0 <= i < |answers| :: answers[i].idx >= 0
    ensures Addresses(answers, net)[i] == AddressOf(answers[i], net) && answers[i] in answers
  {
    if i > 0 { AddressAt(answers[1..], net, i - 1); }
  }

  lemma {:induction false} ServedWell(r: seq<byte>, n: nat, es: seq<Entry>, max: nat, memory: seq<bool>, net: nat, hosts: nat,
                                      later: seq<Op>, names: set<Name>, a: Answer)
    requires 0 < max < hosts && net % hosts == 0 && net + hosts <= 0x1_0000_0000 && Fine(es, max) && |memory| >= n
    requires Parse(r, HEADER, n).whole && |names| <= max
    requires var qs := Parse(r, HEADER, n).qs; var s := Serve(es, max, qs, memory);
      a in s.1 && a.at < 0x4000 && a.idx >= 0 && WantedNames(qs) <= names && TouchedBy(s.0, max, later) <= names
    ensures var qs := Parse(r, HEADER, n).qs;
      GoodAnswer(AddressOf(a, net), r, qs, hosts,
                 Run(Serve(es, max, qs, memory).0, max, later))
  {
    var qs := Parse(r, HEADER, n).qs;
    var now := Run(Serve(es, max, qs, memory).0, max, later);
    AnswerNamed(r, n, es, max, memory, a);
    AnswersStay(es, max, qs, memory, later, names);
    ServeFine(es, max, qs, memory);
    RunFine(Serve(es, max, qs, memory).0, max, later);
    LooksUp(r, qs, net, hosts, max, now, a);
  }

  lemma LooksUp(r: seq<byte>, qs: seq<Question>, net: nat, hosts: nat, max: nat, now: seq<Entry>, a: Answer)
    requires 0 < max < hosts && net % hosts == 0 && net + hosts <= 0x1_0000_0000 && Fine(now, max) && Entry(a.name, a.idx) in now
    requires HEADER <= a.at < 0x4000 && a.idx >= 0 && a.name == NameAt(r, a.at)
    requires exists u :: u in qs && u.wanted && u.at == a.at && u.name == NameAt(r, a.at)
    ensures GoodAnswer(AddressOf(a, net), r, qs, hosts, now)
  {
    HostPart(net, hosts, a.idx, max, now, a.name);
  }

  lemma AnswerNamed(r: seq<byte>, n: nat, es: seq<Entry>, max: nat, memory: seq<bool>, a: Answer)
    requires max > 0 && |memory| >= n && Parse(r, HEADER, n).whole && a in Serve(es, max, Parse(r, HEADER, n).qs, memory).1
    ensures a.at >= HEADER && a.name == NameAt(r, a.at)
    ensures exists u :: u in Parse(r, HEADER, n).qs && u.wanted && u.at == a.at && u.name == NameAt(r, a.at)
  {
    AnswersAreOfQuestions(es, max, Parse(r, HEADER, n).qs, memory);
    QuestionsNamed(r, HEADER, n);
  }

  /** The answer points to a wanted question of the message, and its address is for that question's name. */
  ghost predicate GoodAnswer(a: Address, r: seq<byte>, qs: seq<Question>, hosts: nat, now: seq<Entry>)
    requires hosts > 0
  {
    && a.target >= HEADER && (exists u :: u in qs && u.wanted && u.at == a.target && u.name == NameAt(r, a.target))
    && var k := FindIdx(now, a.ip % hosts); k < |now| && now[k].name == NameAt(r, a.target)
  }

  lemma {:induction false} ServeFine(es: seq<Entry>, max: nat, qs: seq<Question>, memory: seq<bool>)
    requires max > 0 && |memory| >= |qs| && Fine(es, max)
    ensures Fine(Serve(es, max, qs, memory).0, max)
    decreases |qs|
  {
    if qs != [] {
      RoundFine(es, max, qs[0], memory[0]);
      ServeFine(Round(es, max, qs[0], memory[0]).0, max, qs[1..], memory[1..]);
    }
  }

  /** The host part of a produced address is the index again. */
  lemma HostPart(net: nat, hosts: nat, idx: int, max: nat, now: seq<Entry>, name: Name)
    requires 0 < max < hosts && net % hosts == 0 && net + hosts <= 0x1_0000_0000 && Fine(now, max)
    requires Entry(name, idx) in now
    ensures 0 <= idx < max
    ensures var k := FindIdx(now, ((net + idx) % 0x1_0000_0000) % hosts); k < |now| && now[k].name == name
  {
    var j :| 0 <= j < |now| && now[j] == Entry(name, idx);
    assert (net + idx) % 0x1_0000_0000 == net + idx;
    SumMod(net, hosts, idx);
    var k := FindIdx(now, idx);
    assert k == j;
  }

  lemma SumMod(net: nat, hosts: nat, idx: nat)
    requires hosts > 0 && net % hosts == 0 && idx < hosts
    ensures (net + idx) % hosts == idx
  {
    var k := net / hosts;
    assert net == k * hosts;
    assert (net + idx) == k * hosts + idx;
    ModUnique(net + idx, hosts, k, idx);
  }

  lemma ModUnique(x: nat, d: nat, k: nat, r: nat)
    requires d > 0 && r < d && x == k * d + r
    ensures x % d == r
  {
    var m := x / d - k;
    assert m * d == (x / d) * d - k * d;
    assert m * d == r - x % d;
    if m >= 1 { MulAtLeast(m, d); } else if m <= -1 { MulAtLeast(-m, d); }
  }

  lemma MulAtLeast(m: nat, d: nat)
    requires m >= 1
    ensures m * d >= d
  {
    assert m * d == (m - 1) * d + d;
  }
}
