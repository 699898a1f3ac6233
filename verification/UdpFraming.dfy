// Datagrams carried over the TCP connection: a length header, the address, the data.
module UdpFraming {
  import opened Records
  import opened NetworkOrder
  import opened Sealing
  import opened Addresses

  // ----- frames -----

  /** addr is the memory from the address on. */
  datatype Message = Message(addr: seq<byte>, data: seq<byte>)

  predicate Sendable(m: Message) { |m.addr| >= 2 && 0 < AddrLen(m.addr) <= |m.addr| }

  /** The three pieces of a frame; both lengths are cut to the width of their fields. */
  function Head(m: Message): (h: seq<byte>)
    requires Sendable(m)
    ensures |h| == 3
  {
    Bytes16(|m.data|) + [(3 + AddrLen(m.addr)) % 256]
  }

  function Frame(m: Message): seq<byte>
    requires Sendable(m)
  {
    Head(m) + m.addr[..AddrLen(m.addr)] + m.data
  }

  predicate AllSendable(ms: seq<Message>) { forall m | m in ms :: Sendable(m) }

  function Frames(ms: seq<Message>): seq<byte>
    requires AllSendable(ms)
  {
    if ms == [] then [] else Frame(ms[0]) + Frames(ms[1..])
  }

  function Joined(pieces: seq<seq<byte>>): seq<byte> {
    if pieces == [] then [] else Joined(pieces[..|pieces| - 1]) + pieces[|pieces| - 1]
  }

  lemma JoinedOne(pieces: seq<seq<byte>>, a: seq<byte>)
    ensures Joined(pieces + [a]) == Joined(pieces) + a
  {
    assert (pieces + [a])[..|pieces|] == pieces;
  }

  lemma JoinedThree(pieces: seq<seq<byte>>, a: seq<byte>, b: seq<byte>, c: seq<byte>)
    ensures Joined(pieces + [a, b, c]) == Joined(pieces) + (a + b + c)
  {
    JoinedOne(pieces, a);
    JoinedOne(pieces + [a], b);
    JoinedOne(pieces + [a] + [b], c);
    assert pieces + [a] + [b] + [c] == pieces + [a, b, c];
  }

  lemma {:induction false} FramesSnoc(ms: seq<Message>, m: Message)
    requires AllSendable(ms) && Sendable(m)
    ensures AllSendable(ms + [m]) && Frames(ms + [m]) == Frames(ms) + Frame(m)
  {
    if ms == [] {
      assert [] + [m] == [m] && [m][1..] == [];
      assert Frames([m]) == Frame(m) + [] == Frame(m);
    } else {
      assert (ms + [m])[1..] == ms[1..] + [m];
      FramesSnoc(ms[1..], m);
      JoinAssoc(Frame(ms[0]), Frames(ms[1..]), Frame(m));
    }
  }

  lemma JoinAssoc(a: seq<byte>, b: seq<byte>, c: seq<byte>)
    ensures a + (b + c) == a + b + c
  {}

  // ----- reading frames -----

  /** What the environment answers to the reads for one frame: to the first read for the five bytes up
      to the name's length, to the second if the first was short, and to the read of the rest. A
      positive answer is a number of bytes; 0 is the end of the stream; a negative one an error. */
  datatype Reading = Reading(first: int, more: int, body: int)

  function Positive(x: int): nat { if x > 0 then x else 0 }

  /** The number that is compared with 5: an error of the second read is added like a count. */
  function Got(q: Reading): int {
    if 0 < q.first < 5 then q.first + q.more else q.first
  }

  function HeadUsed(q: Reading): nat {
    if 0 < q.first < 5 then q.first + Positive(q.more) else Positive(q.first)
  }

  /** The lengths that a header gives: of the address and of the data. */
  function AddrPart(s: seq<byte>): int
    requires |s| >= 5
  {
    var n: int := s[2];
    n - 3
  }

  /** room is at least as long as the address. */
  predicate Acceptable(s: seq<byte>, room: nat)
    requires |s| >= 5
  {
    s[2] >= 5 && U16(s, 0) <= room - AddrPart(s)
  }

  /** Answers that the reads can have when the peer's bytes are s. */
  predicate Possible(s: seq<byte>, room: nat, q: Reading) {
    && -2 <= q.first <= 5 && q.first <= |s|
    && (0 < q.first < 5 ==> -2 <= q.more <= 5 - q.first && q.first + q.more <= |s|)
    && (Got(q) == 5 && Acceptable(s, room) ==> -2 <= q.body <= AddrPart(s) - 2 + U16(s, 0) && 5 + q.body <= |s|)
  }

  /** Why a call stopped: all buffers are filled; no new frame has begun; the frame is refused; the
      stream failed inside a frame. */
  datatype Ending = Full | Dry | Refused | Cut

  datatype Step = Stop(result: int, used: nat, ending: Ending) | Took(m: Message, used: nat)

  function ReadFrame(s: seq<byte>, room: nat, q: Reading): (r: Step)
    requires Possible(s, room, q)
    ensures r.used <= |s| && (r.Stop? ==> r.ending != Full)
  {
    if Got(q) != 5 then Stop(Got(q), HeadUsed(q), if q.first <= 0 then Dry else Cut)
    else if !Acceptable(s, room) then Stop(-1, 5, Refused)
    else
      var al, dl := AddrPart(s), U16(s, 0);
      if q.body != al - 2 + dl then Stop(q.body, 5 + Positive(q.body), Cut)
      else Took(Message(s[3..3 + al], s[3 + al..3 + al + dl]), 3 + al + dl)
  }

  datatype Batch = Batch(result: int, taken: seq<Message>, rest: seq<byte>, ending: Ending)

  predicate AllPossible(s: seq<byte>, rooms: seq<nat>, qs: seq<Reading>)
    decreases |rooms|
  {
    rooms == [] || (qs != [] && Possible(s, rooms[0], qs[0])
      && (ReadFrame(s, rooms[0], qs[0]).Took? ==> AllPossible(s[ReadFrame(s, rooms[0], qs[0]).used..], rooms[1..], qs[1..])))
  }

  /** One receive call, after it has already got `got` frames. */
  function Receive(s: seq<byte>, rooms: seq<nat>, qs: seq<Reading>, got: nat): (b: Batch)
    requires AllPossible(s, rooms, qs)
    ensures |b.taken| <= |rooms|
    decreases |rooms|
  {
    if rooms == [] then Batch(got, [], s, Full) else
    match ReadFrame(s, rooms[0], qs[0])
    case Stop(result, used, ending) => Batch(if Got(qs[0]) != 5 && got > 0 then got else result, [], s[used..], ending)
    case Took(m, used) => First(m, Receive(s[used..], rooms[1..], qs[1..], got + 1))
  }

  function First(m: Message, b: Batch): Batch { b.(taken := [m] + b.taken) }

  // ----- what is kept -----

  /** The frame's fields can say what it holds, and the buffer can hold it. */
  predicate Fits(m: Message, room: nat) { |m.addr| <= 252 && |m.data| <= 0xffff && |m.addr| + |m.data| <= room }

  predicate Whole(m: Message) { GoodAddr(m.addr) }

  lemma FrameBytes(m: Message, tail: seq<byte>)
    requires Whole(m)
    ensures var s, al := Frame(m) + tail, |m.addr|;
      && |s| >= 7 && U16(s, 0) == |m.data| % 0x1_0000 && s[2] == (3 + al) % 256
      && s[3..3 + al] == m.addr && s[3 + al..3 + al + |m.data|] == m.data && s[|Frame(m)|..] == tail
  {
    var s, al := Frame(m) + tail, |m.addr|;
    assert m.addr[..al] == m.addr;
    assert s == Head(m) + (m.addr + (m.data + tail));
    assert s[..3] == Head(m) && Head(m)[..2] == Bytes16(|m.data|);
    assert s[0] == Bytes16(|m.data|)[0] && s[1] == Bytes16(|m.data|)[1];
  }

  /** The frame of a message is read back as that message exactly if the message fits. */
  lemma FrameKept(m: Message, tail: seq<byte>, room: nat, q: Reading)
    requires Whole(m) && Possible(Frame(m) + tail, room, q)
    ensures var r := ReadFrame(Frame(m) + tail, room, q);
      && (Fits(m, room) && r.Took? ==> r == Took(m, |Frame(m)|))
      && (Fits(m, room) && r.Stop? ==> r.ending != Refused && (r.ending == Dry ==> r.used == 0 && r.result <= 0))
      && (r.Took? && r.m == m ==> Fits(m, room))
  {
    FrameBytes(m, tail);
  }

  /** The answers of a stream that fails at no place inside the frame of m. */
  function InFull(m: Message): Reading { Reading(5, 0, |m.addr| - 2 + |m.data|) }

  /** They bring a message that fits. */
  lemma FrameArrives(m: Message, tail: seq<byte>, room: nat)
    requires Whole(m) && Fits(m, room)
    ensures Possible(Frame(m) + tail, room, InFull(m)) && ReadFrame(Frame(m) + tail, room, InFull(m)) == Took(m, |Frame(m)|)
  {
    FrameBytes(m, tail);
  }

  predicate Welcome(ms: seq<Message>, rooms: seq<nat>) {
    (forall m | m in ms :: Whole(m)) && (forall m, room | m in ms && room in rooms :: Fits(m, room))
  }

  /** The messages come in order and unchanged; unless the stream fails inside a frame, the call stops
      between two frames and returns the number of messages, or what the read for the first returned. */
  ghost predicate Aligned(b: Batch, ms: seq<Message>, buffers: nat, got: nat) {
    && |b.taken| <= |ms| && b.taken == ms[..|b.taken|] && b.ending != Refused
    && (b.ending != Cut ==> AllSendable(ms[|b.taken|..]) && b.rest == Frames(ms[|b.taken|..]))
    && (b.ending == Full ==> |b.taken| == buffers && b.result == got + buffers)
    && (b.ending == Dry ==> if got + |b.taken| > 0 then b.result == got + |b.taken| else b.result <= 0)
  }

  lemma FirstAligned(b: Batch, ms: seq<Message>, buffers: nat, got: nat)
    requires ms != [] && Aligned(b, ms[1..], buffers, got + 1)
    ensures Aligned(First(ms[0], b), ms, buffers + 1, got)
  {
    var k := |b.taken|;
    assert ms[1..][k..] == ms[k + 1..];
    assert [ms[0]] + ms[1..][..k] == ms[..k + 1];
  }

  lemma StopAligned(ms: seq<Message>, result: int, rest: seq<byte>, ending: Ending, buffers: nat, got: nat)
    requires AllSendable(ms) && ending != Refused && (ending != Cut ==> rest == Frames(ms))
    requires ending == Full ==> buffers == 0 && result == got
    requires ending == Dry ==> if got > 0 then result == got else result <= 0
    ensures Aligned(Batch(result, [], rest, ending), ms, buffers, got)
  {
    assert ms[0..] == ms;
  }

  /** One receive call on a stream of frames. */
  lemma {:induction false} BatchAligned(ms: seq<Message>, rooms: seq<nat>, qs: seq<Reading>, got: nat)
    requires AllSendable(ms) && Welcome(ms, rooms) && AllPossible(Frames(ms), rooms, qs)
    ensures Aligned(Receive(Frames(ms), rooms, qs, got), ms, |rooms|, got)
    decreases |rooms|
  {
    var s := Frames(ms);
    if rooms == [] {
      StopAligned(ms, got, s, Full, 0, got);
    } else {
      FirstStep(ms, rooms[0], qs[0]);
      match ReadFrame(s, rooms[0], qs[0])
      case Stop(result, used, ending) =>
        StopAligned(ms, if Got(qs[0]) != 5 && got > 0 then got else result, s[used..], ending, |rooms|, got);
      case Took(m, used) =>
        BatchAligned(ms[1..], rooms[1..], qs[1..], got + 1);
        FirstAligned(Receive(s[used..], rooms[1..], qs[1..], got + 1), ms, |rooms| - 1, got);
    }
  }

  lemma {:induction false} FirstStep(ms: seq<Message>, room: nat, q: Reading)
    requires AllSendable(ms) && Welcome(ms, [room]) && Possible(Frames(ms), room, q)
    ensures match ReadFrame(Frames(ms), room, q)
      case Stop(result, used, ending) =>
        ending != Refused && (ending == Dry ==> Got(q) != 5 && result <= 0 && Frames(ms)[used..] == Frames(ms))
      case Took(m, used) => ms != [] && m == ms[0] && Frames(ms)[used..] == Frames(ms[1..])
  {
    if ms != [] {
      FrameKept(ms[0], Frames(ms[1..]), room, q);
      FrameBytes(ms[0], Frames(ms[1..]));
    }
  }

  // ----- many calls -----

  datatype Call = Call(rooms: seq<nat>, qs: seq<Reading>)

  datatype Session = Session(got: seq<Message>, rest: seq<byte>, whole: bool)

  ghost predicate Goes(s: seq<byte>, calls: seq<Call>)
    decreases |calls|
  {
    calls == [] || (AllPossible(s, calls[0].rooms, calls[0].qs) && Goes(Receive(s, calls[0].rooms, calls[0].qs, 0).rest, calls[1..]))
  }

  /** The calls up to the first one that the stream fails in. */
  ghost function RunCalls(s: seq<byte>, calls: seq<Call>): Session
    requires Goes(s, calls)
    decreases |calls|
  {
    if calls == [] then Session([], s, true) else
    var b := Receive(s, calls[0].rooms, calls[0].qs, 0);
    if b.ending == Cut || b.ending == Refused then Session(b.taken, b.rest, false)
    else var r := RunCalls(b.rest, calls[1..]); Session(b.taken + r.got, r.rest, r.whole)
  }

  ghost predicate AllWelcome(ms: seq<Message>, calls: seq<Call>) { forall c | c in calls :: Welcome(ms, c.rooms) }

  /** However the stream is split into calls and reads, what has been got is the first of what was
      sent, in order; and while the stream works nothing is lost in between. */
  lemma {:induction false} SessionKeepsOrder(ms: seq<Message>, calls: seq<Call>)
    requires AllSendable(ms) && Goes(Frames(ms), calls) && AllWelcome(ms, calls)
    ensures InOrder(RunCalls(Frames(ms), calls), ms)
    decreases |calls|
  {
    if calls == [] {
      assert ms[0..] == ms;
    } else {
      var c := calls[0];
      BatchAligned(ms, c.rooms, c.qs, 0);
      var b := Receive(Frames(ms), c.rooms, c.qs, 0);
      if b.ending != Cut {
        SessionKeepsOrder(ms[|b.taken|..], calls[1..]);
        SessionMore(ms, |b.taken|, RunCalls(b.rest, calls[1..]));
      }
    }
  }

  ghost predicate InOrder(r: Session, ms: seq<Message>) {
    && |r.got| <= |ms| && r.got == ms[..|r.got|]
    && (r.whole ==> AllSendable(ms[|r.got|..]) && r.rest == Frames(ms[|r.got|..]))
  }

  lemma SessionMore(ms: seq<Message>, k: nat, r: Session)
    requires k <= |ms| && InOrder(r, ms[k..])
    ensures InOrder(Session(ms[..k] + r.got, r.rest, r.whole), ms)
  {
    assert ms[..k] + ms[k..][..|r.got|] == ms[..k + |r.got|];
    assert ms[k..][|r.got|..] == ms[k + |r.got|..];
  }

  /** Every read is answered in full: one frame for each buffer. */
  ghost predicate CallInFull(ms: seq<Message>, c: Call) {
    |c.rooms| <= |ms| && |c.rooms| == |c.qs| && forall i | 0 <= i < |c.qs| :: c.qs[i] == InFull(ms[i])
  }

  ghost predicate AllInFull(ms: seq<Message>, calls: seq<Call>)
    decreases |calls|
  {
    calls == [] || (CallInFull(ms, calls[0]) && AllInFull(ms[|calls[0].rooms|..], calls[1..]))
  }

  function AllBuffers(calls: seq<Call>): nat {
    if calls == [] then 0 else |calls[0].rooms| + AllBuffers(calls[1..])
  }

  lemma {:induction false} BatchInFull(ms: seq<Message>, c: Call, got: nat)
    requires AllSendable(ms) && Welcome(ms, c.rooms) && CallInFull(ms, c)
    ensures AllPossible(Frames(ms), c.rooms, c.qs)
    ensures var n := |c.rooms|; Receive(Frames(ms), c.rooms, c.qs, got) == Batch(got + n, ms[..n], Frames(ms[n..]), Full)
    decreases |c.rooms|
  {
    var n := |c.rooms|;
    if n == 0 {
      assert ms[0..] == ms && ms[..0] == [];
    } else {
      var more := Call(c.rooms[1..], c.qs[1..]);
      FirstInFull(ms, c.rooms[0]);
      MoreInFull(ms, c);
      BatchInFull(ms[1..], more, got + 1);
      ReceiveFirst(Frames(ms), c.rooms, c.qs, got);
      assert ms[1..][n - 1..] == ms[n..] && [ms[0]] + ms[1..][..n - 1] == ms[..n];
    }
  }

  lemma MoreInFull(ms: seq<Message>, c: Call)
    requires AllSendable(ms) && Welcome(ms, c.rooms) && CallInFull(ms, c) && c.rooms != []
    ensures var more := Call(c.rooms[1..], c.qs[1..]);
      AllSendable(ms[1..]) && Welcome(ms[1..], more.rooms) && CallInFull(ms[1..], more)
  {
    assert forall m | m in ms[1..] :: m in ms;
    assert forall room | room in c.rooms[1..] :: room in c.rooms;
  }

  lemma ReceiveFirst(s: seq<byte>, rooms: seq<nat>, qs: seq<Reading>, got: nat)
    requires rooms != [] && qs != [] && Possible(s, rooms[0], qs[0]) && ReadFrame(s, rooms[0], qs[0]).Took?
    requires AllPossible(s[ReadFrame(s, rooms[0], qs[0]).used..], rooms[1..], qs[1..])
    ensures AllPossible(s, rooms, qs)
    ensures var r := ReadFrame(s, rooms[0], qs[0]);
      Receive(s, rooms, qs, got) == First(r.m, Receive(s[r.used..], rooms[1..], qs[1..], got + 1))
  {}

  lemma FirstInFull(ms: seq<Message>, room: nat)
    requires AllSendable(ms) && ms != [] && Whole(ms[0]) && Fits(ms[0], room)
    ensures Possible(Frames(ms), room, InFull(ms[0]))
    ensures ReadFrame(Frames(ms), room, InFull(ms[0])) == Took(ms[0], |Frame(ms[0])|)
    ensures Frames(ms)[|Frame(ms[0])|..] == Frames(ms[1..])
  {
    FrameArrives(ms[0], Frames(ms[1..]), room);
  }

  ghost predicate GotFirst(r: Session, ms: seq<Message>, n: nat) {
    n <= |ms| && AllSendable(ms[n..]) && r == Session(ms[..n], Frames(ms[n..]), true)
  }

  lemma GotMore(ms: seq<Message>, k: nat, n: nat, r: Session)
    requires k <= |ms| && GotFirst(r, ms[k..], n)
    ensures GotFirst(Session(ms[..k] + r.got, r.rest, r.whole), ms, k + n)
  {
    assert ms[k..][n..] == ms[k + n..];
    assert ms[..k] + ms[k..][..n] == ms[..k + n];
  }

  lemma LaterWelcome(ms: seq<Message>, k: nat, calls: seq<Call>)
    requires AllSendable(ms) && k <= |ms| && calls != [] && AllWelcome(ms, calls)
    ensures AllSendable(ms[k..]) && AllWelcome(ms[k..], calls[1..]) && Welcome(ms, calls[0].rooms)
  {
    assert forall m | m in ms[k..] :: m in ms;
    assert forall c | c in calls[1..] :: c in calls;
  }

  /** If the stream fails nowhere, every buffer of every call gets its message, and nothing is lost. */
  lemma {:induction false} SessionGetsAll(ms: seq<Message>, calls: seq<Call>)
    requires AllSendable(ms) && AllWelcome(ms, calls) && AllInFull(ms, calls)
    ensures Goes(Frames(ms), calls) && GotFirst(RunCalls(Frames(ms), calls), ms, AllBuffers(calls))
    decreases |calls|
  {
    if calls == [] {
      assert ms[0..] == ms && ms[..0] == [];
    } else {
      var k := |calls[0].rooms|;
      LaterWelcome(ms, k, calls);
      SessionGetsAll(ms[k..], calls[1..]);
      SessionBegins(ms, calls);
    }
  }

  /** One call more in front. */
  lemma SessionBegins(ms: seq<Message>, calls: seq<Call>)
    requires calls != [] && AllSendable(ms) && AllWelcome(ms, calls) && AllInFull(ms, calls)
    requires var k := |calls[0].rooms|; AllSendable(ms[k..]) && Goes(Frames(ms[k..]), calls[1..])
    requires var k := |calls[0].rooms|; GotFirst(RunCalls(Frames(ms[k..]), calls[1..]), ms[k..], AllBuffers(calls[1..]))
    ensures Goes(Frames(ms), calls) && GotFirst(RunCalls(Frames(ms), calls), ms, AllBuffers(calls))
  {
    var b := FirstCallFull(ms, calls);
    CallsOn(Frames(ms), calls, b);
    GotMore(ms, |calls[0].rooms|, AllBuffers(calls[1..]), RunCalls(b.rest, calls[1..]));
  }

  lemma FirstCallFull(ms: seq<Message>, calls: seq<Call>) returns (b: Batch)
    requires calls != [] && AllSendable(ms) && AllWelcome(ms, calls) && AllInFull(ms, calls)
    ensures var c, k := calls[0], |calls[0].rooms|;
      && k <= |ms| && AllSendable(ms[k..]) && AllWelcome(ms[k..], calls[1..]) && AllPossible(Frames(ms), c.rooms, c.qs)
      && b == Receive(Frames(ms), c.rooms, c.qs, 0) == Batch(k, ms[..k], Frames(ms[k..]), Full)
  {
    var k := |calls[0].rooms|;
    LaterWelcome(ms, k, calls);
    BatchInFull(ms, calls[0], 0);
    b := Batch(k, ms[..k], Frames(ms[k..]), Full);
  }

  lemma CallsOn(s: seq<byte>, calls: seq<Call>, b: Batch)
    requires calls != [] && AllPossible(s, calls[0].rooms, calls[0].qs)
    requires b == Receive(s, calls[0].rooms, calls[0].qs, 0) && b.ending == Full && Goes(b.rest, calls[1..])
    ensures Goes(s, calls)
    ensures var r := RunCalls(b.rest, calls[1..]); RunCalls(s, calls) == Session(b.taken + r.got, r.rest, r.whole)
  {}

  // ----- what a positive result means -----

  /** The readings with which a call returns a positive number that is not its number of messages: the
      header of the first frame is cut short and the two answers still add up to more than 0, or the
      rest of a frame is cut short to a number of bytes other than the number of frames before it. */
  predicate Misleads(s: seq<byte>, rooms: seq<nat>, qs: seq<Reading>, got: nat)
    requires AllPossible(s, rooms, qs)
    decreases |rooms|
  {
    rooms != [] &&
    match ReadFrame(s, rooms[0], qs[0])
    case Took(_, used) => Misleads(s[used..], rooms[1..], qs[1..], got + 1)
    case Stop(_, _, _) =>
      if Got(qs[0]) != 5 then got == 0 && Got(qs[0]) > 0
      else Acceptable(s, rooms[0]) && qs[0].body > 0 && qs[0].body != got
  }

  /** A positive result is the number of messages except in exactly these cases. */
  lemma {:induction false} ResultMisleads(s: seq<byte>, rooms: seq<nat>, qs: seq<Reading>, got: nat)
    requires AllPossible(s, rooms, qs)
    ensures var b := Receive(s, rooms, qs, got); b.result > 0 && b.result != got + |b.taken| <==> Misleads(s, rooms, qs, got)
    decreases |rooms|
  {
    if rooms != [] && ReadFrame(s, rooms[0], qs[0]).Took? {
      ResultMisleads(s[ReadFrame(s, rooms[0], qs[0]).used..], rooms[1..], qs[1..], got + 1);
    }
  }

  /** Only a stream that fails inside a frame can mislead. */
  lemma {:induction false} OnlyCutsMislead(s: seq<byte>, rooms: seq<nat>, qs: seq<Reading>, got: nat)
    requires AllPossible(s, rooms, qs) && Misleads(s, rooms, qs, got)
    ensures Receive(s, rooms, qs, got).ending == Cut
    decreases |rooms|
  {
    var r := ReadFrame(s, rooms[0], qs[0]);
    if r.Took? { OnlyCutsMislead(s[r.used..], rooms[1..], qs[1..], got + 1); }
  }

  /** For one, three bytes of a header and then an error give 2, with no message. */
  lemma CutMiscounts(s: seq<byte>)
    requires |s| == 3
    ensures var q := Reading(3, -1, 0);
      && AllPossible(s, [1500], [q]) && Misleads(s, [1500], [q], 0)
      && Receive(s, [1500], [q], 0) == Batch(2, [], [], Cut)
  {
    assert s[3..] == [];
  }

  lemma FrameParts(s: seq<byte>, head: seq<byte>)
    requires |s| >= 5 && head == s[..5]
    ensures AddrPart(s) == AddrPart(head) && U16(s, 0) == U16(head, 0)
    ensures forall room: nat :: Acceptable(s, room) <==> Acceptable(head, room)
  {
    assert forall i | 0 <= i < 5 :: s[i] == head[i];
  }

  lemma FrameRest(s: seq<byte>, head: seq<byte>, n: int)
    requires |s| >= 5 && head == s[..5] && s[2] >= 5 && 5 + n <= |s|
    ensures s[5 + Positive(n)..] == s[5..][Positive(n)..]
    ensures var al, dl := AddrPart(s), U16(s, 0); n == al - 2 + dl ==>
      head[3..5] + s[5..][..al - 2] == s[3..3 + al] && s[5..][al - 2..n] == s[3 + al..3 + al + dl]
  {}

  // ----- the code -----

  /** One element of the caller's array; addr, buf and len are positions and sizes in its memory. */
  class HevSocks5UDPMsg {
    const mem: array<byte>
    var addr: int
    var buf: nat
    var len: nat

    ghost predicate Valid()
      reads this
    {
      buf + len <= mem.Length
    }

    ghost function Held(): Message
      reads this, mem
    {
      if 0 <= addr <= buf && buf + len <= mem.Length then Message(mem[addr..buf], mem[buf..buf + len]) else Message([], [])
    }

    constructor (size: nat)
      ensures Valid() && buf == 0 && len == size && fresh(mem)
    {
      mem := new byte[size];
      addr, buf, len := -1, 0, size;
    }
  }

  /** The caller's elements. None is shorter than the longest address that a header can announce, 252
      bytes (the callers' hold 1500): in C the room behind the address is a size_t, and for a shorter
      buffer it would wrap around, which is outside this model. */
  ghost predicate Buffers(a: seq<HevSocks5UDPMsg>)
    reads a
  {
    Separate(a) && forall i | 0 <= i < |a| :: a[i].Valid() && a[i].len >= 252
  }

  ghost predicate Separate(a: seq<HevSocks5UDPMsg>) {
    forall i, j | 0 <= i < |a| && 0 <= j < |a| && i != j :: a[i] != a[j] && a[i].mem != a[j].mem
  }

  ghost function Memory(a: seq<HevSocks5UDPMsg>): set<array<byte>> { set m | m in a :: m.mem }

  ghost predicate Holding(a: seq<HevSocks5UDPMsg>, taken: seq<Message>)
    reads a, Memory(a)
  {
    |taken| <= |a| && forall j | 0 <= j < |taken| :: a[j].Held() == taken[j]
  }

  /** The first elements of a hold the messages of taken, the others are still as they came. */
  ghost predicate Filled(a: seq<HevSocks5UDPMsg>, taken: seq<Message>, rooms: seq<nat>)
    reads a, Memory(a)
  {
    && |taken| <= |a| == |rooms| && Holding(a, taken)
    && (forall j | |taken| <= j < |a| :: a[j].Valid() && a[j].len == rooms[j] >= 252)
  }

  ghost function Rooms(a: seq<HevSocks5UDPMsg>): (rooms: seq<nat>)
    reads a
    ensures |rooms| == |a| && forall i | 0 <= i < |a| :: rooms[i] == a[i].len
  {
    seq(|a|, i requires 0 <= i < |a| reads a => a[i].len)
  }

  /** Where the receive loop is: after the frames `taken`, with the rest of the stream before it. */
  ghost predicate Underway(s: seq<byte>, rooms: seq<nat>, qs: seq<Reading>, taken: seq<Message>, rest: seq<byte>) {
    var i := |taken|;
    && AllPossible(s, rooms, qs) && i <= |rooms| && i <= |qs| && AllPossible(rest, rooms[i..], qs[i..])
    && Receive(s, rooms, qs, 0) == After(taken, Receive(rest, rooms[i..], qs[i..], i))
  }

  ghost function After(taken: seq<Message>, b: Batch): Batch { b.(taken := taken + b.taken) }

  lemma UnderwayStarts(s: seq<byte>, rooms: seq<nat>, qs: seq<Reading>)
    requires AllPossible(s, rooms, qs)
    ensures Underway(s, rooms, qs, [], s)
  {
    assert rooms[0..] == rooms && qs[0..] == qs;
    var b := Receive(s, rooms, qs, 0);
    assert [] + b.taken == b.taken;
  }

  lemma UnderwayEnds(s: seq<byte>, rooms: seq<nat>, qs: seq<Reading>, taken: seq<Message>, rest: seq<byte>)
    requires Underway(s, rooms, qs, taken, rest) && |taken| == |rooms|
    ensures Receive(s, rooms, qs, 0) == Batch(|taken|, taken, rest, Full)
  {
    assert taken + [] == taken;
  }

  lemma {:induction false} UnderwayStep(s: seq<byte>, rooms: seq<nat>, qs: seq<Reading>, taken: seq<Message>, rest: seq<byte>)
    requires Underway(s, rooms, qs, taken, rest) && |taken| < |rooms|
    ensures var i := |taken|;
      && i < |qs| && Possible(rest, rooms[i], qs[i])
      && match ReadFrame(rest, rooms[i], qs[i])
        case Stop(result, used, ending) =>
          Receive(s, rooms, qs, 0) == Batch(if Got(qs[i]) != 5 && i > 0 then i else result, taken, rest[used..], ending)
        case Took(m, used) => Underway(s, rooms, qs, taken + [m], rest[used..])
  {
    var i := |taken|;
    assert rooms[i..][1..] == rooms[i + 1..];
    assert i < |qs| && qs[i..][1..] == qs[i + 1..];
    match ReadFrame(rest, rooms[i], qs[i])
    case Stop(_, _, _) =>
      assert taken + [] == taken;
    case Took(m, used) =>
      var b := Receive(rest[used..], rooms[i + 1..], qs[i + 1..], i + 1);
      assert taken + ([m] + b.taken) == taken + [m] + b.taken;
  }

  lemma SettledSlices(m: seq<byte>, m': seq<byte>, was: nat, addrlen: nat, datlen: nat, head: seq<byte>, body: seq<byte>)
    requires |head| == 5 && addrlen >= 2 && |body| == addrlen - 2 + datlen && was + addrlen + datlen <= |m|
    requires m[was + 2..was + addrlen + datlen] == body && m' == m[was := head[3]][was + 1 := head[4]]
    ensures m'[was..was + addrlen] == head[3..5] + body[..addrlen - 2]
    ensures m'[was + addrlen..was + addrlen + datlen] == body[addrlen - 2..]
  {
    assert m'[was + 2..was + addrlen + datlen] == body;
    assert m'[was..was + addrlen] == head[3..5] + m'[was + 2..was + addrlen];
    assert m'[was + 2..was + addrlen] == body[..addrlen - 2];
  }

  class HevSocks5UDP {
    var input: seq<byte>   // what the peer sends and this end has not read
    var sent: seq<byte>

    /** hev_socks5_udp_sendmmsg_tcp; took is what the socket's sendmsg returns. */
    method SendmmsgTcp(msgv: seq<Message>, took: int) returns (res: int)
      requires forall m | m in msgv :: |m.addr| >= 2 && AddrLen(m.addr) <= |m.addr|
      requires AllSendable(msgv) ==> took <= |Frames(msgv)|
      modifies this`sent
      ensures !AllSendable(msgv) ==> res == -1 && sent == old(sent)
      ensures AllSendable(msgv) ==>
        sent == old(sent) + Frames(msgv)[..Positive(took)] && res == if took > 0 then |msgv| else -1
    {
      var iov: seq<seq<byte>> := [];
      var i := 0;
      while i < |msgv|
        invariant 0 <= i <= |msgv| && sent == old(sent) && AllSendable(msgv[..i]) && Joined(iov) == Frames(msgv[..i])
      {
        assert msgv[i] in msgv;
        var addrlen := AddrLen(msgv[i].addr);
        if addrlen <= 0 {
          assert !Sendable(msgv[i]);
          return -1;
        }
        assert msgv[..i + 1] == msgv[..i] + [msgv[i]];
        FramesSnoc(msgv[..i], msgv[i]);
        JoinedThree(iov, Head(msgv[i]), msgv[i].addr[..addrlen], msgv[i].data);
        iov := iov + [Head(msgv[i]), msgv[i].addr[..addrlen], msgv[i].data];
        i := i + 1;
      }
      assert msgv[..i] == msgv;
      res := Sendmsg(iov, took);
      res := if res <= 0 then -1 else |msgv|;
    }

    /** The socket takes the first bytes of what it is given. */
    method Sendmsg(iov: seq<seq<byte>>, took: int) returns (res: int)
      requires took <= |Joined(iov)|
      modifies this`sent
      ensures res == took && sent == old(sent) + Joined(iov)[..Positive(took)]
    {
      sent := sent + Joined(iov)[..Positive(took)];
      res := took;
    }

    /** The socket gives n bytes, or none if n is not positive. */
    method Recv(n: int) returns (bytes: seq<byte>)
      requires n <= |input|
      modifies this`input
      ensures bytes == old(input)[..Positive(n)] && input == old(input)[Positive(n)..]
    {
      bytes := input[..Positive(n)];
      input := input[Positive(n)..];
    }

    method ReadHead(q: Reading) returns (head: seq<byte>, res: int)
      requires q.first <= |input| && (0 < q.first < 5 ==> q.first + q.more <= |input|)
      modifies this`input
      ensures res == Got(q) && HeadUsed(q) <= |old(input)| && input == old(input)[HeadUsed(q)..]
      ensures head == old(input)[..HeadUsed(q)]
    {
      head := Recv(q.first);
      res := q.first;
      if 0 < res < 5 {
        var more := Recv(q.more);
        head := head + more;
        res := res + q.more;
      }
    }

    /** The rest of an accepted frame goes to the memory of msg, n bytes of it. */
    method ReadBody(msg: HevSocks5UDPMsg, head: seq<byte>, n: int) returns (ok: bool)
      requires |head| == 5 && msg.Valid() && msg.len >= 252 && Acceptable(head, msg.len)
      requires n <= AddrPart(head) - 2 + U16(head, 0) && n <= |input|
      modifies this`input, msg, msg.mem
      ensures input == old(input)[Positive(n)..] && ok == (n == AddrPart(head) - 2 + U16(head, 0))
      ensures ok ==> msg.Held() == Message(head[3..5] + old(input)[..AddrPart(head) - 2], old(input)[AddrPart(head) - 2..n])
    {
      var addrlen: int, datlen := AddrPart(head), U16(head, 0);
      var body := Recv(n);
      Store(msg, 2, body);
      ok := n == addrlen - 2 + datlen;
      if ok {
        Settle(msg, addrlen, datlen, head, body);
      }
    }

    /** One turn of the receive loop: the frame goes to the memory of msg, which then says where the
        address and the data are. Otherwise the call returns, with res or the number of frames before. */
    method ReadOne(msg: HevSocks5UDPMsg, q: Reading) returns (ok: bool, res: int, early: bool)
      requires msg.Valid() && msg.len >= 252 && Possible(input, msg.len, q)
      modifies this`input, msg, msg.mem
      ensures var r := ReadFrame(old(input), old(msg.len), q);
        input == old(input)[r.used..] && ok == r.Took? && early == (Got(q) != 5) && if ok then msg.Held() == r.m else res == r.result
    {
      ghost var s := input;
      var head;
      head, res := ReadHead(q);
      if res != 5 {
        return false, res, true;
      }
      FrameParts(s, head);
      if head[2] < 5 || U16(head, 0) > msg.len - AddrPart(head) {
        return false, -1, false;
      }
      FrameRest(s, head, q.body);
      ok := ReadBody(msg, head, q.body);
      res, early := q.body, false;
    }

    /** The two pieces of the iovec are next to each other in memory. */
    method Store(msg: HevSocks5UDPMsg, off: nat, body: seq<byte>)
      requires msg.buf + off + |body| <= msg.mem.Length
      modifies msg.mem
      ensures msg.mem[msg.buf + off..msg.buf + off + |body|] == body
    {
      forall i | 0 <= i < |body| {
        msg.mem[msg.buf + off + i] := body[i];
      }
    }

    /** The message is told where its address and its data are; the two bytes of the address that came
        with the header go in front. */
    method Settle(msg: HevSocks5UDPMsg, addrlen: nat, datlen: nat, head: seq<byte>, body: seq<byte>)
      requires |head| == 5 && addrlen >= 2 && |body| == addrlen - 2 + datlen
      requires msg.buf + addrlen + datlen <= msg.mem.Length
      requires msg.mem[msg.buf + 2..msg.buf + addrlen + datlen] == body
      modifies msg, msg.mem
      ensures msg.Held() == Message(head[3..5] + body[..addrlen - 2], body[addrlen - 2..])
    {
      var was := msg.buf;
      msg.addr := msg.buf;
      msg.buf := msg.buf + addrlen;
      msg.len := datlen;
      ghost var before := msg.mem[..];
      msg.mem[was] := head[3];
      msg.mem[was + 1] := head[4];
      SettledSlices(before, msg.mem[..], was, addrlen, datlen, head, body);
    }

    /** One turn, among all elements. */
    method ReadNext(msg: HevSocks5UDPMsg, q: Reading, ghost a: seq<HevSocks5UDPMsg>, ghost taken: seq<Message>,
                    ghost rooms: seq<nat>)
      returns (ok: bool, res: int, early: bool)
      requires Separate(a) && Filled(a, taken, rooms) && |taken| < |a| && msg == a[|taken|]
      requires Possible(input, rooms[|taken|], q)
      modifies this`input, msg, msg.mem
      ensures var r := ReadFrame(old(input), rooms[|taken|], q);
        && input == old(input)[r.used..] && ok == r.Took? && early == (Got(q) != 5)
        && if ok then Filled(a, taken + [r.m], rooms) else res == r.result && Holding(a, taken)
    {
      ok, res, early := ReadOne(msg, q);
    }

    /** The state of the receive loop that began with the stream s. */
    ghost predicate Receiving(a: seq<HevSocks5UDPMsg>, s: seq<byte>, rooms: seq<nat>, qs: seq<Reading>, taken: seq<Message>)
      reads this, a, Memory(a)
    {
      forall k: nat :: Unsealed(k) ==> Separate(a) && Underway(s, rooms, qs, taken, input) && Filled(a, taken, rooms)
    }

    /** The end of the loop: all buffers are filled. */
    lemma {:induction false} AllReceived(a: seq<HevSocks5UDPMsg>, s: seq<byte>, rooms: seq<nat>, qs: seq<Reading>,
                                         taken: seq<Message>)
      requires Receiving(a, s, rooms, qs, taken) && |taken| == |a|
      ensures AllPossible(s, rooms, qs)
      ensures var b := Receive(s, rooms, qs, 0); |taken| == b.result && input == b.rest && Holding(a, b.taken)
    {
      assert Unsealed(0);
      UnderwayEnds(s, rooms, qs, taken, input);
    }

    method ReadTurn(msg: HevSocks5UDPMsg, i: nat, qs: seq<Reading>, ghost a: seq<HevSocks5UDPMsg>, ghost s: seq<byte>,
                    ghost rooms: seq<nat>, ghost taken: seq<Message>) returns (ok: bool, res: int, ghost taken': seq<Message>)
      requires Receiving(a, s, rooms, qs, taken) && i == |taken| < |a| && msg == a[i]
      modifies this`input, msg, msg.mem
      ensures ok ==> Receiving(a, s, rooms, qs, taken') && |taken'| == i + 1
      ensures !ok ==> AllPossible(s, rooms, qs)
      ensures !ok ==> var b := Receive(s, rooms, qs, 0); res == b.result && input == b.rest && Holding(a, b.taken)
    {
      assert Unsealed(0);
      UnderwayStep(s, rooms, qs, taken, input);
      ghost var r := ReadFrame(input, rooms[i], qs[i]);
      var early;
      ok, res, early := ReadNext(msg, qs[i], a, taken, rooms);
      taken' := taken;
      if ok {
        taken' := taken + [r.m];
      } else if early && i > 0 {
        res := i;
      }
    }

    /** hev_socks5_udp_recvmmsg_tcp; the elements are distinct and do not share memory. */
    method RecvmmsgTcp(msgv: array<HevSocks5UDPMsg>, qs: seq<Reading>) returns (rlen: int)
      requires Buffers(msgv[..]) && AllPossible(input, Rooms(msgv[..]), qs)
      modifies this`input, msgv[..], Memory(msgv[..])
      ensures var b := Receive(old(input), old(Rooms(msgv[..])), qs, 0); rlen == b.result && input == b.rest && Holding(msgv[..], b.taken)
    {
      ghost var a, s, rooms := msgv[..], input, Rooms(msgv[..]);
      ghost var taken: seq<Message> := [];
      rlen := 0;
      UnderwayStarts(s, rooms, qs);
      while rlen < msgv.Length
        invariant 0 <= rlen == |taken| <= msgv.Length && Receiving(a, s, rooms, qs, taken)
      {
        var ok, res;
        ok, res, taken := ReadTurn(msgv[rlen], rlen, qs, a, s, rooms, taken);
        if !ok {
          return res;
        }
        rlen := rlen + 1;
      }
      AllReceived(a, s, rooms, qs, taken);
    }
  }
}
