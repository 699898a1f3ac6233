// SOCKS5 client against server (sections 3 to 6 of RFC 1928, section 2 of RFC 1929).
module Handshake {
  import opened Records
  import opened Options
  import opened Addresses

  const NONE: byte := 0
  const USER: byte := 2
  const DENY: byte := 255

  // ----- what one side says, given what it has heard -----

  datatype End = Waiting | Denied | Serving(cmd: byte, addr: seq<byte>, used: nat) | Connected(used: nat)

  datatype Talk = Talk(out: seq<byte>, end: End)

  function Say(s: seq<byte>, t: Talk): Talk { t.(out := s + t.out) }

  /** b is a, or what a becomes once more has been heard. */
  predicate Below(a: Talk, b: Talk) { if a.end.Waiting? then a.out <= b.out else a == b }

  // ----- the server -----

  type Users = map<seq<byte>, seq<byte>>

  /** What the server's environment does: names it can resolve, whether connecting or binding works,
      and the address a datagram socket is bound to. */
  datatype World = World(names: map<seq<byte>, Sockaddr>, works: bool, bound: Sockaddr)

  predicate GoodWorld(w: World) { GoodSockaddr(w.bound) && forall n | n in w.names :: GoodSockaddr(w.names[n]) }

  /** What a read of a message part finds: too little, something it refuses, or a value and where the
      next part begins. */
  datatype Part<T> = Short | Bad | Found(value: T, next: nat)

  function MethodsIn(x: seq<byte>): Part<seq<byte>> {
    if |x| < 2 then Short
    else if x[0] != 5 then Bad
    else
      var n: int := x[1];
      if |x| < 2 + n then Short else Found(x[2..2 + n], 2 + n)
  }

  function UserAt(x: seq<byte>, at: nat): Part<(seq<byte>, seq<byte>)> {
    if |x| < at + 2 then Short
    else
      var n: int := x[at + 1];
      if x[at] != 1 || n == 0 then Bad
      else if |x| < at + 3 + n then Short
      else
        var k: int := x[at + 2 + n];
        if k == 0 then Bad
        else if |x| < at + 3 + n + k then Short
        else Found((x[at + 2..at + 2 + n], x[at + 3 + n..at + 3 + n + k]), at + 3 + n + k)
  }

  function Server(users: Option<Users>, w: World, x: seq<byte>): Talk
    requires GoodWorld(w)
  {
    match MethodsIn(x)
    case Short => Talk([], Waiting)
    case Bad => Talk([5, DENY], Denied)
    case Found(methods, next) =>
      var wanted := if users.Some? then USER else NONE;
      if wanted !in methods then Talk([5, DENY], Denied)
      else Say([5, wanted], if users.Some? then ServerUser(users.value, w, x, next) else ServerRequest(w, x, next))
  }

  function ServerUser(users: Users, w: World, x: seq<byte>, at: nat): Talk
    requires GoodWorld(w)
  {
    match UserAt(x, at)
    case Short => Talk([], Waiting)
    case Bad => Talk([1, DENY], Denied)
    case Found(creds, next) =>
      if creds.0 in users && users[creds.0] == creds.1 then Say([1, 0], ServerRequest(w, x, next)) else Talk([1, DENY], Denied)
  }

  /** The address part that follows the first five bytes of a request, or -1. */
  function AddressRest(atype: byte, len: byte): (n: int)
    ensures n == -1 || n >= 2
  {
    var l: int := len;
    if atype == 1 then 5 else if atype == 4 then 17 else if atype == 3 then 2 + l else -1
  }

  function Reply(rep: byte, addr: Sockaddr): seq<byte>
    requires GoodSockaddr(addr)
  {
    [5, rep, 0] + FromSockaddr(addr)
  }

  datatype Asked = Unread | Faulty(rep: byte) | Asked(cmd: byte, addr: seq<byte>, next: nat)

  function RequestAt(x: seq<byte>, at: nat): (r: Asked)
    ensures r.Asked? ==> GoodAddr(r.addr)
  {
    if |x| < at + 5 then Unread
    else if x[at] != 5 then Faulty(1)
    else
      var n := AddressRest(x[at + 3], x[at + 4]);
      if n == -1 then Faulty(8)
      else if |x| < at + 5 + n then Unread
      else Asked(x[at + 1], x[at + 3..at + 5 + n], at + 5 + n)
  }

  function ServerRequest(w: World, x: seq<byte>, at: nat): Talk
    requires GoodWorld(w)
  {
    match RequestAt(x, at)
    case Unread => Talk([], Waiting)
    case Faulty(rep) => Talk(Reply(rep, ZERO), Denied)
    case Asked(cmd, addr, next) => Answer(w, cmd, addr, next)
  }

  function Answer(w: World, cmd: byte, addr: seq<byte>, used: nat): Talk
    requires GoodWorld(w) && GoodAddr(addr)
  {
    var dest := IntoSockaddr(addr, w.names);
    if dest == None then Talk(Reply(8, w.bound), Denied) else Serve(w, cmd, addr, dest.value, used)
  }

  function Rep(w: World, cmd: byte): byte {
    if cmd == 1 then (if w.works then 0 else 4)
    else if cmd == 3 || cmd == 5 then (if w.works then 0 else 1)
    else 7
  }

  function Serve(w: World, cmd: byte, addr: seq<byte>, dest: Sockaddr, used: nat): Talk
    requires GoodSockaddr(w.bound) && GoodSockaddr(dest)
  {
    var rep := Rep(w, cmd);
    Talk(Reply(rep, if cmd == 3 then w.bound else dest), if rep == 0 then Serving(cmd, addr, used) else Denied)
  }

  // ----- the client -----

  /** With credentials or without; the command of its type; the address it asks for; whether it can use
      the address that comes back. */
  datatype Client = Client(user: seq<byte>, pass: seq<byte>, named: bool, cmd: byte, addr: seq<byte>, usable: bool)

  predicate GoodClient(c: Client) {
    && GoodAddr(c.addr) && c.cmd in {1, 3, 5}
    && (c.named ==> 1 <= |c.user| <= 255 && 1 <= |c.pass| <= 255)
  }

  function Methods(c: Client): seq<byte> { [5, 1, if c.named then USER else NONE] }

  /** The lengths are cut to a byte each, and so are the texts. */
  function Creds(c: Client): seq<byte> {
    if !c.named then [] else
    var n, k := |c.user| % 256, |c.pass| % 256;
    [1, n] + c.user[..n] + [k] + c.pass[..k]
  }

  function Request(c: Client): seq<byte> { [5, c.cmd, 0] + c.addr }

  function Up(c: Client): seq<byte> { Methods(c) + (Creds(c) + Request(c)) }

  function Standard(c: Client, y: seq<byte>): Talk {
    Say(Methods(c),
      if |y| < 2 then Talk([], Waiting)
      else if y[0] != 5 then Talk([], Denied)
      else if y[1] == USER then Say(Creds(c), StandardCreds(c, y))
      else if y[1] == NONE then Say(Request(c), ClientReply(c, y, 2))
      else Talk([], Denied))
  }

  function StandardCreds(c: Client, y: seq<byte>): Talk {
    if |y| < 4 then Talk([], Waiting)
    else if y[2] != 1 || y[3] != 0 then Talk([], Denied)
    else Say(Request(c), ClientReply(c, y, 4))
  }

  function Pipeline(c: Client, y: seq<byte>): Talk {
    Say(Up(c),
      if |y| < 2 then Talk([], Waiting)
      else if y[0] != 5 then Talk([], Denied)
      else if y[1] == USER then PipelineCreds(c, y)
      else if y[1] == NONE then ClientReply(c, y, 2)
      else Talk([], Denied))
  }

  function PipelineCreds(c: Client, y: seq<byte>): Talk {
    if |y| < 4 then Talk([], Waiting)
    else if y[2] != 1 || y[3] != 0 then Talk([], Denied)
    else ClientReply(c, y, 4)
  }

  function ClientReply(c: Client, y: seq<byte>, at: nat): Talk {
    if |y| < at + 4 then Talk([], Waiting)
    else if y[at] != 5 || y[at + 1] != 0 then Talk([], Denied)
    else
      var n := if y[at + 3] == 1 then 6 else if y[at + 3] == 4 then 18 else -1;
      if n == -1 then Talk([], Denied)
      else if |y| < at + 4 + n then Talk([], Waiting)
      else Talk([], if c.usable then Connected(at + 4 + n) else Denied)
  }

  function ClientTalk(c: Client, pipeline: bool, y: seq<byte>): Talk {
    if pipeline then Pipeline(c, y) else Standard(c, y)
  }

  // ----- hearing more -----

  lemma SamePart(x: seq<byte>, z: seq<byte>, i: nat, j: nat)
    requires x <= z && i <= j <= |x|
    ensures x[i..j] == z[i..j]
  {}

  lemma MethodsMore(x: seq<byte>, z: seq<byte>)
    requires x <= z
    ensures MethodsIn(x) != Short ==> MethodsIn(z) == MethodsIn(x)
  {
    if MethodsIn(x).Found? { SamePart(x, z, 2, MethodsIn(x).next); }
  }

  lemma UserMore(x: seq<byte>, z: seq<byte>, at: nat)
    requires x <= z
    ensures UserAt(x, at) != Short ==> UserAt(z, at) == UserAt(x, at)
  {
    if UserAt(x, at).Found? {
      var n: int := x[at + 1];
      SamePart(x, z, at + 2, at + 2 + n);
      SamePart(x, z, at + 3 + n, UserAt(x, at).next);
    }
  }

  lemma RequestMore(x: seq<byte>, z: seq<byte>, at: nat)
    requires x <= z
    ensures RequestAt(x, at) != Unread ==> RequestAt(z, at) == RequestAt(x, at)
  {
    if RequestAt(x, at).Asked? { SamePart(x, z, at + 3, RequestAt(x, at).next); }
  }

  /** What the server has said stays said, and once it has decided it reads no more. */
  lemma ServerMore(users: Option<Users>, w: World, x: seq<byte>, z: seq<byte>)
    requires GoodWorld(w) && x <= z
    ensures Below(Server(users, w, x), Server(users, w, z))
  {
    MethodsMore(x, z);
    if MethodsIn(x).Found? {
      var at := MethodsIn(x).next;
      UserMore(x, z, at);
      if UserAt(x, at).Found? { RequestMore(x, z, UserAt(x, at).next); }
      RequestMore(x, z, at);
    }
  }

  lemma ClientMore(c: Client, pipeline: bool, y: seq<byte>, z: seq<byte>)
    requires y <= z
    ensures Below(ClientTalk(c, pipeline, y), ClientTalk(c, pipeline, z))
  {}

  // ----- the whole conversation, if the server hears all that the client can say -----

  predicate Match(users: Option<Users>, c: Client) {
    if users.Some? then c.named && c.user in users.value && users.value[c.user] == c.pass else !c.named
  }

  /** The server's words before its reply. */
  function Greeting(users: Option<Users>): seq<byte> { if users.Some? then [5, USER, 1, 0] else [5, NONE] }

  function Final(w: World, c: Client): Talk
    requires GoodWorld(w) && GoodClient(c)
  {
    Answer(w, c.cmd, c.addr, |Up(c)|)
  }

  function Verdict(users: Option<Users>, w: World, c: Client): Talk
    requires GoodWorld(w) && GoodClient(c)
  {
    if Match(users, c) then Say(Greeting(users), Final(w, c))
    else if users.Some? && c.named then Talk([5, USER, 1, DENY], Denied)
    else Talk([5, DENY], Denied)
  }

  lemma RequestParts(c: Client, x: seq<byte>, at: nat)
    requires GoodClient(c) && at <= |x| && x[at..] == Request(c)
    ensures |x| == at + 3 + |c.addr| && x[at] == 5 && x[at + 1] == c.cmd
    ensures AddressRest(x[at + 3], x[at + 4]) == |c.addr| - 2
    ensures x[at + 3..] == c.addr
  {
    assert x[at] == x[at..][0] && x[at + 1] == x[at..][1] && x[at + 3] == x[at..][3] && x[at + 4] == x[at..][4];
    assert x[at + 3..] == x[at..][3..];
  }

  lemma RequestServed(c: Client, x: seq<byte>, at: nat)
    requires GoodClient(c) && at <= |x| && x[at..] == Request(c)
    ensures RequestAt(x, at) == Asked(c.cmd, c.addr, |x|)
  {
    RequestParts(c, x, at);
    assert x[at + 3..|x|] == x[at + 3..];
  }

  lemma CredsParts(c: Client, x: seq<byte>)
    requires GoodClient(c) && c.named && x == Up(c)
    ensures MethodsIn(x) == Found([USER], 3) && UserAt(x, 3) == Found((c.user, c.pass), 6 + |c.user| + |c.pass|)
    ensures x[6 + |c.user| + |c.pass|..] == Request(c)
  {
    var n, k := |c.user|, |c.pass|;
    UpParts(c);
    MethodsHeard(c, x);
    UserHeard(c, x);
    assert |Methods(c) + Creds(c)| == 6 + n + k;
    assert x == Methods(c) + Creds(c) + Request(c);
  }

  lemma FiveParts(m: seq<byte>, a: seq<byte>, b: seq<byte>, c: seq<byte>, d: seq<byte>, e: seq<byte>, x: seq<byte>)
    requires |m| == 3 && |a| == 2 && |c| == 1 && x == m + (a + b + c + d + e)
    ensures var n, k := |b|, |d|;
      && |x| == 6 + n + k + |e| && x[..3] == m && x[3] == a[0] && x[4] == a[1] && x[5..5 + n] == b && x[5 + n] == c[0]
      && x[6 + n..6 + n + k] == d && x[6 + n + k..] == e
  {}

  lemma PlainParts(c: Client, x: seq<byte>)
    requires GoodClient(c) && !c.named && x == Up(c)
    ensures MethodsIn(x) == Found([NONE], 3) && x[3..] == Request(c)
  {
    assert Creds(c) + Request(c) == Request(c);
    assert x[2..3] == [x[2]];
  }

  lemma AllHeard(users: Option<Users>, w: World, c: Client)
    requires GoodWorld(w) && GoodClient(c)
    ensures Server(users, w, Up(c)) == Verdict(users, w, c)
  {
    var x := Up(c);
    if c.named {
      CredsParts(c, x);
      RequestServed(c, x, 6 + |c.user| + |c.pass|);
    } else {
      PlainParts(c, x);
      RequestServed(c, x, 3);
    }
  }

  // ----- both sides together -----

  /** All that each side has sent so far; what is on its way counts as sent. */
  datatype Wire = Wire(up: seq<byte>, down: seq<byte>)

  datatype Setting = Setting(users: Option<Users>, w: World, c: Client, pipeline: bool)

  predicate Good(g: Setting) { GoodWorld(g.w) && GoodClient(g.c) }

  function ServerSide(g: Setting, s: Wire): Talk
    requires Good(g)
  {
    Server(g.users, g.w, s.up)
  }

  function ClientSide(g: Setting, s: Wire): Talk { ClientTalk(g.c, g.pipeline, s.down) }

  /** A side has sent part of what it has to say, or all of it and, once it is through, payload. */
  predicate Said(bytes: seq<byte>, t: Talk) {
    bytes <= t.out || ((t.end.Serving? || t.end.Connected?) && t.out <= bytes)
  }

  datatype Action = ClientSends(bytes: seq<byte>) | ServerSends(bytes: seq<byte>)

  /** A side sends what it may, given what has been sent to it; anything else changes nothing. */
  function Step(g: Setting, s: Wire, a: Action): Wire
    requires Good(g)
  {
    match a
    case ClientSends(bytes) => if Said(s.up + bytes, ClientSide(g, s)) then s.(up := s.up + bytes) else s
    case ServerSends(bytes) => if Said(s.down + bytes, ServerSide(g, s)) then s.(down := s.down + bytes) else s
  }

  function Run(g: Setting, s: Wire, actions: seq<Action>): Wire
    requires Good(g)
    decreases |actions|
  {
    if actions == [] then s else Run(g, Step(g, s, actions[0]), actions[1..])
  }

  predicate Inv(g: Setting, s: Wire)
    requires Good(g)
  {
    Said(s.up, ClientSide(g, s)) && Said(s.down, ServerSide(g, s))
  }

  lemma SaidMore(bytes: seq<byte>, a: Talk, b: Talk)
    requires Said(bytes, a) && Below(a, b)
    ensures Said(bytes, b)
  {}

  lemma StepInv(g: Setting, s: Wire, a: Action)
    requires Good(g) && Inv(g, s)
    ensures Inv(g, Step(g, s, a))
  {
    match a
    case ClientSends(bytes) =>
      ServerMore(g.users, g.w, s.up, s.up + bytes);
      SaidMore(s.down, ServerSide(g, s), Server(g.users, g.w, s.up + bytes));
    case ServerSends(bytes) =>
      ClientMore(g.c, g.pipeline, s.down, s.down + bytes);
      SaidMore(s.up, ClientSide(g, s), ClientTalk(g.c, g.pipeline, s.down + bytes));
  }

  lemma {:induction false} RunInv(g: Setting, s: Wire, actions: seq<Action>)
    requires Good(g) && Inv(g, s)
    ensures Inv(g, Run(g, s, actions))
    decreases |actions|
  {
    if actions != [] {
      StepInv(g, s, actions[0]);
      RunInv(g, Step(g, s, actions[0]), actions[1..]);
    }
  }

  /** The server's choice of method: the one that the client offers, or none. */
  predicate Chosen(g: Setting, s: Wire) {
    |s.down| >= 2 ==> s.down[0] == 5 && s.down[1] == if g.users.Some? != g.c.named then DENY else if g.c.named then USER else NONE
  }

  lemma MethodsHeard(c: Client, x: seq<byte>)
    ensures Methods(c) <= x ==> MethodsIn(x) == Found([Methods(c)[2]], 3)
    ensures x <= Methods(c) && x != Methods(c) ==> MethodsIn(x) == Short
  {
    if Methods(c) <= x {
      assert x[0] == 5 && x[1] == 1 && x[2..3] == [x[2]];
    }
  }

  lemma MethodIsChosen(g: Setting, s: Wire)
    requires Good(g) && Inv(g, s)
    ensures Chosen(g, s)
  {
    var m := Methods(g.c);
    MethodsHeard(g.c, s.up);
    assert m <= ClientSide(g, s).out;
    assert m <= s.up || (s.up <= m && s.up != m);
  }

  /** The client says nothing but its script, and all of it once it is connected. */
  lemma ClientScript(g: Setting, s: Wire)
    requires Good(g) && Chosen(g, s)
    ensures ClientSide(g, s).out <= Up(g.c) && (ClientSide(g, s).end.Connected? ==> ClientSide(g, s).out == Up(g.c))
  {
    var c := g.c;
    assert Up(c) == Methods(c) + Creds(c) + Request(c);
    if !c.named { assert Creds(c) + Request(c) == Request(c); }
  }

  /** The server is on its way to its verdict on the client. */
  lemma ServerOnCourse(g: Setting, s: Wire)
    requires Good(g) && Inv(g, s)
    ensures Below(ServerSide(g, s), Verdict(g.users, g.w, g.c))
    ensures s.up <= Up(g.c) || (Up(g.c) <= s.up && ClientSide(g, s).end.Connected?)
  {
    MethodIsChosen(g, s);
    ClientScript(g, s);
    AllHeard(g.users, g.w, g.c);
    if s.up <= Up(g.c) {
      ServerMore(g.users, g.w, s.up, Up(g.c));
    } else {
      ServerMore(g.users, g.w, Up(g.c), s.up);
    }
  }

  predicate Accepted(g: Setting)
    requires Good(g)
  {
    Match(g.users, g.c) && Final(g.w, g.c).end.Serving?
  }

  /** What the client makes of the whole verdict. */
  lemma VerdictHeard(g: Setting)
    requires Good(g)
    ensures ClientTalk(g.c, g.pipeline, Verdict(g.users, g.w, g.c).out).end
      == if Accepted(g) && g.c.usable then Connected(|Verdict(g.users, g.w, g.c).out|) else Denied
  {
    if Match(g.users, g.c) { FinalHeard(g); }
  }

  lemma FinalShape(w: World, c: Client)
    requires GoodWorld(w) && GoodClient(c)
    ensures var f := Final(w, c).out;
      && |f| in {10, 22} && f[0] == 5 && f[2] == 0 && f[3] == (if |f| == 10 then 1 else 4)
      && (Final(w, c).end.Serving? <==> f[1] == 0) && (!Final(w, c).end.Serving? ==> Final(w, c).end.Denied?)
  {}

  lemma FinalHeard(g: Setting)
    requires Good(g) && Match(g.users, g.c)
    ensures ClientTalk(g.c, g.pipeline, Verdict(g.users, g.w, g.c).out).end
      == if Accepted(g) && g.c.usable then Connected(|Verdict(g.users, g.w, g.c).out|) else Denied
  {
    var v, f := Verdict(g.users, g.w, g.c), Final(g.w, g.c).out;
    var at := |Greeting(g.users)|;
    FinalShape(g.w, g.c);
    assert v.out == Greeting(g.users) + f;
    assert v.out[at..] == f;
    assert v.out[at] == f[0] && v.out[at + 1] == f[1] && v.out[at + 3] == f[3];
    assert v.out[..at] == Greeting(g.users);
  }

  /** A server that waits has said less than its verdict. */
  lemma WaitingIsShort(g: Setting, x: seq<byte>)
    requires Good(g) && Server(g.users, g.w, x).end.Waiting?
    ensures |Server(g.users, g.w, x).out| <= |Greeting(g.users)|
  {}

  /** What the client makes of what it has heard agrees with what it makes of the whole verdict. */
  lemma ClientOnCourse(g: Setting, s: Wire)
    requires Good(g) && Inv(g, s)
    ensures var v := Verdict(g.users, g.w, g.c);
      && (s.down <= v.out || (Accepted(g) && v.out <= s.down && ServerSide(g, s) == v))
      && if s.down <= v.out then Below(ClientSide(g, s), ClientTalk(g.c, g.pipeline, v.out))
        else ClientSide(g, s) == ClientTalk(g.c, g.pipeline, v.out)
  {
    var v := Verdict(g.users, g.w, g.c);
    ServerOnCourse(g, s);
    if s.down <= v.out {
      ClientMore(g.c, g.pipeline, s.down, v.out);
    } else {
      ClientMore(g.c, g.pipeline, v.out, s.down);
      VerdictHeard(g);
    }
  }

  predicate Through(t: Talk, c: Client) { t.end == Serving(c.cmd, c.addr, |Up(c)|) }

  lemma ConnectedUsed(c: Client, pipeline: bool, y: seq<byte>)
    requires ClientTalk(c, pipeline, y).end.Connected?
    ensures ClientTalk(c, pipeline, y).end.used <= |y|
  {}

  /** In every run, at any moment: a server that serves has a client with the right credentials, and
      has recovered that client's command and address and read nothing behind the request. A client
      that is connected has such a server, and has read nothing behind the reply. */
  lemma Safety(g: Setting, actions: seq<Action>)
    requires Good(g)
    ensures var s := Run(g, Wire([], []), actions);
      && (ServerSide(g, s).end.Serving? ==> Match(g.users, g.c) && Through(ServerSide(g, s), g.c))
      && (ClientSide(g, s).end.Connected? ==>
        && Match(g.users, g.c) && Through(ServerSide(g, s), g.c)
        && ClientSide(g, s).end.used == |ServerSide(g, s).out| && ServerSide(g, s).out <= s.down)
  {
    var s, v := Run(g, Wire([], []), actions), Verdict(g.users, g.w, g.c);
    RunInv(g, Wire([], []), actions);
    ServerOnCourse(g, s);
    ClientOnCourse(g, s);
    VerdictHeard(g);
    if ClientSide(g, s).end.Connected? {
      ConnectedUsed(g.c, g.pipeline, s.down);
      if ServerSide(g, s).end.Waiting? { WaitingIsShort(g, s.up); }
    }
  }

  /** Nobody has anything left to say. */
  predicate Quiet(g: Setting, s: Wire)
    requires Good(g)
  {
    ClientSide(g, s).out <= s.up && ServerSide(g, s).out <= s.down
  }

  lemma UpParts(c: Client)
    ensures Methods(c) + Creds(c) <= Up(c) && (!c.named ==> Methods(c) + Request(c) == Up(c))
  {
    assert Up(c) == Methods(c) + Creds(c) + Request(c);
    if !c.named { assert Methods(c) + Creds(c) == Methods(c) && Creds(c) + Request(c) == Request(c); }
  }

  lemma ClientGoesOn(c: Client, pipeline: bool, y: seq<byte>)
    ensures Methods(c) <= ClientTalk(c, pipeline, y).out
    ensures c.named && |y| >= 2 && y[..2] == [5, USER] ==> Methods(c) + Creds(c) <= ClientTalk(c, pipeline, y).out
    ensures c.named && |y| >= 4 && y[..4] == [5, USER, 1, 0] ==> ClientTalk(c, pipeline, y).out == Up(c)
    ensures !c.named && |y| >= 2 && y[..2] == [5, NONE] ==> ClientTalk(c, pipeline, y).out == Up(c)
  {
    UpParts(c);
    if |y| >= 2 { assert y[..2] == [y[0], y[1]]; }
    if |y| >= 4 { assert y[..4] == [y[0], y[1], y[2], y[3]]; }
    assert Methods(c) + (Creds(c) + Request(c)) == Up(c);
  }

  lemma ServerGoesOn(g: Setting, x: seq<byte>)
    requires Good(g) && Methods(g.c) <= x
    ensures g.users.Some? != g.c.named ==> Server(g.users, g.w, x).end.Denied?
    ensures g.users.Some? == g.c.named ==> Greeting(g.users)[..2] <= Server(g.users, g.w, x).out
    ensures g.users.Some? && g.c.named && Methods(g.c) + Creds(g.c) <= x ==>
      if Match(g.users, g.c) then Greeting(g.users) <= Server(g.users, g.w, x).out else Server(g.users, g.w, x).end.Denied?
  {
    MethodsHeard(g.c, x);
    if g.c.named && Methods(g.c) + Creds(g.c) <= x { UserHeard(g.c, x); }
  }

  lemma PrefixHeard(a: seq<byte>, b: seq<byte>, d: seq<byte>)
    requires a <= b <= d
    ensures a <= d && |d| >= |a| && d[..|a|] == a
  {}

  /** A server does not wait for a client that has said all it can. */
  lemma QuietServer(g: Setting, s: Wire)
    requires Good(g) && Inv(g, s) && Quiet(g, s)
    ensures !ServerSide(g, s).end.Waiting?
  {
    var c, x, y := g.c, ClientSide(g, s).out, ServerSide(g, s).out;
    ClientGoesOn(c, g.pipeline, s.down);
    PrefixHeard(Methods(c), x, s.up);
    ServerGoesOn(g, s.up);
    if ServerSide(g, s).end.Waiting? {
      PrefixHeard(Greeting(g.users)[..2], y, s.down);
      if c.named {
        PrefixHeard(Methods(c) + Creds(c), x, s.up);
        PrefixHeard(Greeting(g.users), y, s.down);
      }
      assert x == Up(c);
      ServerOnCourse(g, s);
      AllHeard(g.users, g.w, c);
      ServerMore(g.users, g.w, Up(c), s.up);
    }
  }

  lemma UserHeard(c: Client, x: seq<byte>)
    requires GoodClient(c) && c.named && Methods(c) + Creds(c) <= x
    ensures UserAt(x, 3) == Found((c.user, c.pass), 6 + |c.user| + |c.pass|)
  {
    var n, k := |c.user|, |c.pass|;
    assert c.user[..n] == c.user && c.pass[..k] == c.pass;
    FiveParts(Methods(c), [1, n], c.user, [k], c.pass, x[6 + n + k..], x);
  }

  /** How much of the two scripts is still to be sent. */
  function Remaining(g: Setting, s: Wire): nat
    requires Good(g)
  {
    var v := Verdict(g.users, g.w, g.c).out;
    (if |s.up| < |Up(g.c)| then |Up(g.c)| - |s.up| else 0) + if |s.down| < |v| then |v| - |s.down| else 0
  }

  /** What is left of t, if bytes have been said of it. */
  lemma Rest(bytes: seq<byte>, t: seq<byte>)
    requires bytes <= t && bytes != t
    ensures bytes + t[|bytes|..] == t && |bytes| < |t|
  {}

  lemma ClientProgress(g: Setting, s: Wire) returns (a: Action)
    requires Good(g) && Inv(g, s) && !(ClientSide(g, s).out <= s.up)
    ensures Step(g, s, a) != s && Remaining(g, Step(g, s, a)) < Remaining(g, s)
  {
    var x := ClientSide(g, s).out;
    MethodIsChosen(g, s);
    ClientScript(g, s);
    Rest(s.up, x);
    a := ClientSends(x[|s.up|..]);
    assert Step(g, s, a) == s.(up := x) && |x| <= |Up(g.c)|;
  }

  lemma ServerProgress(g: Setting, s: Wire) returns (a: Action)
    requires Good(g) && Inv(g, s) && !(ServerSide(g, s).out <= s.down)
    ensures Step(g, s, a) != s && Remaining(g, Step(g, s, a)) < Remaining(g, s)
  {
    var y := ServerSide(g, s).out;
    ServerOnCourse(g, s);
    Rest(s.down, y);
    a := ServerSends(y[|s.down|..]);
    assert Step(g, s, a) == s.(down := y) && |y| <= |Verdict(g.users, g.w, g.c).out|;
  }

  /** Unless nobody has anything left to say, somebody can send, and less is to be sent then. */
  lemma Progress(g: Setting, s: Wire) returns (a: Action)
    requires Good(g) && Inv(g, s) && !Quiet(g, s)
    ensures Step(g, s, a) != s && Remaining(g, Step(g, s, a)) < Remaining(g, s)
  {
    if !(ClientSide(g, s).out <= s.up) {
      a := ClientProgress(g, s);
    } else {
      a := ServerProgress(g, s);
    }
  }

  /** No step takes anything back. */
  lemma NeverMore(g: Setting, s: Wire, a: Action)
    requires Good(g)
    ensures Remaining(g, Step(g, s, a)) <= Remaining(g, s)
  {}

  lemma {:induction false} RunNeverMore(g: Setting, s: Wire, actions: seq<Action>)
    requires Good(g)
    ensures Remaining(g, Run(g, s, actions)) <= Remaining(g, s)
    decreases |actions|
  {
    if actions != [] {
      NeverMore(g, s, actions[0]);
      RunNeverMore(g, Step(g, s, actions[0]), actions[1..]);
    }
  }

  lemma RunStep(g: Setting, s: Wire, a: Action, more: seq<Action>)
    requires Good(g)
    ensures Run(g, s, [a] + more) == Run(g, Step(g, s, a), more)
  {
    assert ([a] + more)[1..] == more;
  }

  lemma {:induction false} EndsFrom(g: Setting, s: Wire) returns (more: seq<Action>)
    requires Good(g) && Inv(g, s)
    ensures |more| <= Remaining(g, s) && Quiet(g, Run(g, s, more))
    decreases Remaining(g, s)
  {
    more := [];
    if !Quiet(g, s) {
      var a := Progress(g, s);
      StepInv(g, s, a);
      var rest := EndsFrom(g, Step(g, s, a));
      RunStep(g, s, a, rest);
      more := [a] + rest;
    }
  }

  /** Whatever has happened, the handshake can be brought to its end, in no more steps than there are
      bytes left in the two scripts; no run makes those more. */
  lemma ComesToEnd(g: Setting, s: Wire, actions: seq<Action>) returns (more: seq<Action>)
    requires Good(g) && Inv(g, s)
    ensures var s' := Run(g, s, actions);
      |more| <= Remaining(g, s') <= Remaining(g, s) && Quiet(g, Run(g, s', more))
  {
    RunInv(g, s, actions);
    RunNeverMore(g, s, actions);
    more := EndsFrom(g, Run(g, s, actions));
  }

  /** Once nobody has anything left to say, the outcome is the same in both modes: the client is
      connected exactly if its credentials match, the server's environment does what is asked, and the
      client can use the answer; and then it has sent the same bytes in both modes. */
  lemma Outcome(g: Setting, actions: seq<Action>)
    requires Good(g) && Quiet(g, Run(g, Wire([], []), actions))
    ensures var s := Run(g, Wire([], []), actions);
      && ServerSide(g, s) == Verdict(g.users, g.w, g.c) && !ClientSide(g, s).end.Waiting?
      && (ServerSide(g, s).end.Serving? <==> Accepted(g))
      && (ClientSide(g, s).end.Connected? <==> Accepted(g) && g.c.usable)
      && (Accepted(g) ==> Up(g.c) <= s.up && ClientSide(g, s).out == Up(g.c))
  {
    var s := Run(g, Wire([], []), actions);
    RunInv(g, Wire([], []), actions);
    QuietServer(g, s);
    ServerOnCourse(g, s);
    QuietClient(g, s);
    ClientScript(g, s);
    MethodIsChosen(g, s);
    if Accepted(g) { AcceptedSaysAll(g, s); }
  }

  lemma QuietClient(g: Setting, s: Wire)
    requires Good(g) && Inv(g, s) && Quiet(g, s) && ServerSide(g, s) == Verdict(g.users, g.w, g.c)
    ensures !ClientSide(g, s).end.Waiting? && (ClientSide(g, s).end.Connected? <==> Accepted(g) && g.c.usable)
  {
    ClientOnCourse(g, s);
    VerdictHeard(g);
    var v := Verdict(g.users, g.w, g.c).out;
    if s.down <= v { assert s.down == v; }
  }

  lemma AcceptedSaysAll(g: Setting, s: Wire)
    requires Good(g) && Accepted(g) && Quiet(g, s) && ServerSide(g, s) == Verdict(g.users, g.w, g.c)
    ensures ClientSide(g, s).out == Up(g.c) <= s.up
  {
    PrefixHeard(Greeting(g.users), ServerSide(g, s).out, s.down);
    ClientGoesOn(g.c, g.pipeline, s.down);
  }

  // ----- why the length limits -----

  /** The server sees the client's own credentials exactly if both texts have 1 to 255 bytes: longer ones
      are cut, and what is left of a text may be empty, which the server refuses. */
  lemma CutCreds(c: Client, tail: seq<byte>)
    requires c.named
    ensures var r := UserAt(Methods(c) + Creds(c) + tail, 3);
      r.Found? && r.value == (c.user, c.pass) <==> 1 <= |c.user| <= 255 && 1 <= |c.pass| <= 255
    ensures |c.user| % 256 == 0 || |c.pass| % 256 == 0 ==> UserAt(Methods(c) + Creds(c) + tail, 3).Bad?
  {
    var n, k := |c.user| % 256, |c.pass| % 256;
    FiveParts(Methods(c), [1, n], c.user[..n], [k], c.pass[..k], tail, Methods(c) + Creds(c) + tail);
    if |c.user| <= 255 && |c.pass| <= 255 {
      assert c.user[..n] == c.user && c.pass[..k] == c.pass;
    }
  }
}
