// The code of the two sides of the handshake, proved against what they have to say.
module HandshakeSides {
  import opened Records
  import opened Options
  import opened Addresses
  import opened Handshake
  import opened Authenticator

  /** A connected socket. input is all that arrives before the stream ends or a read times out. */
  class Socket {
    var input: seq<byte>
    var output: seq<byte>

    /** A read that waits for n bytes; got is false if there are not so many. x is what has arrived
        since the handshake began, at how much of it has been read. */
    method Recv(n: nat, ghost x: seq<byte>, ghost at: nat) returns (bytes: seq<byte>, got: bool)
      requires at <= |x| && input == x[at..]
      modifies this`input
      ensures got == (|x| >= at + n) && (got ==> bytes == x[at..at + n] && input == x[at + n..])
    {
      got := |input| >= n;
      var k := if got then n else |input|;
      bytes, input := input[..k], input[k..];
    }

    method Send(bytes: seq<byte>)
      modifies this`output
      ensures output == old(output) + bytes
    {
      output := output + bytes;
    }
  }

  class HevSocks5Server {
    const sock: Socket
    const auth: HevSocks5Authenticator?
    ghost const users: Option<Users>
    const world: World
    var cmd: byte
    var addr: seq<byte>

    constructor (sock: Socket, auth: HevSocks5Authenticator?, ghost users: Option<Users>, world: World)
      requires auth == null <==> users == None
      ensures this.sock == sock && this.auth == auth && this.users == users && this.world == world
    {
      this.sock, this.auth, this.users, this.world, cmd, addr := sock, auth, users, world, 0, [];
    }

    /** The authenticator, if there is one, has the users. */
    ghost predicate Known()
      reads if auth == null then {} else {auth.tree}, if auth == null then {} else auth.tree.Repr
    {
      (auth == null <==> users == None) && (auth != null ==> auth.Valid() && auth.Holds(users.value))
    }

    /** hev_socks5_server_read_auth_method */
    method ReadAuthMethod(ghost x: seq<byte>) returns (chosen: int, ghost at: nat)
      requires Known() && sock.input == x
      modifies sock`input
      ensures match MethodsIn(x)
        case Short => chosen == -1
        case Bad => chosen == -1
        case Found(methods, next) =>
          var wanted := if users.Some? then USER else NONE;
          chosen == (if wanted in methods then wanted else -1) && at == next <= |x| && sock.input == x[at..]
    {
      at := 0;
      chosen := -1;
      var head, got := sock.Recv(2, x, 0);
      if !got { return; }
      if head[0] != 5 { return; }
      at := 2;
      var len: int := head[1];
      var methods;
      methods, got := sock.Recv(len, x, 2);
      if !got { return; }
      at := 2 + len;
      var wanted := if auth != null then USER else NONE;
      var i := 0;
      while i < len
        invariant 0 <= i <= len && wanted !in methods[..i] && chosen == -1
      {
        if methods[i] == wanted {
          chosen := wanted;
          break;
        }
        i := i + 1;
      }
      assert chosen == -1 ==> methods[..i] == methods;
    }

    method WriteAuthMethod(chosen: int)
      requires -1 <= chosen < 256
      modifies sock`output
      ensures sock.output == old(sock.output) + [5, if chosen == -1 then DENY else chosen]
    {
      sock.Send([5, chosen % 256]);
    }

    /** hev_socks5_server_read_auth_user */
    method ReadAuthUser(ghost x: seq<byte>, ghost at: nat) returns (res: int, ghost next: nat)
      requires Known() && users.Some? && at <= |x| && sock.input == x[at..]
      modifies sock`input
      ensures match UserAt(x, at)
        case Short => res == -1
        case Bad => res == -1
        case Found(creds, after) =>
          && res == (if creds.0 in users.value && users.value[creds.0] == creds.1 then 0 else -1)
          && next == after <= |x| && sock.input == x[next..]
    {
      var creds;
      creds, next := ReadCreds(x, at);
      if creds == None {
        return -1, next;
      }
      res := auth.Check(creds.value.0, creds.value.1, users.value);
    }

    /** The reads of it. */
    method ReadCreds(ghost x: seq<byte>, ghost at: nat) returns (creds: Option<(seq<byte>, seq<byte>)>, ghost next: nat)
      requires at <= |x| && sock.input == x[at..]
      modifies sock`input
      ensures match UserAt(x, at)
        case Short => creds == None
        case Bad => creds == None
        case Found(found, after) => creds == Some(found) && next == after <= |x| && sock.input == x[next..]
    {
      next := at;
      creds := None;
      var head, got := sock.Recv(2, x, at);
      if !got { return; }
      if head[0] != 1 { return; }
      var nlen: int := head[1];
      if nlen == 0 { return; }
      var name;
      name, got := sock.Recv(nlen + 1, x, at + 2);
      if !got { return; }
      var plen: int := name[nlen];
      if plen == 0 { return; }
      var pass;
      pass, got := sock.Recv(plen, x, at + 3 + nlen);
      if !got { return; }
      next := at + 3 + nlen + plen;
      assert name[..nlen] == x[at + 2..at + 2 + nlen];
      creds := Some((name[..nlen], pass));
    }

    method WriteAuthUser(res: int)
      requires -1 <= res <= 0
      modifies sock`output
      ensures sock.output == old(sock.output) + [1, if res == 0 then 0 else DENY]
    {
      sock.Send([1, res % 256]);
    }

    /** hev_socks5_server_read_request: rep stays 0 if the request can be served. */
    method ReadRequest(ghost x: seq<byte>, ghost at: nat) returns (res: int, rep: byte, dest: Sockaddr)
      requires GoodWorld(world) && at <= |x| && sock.input == x[at..]
      modifies sock`input, this
      ensures GoodSockaddr(dest)
      ensures match RequestAt(x, at)
        case Unread => res == -1 || rep != 0
        case Faulty(r) => res == 0 && rep == r != 0 && dest == ZERO
        case Asked(c, a, next) =>
          && res == 0 && next <= |x| && sock.input == x[next..]
          && match IntoSockaddr(a, world.names)
            case None => rep == 8 && dest == world.bound
            case Some(d) => rep == 0 && dest == d && cmd == c && addr == a
    {
      res, rep, dest := 0, 0, ZERO;
      var head, got := sock.Recv(5, x, at);
      if !got { return -1, 0, ZERO; }
      if head[0] != 5 { return 0, 1, ZERO; }
      assert head[3] == x[at + 3] && head[4] == x[at + 4];
      var len := AddressRest(head[3], head[4]);
      if len == -1 { return 0, 8, ZERO; }
      var rest;
      rest, got := sock.Recv(len, x, at + 5);
      if !got { return 0, 8, ZERO; }
      var whole := head[3..] + rest;
      assert whole == x[at + 3..at + 5 + len];
      var found := IntoSockaddr(whole, world.names);
      if found == None { return 0, 8, world.bound; }
      dest := found.value;
      cmd, addr := head[1], whole;
    }

    method WriteResponse(rep: byte, dest: Sockaddr)
      requires GoodSockaddr(dest)
      modifies sock`output
      ensures sock.output == old(sock.output) + Reply(rep, dest)
    {
      sock.Send([5, rep, 0] + FromSockaddr(dest));
    }

    method Auth(ghost x: seq<byte>) returns (res: int, ghost at: nat)
      requires Known() && sock.input == x
      modifies sock
      ensures Authenticated(users, x, old(sock.output), sock.output, sock.input, res, at)
    {
      var chosen;
      chosen, at := ReadAuthMethod(x);
      WriteAuthMethod(chosen);
      res := 0;
      if chosen == USER {
        res, at := ReadAuthUser(x, at);
        WriteAuthUser(res);
      } else if chosen != NONE {
        res := -1;
      }
    }

    /** What a handshake leaves behind. A server whose client stops in the middle may say more. */
    ghost predicate Done(t: Talk, x: seq<byte>, before: seq<byte>, res: int)
      reads this, sock
    {
      && before + t.out <= sock.output && res == (if t.end.Serving? then 0 else -1)
      && (!t.end.Waiting? ==> sock.output == before + t.out)
      && (t.end.Serving? ==> cmd == t.end.cmd && addr == t.end.addr && t.end.used <= |x| && sock.input == x[t.end.used..])
    }

    /** hev_socks5_server_handshake */
    method Handshake(ghost x: seq<byte>) returns (res: int)
      requires Known() && GoodWorld(world) && sock.input == x
      modifies sock, this
      ensures Done(Server(users, world, x), x, old(sock.output), res)
    {
      ghost var before := sock.output;
      ghost var at;
      res, at := AuthSaid(x);
      if res < 0 { return -1; }
      SaidBefore(before, Greeting(users), ServerRequest(world, x, at));
      res := ServeRequest(x, at);
    }

    /** The part of what the server says that ends with the authentication. */
    method AuthSaid(ghost x: seq<byte>) returns (res: int, ghost at: nat)
      requires Known() && GoodWorld(world) && sock.input == x
      modifies sock
      ensures -1 <= res <= 0
      ensures if res < 0 then Refused(Server(users, world, x), old(sock.output), sock.output)
        else Greeted(users, world, x, old(sock.output), sock.output, sock.input, at)
    {
      ghost var before := sock.output;
      res, at := Auth(x);
      AuthSays(users, world, x, before, sock.output, sock.input, res, at);
    }

    method ServeRequest(ghost x: seq<byte>, ghost at: nat) returns (res: int)
      requires GoodWorld(world) && at <= |x| && sock.input == x[at..]
      modifies sock, this
      ensures Done(ServerRequest(world, x, at), x, old(sock.output), res)
    {
      var rep, dest;
      res, rep, dest := ReadRequest(x, at);
      if res < 0 { return -1; }
      if rep == 0 {
        if cmd == 1 {
          if !world.works { rep := 4; }
        } else if cmd == 3 {
          dest := world.bound;
          if !world.works { rep := 1; }
        } else if cmd == 5 {
          if !world.works { rep := 1; }
        } else {
          rep := 7;
        }
      }
      WriteResponse(rep, dest);
      res := if rep != 0 then -1 else 0;
    }
  }

  lemma SaidTwice(a: seq<byte>, b: seq<byte>, c: seq<byte>)
    ensures a + b + c == a + (b + c)
  {}

  lemma SaySay(a: seq<byte>, b: seq<byte>, t: Talk)
    ensures Say(a, Say(b, t)) == Say(a + b, t)
  {
    SaidTwice(a, b, t.out);
  }

  lemma SaidBefore(before: seq<byte>, g: seq<byte>, t: Talk)
    ensures before + Say(g, t).out == before + g + t.out
  {}

  /** What comes of the credentials at `next`. */
  predicate Answered(users: Users, x: seq<byte>, next: nat, before: seq<byte>, after: seq<byte>, input: seq<byte>, res: int,
                     at: nat) {
    match UserAt(x, next)
    case Short => res == -1 && before + [5, USER] <= after
    case Bad => res == -1 && after == before + [5, USER] + [1, DENY]
    case Found(creds, end) =>
      if creds.0 in users && users[creds.0] == creds.1
      then res == 0 && after == before + [5, USER] + [1, 0] && at == end <= |x| && input == x[at..]
      else res == -1 && after == before + [5, USER] + [1, DENY]
  }

  /** What comes of the authentication. */
  predicate Authenticated(users: Option<Users>, x: seq<byte>, before: seq<byte>, after: seq<byte>, input: seq<byte>, res: int,
                          at: nat) {
    match MethodsIn(x)
    case Short => res == -1 && before <= after
    case Bad => res == -1 && after == before + [5, DENY]
    case Found(methods, next) =>
      var wanted := if users.Some? then USER else NONE;
      if wanted !in methods then res == -1 && after == before + [5, DENY]
      else if users.None? then res == 0 && after == before + [5, wanted] && at == next <= |x| && input == x[at..]
      else Answered(users.value, x, next, before, after, input, res, at)
  }

  /** A handshake that ends with the authentication, and one that goes on behind it. */
  predicate Refused(t: Talk, before: seq<byte>, after: seq<byte>) {
    before + t.out <= after && !t.end.Serving? && (!t.end.Waiting? ==> after == before + t.out)
  }

  predicate Greeted(users: Option<Users>, w: World, x: seq<byte>, before: seq<byte>, after: seq<byte>, input: seq<byte>, at: nat)
    requires GoodWorld(w)
  {
    && at <= |x| && input == x[at..] && after == before + Greeting(users)
    && Server(users, w, x) == Say(Greeting(users), ServerRequest(w, x, at))
  }

  lemma AuthSays(users: Option<Users>, w: World, x: seq<byte>, before: seq<byte>, after: seq<byte>, input: seq<byte>, res: int,
                 at: nat)
    requires GoodWorld(w) && Authenticated(users, x, before, after, input, res, at)
    ensures -1 <= res <= 0
    ensures if res < 0 then Refused(Server(users, w, x), before, after) else Greeted(users, w, x, before, after, input, at)
  {
    if !Chosen(users, x) {
    } else if users.None? {
      PlainSays(w, x, before, after, input, res, at);
    } else {
      UserSays(users.value, w, x, before, after, input, res, at);
    }
  }

  predicate Chosen(users: Option<Users>, x: seq<byte>) {
    MethodsIn(x).Found? && (if users.Some? then USER else NONE) in MethodsIn(x).value
  }

  lemma PlainSays(w: World, x: seq<byte>, before: seq<byte>, after: seq<byte>, input: seq<byte>, res: int, at: nat)
    requires GoodWorld(w) && Authenticated(None, x, before, after, input, res, at) && Chosen(None, x)
    ensures res == 0 && Greeted(None, w, x, before, after, input, at)
  {}

  lemma UserSays(users: Users, w: World, x: seq<byte>, before: seq<byte>, after: seq<byte>, input: seq<byte>, res: int, at: nat)
    requires GoodWorld(w) && Authenticated(Some(users), x, before, after, input, res, at) && Chosen(Some(users), x)
    ensures -1 <= res <= 0
    ensures if res < 0 then Refused(Server(Some(users), w, x), before, after)
      else Greeted(Some(users), w, x, before, after, input, at)
  {
    var next := MethodsIn(x).next;
    assert Server(Some(users), w, x) == Say([5, USER], ServerUser(users, w, x, next));
    AnswerSays(users, w, x, next, before, after, input, res, at);
    if res == 0 { BothSaid(ServerRequest(w, x, at)); }
  }

  lemma BothSaid(t: Talk)
    ensures Say([5, USER], Say([1, 0], t)) == Say([5, USER, 1, 0], t)
  {
    SaySay([5, USER], [1, 0], t);
    assert [5, USER] + [1, 0] == [5, USER, 1, 0];
  }

  /** The same for the part behind the choice of a method. */
  lemma AnswerSays(users: Users, w: World, x: seq<byte>, next: nat, before: seq<byte>, after: seq<byte>, input: seq<byte>,
                   res: int, at: nat)
    requires GoodWorld(w) && Answered(users, x, next, before, after, input, res, at)
    ensures -1 <= res <= 0
    ensures res < 0 ==> Refused(Say([5, USER], ServerUser(users, w, x, next)), before, after)
    ensures res == 0 ==>
      && at <= |x| && input == x[at..] && after == before + [5, USER, 1, 0]
      && ServerUser(users, w, x, next) == Say([1, 0], ServerRequest(w, x, at))
  {
    SaidTwice(before, [5, USER], [1, DENY]);
    SaidTwice(before, [5, USER], [1, 0]);
    assert [5, USER] + [1, 0] == [5, USER, 1, 0];
  }

  class HevSocks5Client {
    const sock: Socket
    const self: Client

    constructor (sock: Socket, self: Client)
      ensures this.sock == sock && this.self == self
    {
      this.sock, this.self := sock, self;
    }

    method WriteAuthMethods()
      modifies sock`output
      ensures sock.output == old(sock.output) + Methods(self)
    {
      sock.Send([5, 1, if !self.named then NONE else USER]);
    }

    method WriteAuthCreds()
      modifies sock`output
      ensures sock.output == old(sock.output) + Creds(self)
    {
      if !self.named { return; }
      var ub1, ub2 := |self.user| % 256, |self.pass| % 256;
      sock.Send([1, ub1] + self.user[..ub1] + [ub2] + self.pass[..ub2]);
    }

    method WriteRequest()
      modifies sock`output
      ensures sock.output == old(sock.output) + Request(self)
    {
      sock.Send([5, self.cmd, 0] + self.addr);
    }

    method ReadAuthMethod(ghost y: seq<byte>) returns (res: int)
      requires sock.input == y
      modifies sock`input
      ensures if |y| >= 2 && y[0] == 5 then res == y[1] && sock.input == y[2..] else res == -1
    {
      var auth, got := sock.Recv(2, y, 0);
      if !got { return -1; }
      if auth[0] != 5 { return -1; }
      res := auth[1];
    }

    method ReadAuthCreds(ghost y: seq<byte>) returns (res: int)
      requires |y| >= 2 && sock.input == y[2..]
      modifies sock`input
      ensures if |y| >= 4 && y[2] == 1 && y[3] == 0 then res == 0 && sock.input == y[4..] else res == -1
    {
      var head, got := sock.Recv(2, y, 2);
      if !got { return -1; }
      if head[0] != 1 { return -1; }
      if head[1] != 0 { return -1; }
      res := 0;
    }

    /** hev_socks5_client_read_response */
    method ReadResponse(ghost y: seq<byte>, ghost at: nat) returns (res: int)
      requires at <= |y| && sock.input == y[at..]
      modifies sock`input
      ensures var e := ClientReply(self, y, at).end;
        res == (if e.Connected? then 0 else -1) && (e.Connected? ==> e.used <= |y| && sock.input == y[e.used..])
    {
      var head, got := sock.Recv(4, y, at);
      if !got { return -1; }
      assert head[0] == y[at] && head[1] == y[at + 1] && head[3] == y[at + 3];
      if head[0] != 5 { return -1; }
      if head[1] != 0 { return -1; }
      var addrlen := if head[3] == 1 then 6 else if head[3] == 4 then 18 else -1;
      if addrlen == -1 { return -1; }
      var bound;
      bound, got := sock.Recv(addrlen, y, at + 4);
      if !got { return -1; }
      res := if self.usable then 0 else -1;
    }

    /** What a handshake leaves behind, in either mode. */
    ghost predicate Done(t: Talk, y: seq<byte>, before: seq<byte>, res: int)
      reads this, sock
    {
      && sock.output == before + t.out && res == (if t.end.Connected? then 0 else -1)
      && (t.end.Connected? ==> t.end.used <= |y| && sock.input == y[t.end.used..])
    }

    method HandshakeStandard(ghost y: seq<byte>) returns (res: int)
      requires sock.input == y
      modifies sock
      ensures Done(Standard(self, y), y, old(sock.output), res)
    {
      WriteAuthMethods();
      res := ReadAuthMethod(y);
      if res < 0 { return -1; }
      ghost var at := 2;
      if res == USER {
        WriteAuthCreds();
        res := ReadAuthCreds(y);
        if res < 0 { return -1; }
        at := 4;
      } else if res != NONE {
        return -1;
      }
      WriteRequest();
      res := ReadResponse(y, at);
    }

    /** Everything is written before anything is read. */
    method WriteAll()
      modifies sock`output
      ensures sock.output == old(sock.output) + Up(self)
    {
      SaidTwice(sock.output + Methods(self), Creds(self), Request(self));
      SaidTwice(sock.output, Methods(self), Creds(self) + Request(self));
      WriteAuthMethods();
      WriteAuthCreds();
      WriteRequest();
    }

    method HandshakePipeline(ghost y: seq<byte>) returns (res: int)
      requires sock.input == y
      modifies sock
      ensures Done(Pipeline(self, y), y, old(sock.output), res)
    {
      WriteAll();
      res := ReadAuthMethod(y);
      if res < 0 { return -1; }
      ghost var at := 2;
      if res == USER {
        res := ReadAuthCreds(y);
        if res < 0 { return -1; }
        at := 4;
      } else if res != NONE {
        return -1;
      }
      res := ReadResponse(y, at);
    }

    method Handshake(pipeline: bool, ghost y: seq<byte>) returns (res: int)
      requires sock.input == y
      modifies sock
      ensures Done(ClientTalk(self, pipeline, y), y, old(sock.output), res)
    {
      if pipeline {
        res := HandshakePipeline(y);
      } else {
        res := HandshakeStandard(y);
      }
    }
  }
}
