// Splicing one TCP session: lwIP's client on one side, the server's socket on the other.
module TcpSplice {
  import opened Records
  import opened RingBuffer

  // TCP_WND of lwIP's options: lwIP never has more received bytes unread than its window.
  const WINDOW: nat := 65528
  const MAX_IOV: nat := 64

  /** What writev on the server's socket comes to; a result of 0 counts as broken. */
  datatype WriteResult = Took(n: nat) | NoRoom | Broken

  /** What readv on the server's socket comes to; Over is end of file or an error. */
  datatype ReadResult = Got(bytes: seq<byte>) | NoneYet | Over

  /** The bytes of a chain of pbufs. */
  function Flat(queue: seq<seq<byte>>): seq<byte> {
    if queue == [] then [] else queue[0] + Flat(queue[1..])
  }

  lemma {:induction false} FlatConcat(a: seq<seq<byte>>, b: seq<seq<byte>>)
    ensures Flat(a + b) == Flat(a) + Flat(b)
  {
    if a == [] {
      assert a + b == b;
    } else {
      assert (a + b)[1..] == a[1..] + b;
      FlatConcat(a[1..], b);
    }
  }

  lemma FlatPrefix(queue: seq<seq<byte>>, k: nat)
    requires k <= |queue|
    ensures Flat(queue[..k]) <= Flat(queue)
  {
    assert queue == queue[..k] + queue[k..];
    FlatConcat(queue[..k], queue[k..]);
  }

  /** pbuf_free_header: the first size bytes of the chain are freed; lwIP takes the size as 16 bits. */
  method FreeHeader(queue: seq<seq<byte>>, size: nat) returns (rest: seq<seq<byte>>)
    ensures var n := size % 0x1_0000; n <= |Flat(queue)| ==> Flat(rest) == Flat(queue)[n..]
  {
    var left := size % 0x1_0000;
    ghost var n := left;
    rest := queue;
    while left > 0 && rest != []
      invariant 0 <= left <= n && (n <= |Flat(queue)| ==> left <= |Flat(rest)| && Flat(rest)[left..] == Flat(queue)[n..])
      decreases |rest|, left
    {
      if left >= |rest[0]| {
        FreeStep(rest, left);
        left := left - |rest[0]|;
        rest := rest[1..];
      } else {
        TrimStep(rest, left);
        rest := rest[0 := rest[0][left..]];
        left := 0;
      }
    }
    assert Flat(rest)[0..] == Flat(rest);
  }

  lemma FreeStep(queue: seq<seq<byte>>, n: nat)
    requires queue != [] && |queue[0]| <= n
    ensures n <= |Flat(queue)| ==> n - |queue[0]| <= |Flat(queue[1..])| && Flat(queue[1..])[n - |queue[0]|..] == Flat(queue)[n..]
  {}

  lemma TrimStep(queue: seq<seq<byte>>, n: nat)
    requires queue != [] && n < |queue[0]|
    ensures Flat(queue[0 := queue[0][n..]]) == Flat(queue)[n..]
  {
    assert queue[0 := queue[0][n..]][1..] == queue[1..];
  }

  class HevSocks5SessionTCP {
    var queue: seq<seq<byte>>     // pbufs from the client, not yet written to the server
    var pcb: bool                 // lwIP's connection is still there
    var pcbEof: bool              // the client has finished sending
    const buffer: HevRingBuffer   // bytes from the server, until the client acknowledges them

    // the world
    ghost var received: seq<byte>   // all bytes from the client
    ghost var delivered: seq<byte>  // all bytes written to the server
    ghost var serverShut: bool      // shutdown (fd, SHUT_WR) was called
    ghost var serverOver: bool      // the server's socket has reported end of file or an error
    ghost var clientShut: bool      // tcp_shutdown (pcb, 0, 1) was called
    ghost var serverBroken: bool    // a write to the server has failed
    ghost var clientBroken: bool    // a write to the client has failed, or its connection is gone
    ghost var written: seq<byte>    // all bytes given to tcp_write

    /** Each direction has delivered a prefix of what it received and holds exactly the rest; a write
        side is shut only when all there ever was to write has been passed on. */
    ghost predicate Valid()
      reads this, buffer, buffer.data
    {
      && buffer.Valid()
      && delivered + Flat(queue) == received && |Flat(queue)| <= WINDOW
      && written == buffer.written[..buffer.handed]
      && (serverShut ==> pcbEof && queue == [])
      && (clientShut ==> serverOver && buffer.rda == 0)
    }

    constructor (size: nat)
      requires size > 0
      ensures Valid() && fresh(buffer) && fresh(buffer.data) && pcb && !pcbEof && !serverShut && !clientShut
      ensures !serverOver
      ensures received == [] && delivered == [] && written == [] && buffer.written == [] && !serverBroken
      ensures !clientBroken
    {
      buffer := new HevRingBuffer(size);
      queue, pcb, pcbEof := [], true, false;
      received, delivered, written, serverShut, serverOver, clientShut := [], [], [], false, false, false;
      serverBroken, clientBroken := false, false;
    }

    // ----- lwIP's callbacks -----

    /** tcp_recv_handler: a pbuf from the client, or None at the end. */
    method TcpRecvHandler(p: seq<byte>)
      requires Valid() && !pcbEof && |Flat(queue)| + |p| <= WINDOW
      modifies this`queue, this`pcbEof, this`received
      ensures Valid() && received == old(received) + p && pcbEof == (p == [])
    {
      if p != [] {
        FlatConcat(queue, [p]);
        assert Flat([p]) == p + Flat([]);
        queue := queue + [p];
      } else {
        pcbEof := true;
      }
      received := received + p;
    }

    /** tcp_sent_handler: the client has acknowledged len bytes; never more than are outstanding. */
    method TcpSentHandler(len: nat)
      requires Valid() && len <= buffer.use - buffer.rda
      modifies buffer`rp, buffer`wp, buffer`use, buffer`released
      ensures Valid() && buffer.released == old(buffer.released) + len && buffer.written == old(buffer.written)
    {
      buffer.ReadRelease(len);
    }

    /** tcp_err_handler: the connection is gone. */
    method TcpErrHandler()
      requires Valid()
      modifies this`pcb, this`clientBroken
      ensures Valid() && !pcb && clientBroken
    {
      pcb := false;
      clientBroken := true;
    }

    // ----- client to server -----

    /** writev took n bytes from the front of the queue. */
    method Written(n: nat)
      requires Valid() && !serverShut && n <= |Flat(queue)|
      modifies this`queue, this`delivered
      ensures Valid() && delivered == old(delivered) + old(Flat(queue))[..n]
    {
      ghost var flat := Flat(queue);
      delivered := delivered + flat[..n];
      queue := FreeHeader(queue, n);
      assert flat == flat[..n] + flat[n..];
    }

    /** tcp_splice_f: 1 if bytes moved, 0 if nothing can move now, -1 if this direction is finished. */
    method TcpSpliceF(w: WriteResult) returns (res: int)
      requires Valid() && !serverShut
      requires w.Took? ==> 1 <= w.n <= |Flat(queue[..if |queue| < MAX_IOV then |queue| else MAX_IOV])|
      modifies this`queue, this`delivered, this`serverShut, this`serverBroken
      ensures Valid() && -1 <= res <= 1
      ensures w.Took? ==> w.n <= |old(Flat(queue))|
      ensures old(queue) != [] && w.Took? ==> res == 1 && delivered == old(delivered) + old(Flat(queue))[..w.n]
      ensures !(old(queue) != [] && w.Took?) ==> delivered == old(delivered) && queue == old(queue)
      ensures res == 1 ==> old(queue) != [] && w.Took?
      ensures serverBroken == (old(serverBroken) || (old(queue) != [] && w.Broken?))
      ensures res == -1 <==> serverShut || (old(queue) != [] && w.Broken?)
      ensures serverShut <==> old(queue) == [] && pcbEof
      ensures serverShut ==> delivered == received
    {
      FlatPrefix(queue, if |queue| < MAX_IOV then |queue| else MAX_IOV);
      var iovc := 0;
      res := 1;
      if queue != [] {
        while iovc < |queue| && iovc < MAX_IOV
        {
          iovc := iovc + 1;
        }
      } else if pcbEof {
        res := -1;
      } else {
        res := 0;
      }
      if iovc != 0 {
        match w
        case Took(n) =>
          Written(n);
          res := 1;
        case NoRoom => res := 0;
        case Broken =>
          res := -1;
          serverBroken := true;
      } else if res < 0 {
        serverShut := true;
      }
    }

    // ----- server to client -----

    /** The first half of tcp_splice_b: what the server sent goes into the free cells. */
    method Fetch(r: ReadResult) returns (res: int)
      requires Valid() && !clientShut && (r.Got? ==> 1 <= |r.bytes| <= buffer.max - buffer.use)
      modifies this`serverOver, buffer, buffer.data
      ensures Valid() && written == old(written) && buffer.handed == old(buffer.handed)
      ensures buffer.released == old(buffer.released)
      ensures var room := old(buffer.use) < buffer.max;
        && (room && r.Got? ==> res == 1 && buffer.written == old(buffer.written) + r.bytes && serverOver == old(serverOver))
        && (room && r.Over? ==> res == -1 && serverOver)
        && (!room || r.NoneYet? ==> res == 0 && serverOver == old(serverOver))
        && (!room || !r.Got? ==> buffer.written == old(buffer.written))
    {
      res := 1;
      var iov := buffer.Writing();
      if iov != [] {
        match r
        case Got(bytes) =>
          buffer.Readv(iov, bytes);
          buffer.WriteFinish(|bytes|, bytes);
        case NoneYet => res := 0;
        case Over =>
          res := -1;
          serverOver := true;
      } else {
        res := 0;
      }
    }

    /** tcp_splice_b: err says whether tcp_write or tcp_output failed. */
    method TcpSpliceB(r: ReadResult, err: bool) returns (res: int)
      requires Valid() && !clientShut && (r.Got? ==> 1 <= |r.bytes| <= buffer.max - buffer.use)
      modifies this`serverOver, this`clientShut, this`clientBroken, this`written, buffer, buffer.data
      ensures Valid() && -1 <= res <= 1 && buffer.released == old(buffer.released)
      ensures pcb ==> buffer.handed == |buffer.written| && written == buffer.written
      ensures old(buffer.written) <= buffer.written <= old(buffer.written) + (if r.Got? then r.bytes else [])
      ensures !pcb ==> res == -1 && written == old(written)
      ensures clientShut <==> pcb && r.Over? && old(buffer.use) < buffer.max && old(buffer.rda) == 0
      ensures var come := if r.Got? && old(buffer.use) < buffer.max then |r.bytes| else 0;
        res == -1 <==> clientShut || !pcb || (err && old(buffer.rda) + come > 0)
      ensures clientBroken == (old(clientBroken) || !pcb || (res == -1 && !clientShut))
    {
      res := Fetch(r);
      res := Give(res, err);
    }

    /** The second half of tcp_splice_b: everything unread is handed to lwIP; if there is nothing and the
        server is done, the client's side is shut. */
    method Give(fetched: int, err: bool) returns (res: int)
      requires Valid() && !clientShut && -1 <= fetched <= 1 && (fetched == -1 ==> serverOver) && (fetched == 1 ==> buffer.rda > 0)
      modifies this`clientShut, this`clientBroken, this`written, buffer`rp, buffer`rda, buffer`handed
      ensures Valid() && -1 <= res <= 1
      ensures pcb ==> buffer.handed == |buffer.written| && written == buffer.written
      ensures !pcb ==> res == -1 && written == old(written)
      ensures clientShut <==> pcb && fetched == -1 && old(buffer.rda) == 0
      ensures res == -1 <==> clientShut || !pcb || (err && old(buffer.rda) > 0)
      ensures clientBroken == (old(clientBroken) || !pcb || (res == -1 && !clientShut))
    {
      res := fetched;
      var failed := false;
      if pcb {
        var iov := buffer.Reading();
        if iov != [] {
          written := buffer.written;
          failed := err;
          buffer.ReadFinish(buffer.rda);
          res := 1;
        } else if res < 0 {
          clientShut := true;
        }
        assert buffer.written[..buffer.handed] == buffer.written;
      }
      if !pcb || failed {
        res := -1;
        clientBroken := true;
      }
    }

    // ----- the splice loop -----

    /** What can happen while the task yields. The other parties keep to the protocol: nothing after the
        client's end, no more than the window, no acknowledgement of what is not outstanding. */
    method Callback(c: Event)
      requires Valid()
      modifies this`queue, this`pcb, this`pcbEof, this`received, this`clientBroken
      modifies buffer`rp, buffer`wp, buffer`use, buffer`released
      ensures Valid() && buffer.handed == old(buffer.handed) && buffer.rda == old(buffer.rda)
      ensures old(clientBroken) ==> clientBroken
      ensures pcb == old(pcb) || clientBroken
    {
      match c
      case Recv(p) => if pcb && !pcbEof && |Flat(queue)| + |p| <= WINDOW { TcpRecvHandler(p); }
      case Sent(len) => if pcb && len <= buffer.use - buffer.rda { TcpSentHandler(len); }
      case Err => TcpErrHandler();
    }

    method Yield(cs: seq<Event>)
      requires Valid()
      modifies this`queue, this`pcb, this`pcbEof, this`received, this`clientBroken
      modifies buffer`rp, buffer`wp, buffer`use, buffer`released
      ensures Valid() && buffer.handed == old(buffer.handed) && buffer.rda == old(buffer.rda)
      ensures old(clientBroken) ==> clientBroken
      ensures pcb == old(pcb) || clientBroken
    {
      var i := 0;
      while i < |cs|
        invariant 0 <= i <= |cs| && Valid() && buffer.handed == old(buffer.handed) && buffer.rda == old(buffer.rda)
        invariant (old(clientBroken) ==> clientBroken) && (pcb == old(pcb) || clientBroken)
      {
        Callback(cs[i]);
        i := i + 1;
      }
    }

    /** A result that writev or readv can have in the present state. */
    predicate CanWrite(w: WriteResult)
      reads this
    {
      w.Took? ==> 1 <= w.n <= |Flat(queue[..if |queue| < MAX_IOV then |queue| else MAX_IOV])|
    }

    predicate CanRead(r: ReadResult)
      reads buffer
    {
      r.Got? ==> 1 <= |r.bytes| && buffer.use + |r.bytes| <= buffer.max
    }

    /** What the loop's two results say about the directions. */
    ghost predicate Between(resF: int, resB: int)
      reads this, buffer, buffer.data
    {
      && Valid() && (!pcb ==> clientBroken)
      && (if resF >= 0 then !serverShut else serverShut || serverBroken)
      && (if resB >= 0 then !clientShut else clientShut || clientBroken)
    }

    method ForwardTurn(resF: int, w: WriteResult, ghost resB: int) returns (res: int)
      requires Between(resF, resB)
      modifies this`queue, this`delivered, this`serverShut, this`serverBroken
      ensures Between(res, resB)
    {
      res := resF;
      if resF >= 0 {
        res := TcpSpliceF(if CanWrite(w) then w else NoRoom);
      }
    }

    method BackTurn(resB: int, r: ReadResult, err: bool, ghost resF: int) returns (res: int)
      requires Between(resF, resB)
      modifies this`serverOver, this`clientShut, this`clientBroken, this`written, buffer, buffer.data
      ensures Between(resF, res)
    {
      res := resB;
      if resB >= 0 {
        res := TcpSpliceB(if CanRead(r) then r else NoneYet, err);
      }
    }

    method YieldBetween(cs: seq<Event>, ghost resF: int, ghost resB: int)
      requires Between(resF, resB)
      modifies this`queue, this`pcb, this`pcbEof, this`received, this`clientBroken
      modifies buffer`rp, buffer`wp, buffer`use, buffer`released
      ensures Between(resF, resB)
    {
      Yield(cs);
    }

    /** The loop of hev_socks5_session_tcp_splice, for the rounds that the world gives it. It leaves by
        itself only when the yielder fails or both directions are finished; if no write has failed until
        then, both have passed on everything, and both write sides are shut. */
    method Splice(rounds: seq<Round>) returns (ended: Ended)
      requires Valid() && pcb && !serverShut && !clientShut && !serverBroken && !clientBroken
      modifies this`queue, this`pcb, this`pcbEof, this`received, this`delivered, this`written
      modifies this`serverShut, this`serverOver, this`clientShut, this`serverBroken, this`clientBroken
      modifies buffer, buffer.data
      ensures Valid()
      ensures ended == Finished ==> (serverShut || serverBroken) && (clientShut || clientBroken)
      ensures ended == Finished && !serverBroken ==> delivered == received
      ensures ended == Finished && !clientBroken ==> written == buffer.written
      ensures ended == YielderFailed ==> exists i :: 0 <= i < |rounds| && !rounds[i].goesOn
    {
      var resF, resB, i := 1, 1, 0;
      while i < |rounds|
        invariant 0 <= i <= |rounds| && Between(resF, resB)
      {
        var round := rounds[i];
        resF := ForwardTurn(resF, round.w, resB);
        resB := BackTurn(resB, round.r, round.err, resF);
        var waits := false;
        if resF > 0 || resB > 0 {
          waits := false;
        } else if resF == 0 || resB == 0 {
          waits := true;    // "(res_f & res_b) == 0" for results of 0 and -1
        } else {
          return Finished;
        }
        if !round.goesOn {
          return YielderFailed;
        }
        YieldBetween(round.events, resF, resB);
        i := i + 1;
      }
      ended := StillRunning;
    }

    /** The loop behind it: the buffer is given up only when lwIP refers to none of its bytes any more, the
        connection is gone, or the yielder fails. */
    method Drain(rounds: seq<Round>) returns (ended: Ended)
      requires Valid()
      modifies this`queue, this`pcb, this`pcbEof, this`received, this`clientBroken
      modifies buffer`rp, buffer`wp, buffer`use, buffer`released
      ensures Valid() && (ended == Finished ==> !pcb || buffer.released == |buffer.written|)
      ensures ended == YielderFailed ==> exists i :: 0 <= i < |rounds| && !rounds[i].goesOn
    {
      var i := 0;
      while i < |rounds|
        invariant 0 <= i <= |rounds| && Valid()
      {
        if !pcb || buffer.use == 0 { return Finished; }
        if !rounds[i].goesOn { return YielderFailed; }
        Yield(rounds[i].events);
        i := i + 1;
      }
      ended := StillRunning;
    }
  }

  datatype Event = Recv(p: seq<byte>) | Sent(len: nat) | Err

  /** One round of the loop: the results of the system calls, and what happens while the task yields. */
  datatype Round = Round(w: WriteResult, r: ReadResult, err: bool, events: seq<Event>, goesOn: bool)

  datatype Ended = Finished | YielderFailed | StillRunning
}
