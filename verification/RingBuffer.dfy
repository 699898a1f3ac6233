// The ring buffer between the server's socket and lwIP, which sends from it without copying.
module RingBuffer {
  import opened Records

  /** A piece of the buffer's memory. */
  datatype Iovec = Iovec(base: nat, len: nat)

  /** Index x of a ring of max cells, at most one turn too far. */
  function Wrap(x: nat, max: nat): (r: nat)
    requires max > 0 && x < 2 * max
    ensures r < max
  {
    if x >= max then x - max else x
  }

  lemma WrapIsMod(x: nat, max: nat)
    requires max > 0 && x < 2 * max
    ensures x % max == Wrap(x, max)
  {
    if x >= max { assert x == 1 * max + (x - max); }
  }

  /** The cells of the pieces in order. */
  ghost predicate InPieces(iov: seq<Iovec>, c: int) {
    exists i :: 0 <= i < |iov| && iov[i].base <= c < iov[i].base + iov[i].len
  }

  class HevRingBuffer {
    const max: nat
    const data: array<byte>
    var rp: nat
    var wp: nat
    var rda: nat    // rda_size: written, not yet handed on
    var use: nat    // use_size: written, not yet released

    // the stream: everything written, how much of it has been handed on, how much released
    ghost var written: seq<byte>
    ghost var handed: nat
    ghost var released: nat

    /** The cell of the oldest byte that has not been released. */
    ghost function Base(): nat
      reads this
      requires rp < max && rda <= use <= max
    {
      var out := use - rda;
      if rp >= out then rp - out else rp + max - out
    }

    /** The cell of byte number n of the stream. */
    ghost function Cell(n: nat): (c: nat)
      requires max > 0 && rp < max && rda <= use <= max && released <= n < released + max
      reads this
      ensures c < max
    {
      Wrap(Base() + (n - released), max)
    }

    ghost predicate Valid()
      reads this, data
    {
      && data.Length == max > 0 && rp < max && wp < max && rda <= use <= max
      && released <= handed <= |written| && use == |written| - released && rda == |written| - handed
      && wp == Wrap(Base() + use, max)
      && forall n | released <= n < |written| :: data[Cell(n)] == written[n]
    }

    constructor (size: nat)
      requires size > 0
      ensures Valid() && max == size && fresh(data) && written == [] && handed == 0 && released == 0
    {
      max := size;
      data := new byte[size](_ => 0);
      rp, wp, rda, use := 0, 0, 0, 0;
      written, handed, released := [], 0, 0;
    }

    /** The bytes of the pieces. */
    ghost function Bytes(iov: seq<Iovec>): seq<byte>
      reads this, data
      requires forall v | v in iov :: v.base + v.len <= data.Length
    {
      if iov == [] then [] else data[iov[0].base..iov[0].base + iov[0].len] + Bytes(iov[1..])
    }

    /** hev_ring_buffer_reading: what can be handed on, in stream order. */
    method Reading() returns (iov: seq<Iovec>)
      requires Valid()
      ensures |iov| <= 2 && (iov == [] <==> rda == 0)
      ensures forall v | v in iov :: v.base + v.len <= data.Length
      ensures Bytes(iov) == written[handed..]
    {
      if rda == 0 { return []; }
      var upper := max - rp;
      CellsFromRp();
      if rda <= upper {
        iov := [Iovec(rp, rda)];
        assert data[rp..rp + rda] == written[handed..];
        assert Bytes(iov) == data[rp..rp + rda] + Bytes([]);
      } else {
        iov := [Iovec(rp, upper), Iovec(0, rda - upper)];
        assert data[rp..rp + upper] == written[handed..handed + upper];
        assert data[0..rda - upper] == written[handed + upper..];
        assert Bytes([Iovec(0, rda - upper)]) == data[0..rda - upper] + Bytes([]);
        assert iov[1..] == [Iovec(0, rda - upper)];
      }
    }

    lemma CellsFromRp()
      requires Valid()
      ensures forall n | handed <= n < |written| :: data[Wrap(rp + (n - handed), max)] == written[n]
    {
      forall n | handed <= n < |written| ensures data[Wrap(rp + (n - handed), max)] == written[n] {
        assert Cell(n) == Wrap(rp + (n - handed), max);
      }
    }

    /** hev_ring_buffer_read_finish: size bytes have been handed on; they stay where they are. */
    method ReadFinish(size: nat)
      requires Valid() && size <= rda
      modifies this`rp, this`rda, this`handed
      ensures Valid() && handed == old(handed) + size && Base() == old(Base())
    {
      WrapIsMod(rp + size, max);
      rp := (rp + size) % max;
      rda := rda - size;
      handed := handed + size;
    }

    /** hev_ring_buffer_read_release: the oldest size bytes are free again; when none is left both
        positions start over. */
    method ReadRelease(size: nat)
      requires Valid() && size <= use - rda
      modifies this`rp, this`wp, this`use, this`released
      ensures Valid() && released == old(released) + size
      ensures forall n | released <= n < |written| :: Cell(n) == old(Cell(n))
    {
      ghost var base := Base();
      use := use - size;
      released := released + size;
      assert Base() == Wrap(base + size, max);
      if use == 0 {
        rp := 0;
        wp := 0;
      }
    }

    /** hev_ring_buffer_writing: the free cells, from the write position on. No byte that is still in use
        is in them, not even one that lwIP only has to acknowledge. */
    method Writing() returns (iov: seq<Iovec>)
      requires Valid()
      ensures |iov| <= 2 && (iov == [] <==> use == max)
      ensures forall v | v in iov :: v.base + v.len <= data.Length
      ensures forall n | released <= n < |written| :: !InPieces(iov, Cell(n))
      ensures Offered(iov)
    {
      if use == max { return []; }
      var upper := max - wp;
      var space := max - use;
      if space <= upper {
        iov := [Iovec(wp, space)];
      } else {
        iov := [Iovec(wp, upper), Iovec(0, space - upper)];
      }
    }

    /** The pieces are the free cells, in the order in which the stream will use them. */
    ghost predicate Offered(iov: seq<Iovec>)
      reads this
      requires max > 0 && wp < max && use <= max
    {
      && iov == if use == max then []
        else if max - use <= max - wp then [Iovec(wp, max - use)]
        else [Iovec(wp, max - wp), Iovec(0, wp - use)]
    }

    /** readv: the system call fills the offered pieces with s, first piece first. */
    method Readv(iov: seq<Iovec>, s: seq<byte>)
      requires Valid() && Offered(iov) && |s| <= max - use
      modifies data
      ensures Valid()
      ensures forall i | 0 <= i < |s| :: data[Wrap(wp + i, max)] == s[i]
    {
      forall i | 0 <= i < |s| && wp + i < max {
        data[wp + i] := s[i];
      }
      forall i | 0 <= i < |s| && wp + i >= max {
        data[wp + i - max] := s[i];
      }
    }

    /** hev_ring_buffer_write_finish: the bytes s are in the buffer. */
    method WriteFinish(size: nat, ghost s: seq<byte>)
      requires Valid() && size == |s| <= max - use && forall i | 0 <= i < |s| :: data[Wrap(wp + i, max)] == s[i]
      modifies this`wp, this`use, this`rda, this`written
      ensures Valid() && written == old(written) + s && Base() == old(Base())
    {
      WrapIsMod(wp + size, max);
      wp := (wp + size) % max;
      use := use + size;
      rda := rda + size;
      written := written + s;
    }
  }
}
