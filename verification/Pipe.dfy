/** Pipes (fs/pipe.c): one page used as a ring, read and written in pieces that do not wrap. */
module Pipe {
  import opened Basics
  import opened Rings

  datatype Event = Write(bytes: seq<Byte>) | Read(count: nat)

  function Min(a: nat, b: nat): (m: nat)
    ensures m <= a && m <= b && (m == a || m == b)
  {
    if a < b then a else b
  }

  /** The pipe as its users meet it: the places of its two indices and the bytes waiting between them. */
  datatype Shot = Shot(head: nat, tail: nat, waiting: seq<Byte>)

  /** How many of n bytes one turn of pipe_write's loop puts in, and one turn of pipe_read's takes out. */
  function Fits(a: Shot, n: nat): (k: nat)
    ensures k <= n
  {
    Min(Min(Less(PAGE_SIZE, a.head), n), Less(PAGE_SIZE - 1, |a.waiting|))
  }

  function Gives(a: Shot, n: nat): nat {
    Min(Min(Less(PAGE_SIZE, a.tail), n), |a.waiting|)
  }

  /** a - b, but not below 0. */
  function Less(a: nat, b: nat): nat {
    if a < b then 0 else a - b
  }

  /** What one piece does: put joins the waiting bytes behind, got leaves them in front. */
  ghost predicate Did(a: Shot, e: Event, put: seq<Byte>, got: seq<Byte>, b: Shot) {
    match e
    case Write(bytes) =>
      put == bytes[..Fits(a, |bytes|)] && got == [] && b.waiting == a.waiting + put &&
      b.tail == a.tail && b.head == (a.head + |put|) % PAGE_SIZE
    case Read(count) =>
      |got| == Gives(a, count) && put == [] && a.waiting == got + b.waiting &&
      b.head == a.head && b.tail == (a.tail + |got|) % PAGE_SIZE
  }

  class Fifo {
    const page: array<Byte>
    var head: nat
    var tail: nat

    ghost predicate Valid()
      reads this
    {
      page.Length == PAGE_SIZE && head < PAGE_SIZE && tail < PAGE_SIZE
    }

    /** PIPE_SIZE. */
    function Size(): (n: nat)
      requires Valid()
      reads this
      ensures n == if head >= tail then head - tail else head - tail + PAGE_SIZE
    {
      Round(head - tail, PAGE_SIZE);
      (head - tail) % PAGE_SIZE
    }

    /** The bytes waiting to be read. */
    ghost function Contents(): (s: seq<Byte>)
      requires Valid()
      reads this, page
      ensures |s| == Size()
    {
      Window(page[..], tail, Size())
    }

    ghost function Now(): Shot
      requires Valid()
      reads this, page
    {
      Shot(head, tail, Contents())
    }

    constructor ()
      ensures Valid() && fresh(page) && Contents() == []
    {
      page := new Byte[PAGE_SIZE](i => 0);
      head, tail := 0, 0;
    }

    /** One turn of pipe_write's loop: as many bytes as there are, as fit, and as reach the end of the page. */
    method WritePiece(bytes: seq<Byte>) returns (n: nat)
      requires Valid()
      modifies `head, page
      ensures Valid() && n <= |bytes| && Contents() == old(Contents()) + bytes[..n]
      ensures n == Min(Min(PAGE_SIZE - old(head), |bytes|), PAGE_SIZE - 1 - old(Size()))
      ensures head == (old(head) + n) % PAGE_SIZE
    {
      hide Window;
      ghost var was, size := page[..], Size();
      var room := PAGE_SIZE - 1 - Size();
      n := Min(Min(PAGE_SIZE - head, |bytes|), room);
      var at := head;
      Round(head + n, PAGE_SIZE);
      head := (head + n) % PAGE_SIZE;
      CopyIn(at, bytes[..n]);
      Extends(was, page[..], tail, size, at, bytes[..n]);
    }

    /** The copying loop of pipe_write. */
    method CopyIn(at: nat, bytes: seq<Byte>)
      requires at + |bytes| <= page.Length
      modifies page
      ensures page[..] == old(page[..])[..at] + bytes + old(page[..])[at + |bytes|..]
    {
      var n := 0;
      while n < |bytes|
        invariant 0 <= n <= |bytes|
        invariant forall k :: 0 <= k < page.Length ==>
                    page[k] == if at <= k < at + n then bytes[k - at] else old(page[k])
      {
        page[at + n] := bytes[n];
        n := n + 1;
      }
    }

    /** One turn of pipe_read's loop. */
    method ReadPiece(count: nat) returns (out: seq<Byte>)
      requires Valid()
      modifies `tail
      ensures Valid() && out + Contents() == old(Contents())
      ensures |out| == Min(Min(PAGE_SIZE - old(tail), count), old(Size()))
      ensures tail == (old(tail) + |out|) % PAGE_SIZE
    {
      hide Window;
      ghost var size := Size();
      var n := Min(Min(PAGE_SIZE - tail, count), Size());
      var at := tail;
      Round(tail + n, PAGE_SIZE);
      tail := (tail + n) % PAGE_SIZE;
      out := CopyOut(at, n);
      Shrinks(page[..], at, size, n, tail);
    }

    /** The copying loop of pipe_read. */
    method CopyOut(at: nat, n: nat) returns (out: seq<Byte>)
      requires at + n <= page.Length
      ensures out == page[..][at..at + n]
    {
      out := [];
      var k := 0;
      while k < n
        invariant 0 <= k <= n && out == page[..][at..at + k]
      {
        out := out + [page[at + k]];
        k := k + 1;
      }
    }

    /** pipe_read on a pipe that is not empty: everything there is, or all that was asked for. */
    method PipeRead(count: nat) returns (out: seq<Byte>)
      requires Valid()
      modifies `tail
      ensures Valid() && out == old(Contents())[..Min(count, old(Size()))]
      ensures Contents() == old(Contents())[Min(count, old(Size()))..]
    {
      out := [];
      var left := count;
      while left > 0 && Size() > 0
        invariant Valid() && out + Contents() == old(Contents()) && |out| + left == count && 0 <= left
        decreases left
      {
        var piece := ReadPiece(left);
        Join(out, piece, Contents());
        out := out + piece;
        left := left - |piece|;
      }
      assert |out| + |Contents()| == |old(Contents())|;
      assert |out| == Min(count, old(Size()));
    }

    /** One piece of a write or of a read. */
    method Do(e: Event) returns (put: seq<Byte>, got: seq<Byte>)
      requires Valid()
      modifies this, page
      ensures Valid() && Did(old(Now()), e, put, got, Now())
    {
      match e
      case Write(bytes) =>
        var n := WritePiece(bytes);
        put, got := bytes[..n], [];
      case Read(count) =>
        got := ReadPiece(count);
        put := [];
    }

    /** Every interleaving of pieces: each does what its event says, and what has been read, followed by what
        waits, is what waited at first, followed by what has been written. */
    method Run(es: seq<Event>) returns (puts: seq<seq<Byte>>, gots: seq<seq<Byte>>, ghost trace: seq<Shot>)
      requires Valid()
      modifies this, page
      ensures Valid() && |puts| == |es| && |gots| == |es|
      ensures |trace| == |es| + 1 && trace[0] == old(Now()) && trace[|es|] == Now()
      ensures forall k :: 0 <= k < |es| ==> Did(trace[k], es[k], puts[k], gots[k], trace[k + 1])
      ensures old(Contents()) + Flat(puts) == Flat(gots) + Contents() && Size() < PAGE_SIZE
    {
      hide Did;
      puts, gots, trace := [], [], [Now()];
      for k := 0 to |es|
        invariant Valid() && |puts| == k && |gots| == k && |trace| == k + 1
        invariant trace[0] == old(Now()) && trace[k] == Now()
        invariant forall j :: 0 <= j < k ==> Did(trace[j], es[j], puts[j], gots[j], trace[j + 1])
        invariant old(Contents()) + Flat(puts) == Flat(gots) + Contents()
      {
        ghost var now := Now();
        var put, got := Do(es[k]);
        Passed(now, es[k], put, got, Now());
        FlatSnoc(puts, put);
        FlatSnoc(gots, got);
        Join(old(Contents()), Flat(puts), put);
        Join(Flat(gots), now.waiting, put);
        Join(Flat(gots), got, Contents());
        puts, gots, trace := puts + [put], gots + [got], trace + [Now()];
      }
    }
  }

  /** Whichever piece it was, bytes leave in the order they came. */
  lemma Passed(a: Shot, e: Event, put: seq<Byte>, got: seq<Byte>, b: Shot)
    requires Did(a, e, put, got, b)
    ensures a.waiting + put == got + b.waiting
  {
  }

  lemma Join(a: seq<Byte>, b: seq<Byte>, c: seq<Byte>)
    ensures a + b + c == a + (b + c)
  {
  }
}
