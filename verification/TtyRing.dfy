/** The ring buffer of include/linux/tty.h. */
module TtyRing {
  import opened Basics
  import opened Rings

  const TTY_BUF_SIZE: nat := 1024

  class Ring {
    const buf: array<Byte>
    var head: nat
    var tail: nat

    ghost predicate Valid()
      reads this
    {
      buf.Length == TTY_BUF_SIZE && head < TTY_BUF_SIZE && tail < TTY_BUF_SIZE
    }

    /** The bytes from tail up to head. */
    ghost function Contents(): (s: seq<Byte>)
      requires Valid()
      reads this, buf
      ensures |s| == Chars()
    {
      Window(buf[..], tail, Chars())
    }

    function Chars(): (n: nat)
      requires Valid()
      reads this
      ensures n == if head >= tail then head - tail else head - tail + TTY_BUF_SIZE
    {
      Round(head - tail, TTY_BUF_SIZE);
      (head - tail) % TTY_BUF_SIZE
    }

    /** One place always stays free. */
    function Left(): (n: nat)
      requires Valid()
      reads this
      ensures n == TTY_BUF_SIZE - 1 - Chars()
    {
      Round(tail - head - 1, TTY_BUF_SIZE);
      (tail - head - 1) % TTY_BUF_SIZE
    }

    predicate Empty(): (b: bool)
      requires Valid()
      reads this
      ensures b <==> Chars() == 0
    {
      head == tail
    }

    predicate Full(): (b: bool)
      requires Valid()
      reads this
      ensures b <==> Chars() == TTY_BUF_SIZE - 1
    {
      Left() == 0
    }

    constructor ()
      ensures Valid() && fresh(buf) && Contents() == []
    {
      buf := new Byte[TTY_BUF_SIZE](i => 0);
      head, tail := 0, 0;
    }

    /** GETCH. */
    method Getch() returns (c: Byte)
      requires Valid() && !Empty()
      modifies `tail
      ensures Valid() && [c] + Contents() == old(Contents())
    {
      hide Window;
      ghost var n := Chars();
      c := buf[tail];
      Round(tail + 1, TTY_BUF_SIZE);
      tail := (tail + 1) % TTY_BUF_SIZE;
      Shrinks(buf[..], old(tail), n, 1, tail);
      assert buf[..][old(tail)..old(tail) + 1] == [c];
    }

    /** PUTCH where there is room. */
    method Putch(c: Byte)
      requires Valid() && !Full()
      modifies `head, buf
      ensures Valid() && Contents() == old(Contents()) + [c]
    {
      hide Window;
      ghost var was, n := buf[..], Chars();
      buf[head] := c;
      Round(head + 1, TTY_BUF_SIZE);
      head := (head + 1) % TTY_BUF_SIZE;
      Extends(was, buf[..], tail, n, old(head), [c]);
    }

    /** LAST. */
    function Last(): (c: Byte)
      requires Valid() && !Empty()
      reads this, buf
      ensures |Contents()| > 0 && c == Contents()[|Contents()| - 1]
    {
      Round(head - 1, TTY_BUF_SIZE);
      assert Place(TTY_BUF_SIZE, tail, Chars() - 1) == (head - 1) % TTY_BUF_SIZE;
      buf[(head - 1) % TTY_BUF_SIZE]
    }

    /** DEC(head) takes the last byte back. */
    method Unput()
      requires Valid() && !Empty()
      modifies `head
      ensures Valid() && |old(Contents())| > 0 && Contents() == old(Contents())[..|old(Contents())| - 1]
    {
      Round(head - 1, TTY_BUF_SIZE);
      head := (head - 1) % TTY_BUF_SIZE;
    }
  }
}
