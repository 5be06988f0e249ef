/** copy_to_cooked and tty_read on the rings of one terminal (kernel/chr_drv/tty_io.c), without echo. */
module Tty {
  import opened Basics
  import opened LineModel
  import opened TtyRing
  import opened TtyRuns

  class Terminal {
    const st: Settings
    const readQ: Ring
    const secondary: Ring
    var data: int
    var stopped: bool

    /** The rings are sound and apart. */
    ghost predicate Valid()
      reads this, readQ, secondary, readQ.buf, secondary.buf
    {
      readQ != secondary && readQ.buf != secondary.buf && readQ.Valid() && secondary.Valid()
    }

    ghost function Abs(): Line
      requires secondary.Valid()
      reads `stopped, secondary, secondary.buf
    {
      Line(secondary.Contents(), stopped)
    }

    ghost function Now(): Term
      requires readQ.Valid() && secondary.Valid()
      reads this, readQ, readQ.buf, secondary, secondary.buf
    {
      Term(readQ.Contents(), Abs(), data)
    }

    constructor (settings: Settings)
      ensures Valid() && st == settings && fresh(readQ) && fresh(secondary) && fresh(readQ.buf) && fresh(secondary.buf)
      ensures Now() == Silent()
    {
      st := settings;
      var a := new Ring();
      var b := new Ring();
      readQ, secondary := a, b;
      data, stopped := 0, false;
    }

    predicate AtLineStart()
      requires secondary.Valid()
      reads this, secondary, secondary.buf
    {
      secondary.Empty() || secondary.Last() == NL || Is(secondary.Last(), st.eof)
    }

    lemma LineStart()
      requires secondary.Valid()
      ensures AtLineStart() <==>
                secondary.Contents() == [] || Ends(st, secondary.Contents()[|secondary.Contents()| - 1])
    {
    }

    /** The kill character's loop. */
    method KillLine()
      requires secondary.Valid()
      modifies secondary`head
      ensures secondary.Valid() && secondary.Contents() == Finished(st, old(secondary.Contents()))
    {
      LineStart();
      while !AtLineStart()
        invariant secondary.Valid() && Finished(st, secondary.Contents()) == Finished(st, old(secondary.Contents()))
        invariant AtLineStart() <==>
                    secondary.Contents() == [] || Ends(st, secondary.Contents()[|secondary.Contents()| - 1])
        decreases |secondary.Contents()|
      {
        secondary.Unput();
        LineStart();
      }
    }

    /** The editing half of a turn of copy_to_cooked's loop. */
    method EditIn(c: Byte)
      requires Valid() && !secondary.Full()
      modifies this, secondary`head, secondary.buf
      ensures Valid() && Abs() == Edit(st, old(Abs()), c)
      ensures data == old(data) + Lines(st, Abs().text) - Lines(st, old(Abs()).text)
    {
      hide Finished, Lines;
      ghost var l := Abs();
      FinishedOnce(st, l.text);
      FinishedIsWhole(st, l.text);
      if st.canon {
        if Is(c, st.kill) {
          KillLine();
          return;
        }
        if Is(c, st.erase) {
          LineStart();
          if AtLineStart() {
            return;
          }
          secondary.Unput();
          return;
        }
      }
      if st.ixon {
        if Is(c, st.stop) {
          stopped := true;
          return;
        }
        if Is(c, st.start) {
          stopped := false;
          return;
        }
      }
      if st.isig {
        if Is(c, st.intr) || Is(c, st.quit) || Is(c, st.susp) {
          return;
        }
      }
      if c == NL || Is(c, st.eof) {
        data := data + 1;
      }
      LinesSnoc(st, l.text, c);
      secondary.Putch(c);
    }

    /** The translating half. */
    method Translated(c0: Byte) returns (dropped: bool, c: Byte)
      ensures dropped == Dropped(st, c0) && (!dropped ==> c == Translate(st, c0))
    {
      c := c0;
      if st.strip {
        c := c % 128;
      }
      if c == CR {
        if st.crnl {
          c := NL;
        } else if st.nocr {
          return true, c;
        }
      } else if c == NL && st.nlcr {
        c := CR;
      }
      if st.uclc && 65 <= c <= 90 {
        c := c + 32;
      }
      return false, c;
    }

    /** One turn of copy_to_cooked's loop: one byte is taken and edited in. */
    method CookOne()
      requires Valid() && !readQ.Empty() && !secondary.Full()
      modifies this, readQ`tail, secondary`head, secondary.buf
      ensures Valid() && |old(readQ.Contents())| > 0 && readQ.Contents() == old(readQ.Contents())[1..]
      ensures Abs() == Cook(st, old(Abs()), old(readQ.Contents())[0])
      ensures data == old(data) + Lines(st, Abs().text) - Lines(st, old(Abs()).text)
    {
      hide Lines, Edit, Translate, Dropped;
      ghost var was := readQ.Contents();
      var c: Byte := readQ.Getch();
      assert was == [c] + readQ.Contents();
      var dropped, e := Translated(c);
      if !dropped {
        EditIn(e);
      }
    }

    /** copy_to_cooked: input is edited in until there is none or no room. */
    method CopyToCooked()
      requires Valid()
      modifies this, readQ`tail, secondary`head, secondary.buf
      ensures Valid() && Now() == CookedIn(st, old(Now()))
    {
      hide CookAll, Cook, Lines;
      ghost var input, l, n := readQ.Contents(), Abs(), 0;
      NothingCooked(st, l, input);
      while !readQ.Empty() && !secondary.Full()
        invariant Valid() && 0 <= n <= |input| && readQ.Contents() == input[n..] && Abs() == CookAll(st, l, input[..n])
        invariant data == old(data) + Lines(st, Abs().text) - Lines(st, l.text)
        invariant forall m :: 0 <= m < n ==> |CookAll(st, l, input[..m]).text| != ROOM
        invariant readQ.Empty() <==> |readQ.Contents()| == 0
        invariant secondary.Full() <==> |secondary.Contents()| == ROOM
        decreases |readQ.Contents()|
      {
        CookOne();
        CookAllSnoc(st, l, input[..n], input[n]);
        assert input[..n] + [input[n]] == input[..n + 1];
        n := n + 1;
      }
      TakenIs(st, l, input, ROOM, n);
    }

    // ------------------------------------------------------------ reading

    /** One byte leaves the secondary queue; the reader counts a line end out. */
    method TakeOne() returns (c: Byte)
      requires Valid() && !secondary.Empty()
      modifies `data, secondary`tail
      ensures Valid() && [c] + secondary.Contents() == old(secondary.Contents())
      ensures secondary.Empty() <==> secondary.Contents() == []
      ensures data == old(data) - if ReaderEnds(st, c) then 1 else 0
    {
      c := secondary.Getch();
      if ReaderEof(st, c) || c == NL {
        data := data - 1;
      }
    }

    /** The inner loop of tty_read on a secondary queue that is not empty. */
    method ReadPiece(nr: nat) returns (out: seq<Byte>, ghost k: nat)
      requires Valid() && nr > 0 && !secondary.Empty()
      modifies `data, secondary`tail
      ensures Valid() && Delivery(st, old(secondary.Contents()), nr, k, out)
      ensures k <= |old(secondary.Contents())| && secondary.Contents() == old(secondary.Contents())[k..]
      ensures data == old(data) - ReaderLines(st, old(secondary.Contents())[..k])
    {
      hide Delivery, ReaderEof, ReaderEnds, ReaderLines;
      ghost var text := secondary.Contents();
      out, k := [], 0;
      var left := nr;
      var more := true;
      assert Delivering(st, text, nr, 0, []) by { Started(st, text, nr); }
      assert ReaderLines(st, text[..0]) == 0 by { LinesOfNothing(st); }
      while more
        invariant Valid() && k <= |text| && secondary.Contents() == text[k..] && left == nr - |out|
        invariant data == old(data) - ReaderLines(st, text[..k])
        invariant more ==> !secondary.Empty() && left > 0 && Delivering(st, text, nr, k, out)
        invariant !more ==> Delivery(st, text, nr, k, out)
        decreases more, |text| - k
      {
        ghost var rest := secondary.Contents();
        var c := TakeOne();
        assert rest == text[k..] && c == rest[0] && secondary.Contents() == rest[1..];
        assert k < |text| && c == text[k] && secondary.Contents() == text[k + 1..];
        OneReaderLine(st, text[..k], c);
        assert text[..k] + [c] == text[..k + 1];
        if ReaderEof(st, c) && st.canon {
          more := false;
          DeliveredEof(st, text, nr, k, out);
        } else {
          Delivered(st, text, nr, k, out);
          out := out + [c];
          left := left - 1;
          if left == 0 || (c == NL && st.canon) || secondary.Empty() {
            more := false;
          }
        }
        k := k + 1;
      }
    }

    /** One round of tty_read. A canonical reader waits until a line is said to be there, unless the input queue is
        full. */
    method TryRead(nr: nat) returns (waits: bool, out: seq<Byte>, ghost k: nat)
      requires Valid() && nr > 0
      modifies `data, secondary`tail
      ensures Valid() && Did(st, old(Now()), Read(nr), Now(), k, out)
      ensures waits <==> !Answers(st, old(Now()))
      ensures waits <==> old(secondary.Contents()) == [] ||
                         (st.canon && |old(readQ.Contents())| < 1023 && old(data) == 0)
    {
      hide Delivery, ReaderLines;
      if secondary.Empty() || (st.canon && !readQ.Full() && data == 0) {
        return true, [], 0;
      }
      out, k := ReadPiece(nr);
      waits := false;
    }

    /** Any run of typing, editing in and reading: every event does what it should. From a silent terminal data is
        the number of lines waiting if the settings are countable; and then, as long as no reader was given part of
        an unfinished line, the readers have been given what editing makes of everything typed. */
    method Run(es: seq<Event>) returns (outs: seq<seq<Byte>>, ghost ks: seq<nat>, ghost trace: seq<Term>)
      requires Valid()
      modifies this, readQ, readQ.buf, secondary, secondary.buf
      ensures Valid() && |trace| == |es| + 1 && |ks| == |es| && |outs| == |es|
      ensures trace[0] == old(Now()) && trace[|es|] == Now()
      ensures forall j :: 0 <= j < |es| ==> Did(st, trace[j], es[j], trace[j + 1], ks[j], outs[j])
      ensures old(Now()) == Silent() && Countable(st) ==> data == Lines(st, secondary.Contents())
      ensures old(Now()) == Silent() && Countable(st) && !Cut(st, trace, ks) ==>
                Flat(outs) == Visible(st, Gone(trace, ks)) &&
                Prefixed(Gone(trace, ks), CookAll(st, Abs(), readQ.Contents())) ==
                CookAll(st, Line([], false), Typed(es, trace))
    {
      hide Did, CookAll, Visible, Lines, Gone, Typed, Cut;
      outs, ks, trace := [], [], [Now()];
      for i := 0 to |es|
        invariant Valid() && |trace| == i + 1 && |ks| == i && |outs| == i && trace[0] == old(Now()) && trace[i] == Now()
        invariant forall j :: 0 <= j < i ==> Did(st, trace[j], es[j], trace[j + 1], ks[j], outs[j])
      {
        var out;
        ghost var k;
        out, k := Do(es[i]);
        outs, ks, trace := outs + [out], ks + [k], trace + [Now()];
      }
      if trace[0] == Silent() && Countable(st) {
        DataRight(st, es, trace, ks, outs);
        if !Cut(st, trace, ks) {
          ReadersGet(st, es, trace, ks, outs);
        }
      }
    }

    method Do(e: Event) returns (out: seq<Byte>, ghost k: nat)
      requires Valid()
      modifies this, readQ, readQ.buf, secondary, secondary.buf
      ensures Valid() && Did(st, old(Now()), e, Now(), k, out)
    {
      hide CookedIn, Delivery, ReaderLines;
      out, k := [], 0;
      match e
      case Type(c) =>
        if !readQ.Full() {
          readQ.Putch(c);
        }
      case Interrupt =>
        CopyToCooked();
      case Read(nr) =>
        if nr > 0 {
          var waits;
          waits, out, k := TryRead(nr);
        }
    }
  }

  lemma NothingCooked(st: Settings, l: Line, input: seq<Byte>)
    ensures CookAll(st, l, input[..0]) == l
  {
  }
}
