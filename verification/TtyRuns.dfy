/** Whole runs of one terminal: bytes arrive, are edited in and are read, in any order. What the readers get, and
    what the count of waiting lines is worth. */
module TtyRuns {
  import opened Basics
  import opened LineModel
  import TtyRing

  const ROOM: nat := TtyRing.TTY_BUF_SIZE - 1   // one place of a queue always stays free

  datatype Event = Type(c: Byte) | Interrupt | Read(nr: nat)

  /** input waits in the read queue; data is the count kept with the secondary queue. */
  datatype Term = Term(input: seq<Byte>, line: Line, data: int)

  function Silent(): Term {
    Term([], Line([], false), 0)
  }

  /** tty_read goes ahead: there is something, and in canonical mode a line is said to wait or the input is full. */
  predicate Answers(st: Settings, a: Term) {
    a.line.text != [] && !(st.canon && |a.input| < ROOM && a.data == 0)
  }

  /** What one event does; the first k bytes of the text leave it, and the reader gets out. */
  ghost predicate Did(st: Settings, a: Term, e: Event, b: Term, k: nat, out: seq<Byte>) {
    match e
    case Type(c) => k == 0 && out == [] && b == if |a.input| < ROOM then a.(input := a.input + [c]) else a
    case Interrupt => k == 0 && out == [] && b == CookedIn(st, a)
    case Read(nr) =>
      if nr > 0 && Answers(st, a) then Delivery(st, a.line.text, nr, k, out) && b == LeftBehind(st, a, k)
      else k == 0 && out == [] && b == a
  }

  /** copy_to_cooked: bytes are edited in until there are none or the text is full, and line ends are counted. */
  function CookedIn(st: Settings, a: Term): Term {
    var n := Taken(st, a.line, a.input, ROOM);
    var l := CookAll(st, a.line, a.input[..n]);
    Term(a.input[n..], l, a.data + Lines(st, l.text) - Lines(st, a.line.text))
  }

  function LeftBehind(st: Settings, a: Term, k: nat): Term
    requires k <= |a.line.text|
  {
    a.(line := a.line.(text := a.line.text[k..]), data := a.data - ReaderLines(st, a.line.text[..k]))
  }

  /** A run from a silent terminal: trace holds the states between the events. */
  ghost predicate Ran(st: Settings, es: seq<Event>, trace: seq<Term>, ks: seq<nat>, outs: seq<seq<Byte>>) {
    |trace| == |es| + 1 && |ks| == |es| && |outs| == |es| && trace[0] == Silent() &&
    forall j :: 0 <= j < |es| ==> Did(st, trace[j], es[j], trace[j + 1], ks[j], outs[j])
  }

  lemma RanBefore(st: Settings, es: seq<Event>, trace: seq<Term>, ks: seq<nat>, outs: seq<seq<Byte>>)
    requires Ran(st, es, trace, ks, outs) && |es| > 0
    ensures Ran(st, es[..|es| - 1], trace[..|es|], ks[..|es| - 1], outs[..|es| - 1])
  {
    hide Did;
  }

  // ---------------------------------------------------------------- what a run has seen

  /** The bytes typed while the read queue had room. */
  function Typed(es: seq<Event>, trace: seq<Term>): seq<Byte>
    requires |trace| == |es| + 1
  {
    if es == [] then [] else
    var n := |es| - 1;
    Typed(es[..n], trace[..n + 1]) + if es[n].Type? && |trace[n].input| < ROOM then [es[n].c] else []
  }

  /** The bytes that left the secondary queue. */
  function Gone(trace: seq<Term>, ks: seq<nat>): seq<Byte>
    requires |trace| == |ks| + 1
  {
    if ks == [] then [] else
    var n := |ks| - 1;
    Gone(trace[..n + 1], ks[..n]) + if ks[n] <= |trace[n].line.text| then trace[n].line.text[..ks[n]] else []
  }

  /** A canonical reader was given part of a line that was not finished. */
  ghost predicate Cut(st: Settings, trace: seq<Term>, ks: seq<nat>)
    requires |trace| == |ks| + 1
  {
    exists j :: 0 <= j < |ks| && CutAt(st, trace[j], ks[j])
  }

  predicate CutAt(st: Settings, a: Term, k: nat) {
    st.canon && k > 0 && Lines(st, a.line.text) == 0
  }

  /** What a reader sees of the bytes that left: in canonical mode the end-of-file characters it recognises are kept
      back. */
  function Visible(st: Settings, text: seq<Byte>): seq<Byte> {
    if text == [] then [] else
    var n := |text| - 1;
    Visible(st, text[..n]) + if st.canon && ReaderEof(st, text[n]) then [] else [text[n]]
  }

  lemma {:induction false} VisibleConcat(st: Settings, a: seq<Byte>, b: seq<Byte>)
    ensures Visible(st, a + b) == Visible(st, a) + Visible(st, b)
    decreases |b|
  {
    if b == [] {
      assert a + b == a;
    } else {
      VisibleConcat(st, a, b[..|b| - 1]);
      assert (a + b)[..|a + b| - 1] == a + b[..|b| - 1];
    }
  }

  lemma {:induction false} AllVisible(st: Settings, text: seq<Byte>)
    requires forall i :: 0 <= i < |text| ==> !(st.canon && ReaderEof(st, text[i]))
    ensures Visible(st, text) == text
  {
    if text != [] {
      var n := |text| - 1;
      AllVisible(st, text[..n]);
      assert text == text[..n] + [text[n]];
    }
  }

  /** A delivery shows exactly the visible part of the bytes it takes. */
  lemma DeliveryIsVisible(st: Settings, text: seq<Byte>, nr: nat, k: nat, out: seq<Byte>)
    requires Delivery(st, text, nr, k, out)
    ensures out == Visible(st, text[..k])
  {
    var w := text[..k - 1];
    forall i | 0 <= i < |w| ensures !(st.canon && ReaderEof(st, w[i])) {
      assert w[i] == text[i];
    }
    AllVisible(st, w);
    assert text[..k][..k - 1] == w;
    assert text[..k] == text[..k - 1] + [text[k - 1]];
  }

  // ---------------------------------------------------------------- the count of waiting lines

  /** At every point of every run, whatever the settings: data is the number of line ends in the secondary queue,
      plus the line ends that left it unrecognised. */
  lemma {:induction false} DataIs(st: Settings, es: seq<Event>, trace: seq<Term>, ks: seq<nat>, outs: seq<seq<Byte>>)
    requires Ran(st, es, trace, ks, outs)
    ensures var b := trace[|es|];
      b.data == Lines(st, b.line.text) + Lines(st, Gone(trace, ks)) - ReaderLines(st, Gone(trace, ks))
  {
    hide CookAll, Delivery, Lines, ReaderLines, Taken;
    if es == [] {
      LinesOfNothing(st);
    } else {
      var n := |es| - 1;
      RanBefore(st, es, trace, ks, outs);
      DataIs(st, es[..n], trace[..n + 1], ks[..n], outs[..n]);
      var a, k := trace[n], ks[n];
      DidTakes(st, a, es[n], trace[n + 1], k, outs[n]);
      var text, gone := a.line.text, Gone(trace[..n + 1], ks[..n]);
      LinesConcat(st, gone, text[..k]);
      ReaderLinesConcat(st, gone, text[..k]);
      LinesConcat(st, text[..k], text[k..]);
      assert text[..k] + text[k..] == text;
      LinesOfNothing(st);
      assert k == 0 ==> text[..k] == [];
    }
  }

  lemma LinesOfNothing(st: Settings)
    ensures Lines(st, []) == 0 && ReaderLines(st, []) == 0
  {
  }

  lemma DidTakes(st: Settings, a: Term, e: Event, b: Term, k: nat, out: seq<Byte>)
    requires Did(st, a, e, b, k, out)
    ensures k <= |a.line.text| && (!e.Read? ==> k == 0)
    ensures e.Type? ==> b.line == a.line && b.data == a.data
    ensures e.Interrupt? ==> b.data == a.data + Lines(st, b.line.text) - Lines(st, a.line.text)
    ensures e.Read? ==> b.line.text == a.line.text[k..] && b.data == a.data - ReaderLines(st, a.line.text[..k])
  {
    LinesOfNothing(st);
    hide Lines, ReaderLines, CookAll;
    assert k == 0 ==> a.line.text[..0] == [] && a.line.text[0..] == a.line.text;
  }

  /** With countable settings only recognised bytes are ever in the secondary queue. */
  lemma {:induction false} RanRecognised(st: Settings, es: seq<Event>, trace: seq<Term>, ks: seq<nat>,
                                         outs: seq<seq<Byte>>)
    requires Ran(st, es, trace, ks, outs) && Countable(st)
    ensures Recognised(st, trace[|es|].line.text) && Recognised(st, Gone(trace, ks))
  {
    if es != [] {
      var n := |es| - 1;
      RanBefore(st, es, trace, ks, outs);
      RanRecognised(st, es[..n], trace[..n + 1], ks[..n], outs[..n]);
      var a := trace[n];
      DidTakes(st, a, es[n], trace[n + 1], ks[n], outs[n]);
      if es[n].Interrupt? {
        CookAllRecognised(st, a.line, a.input[..Taken(st, a.line, a.input, ROOM)]);
      }
    }
  }

  /** In every run data is the number of line ends waiting, if and only if the settings are countable. */
  lemma DataLaw(st: Settings)
    ensures Countable(st) <==>
            forall es: seq<Event>, trace: seq<Term>, ks: seq<nat>, outs: seq<seq<Byte>> ::
              Ran(st, es, trace, ks, outs) ==>
              trace[|es|].data == Lines(st, trace[|es|].line.text)
  {
    if Countable(st) {
      forall es: seq<Event>, trace: seq<Term>, ks: seq<nat>, outs: seq<seq<Byte>> | Ran(st, es, trace, ks, outs)
        ensures trace[|es|].data == Lines(st, trace[|es|].line.text)
      {
        DataRight(st, es, trace, ks, outs);
      }
    } else {
      var es, trace, ks, outs := Miscount(st);
      assert Ran(st, es, trace, ks, outs);
    }
  }

  lemma DataRight(st: Settings, es: seq<Event>, trace: seq<Term>, ks: seq<nat>, outs: seq<seq<Byte>>)
    requires Ran(st, es, trace, ks, outs) && Countable(st)
    ensures trace[|es|].data == Lines(st, trace[|es|].line.text)
  {
    hide Did, Lines, ReaderLines;
    DataIs(st, es, trace, ks, outs);
    RanRecognised(st, es, trace, ks, outs);
    RecognisedLines(st, Gone(trace, ks));
  }

  /** With other settings: the end-of-file character is typed, edited in and read, and data says that a line still
      waits when nothing does. */
  lemma Miscount(st: Settings) returns (es: seq<Event>, trace: seq<Term>, ks: seq<nat>, outs: seq<seq<Byte>>)
    requires !Countable(st)
    ensures Ran(st, es, trace, ks, outs)
    ensures es == [Type(st.eof), Interrupt, Read(1)]
    ensures trace[3] == Term([], Line([], false), 1) && Lines(st, []) == 0
  {
    var e := st.eof;
    var t1 := Term([e], Line([], false), 0);
    var t2 := Term([], Line([e], false), 1);
    es, trace := [Type(e), Interrupt, Read(1)], [Silent(), t1, t2, Term([], Line([], false), 1)];
    ks, outs := [0, 0, 1], [[], [], [e]];
    EofCooked(st);
    EofRead(st);
  }

  lemma EofCooked(st: Settings)
    requires !Countable(st)
    ensures CookedIn(st, Term([st.eof], Line([], false), 0)) == Term([], Line([st.eof], false), 1)
  {
    var l := Line([], false);
    EofGetsIn(st, l);
    assert [st.eof][1..] == [] && [st.eof][..1] == [st.eof];
    assert CookAll(st, l, [st.eof]) == CookAll(st, Cook(st, l, st.eof), []);
    assert l.text + [st.eof] == [st.eof];
    OneLine(st, st.eof);
  }

  lemma EofRead(st: Settings)
    requires !Countable(st)
    ensures Delivery(st, [st.eof], 1, 1, [st.eof])
    ensures LeftBehind(st, Term([], Line([st.eof], false), 1), 1) == Term([], Line([], false), 1)
  {
    EofGetsIn(st, Line([], false));
    assert [st.eof][..1] == [st.eof] && [st.eof][1..] == [];
    OneReaderLine(st, [], st.eof);
    assert [] + [st.eof] == [st.eof];
  }

  // ---------------------------------------------------------------- what the readers get

  /** With countable settings a reader is given part of an unfinished line only when the read queue is full. */
  lemma CutIsFull(st: Settings, es: seq<Event>, trace: seq<Term>, ks: seq<nat>, outs: seq<seq<Byte>>, j: nat)
    requires Ran(st, es, trace, ks, outs) && Countable(st) && j < |es| && CutAt(st, trace[j], ks[j])
    ensures es[j].Read? && |trace[j].input| >= ROOM
  {
    PrefixRan(st, es, trace, ks, outs, j);
    DataRight(st, es[..j], trace[..j + 1], ks[..j], outs[..j]);
    assert Did(st, trace[j], es[j], trace[j + 1], ks[j], outs[j]);
  }

  lemma PrefixRan(st: Settings, es: seq<Event>, trace: seq<Term>, ks: seq<nat>, outs: seq<seq<Byte>>, j: nat)
    requires Ran(st, es, trace, ks, outs) && j <= |es|
    ensures Ran(st, es[..j], trace[..j + 1], ks[..j], outs[..j])
  {
    hide Did;
  }

  /** Everything the readers were given is the visible part of what left the queue. */
  lemma {:induction false} GivenIsVisible(st: Settings, es: seq<Event>, trace: seq<Term>, ks: seq<nat>,
                                          outs: seq<seq<Byte>>)
    requires Ran(st, es, trace, ks, outs)
    ensures Flat(outs) == Visible(st, Gone(trace, ks))
  {
    hide CookAll, Delivery, Lines, ReaderLines;
    if es != [] {
      var n := |es| - 1;
      RanBefore(st, es, trace, ks, outs);
      GivenIsVisible(st, es[..n], trace[..n + 1], ks[..n], outs[..n]);
      DidTakes(st, trace[n], es[n], trace[n + 1], ks[n], outs[n]);
      OutIsVisible(st, trace[n], es[n], trace[n + 1], ks[n], outs[n]);
      VisibleConcat(st, Gone(trace[..n + 1], ks[..n]), trace[n].line.text[..ks[n]]);
    }
  }

  lemma OutIsVisible(st: Settings, a: Term, e: Event, b: Term, k: nat, out: seq<Byte>)
    requires Did(st, a, e, b, k, out)
    ensures k <= |a.line.text| && out == Visible(st, a.line.text[..k])
  {
    if e.Read? && e.nr > 0 && Answers(st, a) {
      DeliveryIsVisible(st, a.line.text, e.nr, k, out);
    }
  }

  /** As long as no reader was given part of an unfinished line: what left the queue, with what is still to come, is
      what editing makes of everything typed. */
  lemma {:induction false} RunAgrees(st: Settings, es: seq<Event>, trace: seq<Term>, ks: seq<nat>, outs: seq<seq<Byte>>)
    requires Ran(st, es, trace, ks, outs) && Countable(st) && !Cut(st, trace, ks)
    ensures var b := trace[|es|]; Agrees(st, b.line, b.input, Typed(es, trace), Gone(trace, ks))
  {
    hide CookAll, Delivery, Lines, ReaderLines, Agrees, Recognised;
    if es == [] {
      AgreesAtFirst(st);
    } else {
      var n := |es| - 1;
      RanBefore(st, es, trace, ks, outs);
      assert !Cut(st, trace[..n + 1], ks[..n]) by {
        assert forall j :: 0 <= j < n ==> !CutAt(st, trace[..n + 1][j], ks[..n][j]) by {
          forall j | 0 <= j < n ensures !CutAt(st, trace[..n + 1][j], ks[..n][j]) {
            assert !CutAt(st, trace[j], ks[j]);
          }
        }
      }
      RunAgrees(st, es[..n], trace[..n + 1], ks[..n], outs[..n]);
      RanRecognised(st, es[..n], trace[..n + 1], ks[..n], outs[..n]);
      assert !CutAt(st, trace[n], ks[n]);
      DidTakes(st, trace[n], es[n], trace[n + 1], ks[n], outs[n]);
      StepAgrees(st, trace[n], es[n], trace[n + 1], ks[n], outs[n], Typed(es[..n], trace[..n + 1]),
                 Gone(trace[..n + 1], ks[..n]));
    }
  }

  lemma StepAgrees(st: Settings, a: Term, e: Event, b: Term, k: nat, out: seq<Byte>, typed: seq<Byte>, gone: seq<Byte>)
    requires Did(st, a, e, b, k, out) && Recognised(st, a.line.text) && !CutAt(st, a, k)
    requires Agrees(st, a.line, a.input, typed, gone) && k <= |a.line.text|
    ensures Agrees(st, b.line, b.input, typed + if e.Type? && |a.input| < ROOM then [e.c] else [],
                   gone + a.line.text[..k])
  {
    hide CookAll, Delivery, Lines, ReaderLines, Agrees, Recognised, CookedIn;
    assert typed + [] == typed && (k == 0 ==> gone + a.line.text[..k] == gone);
    match e
    case Type(c) =>
      if |a.input| < ROOM { AgreesTyped(st, a.line, a.input, typed, gone, c); }
    case Interrupt =>
      CookedAgrees(st, a, typed, gone);
    case Read(nr) =>
      if nr > 0 && Answers(st, a) {
        DeliveryMoves(st, a.line.text, nr, k, out);
        AgreesRead(st, a.line, a.input, typed, gone, nr, k, out);
      }
  }

  lemma DeliveryMoves(st: Settings, text: seq<Byte>, nr: nat, k: nat, out: seq<Byte>)
    requires Delivery(st, text, nr, k, out)
    ensures 1 <= k <= |text|
  {
  }

  lemma CookedAgrees(st: Settings, a: Term, typed: seq<Byte>, gone: seq<Byte>)
    requires Agrees(st, a.line, a.input, typed, gone)
    ensures Agrees(st, CookedIn(st, a).line, CookedIn(st, a).input, typed, gone)
  {
    hide Agrees;
    AgreesCooked(st, a.line, a.input, typed, gone, Taken(st, a.line, a.input, ROOM));
  }

  /** The readers, between them, have been given the visible part of `gone`; and `gone`, followed by what the queues
      still hold once all of it is edited in, is what editing makes of everything typed. */
  lemma ReadersGet(st: Settings, es: seq<Event>, trace: seq<Term>, ks: seq<nat>, outs: seq<seq<Byte>>)
    requires Ran(st, es, trace, ks, outs) && Countable(st) && !Cut(st, trace, ks)
    ensures Flat(outs) == Visible(st, Gone(trace, ks))
    ensures var b := trace[|es|];
      Prefixed(Gone(trace, ks), CookAll(st, b.line, b.input)) == CookAll(st, Line([], false), Typed(es, trace))
  {
    var b := trace[|es|];
    GivenIsVisible(st, es, trace, ks, outs);
    RunAgrees(st, es, trace, ks, outs);
    CookAllApart(st, Gone(trace, ks), b.line, b.input);
  }
}
