/** The line discipline of kernel/chr_drv/tty_io.c as editing on plain text: what each input byte does to the
    text waiting to be read, and the laws of that editing. */
module LineModel {
  import opened Basics

  const NL: Byte := 10
  const CR: Byte := 13
  const DISABLED: Byte := 0        // _POSIX_VDISABLE

  /** The termios flags and control characters that copy_to_cooked looks at. */
  datatype Settings = Settings(
    strip: bool, crnl: bool, nocr: bool, nlcr: bool, uclc: bool, canon: bool, ixon: bool, isig: bool,
    kill: Byte, erase: Byte, eof: Byte, stop: Byte, start: Byte, intr: Byte, quit: Byte, susp: Byte)

  /** text is what the secondary queue holds; stopped is the output flag. */
  datatype Line = Line(text: seq<Byte>, stopped: bool)

  predicate Is(c: Byte, special: Byte) {
    special != DISABLED && c == special
  }

  /** Ends a line: newline or the end-of-file character. */
  predicate Ends(st: Settings, c: Byte) {
    c == NL || Is(c, st.eof)
  }

  predicate Dropped(st: Settings, c: Byte) {
    var d := if st.strip then c % 128 else c;
    d == CR && !st.crnl && st.nocr
  }

  function Translate(st: Settings, c: Byte): Byte {
    var d: Byte := if st.strip then c % 128 else c;
    var e: Byte := if d == CR && st.crnl then NL else if d == NL && st.nlcr then CR else d;
    if st.uclc && 65 <= e <= 90 then e + 32 else e
  }

  /** The text without its unfinished last line. */
  function Finished(st: Settings, text: seq<Byte>): seq<Byte> {
    if text == [] || Ends(st, text[|text| - 1]) then text else Finished(st, text[..|text| - 1])
  }

  function Erased(st: Settings, text: seq<Byte>): seq<Byte> {
    if text == [] || Ends(st, text[|text| - 1]) then text else text[..|text| - 1]
  }

  /** A byte that leaves the text alone: flow control or a signal. */
  predicate Control(st: Settings, c: Byte) {
    (st.ixon && (Is(c, st.stop) || Is(c, st.start))) ||
    (st.isig && (Is(c, st.intr) || Is(c, st.quit) || Is(c, st.susp)))
  }

  /** A translated byte that is used up before it could end a line. */
  predicate Consumed(st: Settings, e: Byte) {
    (st.canon && (Is(e, st.kill) || Is(e, st.erase))) || Control(st, e)
  }

  /** One translated byte. */
  function Edit(st: Settings, l: Line, e: Byte): Line {
    if st.canon && Is(e, st.kill) then l.(text := Finished(st, l.text))
    else if st.canon && Is(e, st.erase) then l.(text := Erased(st, l.text))
    else if st.ixon && Is(e, st.stop) then l.(stopped := true)
    else if st.ixon && Is(e, st.start) then l.(stopped := false)
    else if Control(st, e) then l
    else l.(text := l.text + [e])
  }

  /** One input byte. */
  function Cook(st: Settings, l: Line, c: Byte): Line {
    if Dropped(st, c) then l else Edit(st, l, Translate(st, c))
  }

  function CookAll(st: Settings, l: Line, input: seq<Byte>): Line
    decreases |input|
  {
    if input == [] then l else CookAll(st, Cook(st, l, input[0]), input[1..])
  }

  /** How many bytes of the input are edited in before there is none left or no room in a text of `room` bytes. */
  function Taken(st: Settings, l: Line, input: seq<Byte>, room: nat): (n: nat)
    ensures n <= |input|
    decreases |input|
  {
    if input == [] || |l.text| == room then 0 else 1 + Taken(st, Cook(st, l, input[0]), input[1..], room)
  }

  /** One more byte is taken where there is one and there is room; else the count is final. */
  lemma {:induction false} TakenIs(st: Settings, l: Line, input: seq<Byte>, room: nat, n: nat)
    requires n <= |input| && forall m :: 0 <= m < n ==> |CookAll(st, l, input[..m]).text| != room
    requires n == |input| || |CookAll(st, l, input[..n]).text| == room
    ensures Taken(st, l, input, room) == n
    decreases |input|
  {
    if n > 0 {
      assert input[..0] == [] && |CookAll(st, l, input[..0]).text| != room;
      var l', rest := Cook(st, l, input[0]), input[1..];
      forall m | 0 <= m <= n - 1 ensures CookAll(st, l', rest[..m]) == CookAll(st, l, input[..m + 1]) {
        assert input[..m + 1][1..] == rest[..m];
      }
      TakenIs(st, l', rest, room, n - 1);
    } else {
      assert input[..0] == [];
    }
  }

  lemma {:induction false} CookAllSnoc(st: Settings, l: Line, input: seq<Byte>, c: Byte)
    ensures CookAll(st, l, input + [c]) == Cook(st, CookAll(st, l, input), c)
    decreases |input|
  {
    if input == [] {
      assert (input + [c])[1..] == [];
    } else {
      CookAllSnoc(st, Cook(st, l, input[0]), input[1..], c);
      assert (input + [c])[1..] == input[1..] + [c];
    }
  }

  /** Input may be taken in any portions. */
  lemma {:induction false} CookAllConcat(st: Settings, l: Line, a: seq<Byte>, b: seq<Byte>)
    ensures CookAll(st, l, a + b) == CookAll(st, CookAll(st, l, a), b)
    decreases |a|
  {
    if a == [] {
      assert a + b == b;
    } else {
      CookAllConcat(st, Cook(st, l, a[0]), a[1..], b);
      assert (a + b)[1..] == a[1..] + b;
    }
  }

  // ---------------------------------------------------------------- what a typed byte becomes

  function With(l: Line, c: Byte): Line {
    l.(text := l.text + [c])
  }

  /** A typed byte that is no control character in what it becomes: 13 is carriage return, 10 newline, 65 to 90 are the
      capital letters. */
  lemma TypedArrives(st: Settings, l: Line, c: Byte)
    ensures st.strip && c >= 128 ==> Cook(st, l, c) == Cook(st, l, c - 128)
    ensures c == 13 && st.crnl && !Consumed(st, 10) ==> Cook(st, l, c) == With(l, 10)
    ensures c == 13 && !st.crnl && st.nocr ==> Cook(st, l, c) == l
    ensures c == 13 && !st.crnl && !st.nocr && !Consumed(st, 13) ==> Cook(st, l, c) == With(l, 13)
    ensures c == 10 && !st.nlcr && !Consumed(st, 10) ==> Cook(st, l, c) == With(l, 10)
    ensures c == 10 && st.nlcr && !Consumed(st, 13) ==> Cook(st, l, c) == With(l, 13)
    ensures st.uclc && 65 <= c <= 90 && !Consumed(st, c + 32) ==> Cook(st, l, c) == With(l, c + 32)
    ensures c != 10 && c != 13 && !(st.uclc && 65 <= c <= 90) && (c < 128 || !st.strip) && !Consumed(st, c) ==>
              Cook(st, l, c) == With(l, c)
  {
  }

  /** A zero byte is never special: 0 in the settings means that there is no such character. */
  lemma ZeroArrives(st: Settings, l: Line)
    ensures Cook(st, l, 0) == With(l, 0) && !Ends(st, 0)
  {
  }

  /** With crnl a typed carriage return ends the line, as a newline does. */
  lemma ReturnEndsLine(st: Settings, l: Line)
    requires st.crnl && !Consumed(st, 10)
    ensures Lines(st, Cook(st, l, 13).text) == Lines(st, l.text) + 1
    ensures Finished(st, Cook(st, l, 13).text) == l.text + [10]
  {
    LinesSnoc(st, l.text, 10);
  }

  /** So does a typed end-of-file character that has no other meaning. */
  lemma EofEndsLine(st: Settings, l: Line)
    requires Unmapped(st.eof) && !Consumed(st, st.eof)
    ensures Lines(st, Cook(st, l, st.eof).text) == Lines(st, l.text) + 1
  {
    TypedArrives(st, l, st.eof);
    LinesSnoc(st, l.text, st.eof);
  }

  /** A byte that no setting translates. */
  predicate Unmapped(c: Byte) {
    0 < c < 128 && c != 10 && c != 13 && !(65 <= c <= 90)
  }

  lemma UnmappedArrives(st: Settings, l: Line, c: Byte)
    requires Unmapped(c)
    ensures Cook(st, l, c) == Edit(st, l, c)
  {
  }

  /** Such a byte typed as a control character. */
  lemma ControlActs(st: Settings, l: Line, c: Byte)
    requires Unmapped(c)
    ensures st.canon && c == st.kill ==> Cook(st, l, c) == l.(text := Finished(st, l.text))
    ensures st.canon && c == st.erase && c != st.kill ==> Cook(st, l, c) == l.(text := Erased(st, l.text))
    ensures var late := !st.canon || (c != st.kill && c != st.erase);
      (late && st.ixon && c == st.stop ==> Cook(st, l, c) == l.(stopped := true)) &&
      (late && st.ixon && c == st.start && c != st.stop ==> Cook(st, l, c) == l.(stopped := false)) &&
      (late && st.isig && (c == st.intr || c == st.quit || c == st.susp) ==> Cook(st, l, c).text == l.text)
  {
    UnmappedArrives(st, l, c);
    hide Cook, Finished, Erased;
  }

  // ---------------------------------------------------------------- line ends

  /** How many line ends the text holds. */
  function Lines(st: Settings, text: seq<Byte>): nat {
    if text == [] then 0 else Lines(st, text[..|text| - 1]) + if Ends(st, text[|text| - 1]) then 1 else 0
  }

  lemma LinesSnoc(st: Settings, text: seq<Byte>, c: Byte)
    ensures Lines(st, text + [c]) == Lines(st, text) + if Ends(st, c) then 1 else 0
  {
  }

  lemma {:induction false} LinesConcat(st: Settings, a: seq<Byte>, b: seq<Byte>)
    ensures Lines(st, a + b) == Lines(st, a) + Lines(st, b)
    decreases |b|
  {
    if b == [] {
      assert a + b == a;
    } else {
      var c := b[|b| - 1];
      LinesConcat(st, a, b[..|b| - 1]);
      assert (a + b)[..|a + b| - 1] == a + b[..|b| - 1];
    }
  }

  /** The finished part is a prefix, ends with a line end, and holds every line end of the text. */
  lemma {:induction false} FinishedIsWhole(st: Settings, text: seq<Byte>)
    ensures Finished(st, text) <= text && Lines(st, Finished(st, text)) == Lines(st, text)
    ensures Finished(st, text) == [] || Ends(st, Finished(st, text)[|Finished(st, text)| - 1])
    ensures forall k :: |Finished(st, text)| <= k < |text| ==> !Ends(st, text[k])
  {
    if text != [] && !Ends(st, text[|text| - 1]) {
      FinishedIsWhole(st, text[..|text| - 1]);
    }
  }

  /** No input byte removes or changes a finished line. */
  lemma CookKeepsLines(st: Settings, l: Line, c: Byte)
    ensures Finished(st, l.text) <= Finished(st, Cook(st, l, c).text)
    ensures Lines(st, l.text) <= Lines(st, Cook(st, l, c).text)
  {
    FinishedIsWhole(st, l.text);
    var e := Translate(st, c);
    LinesSnoc(st, l.text, e);
    FinishedOnce(st, l.text);
    assert (l.text + [e])[..|l.text|] == l.text;
  }

  lemma {:induction false} FinishedOnce(st: Settings, text: seq<Byte>)
    ensures Finished(st, Finished(st, text)) == Finished(st, text)
    ensures Finished(st, Erased(st, text)) == Finished(st, text) && Lines(st, Erased(st, text)) == Lines(st, text)
  {
    if text != [] && !Ends(st, text[|text| - 1]) {
      FinishedOnce(st, text[..|text| - 1]);
    }
  }

  lemma {:induction false} CookAllKeepsLines(st: Settings, l: Line, input: seq<Byte>)
    ensures Finished(st, l.text) <= Finished(st, CookAll(st, l, input).text)
    decreases |input|
  {
    if input != [] {
      CookKeepsLines(st, l, input[0]);
      CookAllKeepsLines(st, Cook(st, l, input[0]), input[1..]);
    }
  }

  // ---------------------------------------------------------------- laws of erase and kill

  /** A byte that is put into the text as it is and ends no line. */
  predicate Plain(st: Settings, c: Byte) {
    !Dropped(st, c) && var e := Translate(st, c);
    !Ends(st, e) && !Control(st, e) && !(st.canon && (Is(e, st.kill) || Is(e, st.erase)))
  }

  predicate Means(st: Settings, c: Byte, special: Byte) {
    !Dropped(st, c) && Is(Translate(st, c), special)
  }

  /** Erase takes back exactly the byte before it. */
  lemma EraseUndoes(st: Settings, l: Line, c: Byte, e: Byte)
    requires st.canon && Plain(st, c) && Means(st, e, st.erase) && (st.kill == DISABLED || st.kill != st.erase)
    ensures CookAll(st, l, [c, e]) == l
  {
    assert [c, e][1..] == [e] && [e][1..] == [];
    var m := Cook(st, l, c);
    assert m.text[..|m.text| - 1] == l.text;
    assert CookAll(st, l, [c, e]) == CookAll(st, m, [e]) == CookAll(st, Cook(st, m, e), []);
  }

  /** Kill takes back everything typed since the last line end. */
  lemma {:induction false} KillUndoes(st: Settings, l: Line, typed: seq<Byte>, k: Byte)
    requires st.canon && (forall i :: 0 <= i < |typed| ==> Plain(st, typed[i])) && Means(st, k, st.kill)
    ensures CookAll(st, l, typed + [k]) == l.(text := Finished(st, l.text))
    decreases |typed|
  {
    if typed == [] {
      assert typed + [k] == [k] && [k][1..] == [];
    } else {
      var m := Cook(st, l, typed[0]);
      assert m.text[..|m.text| - 1] == l.text;
      KillUndoes(st, m, typed[1..], k);
      assert (typed + [k])[1..] == typed[1..] + [k];
    }
  }

  // ---------------------------------------------------------------- reading from the front

  /** Editing at the end cannot reach text already taken from the front: there is no editing, or what was
      taken stops at a line end, or a line end is still in the text. */
  predicate Sealed(st: Settings, taken: seq<Byte>, text: seq<Byte>) {
    !st.canon || taken == [] || Ends(st, taken[|taken| - 1]) || Lines(st, text) > 0
  }

  lemma {:induction false} FinishedApart(st: Settings, taken: seq<Byte>, text: seq<Byte>)
    requires st.canon && Sealed(st, taken, text)
    ensures Finished(st, taken + text) == taken + Finished(st, text)
    ensures Erased(st, taken + text) == taken + Erased(st, text)
    decreases |text|
  {
    if text == [] {
      assert taken + text == taken;
    } else {
      var k := |text| - 1;
      assert (taken + text)[..|taken + text| - 1] == taken + text[..k];
      if !Ends(st, text[k]) {
        FinishedApart(st, taken, text[..k]);
      }
    }
  }

  function Prefixed(taken: seq<Byte>, l: Line): Line {
    l.(text := taken + l.text)
  }

  lemma CookApart(st: Settings, taken: seq<Byte>, l: Line, c: Byte)
    requires Sealed(st, taken, l.text)
    ensures Cook(st, Prefixed(taken, l), c) == Prefixed(taken, Cook(st, l, c))
    ensures Sealed(st, taken, Cook(st, l, c).text)
  {
    CookKeepsLines(st, l, c);
    hide Finished, Lines, Ends;
    if st.canon { FinishedApart(st, taken, l.text); }
    var e := Translate(st, c);
    assert taken + (l.text + [e]) == taken + l.text + [e];
  }

  lemma {:induction false} CookAllApart(st: Settings, taken: seq<Byte>, l: Line, input: seq<Byte>)
    requires Sealed(st, taken, l.text)
    ensures CookAll(st, Prefixed(taken, l), input) == Prefixed(taken, CookAll(st, l, input))
    ensures Sealed(st, taken, CookAll(st, l, input).text)
    decreases |input|
  {
    if input != [] {
      CookApart(st, taken, l, input[0]);
      CookAllApart(st, taken, Cook(st, l, input[0]), input[1..]);
    }
  }

  // ---------------------------------------------------------------- the reader's test

  /** tty_read compares a signed char with the end-of-file character, copy_to_cooked an unsigned one. */
  function Signed(c: Byte): int {
    if c < 128 then c else c - 256
  }

  predicate ReaderEnds(st: Settings, c: Byte) {
    c == NL || ReaderEof(st, c)
  }

  predicate ReaderEof(st: Settings, c: Byte) {
    st.eof != DISABLED && Signed(c) == st.eof
  }

  /** One delivery to a reader asking for nr bytes: the first k bytes leave the text. In canonical mode they stop
      at the first line end, and an end-of-file character is taken but not delivered; else they stop only when
      nr bytes are delivered or the text is used up. Nothing is taken once nr bytes are delivered. */
  ghost predicate Delivery(st: Settings, text: seq<Byte>, nr: nat, k: nat, out: seq<Byte>) {
    1 <= k <= |text| && |out| <= nr && k - 1 < nr &&
    (forall i :: 0 <= i < k - 1 ==> !(st.canon && ReaderEnds(st, text[i]))) &&
    out == (if st.canon && ReaderEof(st, text[k - 1]) then text[..k - 1] else text[..k]) &&
    (k < |text| ==> (st.canon && ReaderEnds(st, text[k - 1])) || |out| == nr)
  }

  lemma StopsNoLater(st: Settings, text: seq<Byte>, nr: nat, k: nat, out: seq<Byte>, k': nat, out': seq<Byte>)
    requires Delivery(st, text, nr, k, out) && Delivery(st, text, nr, k', out')
    ensures k' <= k
  {
  }

  /** What a reader is given depends on the text alone. */
  lemma DeliveryIsOne(st: Settings, text: seq<Byte>, nr: nat, k: nat, out: seq<Byte>, k': nat, out': seq<Byte>)
    requires Delivery(st, text, nr, k, out) && Delivery(st, text, nr, k', out')
    ensures k == k' && out == out'
  {
    StopsNoLater(st, text, nr, k, out, k', out');
    StopsNoLater(st, text, nr, k', out', k, out);
  }

  /** k bytes have been delivered and none of them stops the delivery. */
  ghost predicate Delivering(st: Settings, text: seq<Byte>, nr: nat, k: nat, out: seq<Byte>) {
    k <= |text| && |out| <= nr && out == text[..k] && forall i :: 0 <= i < k ==> !(st.canon && ReaderEnds(st, text[i]))
  }

  lemma Started(st: Settings, text: seq<Byte>, nr: nat)
    ensures Delivering(st, text, nr, 0, [])
  {
  }

  lemma DeliveredEof(st: Settings, text: seq<Byte>, nr: nat, k: nat, out: seq<Byte>)
    requires Delivering(st, text, nr, k, out) && k < |text| && |out| < nr && st.canon && ReaderEof(st, text[k])
    ensures Delivery(st, text, nr, k + 1, out)
  {
  }

  lemma Delivered(st: Settings, text: seq<Byte>, nr: nat, k: nat, out: seq<Byte>)
    requires Delivering(st, text, nr, k, out) && k < |text| && |out| < nr && !(st.canon && ReaderEof(st, text[k]))
    ensures |out + [text[k]]| == nr || (st.canon && text[k] == NL) || k + 1 == |text| ==>
              Delivery(st, text, nr, k + 1, out + [text[k]])
    ensures !(st.canon && text[k] == NL) ==> Delivering(st, text, nr, k + 1, out + [text[k]])
  {
  }

  lemma OneLine(st: Settings, c: Byte)
    ensures Lines(st, [c]) == if Ends(st, c) then 1 else 0
  {
  }

  /** The reader counts out what the editor counted in. */
  ghost predicate Recognised(st: Settings, text: seq<Byte>) {
    forall i :: 0 <= i < |text| ==> (ReaderEnds(st, text[i]) <==> Ends(st, text[i]))
  }

  /** A delivery made while a line end was waiting leaves what was taken out of reach of editing. */
  lemma DeliverySeals(st: Settings, text: seq<Byte>, nr: nat, k: nat, out: seq<Byte>, taken: seq<Byte>)
    requires Recognised(st, text) && Delivery(st, text, nr, k, out) && (st.canon ==> Lines(st, text) > 0)
    ensures Sealed(st, taken + text[..k], text[k..])
  {
    hide Lines;
    if st.canon {
      assert text[..k] + text[k..] == text;
      LinesConcat(st, text[..k], text[k..]);
      if Ends(st, text[k - 1]) {
        assert (taken + text[..k])[|taken + text[..k]| - 1] == text[k - 1];
      } else {
        forall i | 0 <= i < |text[..k]| ensures !Ends(st, text[..k][i]) {
          assert text[..k][i] == text[i];
        }
        NoLines(st, text[..k]);
      }
    }
  }

  lemma {:induction false} NoLines(st: Settings, text: seq<Byte>)
    requires forall i :: 0 <= i < |text| ==> !Ends(st, text[i])
    ensures Lines(st, text) == 0
  {
    if text != [] { NoLines(st, text[..|text| - 1]); }
  }

  /** How many line ends the reader counts out of the text. */
  function ReaderLines(st: Settings, text: seq<Byte>): nat {
    if text == [] then 0 else ReaderLines(st, text[..|text| - 1]) + if ReaderEnds(st, text[|text| - 1]) then 1 else 0
  }

  lemma {:induction false} ReaderLinesConcat(st: Settings, a: seq<Byte>, b: seq<Byte>)
    ensures ReaderLines(st, a + b) == ReaderLines(st, a) + ReaderLines(st, b)
    decreases |b|
  {
    if b == [] {
      assert a + b == a;
    } else {
      ReaderLinesConcat(st, a, b[..|b| - 1]);
      assert (a + b)[..|a + b| - 1] == a + b[..|b| - 1];
    }
  }

  lemma OneReaderLine(st: Settings, text: seq<Byte>, c: Byte)
    ensures ReaderLines(st, text + [c]) == ReaderLines(st, text) + if ReaderEnds(st, c) then 1 else 0
  {
  }

  lemma {:induction false} RecognisedLines(st: Settings, text: seq<Byte>)
    requires Recognised(st, text)
    ensures ReaderLines(st, text) == Lines(st, text)
  {
    if text != [] { RecognisedLines(st, text[..|text| - 1]); }
  }

  /** No byte gets into the text that the editor counts as a line end and the reader does not: the end-of-file
      character is below 128, or bytes from 128 on are stripped, or it has another meaning that comes first. */
  predicate Countable(st: Settings) {
    st.eof < 128 || st.strip || Consumed(st, st.eof)
  }

  /** With countable settings editing keeps the text recognised, whatever is typed. */
  lemma CookRecognised(st: Settings, l: Line, c: Byte)
    requires Countable(st) && Recognised(st, l.text)
    ensures Recognised(st, Cook(st, l, c).text)
  {
    FinishedIsWhole(st, l.text);
  }

  lemma {:induction false} CookAllRecognised(st: Settings, l: Line, input: seq<Byte>)
    requires Countable(st) && Recognised(st, l.text)
    ensures Recognised(st, CookAll(st, l, input).text)
    decreases |input|
  {
    if input != [] {
      CookRecognised(st, l, input[0]);
      CookAllRecognised(st, Cook(st, l, input[0]), input[1..]);
    }
  }

  /** Else the end-of-file character gets in, and the reader takes it for an ordinary byte. */
  lemma EofGetsIn(st: Settings, l: Line)
    requires !Countable(st)
    ensures Cook(st, l, st.eof) == l.(text := l.text + [st.eof]) && Ends(st, st.eof) && !ReaderEnds(st, st.eof)
  {
  }

  // ---------------------------------------------------------------- everything typed so far

  /** With l the text now waiting and input the bytes not yet edited in: what was taken from the front, with what
      is left, is what editing makes of everything typed. */
  ghost predicate Agrees(st: Settings, l: Line, input: seq<Byte>, typed: seq<Byte>, taken: seq<Byte>) {
    Sealed(st, taken, l.text) && CookAll(st, Prefixed(taken, l), input) == CookAll(st, Line([], false), typed)
  }

  lemma AgreesAtFirst(st: Settings)
    ensures Agrees(st, Line([], false), [], [], [])
  {
  }

  lemma AgreesTyped(st: Settings, l: Line, input: seq<Byte>, typed: seq<Byte>, taken: seq<Byte>, c: Byte)
    requires Agrees(st, l, input, typed, taken)
    ensures Agrees(st, l, input + [c], typed + [c], taken)
  {
    CookAllSnoc(st, Prefixed(taken, l), input, c);
    CookAllSnoc(st, Line([], false), typed, c);
  }

  lemma AgreesCooked(st: Settings, l: Line, input: seq<Byte>, typed: seq<Byte>, taken: seq<Byte>, n: nat)
    requires Agrees(st, l, input, typed, taken) && n <= |input|
    ensures Agrees(st, CookAll(st, l, input[..n]), input[n..], typed, taken)
  {
    CookAllApart(st, taken, l, input[..n]);
    CookAllConcat(st, Prefixed(taken, l), input[..n], input[n..]);
    assert input[..n] + input[n..] == input;
  }

  lemma AgreesRead(st: Settings, l: Line, input: seq<Byte>, typed: seq<Byte>, taken: seq<Byte>, nr: nat, k: nat,
                   out: seq<Byte>)
    requires Agrees(st, l, input, typed, taken) && Recognised(st, l.text) && Delivery(st, l.text, nr, k, out)
    requires st.canon ==> Lines(st, l.text) > 0
    ensures Agrees(st, l.(text := l.text[k..]), input, typed, taken + l.text[..k])
  {
    DeliverySeals(st, l.text, nr, k, out, taken);
    assert taken + l.text == taken + l.text[..k] + l.text[k..];
  }
}
