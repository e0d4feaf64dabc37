/** Concrete runs of the model: the behaviour a user of the terminal sees
    for a few typical inputs, including where it departs from what a real
    terminal does. */
module Scenarios {
  import opened Common
  import opened ScreenModel
  import ScreenProperties
  import Report
  import Utf8
  import PtyReader

  const ESC: byte := 0x1B

  /** "Hello\r\n" on a fresh terminal: one line "Hello", cursor at the
      start of row 1. The line feed creates no line. */
  lemma HelloCrLf()
    ensures Run(Initial(), [Print('H'), Print('e'), Print('l'), Print('l'), Print('o'), Execute(CR), Execute(LF)])
         == Running(Screen(["Hello"], 0, 1, None, true, []))
  {
    var s0 := Initial();
    var s1 := Screen(["H"], 1, 0, None, true, []);
    var s2 := Screen(["He"], 2, 0, None, true, []);
    var s3 := Screen(["Hel"], 3, 0, None, true, []);
    var s4 := Screen(["Hell"], 4, 0, None, true, []);
    var s5 := Screen(["Hello"], 5, 0, None, true, []);
    var s6 := Screen(["Hello"], 0, 0, None, true, []);
    var s7 := Screen(["Hello"], 0, 1, None, true, []);
    AppendChar(s1, "", 'H');
    AppendChar(s2, "H", 'e');
    AppendChar(s3, "He", 'l');
    AppendChar(s4, "Hel", 'l');
    AppendChar(s5, "Hell", 'o');
    RunStep(s6, Execute(LF), [], s7);
    RunStep(s5, Execute(CR), [Execute(LF)], s6);
    RunStep(s4, Print('o'), [Execute(CR), Execute(LF)], s5);
    RunStep(s3, Print('l'), [Print('o'), Execute(CR), Execute(LF)], s4);
    RunStep(s2, Print('l'), [Print('l'), Print('o'), Execute(CR), Execute(LF)], s3);
    RunStep(s1, Print('e'), [Print('l'), Print('l'), Print('o'), Execute(CR), Execute(LF)], s2);
    assert s0 == Screen([], 0, 0, None, false, []);
    RunStep(s0, Print('H'), [Print('e'), Print('l'), Print('l'), Print('o'), Execute(CR), Execute(LF)], s1);
  }

  /** Printing at the end of the only line, from the state before it. */
  lemma AppendChar(t: Screen, before: Line, c: char)
    requires |t.lines| == 1 && t.lines[0] == before + [c] && t.cursorX == |before| + 1 && t.cursorY == 0
    requires t.size == None && t.dirty && t.outbox == []
    ensures var s := if |before| == 0 then Initial() else t.(lines := [before], cursorX := |before|);
      Apply(s, Print(c)) == Running(t)
  {
    var s := if |before| == 0 then Initial() else t.(lines := [before], cursorX := |before|);
    var u := PrintChar(s, c);
    assert RowAt(s.lines, 0) == before;
    assert PutChar(before, |before|, c) == before + [c];
    assert u.lines == [before + [c]];
  }

  /** Handling `e` and then `es` from `s`, when `e` takes `s` to `t`. */
  lemma RunStep(s: Screen, e: Event, es: seq<Event>, t: Screen)
    requires Apply(s, e) == Running(t)
    ensures Run(s, [e] + es) == Run(t, es)
  {
    assert ([e] + es)[0] == e && ([e] + es)[1..] == es;
  }

  /** `ESC [ 2 J` leaves no lines and the cursor at the origin. */
  lemma EraseEntireScreen(s: Screen)
    ensures CsiDispatch(s, [[2]], 'J') == Running(s.(lines := [], cursorX := 0, cursorY := 0, dirty := true))
  {
  }

  /** `ESC [ 5 ; 10 H` puts the cursor on row 4, column 9. */
  lemma CursorPositionFiveTen(s: Screen)
    ensures CsiDispatch(s, [[5], [10]], 'H') == Running(s.(cursorX := 9, cursorY := 4, dirty := true))
  {
  }

  /** Overwriting in place: `ESC [ 1 ; 2 H` then 'X' turns "abc" into "aXc". */
  lemma OverwriteInPlace(x: nat, y: nat)
    ensures var s := Screen(["abc"], x, y, None, false, []);
      Run(s, [Csi([[1], [2]], 'H'), Print('X')]) == Running(Screen(["aXc"], 2, 0, None, true, []))
  {
    var s := Screen(["abc"], x, y, None, false, []);
    var t := Screen(["abc"], 1, 0, None, true, []);
    var u := Screen(["aXc"], 2, 0, None, true, []);
    assert "abc"[1 := 'X'] == "aXc";
    assert PrintChar(t, 'X') == u;
    RunStep(t, Print('X'), [], u);
    RunStep(s, Csi([[1], [2]], 'H'), [Print('X')], t);
  }

  /** 1001 line feeds on a fresh terminal: the cursor ends on row 999, and
      since a line feed never creates a line there are still no lines. */
  lemma ThousandAndOneLineFeeds()
    ensures Run(Initial(), ScreenProperties.LineFeeds(1001)) == Running(Screen([], 0, 999, None, true, []))
  {
    ScreenProperties.LineFeedEviction(Initial(), 1001);
  }

  /** MAX_LINES bounds the cursor only on a line feed: CUP to row 5000 and
      one character make the buffer 5000 lines long. */
  lemma FarCursorGrowsBuffer()
    ensures var r := Run(Initial(), [Csi([[5000]], 'H'), Print('x')]);
      r.Running? && |r.screen.lines| == 5000 && r.screen.lines[4999] == "x"
  {
    var t := Initial().(cursorY := 4999, dirty := true);
    var u := PrintChar(t, 'x');
    assert PutChar([], 0, 'x') == "x";
    RunStep(t, Print('x'), [], u);
    RunStep(Initial(), Csi([[5000]], 'H'), [Print('x')], t);
  }

  /** A cursor move (here a CUU event with no parameter groups) on a buffer
      with no lines panics. */
  lemma CursorUpOnEmptyBuffer()
    ensures Run(Initial(), [Csi([], 'A')]) == Poisoned
  {
    assert [Csi([], 'A')][1..] == [];
  }

  /** Without a size, `as_text` shows nothing however many lines there are. */
  lemma NoSizeNoText(lines: seq<Line>, x: nat, y: nat)
    ensures AsText(Screen(lines, x, y, None, false, [])) == []
  {
  }

  /** A DSR event with no parameter groups, after "Hello\r\n", reports row 2,
      column 1: `ESC [ 2 ; 1 R`. */
  lemma ReportAfterHello()
    ensures CsiDispatch(Screen(["Hello"], 0, 1, None, true, []), [], 'n')
         == Running(Screen(["Hello"], 0, 1, None, true, [[ESC, 0x5B, 0x32, 0x3B, 0x31, 0x52]]))
  {
    assert Report.CursorReport(2, 1) == [ESC, 0x5B, 0x32, 0x3B, 0x31, 0x52];
  }

  /** The usual query `ESC [ 6 n` is answered with `ESC [ 6 ; 1 R`, whatever
      the cursor, since the handler reports the parameters it was given. */
  lemma StatusReportSix(s: Screen)
    ensures CsiDispatch(s, [[6]], 'n')
         == Running(s.(outbox := s.outbox + [[ESC, 0x5B, 0x36, 0x3B, 0x31, 0x52]], dirty := true))
  {
    assert Report.CursorReport(6, 1) == [ESC, 0x5B, 0x36, 0x3B, 0x31, 0x52];
  }

  /** A character split across two reads at any point reaches the screen as
      the same single chunk as when it arrives in one read. */
  lemma SplitCharacter(enc: seq<byte>, k: nat)
    requires 0 < k < |enc| && Utf8.CharLen(enc) == |enc|
    ensures PtyReader.ReaderRun([], [PtyReader.Data(enc[..k]), PtyReader.Data(enc[k..])])
         == PtyReader.Run([enc], [], 2, false)
    ensures PtyReader.ReaderRun([], [PtyReader.Data(enc)]) == PtyReader.Run([enc], [], 1, false)
  {
    var first, second := PtyReader.Data(enc[..k]), PtyReader.Data(enc[k..]);
    var p := enc[..k];
    assert Utf8.Valid(enc) by {
      assert enc[|enc|..] == [];
    }
    Utf8.ValidIffValidUpToAll(enc);
    // the first read holds an incomplete character: nothing is sent
    assert Utf8.ValidUpTo([] + p) == 0 by {
      assert p[0] == enc[0] && [] + p == p;
    }
    PtyReader.ReaderStepCases([], first);
    assert PtyReader.ReaderStep([], first) == PtyReader.Continue(None, p);
    // the second completes it: the whole character is sent
    assert p + enc[k..] == enc;
    PtyReader.ReaderStepCases(p, second);
    assert PtyReader.ReaderStep(p, second) == PtyReader.Continue(Some(enc), []);
    OneStep(p, second, enc);
    TwoSteps(first, second, p, enc);
    assert [] + enc == enc;
    PtyReader.ReaderStepCases([], PtyReader.Data(enc));
    OneStep([], PtyReader.Data(enc), enc);
  }

  /** The run over one read that sends everything it holds. */
  lemma OneStep(leftover: seq<byte>, r: PtyReader.Read, chunk: seq<byte>)
    requires PtyReader.ReaderStep(leftover, r) == PtyReader.Continue(Some(chunk), [])
    ensures PtyReader.ReaderRun(leftover, [r]) == PtyReader.Run([chunk], [], 1, false)
  {
    assert [r][1..] == [];
  }

  /** The run over two reads, the first of which sends nothing. */
  lemma TwoSteps(first: PtyReader.Read, second: PtyReader.Read, kept: seq<byte>, chunk: seq<byte>)
    requires PtyReader.ReaderStep([], first) == PtyReader.Continue(None, kept)
    requires PtyReader.ReaderRun(kept, [second]) == PtyReader.Run([chunk], [], 1, false)
    ensures PtyReader.ReaderRun([], [first, second]) == PtyReader.Run([chunk], [], 2, false)
  {
    assert [first, second][0] == first && [first, second][1..] == [second];
  }
}
