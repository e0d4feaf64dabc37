/** What the handlers of `TerminalInner` guarantee over one event and over
    sequences of events, stated about the functions of `ScreenModel`. */
module ScreenProperties {
  import opened Common
  import opened ScreenModel
  import Text
  import Report

  // ---------------------------------------------------------------------
  // Line feeds and MAX_LINES

  /** `n` line feeds. */
  function LineFeeds(n: nat): (es: seq<Event>)
    ensures |es| == n && forall i :: 0 <= i < n ==> es[i] == Execute(LF)
  {
    seq(n, i => Execute(LF))
  }

  /** How many lines `n` line feeds evict from the front when the cursor
      starts on row `y`: one for each line feed that finds the cursor on
      the last allowed row or below it. */
  function Evicted(y: nat, n: nat): (k: nat)
    ensures k <= n
    ensures y + 1 >= MaxLines ==> k == n
    ensures y + n < MaxLines ==> k == 0
  {
    Min(n, SatSub(y + n, MaxLines - 1))
  }

  /** The state after `n > 0` line feeds. */
  function AfterLineFeeds(s: Screen, n: nat): Screen
  {
    s.(lines := Skip(s.lines, Evicted(s.cursorY, n)), cursorX := 0,
       cursorY := Min(s.cursorY + n, MaxLines - 1), dirty := true)
  }

  /** Line feeds never add lines; past the last allowed row they evict the
      oldest lines first, in order, and the cursor stays below MAX_LINES. */
  lemma {:induction false} LineFeedEviction(s: Screen, n: nat)
    requires n > 0
    ensures Run(s, LineFeeds(n)) == Running(AfterLineFeeds(s, n))
    ensures AfterLineFeeds(s, n).cursorY < MaxLines
    decreases n
  {
    var es := LineFeeds(n);
    var t := ExecuteByte(s, LF);
    assert es[0] == Execute(LF);
    if n == 1 {
      assert es[1..] == [];
      DropOneLine(s, t);
    } else {
      assert es[1..] == LineFeeds(n - 1);
      LineFeedEviction(t, n - 1);
      EvictedStep(s.cursorY, n);
      SkipStep(s.lines, t.lines, s.cursorY + 1 >= MaxLines, Evicted(t.cursorY, n - 1));
    }
  }

  lemma DropOneLine(s: Screen, t: Screen)
    requires t == ExecuteByte(s, LF)
    ensures t == AfterLineFeeds(s, 1)
  {
    var u := AfterLineFeeds(s, 1);
    assert t.cursorX == 0 == u.cursorX && t.dirty && u.dirty;
    assert t.size == s.size == u.size && t.outbox == s.outbox == u.outbox;
    if s.cursorY + 1 >= MaxLines {
      assert Evicted(s.cursorY, 1) == 1;
      assert t.lines == DropFront(s.lines) == Skip(s.lines, 1) == u.lines;
      assert t.cursorY == MaxLines - 1 == u.cursorY;
    } else {
      assert Evicted(s.cursorY, 1) == 0;
      assert t.lines == s.lines == Skip(s.lines, 0) == u.lines;
      assert t.cursorY == s.cursorY + 1 == u.cursorY;
    }
  }

  /** The counting behind `LineFeedEviction`: the first line feed evicts
      one line exactly when the cursor is already on the last allowed row
      or below it. */
  lemma EvictedStep(y: nat, n: nat)
    requires n > 1
    ensures Evicted(y, n) == (if y + 1 >= MaxLines then 1 else 0) + Evicted(Min(y + 1, MaxLines - 1), n - 1)
  {
  }

  lemma SkipStep(lines: seq<Line>, next: seq<Line>, pop: bool, k: nat)
    requires next == (if pop then DropFront(lines) else lines)
    ensures Skip(next, k) == Skip(lines, (if pop then 1 else 0) + k)
  {
  }

  // ---------------------------------------------------------------------
  // Dispatch

  /** `csi_dispatch` routes each final character to its handler: CUP takes
      its row and column from the first two groups, ED and EL take their
      mode from the first subparameter of the first group (default 0), and
      any other final character changes nothing but the dirty flag. */
  lemma CsiDispatchRoutes(s: Screen, params: seq<seq<u16>>, final: char)
    ensures final == 'H' || final == 'f' ==>
      CsiDispatch(s, params, final) == Running(CursorPosition(s, params).(dirty := true))
    ensures final == 'J' ==>
      CsiDispatch(s, params, final) == Running(EraseDisplay(s, FirstSub(params, 0, 0)).(dirty := true))
    ensures final == 'K' ==>
      CsiDispatch(s, params, final) == Running(EraseLine(s, FirstSub(params, 0, 0)).(dirty := true))
    ensures final !in {'H', 'f', 'J', 'K', 'n', 'A', 'B', 'C', 'D'} ==>
      CsiDispatch(s, params, final) == Running(s.(dirty := true))
  {
  }

  /** Handling two batches of events one after the other is handling their
      concatenation, as `feed_bytes` on consecutive chunks does. */
  lemma {:induction false} RunConcat(s: Screen, a: seq<Event>, b: seq<Event>)
    ensures Run(s, a + b) == (match Run(s, a) case Poisoned => Poisoned case Running(t) => Run(t, b))
    decreases |a|
  {
    if |a| == 0 {
      assert a + b == b;
    } else {
      assert (a + b)[0] == a[0] && (a + b)[1..] == a[1..] + b;
      match Apply(s, a[0])
      case Poisoned =>
      case Running(t) => RunConcat(t, a[1..], b);
    }
  }

  /** Events without a cursor move never panic. */
  lemma {:induction false} RunWithoutMovesRuns(s: Screen, es: seq<Event>)
    requires forall i :: 0 <= i < |es| ==> !IsCursorMove(es[i])
    ensures Run(s, es).Running?
    decreases |es|
  {
    if |es| > 0 {
      assert !IsCursorMove(es[0]);
      var t := Apply(s, es[0]).screen;
      assert forall i :: 0 <= i < |es[1..]| ==> es[1..][i] == es[i + 1];
      RunWithoutMovesRuns(t, es[1..]);
    }
  }

  // ---------------------------------------------------------------------
  // The dirty flag

  /** Every event but an operating system command marks the screen dirty;
      an operating system command changes nothing. */
  lemma EventMarksDirty(s: Screen, e: Event)
    requires Apply(s, e).Running?
    ensures e.Osc? ==> Apply(s, e).screen == s
    ensures !e.Osc? ==> Apply(s, e).screen.dirty
  {
  }

  /** No event clears the dirty flag: only `clear_dirty` does. */
  lemma {:induction false} DirtyStaysSet(s: Screen, es: seq<Event>)
    requires s.dirty && Run(s, es).Running?
    ensures Run(s, es).screen.dirty
    decreases |es|
  {
    if |es| > 0 {
      var t := Apply(s, es[0]).screen;
      EventMarksDirty(s, es[0]);
      DirtyStaysSet(t, es[1..]);
    }
  }

  lemma ClearDirtyOnlyClears(s: Screen)
    ensures !ClearDirty(s).dirty && ClearDirty(s).(dirty := s.dirty) == s
  {
  }

  // ---------------------------------------------------------------------
  // Which events change what

  /** Only `print` adds lines. */
  lemma OnlyPrintGrows(s: Screen, e: Event)
    requires !e.Print? && Apply(s, e).Running?
    ensures |Apply(s, e).screen.lines| <= |s.lines|
  {
    if e.Csi? && e.final == 'J' {
      var m := FirstSub(e.params, 0, 0);
      assert |EraseDisplay(s, m).lines| <= |s.lines|;
    }
  }

  /** CUU, CUD, CUF and CUB panic exactly on an empty buffer; otherwise
      they leave the lines alone, move in their direction by at least one
      and end on an existing row, at most one past its last character. */
  lemma CursorMoveBounds(s: Screen, params: seq<seq<u16>>, final: char)
    requires final == 'A' || final == 'B' || final == 'C' || final == 'D'
    ensures CsiDispatch(s, params, final).Poisoned? <==> |s.lines| == 0
    ensures CsiDispatch(s, params, final).Running? ==>
      var t := CsiDispatch(s, params, final).screen;
      var n := Count(params);
      t.lines == s.lines && t.dirty && t.outbox == s.outbox && t.size == s.size &&
      t.cursorY < |t.lines| && t.cursorX <= |t.lines[t.cursorY]| &&
      (final == 'A' ==> t.cursorY == Min(SatSub(s.cursorY, n), |s.lines| - 1) && t.cursorX == Min(s.cursorX, |t.lines[t.cursorY]|)) &&
      (final == 'B' ==> t.cursorY == Min(s.cursorY + n, |s.lines| - 1) && t.cursorX == Min(s.cursorX, |t.lines[t.cursorY]|)) &&
      (final == 'C' ==> t.cursorY == Min(s.cursorY, |s.lines| - 1) && t.cursorX == Min(s.cursorX + n, |t.lines[t.cursorY]|)) &&
      (final == 'D' ==> t.cursorY == Min(s.cursorY, |s.lines| - 1) && t.cursorX == Min(SatSub(s.cursorX, n), |t.lines[t.cursorY]|))
  {
  }

  /** CUP moves the cursor anywhere, even far below the last line; the
      lines are not touched. */
  lemma CursorPositionUnclamped(s: Screen, row: u16, col: u16)
    requires row > 0 && col > 0
    ensures CsiDispatch(s, [[row], [col]], 'H') == Running(s.(cursorX := col - 1, cursorY := row - 1, dirty := true))
  {
  }

  /** DSR enqueues one report, which reads back as the reported position;
      nothing else changes but the dirty flag. */
  lemma ReportEnqueued(s: Screen, params: seq<seq<u16>>)
    ensures var p := ReportedPosition(s, params);
      CsiDispatch(s, params, 'n') == Running(s.(outbox := s.outbox + [Report.CursorReport(p.0, p.1)], dirty := true)) &&
      Report.ParseReport(Report.CursorReport(p.0, p.1)) == Some(p)
  {
    var p := ReportedPosition(s, params);
    var r := Report.CursorReport(p.0, p.1);
    assert r != [BS];
    Report.ReportRoundTrip(p.0, p.1);
  }

  /** Everything sent to the PTY is non-empty and never a lone backspace. */
  predicate WellFormedOutbox(outbox: seq<seq<byte>>)
  {
    forall i :: 0 <= i < |outbox| ==> |outbox[i]| > 0 && outbox[i] != [BS]
  }

  /** Handlers only ever append to what has been sent. */
  lemma {:induction false} OutboxAppendOnly(s: Screen, es: seq<Event>)
    requires WellFormedOutbox(s.outbox) && Run(s, es).Running?
    ensures var t := Run(s, es).screen;
      |t.outbox| >= |s.outbox| && t.outbox[..|s.outbox|] == s.outbox && WellFormedOutbox(t.outbox)
    decreases |es|
  {
    if |es| > 0 {
      var t := Apply(s, es[0]).screen;
      ApplyAppends(s, es[0]);
      OutboxAppendOnly(t, es[1..]);
      var u := Run(s, es).screen;
      assert u.outbox[..|s.outbox|] == u.outbox[..|t.outbox|][..|s.outbox|];
    }
  }

  lemma ApplyAppends(s: Screen, e: Event)
    requires WellFormedOutbox(s.outbox) && Apply(s, e).Running?
    ensures var t := Apply(s, e).screen;
      |t.outbox| >= |s.outbox| && t.outbox[..|s.outbox|] == s.outbox && WellFormedOutbox(t.outbox)
  {
    var t := Apply(s, e).screen;
    if e.Csi? && e.final == 'n' {
      var p := ReportedPosition(s, e.params);
      var r := Report.CursorReport(p.0, p.1);
      assert t.outbox == s.outbox + [r];
    } else {
      assert t.outbox == s.outbox;
    }
  }

  /** `write` forwards its data unchanged apart from the backspace key. */
  lemma WriteForwards(s: Screen, data: seq<byte>)
    requires WellFormedOutbox(s.outbox)
    ensures WellFormedOutbox(Write(s, data).outbox)
    ensures |data| > 0 ==> Write(s, data).outbox == s.outbox + [if data == [BS] then [DEL] else data]
  {
  }

  // ---------------------------------------------------------------------
  // Erasing

  /** ED in modes 0, 2 and 3 has nothing left to erase the second time. */
  lemma EraseDisplayIdempotent(s: Screen, mode: nat)
    requires mode != 1
    ensures EraseDisplay(EraseDisplay(s, mode), mode) == EraseDisplay(s, mode)
  {
    if mode == 0 {
      var once := EraseBelow(s.lines, s.cursorY);
      assert EraseBelow(once, s.cursorY) == once;
    }
  }

  /** EL in modes 0 and 2 has nothing left to erase the second time. */
  lemma EraseLineIdempotent(s: Screen, mode: nat)
    requires mode != 1
    ensures EraseLine(EraseLine(s, mode), mode) == EraseLine(s, mode)
  {
    if s.cursorY < |s.lines| && mode == 0 {
      var row := s.lines[s.cursorY];
      assert Take(Take(row, s.cursorX), s.cursorX) == Take(row, s.cursorX);
    }
  }

  // ---------------------------------------------------------------------
  // as_text

  /** Splitting the text at newlines gives back the visible lines, when at
      least one is visible and no line holds a newline. */
  lemma AsTextSplits(s: Screen)
    requires |Visible(s)| > 0 && Text.NoNewlines(s.lines)
    ensures Text.Split(AsText(s)) == Visible(s)
  {
    var v := Visible(s);
    var k := SatSub(|s.lines|, Rows(s.size));
    forall i | 0 <= i < |v| ensures Text.Newline !in v[i] {
      assert v[i] == s.lines[k + i];
    }
    Text.SplitJoin(v);
  }

  /** Setting the same size twice is the same as setting it once. */
  lemma ResizeIdempotent(s: Screen, cols: u16, rows: u16)
    ensures Resize(Resize(s, cols, rows), cols, rows) == Resize(s, cols, rows)
    ensures AsText(Resize(Resize(s, cols, rows), cols, rows)) == AsText(Resize(s, cols, rows))
    ensures Resize(s, cols, rows).(size := s.size) == s
  {
  }

  /** Handlers never put a newline into a line unless one is printed. */
  lemma ApplyKeepsNoNewlines(s: Screen, e: Event)
    requires Text.NoNewlines(s.lines) && !(e.Print? && e.c == Text.Newline)
    requires Apply(s, e).Running?
    ensures Text.NoNewlines(Apply(s, e).screen.lines)
  {
    var t := Apply(s, e).screen;
    if e.Print? {
      var row := RowAt(s.lines, s.cursorY);
      assert Text.Newline !in row;
      PutCharKeepsNoNewline(row, s.cursorX, e.c);
      forall i | 0 <= i < |t.lines| ensures Text.Newline !in t.lines[i] {
        if i != s.cursorY {
          assert t.lines[i] == RowAt(s.lines, i);
        }
      }
    } else if e.Csi? && (e.final == 'J' || e.final == 'K') {
      var m := FirstSub(e.params, 0, 0);
      forall i | 0 <= i < |t.lines| ensures Text.Newline !in t.lines[i] {
        ErasedKeepsNoNewline(s, e.final, m, i);
      }
    } else if e.Execute? && e.b == LF {
      forall i | 0 <= i < |t.lines| ensures Text.Newline !in t.lines[i] {
        assert t.lines[i] == s.lines[|s.lines| - |t.lines| + i];
      }
    }
  }

  lemma PutCharKeepsNoNewline(row: Line, x: nat, c: char)
    requires Text.Newline !in row && c != Text.Newline
    ensures Text.Newline !in PutChar(row, x, c)
  {
    var r := PutChar(row, x, c);
    forall i | 0 <= i < |r| ensures r[i] != Text.Newline {
      if i != x && i < |row| {
        assert r[i] == row[i];
      }
    }
  }

  lemma ErasedKeepsNoNewline(s: Screen, final: char, mode: nat, i: nat)
    requires Text.NoNewlines(s.lines) && (final == 'J' || final == 'K')
    requires var t := if final == 'J' then EraseDisplay(s, mode) else EraseLine(s, mode); i < |t.lines|
    ensures var t := if final == 'J' then EraseDisplay(s, mode) else EraseLine(s, mode); Text.Newline !in t.lines[i]
  {
    var t := if final == 'J' then EraseDisplay(s, mode) else EraseLine(s, mode);
    if i == s.cursorY && i < |s.lines| {
      var row := s.lines[i];
      assert Text.Newline !in row;
      var r := t.lines[i];
      forall j | 0 <= j < |r| ensures r[j] != Text.Newline {
        if mode == 1 {
          assert r == Skip(row, s.cursorX);
          assert r[j] == row[|row| - |r| + j];
        } else if final == 'K' && mode == 0 {
          assert r[j] == row[j];
        } else {
          assert r == row;
        }
      }
    } else if i < |s.lines| {
      assert t.lines[i] == s.lines[i] || t.lines[i] == [];
    }
  }

  /** ... and so over any sequence of events that prints no newline. */
  lemma {:induction false} RunKeepsNoNewlines(s: Screen, es: seq<Event>)
    requires Text.NoNewlines(s.lines) && Run(s, es).Running?
    requires forall i :: 0 <= i < |es| ==> es[i] != Print(Text.Newline)
    ensures Text.NoNewlines(Run(s, es).screen.lines)
    decreases |es|
  {
    if |es| > 0 {
      ApplyKeepsNoNewlines(s, es[0]);
      var t := Apply(s, es[0]).screen;
      assert forall i :: 0 <= i < |es[1..]| ==> es[1..][i] == es[i + 1];
      RunKeepsNoNewlines(t, es[1..]);
    }
  }
}
