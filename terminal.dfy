/** `TerminalInner` (src/terminal.rs): the screen buffer that the
    `vte::Perform` callbacks update in place. Each method does what its
    handler does, step by step, and its contract ties the new state to the
    matching function of `ScreenModel` applied to the old state. The PTY
    writer channel is the field `outbox`, to which `Write` appends. */
module Terminal {
  import opened Common
  import S = ScreenModel
  import Report

  class TerminalInner {
    var lines: seq<S.Line>
    var cursorX: nat
    var cursorY: nat
    var size: Option<S.Size>
    var dirty: bool
    var outbox: seq<seq<byte>>

    /** The state as a value. */
    function Model(): S.Screen
      reads this
    {
      S.Screen(lines, cursorX, cursorY, size, dirty, outbox)
    }

    /** `TerminalInner::new`: no lines, cursor at the origin, no size, clean. */
    constructor ()
      ensures Model() == S.Initial()
    {
      lines, cursorX, cursorY := [], 0, 0;
      size, dirty, outbox := None, false, [];
    }

    function IsDirty(): (d: bool)
      reads this
      ensures d <==> Model().dirty
    {
      dirty
    }

    method ClearDirty()
      modifies this
      ensures Model() == S.ClearDirty(old(Model()))
    {
      dirty := false;
    }

    /** The size assignment of `Terminal::resize`. */
    method Resize(cols: u16, rows: u16)
      modifies this
      ensures Model() == S.Resize(old(Model()), cols, rows)
    {
      size := Some(S.Size(cols, rows));
    }

    /** `write`: sends `data` to the PTY writer, a lone backspace as DEL. */
    method Write(data: seq<byte>)
      modifies this
      ensures Model() == S.Write(old(Model()), data)
    {
      if |data| == 0 {
        return;
      }
      var command := if data == [S.BS] then [S.DEL] else data;
      outbox := outbox + [command];
    }

    /** `move_cursor`. `ok` is false when indexing the cursor row panicked;
        the cursor fields have been assigned by then. */
    method MoveCursor(x: nat, y: nat) returns (ok: bool)
      modifies this
      ensures ok <==> S.MoveCursor(old(Model()), x, y).Running?
      ensures ok ==> Model() == S.MoveCursor(old(Model()), x, y).screen
      ensures !ok ==> Model() == old(Model()).(cursorX := x, cursorY := 0)
    {
      cursorX := x;
      cursorY := y;
      if cursorY >= |lines| {
        cursorY := SatSub(|lines|, 1);
      }
      if |lines| == 0 {
        // `self.lines[self.cursor_y]` panics
        return false;
      }
      if cursorX > |lines[cursorY]| {
        cursorX := |lines[cursorY]|;
      }
      ok := true;
    }

    /** `print` */
    method Print(c: char)
      modifies this
      ensures Model() == S.PrintChar(old(Model()), c)
    {
      ghost var row := S.RowAt(lines, cursorY);
      if cursorY >= |lines| {
        lines := lines + S.Blank(cursorY + 1 - |lines|);
      }
      var line := lines[cursorY];
      assert line == row;
      var charCount := |line|;
      if cursorX > charCount {
        line := line + S.Spaces(cursorX - charCount);
      }
      // after padding `cursorX <= |line|`, so the character at `cursorX`
      // exists whenever the cursor is not at the end of the line
      if cursorX == |line| {
        assert cursorX == |row| ==> line + [c] == row + S.Spaces(0) + [c];
        line := line + [c];
      } else {
        line := line[cursorX := c];
      }
      assert line == S.PutChar(row, cursorX, c);
      lines := lines[cursorY := line];
      cursorX := cursorX + 1;
      dirty := true;
    }

    /** `execute` */
    method Execute(b: byte)
      modifies this
      ensures Model() == S.ExecuteByte(old(Model()), b)
    {
      if b == S.LF {
        cursorX := 0;
        cursorY := cursorY + 1;
        if cursorY >= S.MaxLines {
          if |lines| > 0 {
            lines := lines[1..];
          }
          cursorY := S.MaxLines - 1;
        }
      } else if b == S.CR {
        cursorX := 0;
      } else if b == S.BS {
        if cursorX > 0 {
          cursorX := cursorX - 1;
        }
      }
      dirty := true;
    }

    /** `osc_dispatch` only logs its parameters. */
    method OscDispatch(params: seq<seq<byte>>, bellTerminated: bool)
      ensures Model() == old(Model())
    {
    }

    /** ED (`J`) for the given mode. */
    method EraseInDisplay(mode: nat)
      modifies this
      ensures Model() == S.EraseDisplay(old(Model()), mode)
    {
      if mode == 0 {
        lines := ClearFrom(lines, cursorY);
        if cursorY + 1 < |lines| {
          lines := lines[..cursorY + 1];
        }
        if cursorY < |lines| {
          lines := lines[cursorY := S.Take(lines[cursorY], cursorX)];
        }
        assert lines == S.EraseBelow(old(lines), cursorY);
      } else if mode == 1 {
        lines := ClearBefore(lines, cursorY);
        if cursorY < |lines| {
          lines := lines[cursorY := S.Skip(lines[cursorY], cursorX)];
        }
        assert lines == S.EraseAbove(old(lines), cursorY, cursorX);
      } else if mode == 2 || mode == 3 {
        lines := [];
        cursorX := 0;
        cursorY := 0;
      }
    }

    /** EL (`K`) for the given mode. */
    method EraseInLine(mode: nat)
      modifies this
      ensures Model() == S.EraseLine(old(Model()), mode)
    {
      if cursorY < |lines| {
        var line := lines[cursorY];
        if mode == 0 {
          line := S.Take(line, cursorX);
        } else if mode == 1 {
          line := S.Skip(line, cursorX);
        } else if mode == 2 {
          line := [];
        }
        lines := lines[cursorY := line];
      }
    }

    /** `csi_dispatch`. `ok` is false when a cursor move panicked. */
    method CsiDispatch(params: seq<seq<u16>>, final: char) returns (ok: bool)
      modifies this
      ensures ok <==> S.CsiDispatch(old(Model()), params, final).Running?
      ensures ok ==> Model() == S.CsiDispatch(old(Model()), params, final).screen
    {
      ok := true;
      if final == 'H' || final == 'f' {
        cursorY := SatSub(S.FirstSub(params, 0, 1), 1);
        cursorX := SatSub(S.FirstSub(params, 1, 1), 1);
      } else if final == 'J' {
        EraseInDisplay(S.FirstSub(params, 0, 0));
      } else if final == 'K' {
        EraseInLine(S.FirstSub(params, 0, 0));
      } else if final == 'n' {
        var row, col;
        if |params| == 0 || |params[0]| == 0 {
          row, col := cursorY + 1, cursorX + 1;
        } else {
          row := params[0][0];
          col := if |params[0]| > 1 then params[0][1] else 1;
        }
        Write(Report.CursorReport(row, col));
      } else if final == 'A' {
        ok := MoveCursor(cursorX, SatSub(cursorY, S.Count(params)));
      } else if final == 'B' {
        ok := MoveCursor(cursorX, cursorY + S.Count(params));
      } else if final == 'C' {
        ok := MoveCursor(cursorX + S.Count(params), cursorY);
      } else if final == 'D' {
        ok := MoveCursor(SatSub(cursorX, S.Count(params)), cursorY);
      }
      if !ok {
        return;
      }
      dirty := true;
    }

    /** One event from the tokenizer, handed to its callback. */
    method Dispatch(e: S.Event) returns (ok: bool)
      modifies this
      ensures ok <==> S.Apply(old(Model()), e).Running?
      ensures ok ==> Model() == S.Apply(old(Model()), e).screen
    {
      ok := true;
      match e
      case Print(c) => Print(c);
      case Execute(b) => Execute(b);
      case Csi(params, final) => ok := CsiDispatch(params, final);
      case Osc(params, bell) => OscDispatch(params, bell);
    }

    /** `feed_bytes`, given the events the tokenizer produces for the bytes.
        `ok` is false when a handler panicked; the remaining events are
        never handled. */
    method Feed(events: seq<S.Event>) returns (ok: bool)
      modifies this
      ensures ok <==> S.Run(old(Model()), events).Running?
      ensures ok ==> Model() == S.Run(old(Model()), events).screen
    {
      var i := 0;
      while i < |events|
        invariant i <= |events|
        invariant S.Run(old(Model()), events) == S.Run(Model(), events[i..])
      {
        assert events[i..][0] == events[i] && events[i..][1..] == events[i + 1..];
        ok := Dispatch(events[i]);
        if !ok {
          return;
        }
        i := i + 1;
      }
      ok := true;
    }
  }

  /** `for line in lines.iter_mut().skip(y) { line.clear() }` */
  method ClearFrom(ls: seq<S.Line>, y: nat) returns (r: seq<S.Line>)
    ensures |r| == |ls|
    ensures forall j :: 0 <= j < |r| ==> r[j] == (if j < y then ls[j] else [])
  {
    r := ls;
    var j := y;
    while j < |r|
      invariant y <= j && |r| == |ls|
      invariant forall k :: 0 <= k < |r| ==> r[k] == (if y <= k < j then [] else ls[k])
    {
      r := r[j := []];
      j := j + 1;
    }
  }

  /** `for line in lines.iter_mut().take(y) { line.clear() }` */
  method ClearBefore(ls: seq<S.Line>, y: nat) returns (r: seq<S.Line>)
    ensures |r| == |ls|
    ensures forall j :: 0 <= j < |r| ==> r[j] == (if j < y then [] else ls[j])
  {
    r := ls;
    var j := 0;
    while j < y && j < |r|
      invariant j <= |r| && j <= y && |r| == |ls|
      invariant forall k :: 0 <= k < |r| ==> r[k] == (if k < j then [] else ls[k])
    {
      r := r[j := []];
      j := j + 1;
    }
  }
}
