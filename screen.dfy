/** The state of `TerminalInner` (src/terminal.rs) as a value, and what each
    `vte::Perform` callback does to it. The `Terminal` module implements
    these step by step on a class; the lemmas in `ScreenProperties` are
    stated about these functions. */
module ScreenModel {
  import opened Common
  import Text
  import Report

  /** `TerminalInner::MAX_LINES`: the line feed handler never lets the
      cursor row reach it. */
  const MaxLines: nat := 1000

  const LF: byte := 0x0A
  const CR: byte := 0x0D
  const BS: byte := 0x08
  const DEL: byte := 0x7F

  /** A line, indexed by character as `chars()` indexes a `String`. */
  type Line = seq<char>

  /** The viewport size in character cells. */
  datatype Size = Size(cols: u16, rows: u16)

  /** The fields of `TerminalInner` that the handlers read and write, and
      `outbox`, the byte strings sent to the PTY writer so far in order. */
  datatype Screen = Screen(
    lines: seq<Line>,
    cursorX: nat,
    cursorY: nat,
    size: Option<Size>,
    dirty: bool,
    outbox: seq<seq<byte>>)

  /** What the escape-sequence tokenizer hands to the handlers: a printable
      character, a C0 control byte, a control sequence with its parameter
      groups and final character, or an operating system command. */
  datatype Event =
    | Print(c: char)
    | Execute(b: byte)
    | Csi(params: seq<seq<u16>>, final: char)
    | Osc(oscParams: seq<seq<byte>>, bellTerminated: bool)

  /** The state after a handler, or `Poisoned` when the handler panicked
      while the terminal's mutex was held: every later `lock().expect(..)`
      panics too, so nothing further happens. */
  datatype Outcome = Running(screen: Screen) | Poisoned

  /** `TerminalInner::new`: a fresh engine shows nothing, needs no redraw
      and has sent nothing. */
  function Initial(): (s: Screen)
    ensures AsText(s) == [] && !s.dirty && s.outbox == []
  {
    Screen([], 0, 0, None, false, [])
  }

  function Spaces(n: nat): (r: Line)
    ensures |r| == n && forall i :: 0 <= i < n ==> r[i] == ' '
  {
    seq(n, i => ' ')
  }

  function Blank(n: nat): (r: seq<Line>)
    ensures |r| == n && forall i :: 0 <= i < n ==> r[i] == []
  {
    seq(n, i => [])
  }

  /** Row `y`, or the empty row that `resize` would create there. */
  function RowAt(lines: seq<Line>, y: nat): Line
  {
    if y < |lines| then lines[y] else []
  }

  /** `chars().take(n)` */
  function Take<T>(l: seq<T>, n: nat): (r: seq<T>)
    ensures |r| == Min(n, |l|) && r == l[..|r|]
  {
    l[..Min(n, |l|)]
  }

  /** `chars().skip(n)` on a row, `skip(n)` on the lines. */
  function Skip<T>(l: seq<T>, n: nat): (r: seq<T>)
    ensures |r| == SatSub(|l|, n) && r == l[|l| - |r|..]
  {
    l[Min(n, |l|)..]
  }

  /** `VecDeque::pop_front`, which does nothing on an empty deque. */
  function DropFront(lines: seq<Line>): (r: seq<Line>)
    ensures |r| == SatSub(|lines|, 1) && r == lines[|lines| - |r|..]
  {
    if |lines| == 0 then [] else lines[1..]
  }

  /** Row after `print` writes `c` at column `x`: a row too short is padded
      with spaces up to `x` and `c` is appended; otherwise the character at
      `x` is replaced. */
  function PutChar(row: Line, x: nat, c: char): (r: Line)
    ensures |r| == Max(|row|, x + 1)
    ensures r[x] == c
    ensures forall i :: 0 <= i < |r| && i != x ==> r[i] == (if i < |row| then row[i] else ' ')
  {
    if x < |row| then row[x := c] else row + Spaces(x - |row|) + [c]
  }

  /** `print`. */
  function PrintChar(s: Screen, c: char): (t: Screen)
    // the buffer grows to hold the cursor row, and only `print` grows it
    ensures |t.lines| == Max(|s.lines|, s.cursorY + 1)
    ensures t.lines[s.cursorY] == PutChar(RowAt(s.lines, s.cursorY), s.cursorX, c)
    ensures forall i :: 0 <= i < |t.lines| && i != s.cursorY ==> t.lines[i] == RowAt(s.lines, i)
    ensures t.cursorX == s.cursorX + 1 && t.cursorY == s.cursorY
    ensures t.dirty && t.size == s.size && t.outbox == s.outbox
  {
    var grown := if s.cursorY < |s.lines| then s.lines else s.lines + Blank(s.cursorY + 1 - |s.lines|);
    s.(lines := grown[s.cursorY := PutChar(grown[s.cursorY], s.cursorX, c)],
       cursorX := s.cursorX + 1, dirty := true)
  }

  /** `execute`. */
  function ExecuteByte(s: Screen, b: byte): (t: Screen)
    // a line feed goes to the start of the next row; reaching MAX_LINES
    // drops the oldest line and keeps the cursor on the last allowed row
    ensures b == LF ==>
      t.cursorX == 0 && t.cursorY == Min(s.cursorY + 1, MaxLines - 1) &&
      t.lines == (if s.cursorY + 1 >= MaxLines then DropFront(s.lines) else s.lines)
    ensures b == CR ==> t.lines == s.lines && t.cursorX == 0 && t.cursorY == s.cursorY
    ensures b == BS ==> t.lines == s.lines && t.cursorX == SatSub(s.cursorX, 1) && t.cursorY == s.cursorY
    ensures b != LF && b != CR && b != BS ==> t == s.(dirty := true)
    ensures t.dirty && t.size == s.size && t.outbox == s.outbox
  {
    var s' := s.(dirty := true);
    if b == LF then
      if s.cursorY + 1 >= MaxLines then s'.(lines := DropFront(s.lines), cursorX := 0, cursorY := MaxLines - 1)
      else s'.(cursorX := 0, cursorY := s.cursorY + 1)
    else if b == CR then s'.(cursorX := 0)
    else if b == BS then s'.(cursorX := if s.cursorX > 0 then s.cursorX - 1 else 0)
    else s'
  }

  /** The bytes `write` sends for `data`: nothing for empty data, DEL for a
      lone backspace, anything else as it is. */
  function Write(s: Screen, data: seq<byte>): (t: Screen)
    ensures |data| == 0 ==> t == s
    ensures data == [BS] ==> t == s.(outbox := s.outbox + [[DEL]])
    ensures |data| > 0 && data != [BS] ==> t == s.(outbox := s.outbox + [data])
  {
    if |data| == 0 then s
    else s.(outbox := s.outbox + [if data == [BS] then [DEL] else data])
  }

  /** `move_cursor`: go to (`x`, `y`), then pull the row back onto the last
      line and the column back onto the end of that row. Indexing the row
      panics when there are no lines. */
  function MoveCursor(s: Screen, x: nat, y: nat): (o: Outcome)
    ensures o.Poisoned? <==> |s.lines| == 0
    ensures o.Running? ==>
      var cy := Min(y, |s.lines| - 1);
      o.screen == s.(cursorX := Min(x, |s.lines[cy]|), cursorY := cy)
  {
    var cy := if y >= |s.lines| then SatSub(|s.lines|, 1) else y;
    if |s.lines| == 0 then Poisoned
    else
      var cx := if x > |s.lines[cy]| then |s.lines[cy]| else x;
      Running(s.(cursorX := cx, cursorY := cy))
  }

  /** `params.get(i).and_then(|p| p.first()).copied().unwrap_or(d)` */
  function FirstSub(params: seq<seq<u16>>, i: nat, d: nat): (v: nat)
    ensures i < |params| && |params[i]| > 0 ==> v == params[i][0]
    ensures !(i < |params| && |params[i]| > 0) ==> v == d
  {
    if i < |params| && |params[i]| > 0 then params[i][0] else d
  }

  /** The repeat count of CUU, CUD, CUF and CUB: at least 1. */
  function Count(params: seq<seq<u16>>): (n: nat)
    ensures n >= 1 && (FirstSub(params, 0, 1) >= 1 ==> n == FirstSub(params, 0, 1))
    ensures FirstSub(params, 0, 1) == 0 ==> n == 1
  {
    Max(1, FirstSub(params, 0, 1))
  }

  /** CUP (`H`, `f`): rows and columns count from 1 and are not clamped. */
  function CursorPosition(s: Screen, params: seq<seq<u16>>): (t: Screen)
    ensures t.lines == s.lines && t.size == s.size && t.outbox == s.outbox && t.dirty == s.dirty
    ensures t.cursorY + 1 >= FirstSub(params, 0, 1) && t.cursorY <= FirstSub(params, 0, 1)
    ensures t.cursorX + 1 >= FirstSub(params, 1, 1) && t.cursorX <= FirstSub(params, 1, 1)
    ensures FirstSub(params, 0, 1) > 0 ==> t.cursorY == FirstSub(params, 0, 1) - 1
    ensures FirstSub(params, 1, 1) > 0 ==> t.cursorX == FirstSub(params, 1, 1) - 1
  {
    s.(cursorY := SatSub(FirstSub(params, 0, 1), 1), cursorX := SatSub(FirstSub(params, 1, 1), 1))
  }

  /** ED mode 0: every row from the cursor row on is cleared and the rows
      after it are removed, so the cursor row (if any) is left empty. */
  function EraseBelow(lines: seq<Line>, y: nat): (r: seq<Line>)
    ensures |r| == Min(|lines|, y + 1)
    ensures forall i :: 0 <= i < |r| && i != y ==> r[i] == lines[i]
    ensures y < |lines| ==> r[y] == []
  {
    if y < |lines| then lines[..y] + [[]] else lines
  }

  /** ED mode 1: every row before the cursor row is cleared and the cursor
      row loses its first `x` characters. */
  function EraseAbove(lines: seq<Line>, y: nat, x: nat): (r: seq<Line>)
    ensures |r| == |lines|
    ensures forall i :: 0 <= i < |r| && i < y ==> r[i] == []
    ensures y < |lines| ==> r[y] == Skip(lines[y], x)
    ensures forall i :: y < i < |r| ==> r[i] == lines[i]
  {
    if y < |lines| then Blank(y) + [Skip(lines[y], x)] + lines[y + 1..] else Blank(|lines|)
  }

  /** ED (`J`). Modes other than 0, 1, 2 and 3 do nothing. */
  function EraseDisplay(s: Screen, mode: nat): (t: Screen)
    ensures t.size == s.size && t.outbox == s.outbox && t.dirty == s.dirty
    ensures mode == 0 ==> t == s.(lines := EraseBelow(s.lines, s.cursorY))
    ensures mode == 1 ==> t == s.(lines := EraseAbove(s.lines, s.cursorY, s.cursorX))
    ensures mode == 2 || mode == 3 ==> t.lines == [] && t.cursorX == 0 && t.cursorY == 0
    ensures mode > 3 ==> t == s
  {
    if mode == 0 then s.(lines := EraseBelow(s.lines, s.cursorY))
    else if mode == 1 then s.(lines := EraseAbove(s.lines, s.cursorY, s.cursorX))
    else if mode == 2 || mode == 3 then s.(lines := [], cursorX := 0, cursorY := 0)
    else s
  }

  /** The cursor row after EL (`K`) in `mode`. */
  function ErasedRow(row: Line, x: nat, mode: nat): (r: Line)
    ensures mode == 0 ==> r == Take(row, x)
    ensures mode == 1 ==> r == Skip(row, x)
    ensures mode == 2 ==> r == []
    ensures mode > 2 ==> r == row
  {
    if mode == 0 then Take(row, x) else if mode == 1 then Skip(row, x) else if mode == 2 then [] else row
  }

  /** EL (`K`): only the cursor row changes, and only when it exists. */
  function EraseLine(s: Screen, mode: nat): (t: Screen)
    ensures |t.lines| == |s.lines|
    ensures s.cursorY < |s.lines| ==> t.lines[s.cursorY] == ErasedRow(s.lines[s.cursorY], s.cursorX, mode)
    ensures forall i :: 0 <= i < |t.lines| && i != s.cursorY ==> t.lines[i] == s.lines[i]
    ensures t.(lines := s.lines) == s
  {
    if s.cursorY < |s.lines| then s.(lines := s.lines[s.cursorY := ErasedRow(s.lines[s.cursorY], s.cursorX, mode)])
    else s
  }

  /** The position DSR (`n`) reports: the cursor, one-based, when there are
      no parameters or the first group is empty; otherwise the first and
      second subparameters of the first group, the second defaulting to 1. */
  function ReportedPosition(s: Screen, params: seq<seq<u16>>): (p: (nat, nat))
    ensures (|params| == 0 || |params[0]| == 0) ==> p == (s.cursorY + 1, s.cursorX + 1)
    ensures |params| > 0 && |params[0]| > 1 ==> p == (params[0][0] as nat, params[0][1] as nat)
    ensures |params| > 0 && |params[0]| == 1 ==> p == (params[0][0] as nat, 1)
  {
    if |params| == 0 || |params[0]| == 0 then (s.cursorY + 1, s.cursorX + 1)
    else (params[0][0], if |params[0]| > 1 then params[0][1] else 1)
  }

  /** `csi_dispatch`: every control sequence, handled or not, sets the
      dirty flag, unless the cursor move panicked. */
  function CsiDispatch(s: Screen, params: seq<seq<u16>>, final: char): (o: Outcome)
    ensures o.Poisoned? <==> (final == 'A' || final == 'B' || final == 'C' || final == 'D') && |s.lines| == 0
    ensures o.Running? ==> o.screen.dirty
  {
    var handled :=
      if final == 'H' || final == 'f' then Running(CursorPosition(s, params))
      else if final == 'J' then Running(EraseDisplay(s, FirstSub(params, 0, 0)))
      else if final == 'K' then Running(EraseLine(s, FirstSub(params, 0, 0)))
      else if final == 'n' then
        var p := ReportedPosition(s, params);
        Running(Write(s, Report.CursorReport(p.0, p.1)))
      else if final == 'A' then MoveCursor(s, s.cursorX, SatSub(s.cursorY, Count(params)))
      else if final == 'B' then MoveCursor(s, s.cursorX, s.cursorY + Count(params))
      else if final == 'C' then MoveCursor(s, s.cursorX + Count(params), s.cursorY)
      else if final == 'D' then MoveCursor(s, SatSub(s.cursorX, Count(params)), s.cursorY)
      else Running(s);
    if handled.Running? then Running(handled.screen.(dirty := true)) else Poisoned
  }

  /** CUU, CUD, CUF or CUB: the control sequences that call `move_cursor`. */
  predicate IsCursorMove(e: Event)
  {
    e.Csi? && (e.final == 'A' || e.final == 'B' || e.final == 'C' || e.final == 'D')
  }

  /** One event handed to its handler. `osc_dispatch` only logs. The only
      handler that panics is a cursor move on a buffer with no lines. */
  function Apply(s: Screen, e: Event): (o: Outcome)
    ensures o.Poisoned? <==> IsCursorMove(e) && |s.lines| == 0
  {
    match e
    case Print(c) => Running(PrintChar(s, c))
    case Execute(b) => Running(ExecuteByte(s, b))
    case Csi(params, final) => CsiDispatch(s, params, final)
    case Osc(_, _) => Running(s)
  }

  /** A sequence of events handled in order; a panic ends everything. */
  function Run(s: Screen, es: seq<Event>): Outcome
    decreases |es|
  {
    if |es| == 0 then Running(s)
    else
      match Apply(s, es[0])
      case Poisoned => Poisoned
      case Running(t) => Run(t, es[1..])
  }

  /** The size assignment of `Terminal::resize`: only the size changes. */
  function Resize(s: Screen, cols: u16, rows: u16): (t: Screen)
    ensures t.size == Some(Size(cols, rows)) && t.(size := s.size) == s
  {
    s.(size := Some(Size(cols, rows)))
  }

  /** `clear_dirty`: only the dirty flag changes, and it is cleared. */
  function ClearDirty(s: Screen): (t: Screen)
    ensures !t.dirty && t.(dirty := s.dirty) == s
  {
    s.(dirty := false)
  }

  /** The number of rows `as_text` shows: the viewport height, or 0. */
  function Rows(size: Option<Size>): nat
  {
    match size
    case None => 0
    case Some(sz) => sz.rows
  }

  /** The lines `as_text` shows: the last `min(len, rows)` lines, in order. */
  function Visible(s: Screen): (v: seq<Line>)
    ensures |v| == Min(|s.lines|, Rows(s.size)) && v == s.lines[|s.lines| - |v|..]
  {
    s.lines[SatSub(|s.lines|, Rows(s.size))..]
  }

  /** `as_text`: the visible lines joined with newlines; nothing before the
      first `resize` or when there are no lines. */
  function AsText(s: Screen): (t: seq<char>)
    ensures s.size.None? || |s.lines| == 0 ==> t == []
    ensures |Visible(s)| > 0 ==> |t| >= |Visible(s)[0]| && t[..|Visible(s)[0]|] == Visible(s)[0]
  {
    Text.Join(Visible(s))
  }
}
