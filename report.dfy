/** The cursor position report `ESC [ row ; col R` (CPR, section 8.3.14 of
    ECMA-48) as `format!("\x1b[{};{}R", row, col)` renders it: decimal
    numbers in ASCII, without leading zeros. */
module Report {
  import opened Common

  const Esc: byte := 0x1B
  const LeftBracket: byte := 0x5B
  const Semicolon: byte := 0x3B
  const FinalR: byte := 0x52
  const Zero: byte := 0x30

  predicate IsDigit(b: byte)
  {
    Zero <= b <= Zero + 9
  }

  predicate AllDigits(s: seq<byte>)
  {
    forall i :: 0 <= i < |s| ==> IsDigit(s[i])
  }

  /** `n` written in decimal, as `{}` formats a `usize`. */
  function Decimal(n: nat): (s: seq<byte>)
    ensures |s| > 0 && AllDigits(s)
    // no leading zero, except for 0 itself
    ensures |s| > 1 ==> s[0] != Zero
    decreases n
  {
    if n < 10 then [Zero + n] else Decimal(n / 10) + [Zero + n % 10]
  }

  /** The number a string of decimal digits denotes. */
  function DecimalValue(s: seq<byte>): nat
    requires AllDigits(s)
  {
    if |s| == 0 then 0 else DecimalValue(s[..|s| - 1]) * 10 + (s[|s| - 1] - Zero)
  }

  lemma {:induction false} DecimalRoundTrip(n: nat)
    ensures DecimalValue(Decimal(n)) == n
    decreases n
  {
    if n >= 10 {
      var s := Decimal(n);
      assert s[..|s| - 1] == Decimal(n / 10);
      DecimalRoundTrip(n / 10);
    }
  }

  /** The bytes of the report for (`row`, `col`). */
  function CursorReport(row: nat, col: nat): (r: seq<byte>)
    ensures |r| >= 6 && r[0] == Esc && r[1] == LeftBracket && r[|r| - 1] == FinalR
  {
    [Esc, LeftBracket] + Decimal(row) + [Semicolon] + Decimal(col) + [FinalR]
  }

  /** Reads a report back: `ESC [`, digits, `;`, digits, `R`. */
  function ParseReport(r: seq<byte>): (p: Option<(nat, nat)>)
  {
    if |r| < 3 || r[0] != Esc || r[1] != LeftBracket || r[|r| - 1] != FinalR then None
    else
      var body := r[2..|r| - 1];
      var i := IndexOf(body, Semicolon);
      if i == |body| then None
      else
        var a, b := body[..i], body[i + 1..];
        if |a| == 0 || |b| == 0 || !AllDigits(a) || !AllDigits(b) then None
        else Some((DecimalValue(a), DecimalValue(b)))
  }

  /** A report reads back as the position it reports, so distinct positions
      give distinct reports. */
  lemma ReportRoundTrip(row: nat, col: nat)
    ensures ParseReport(CursorReport(row, col)) == Some((row, col))
  {
    var r := CursorReport(row, col);
    var a, b := Decimal(row), Decimal(col);
    var body := r[2..|r| - 1];
    assert body == a + [Semicolon] + b;
    assert body[|a|] == Semicolon;
    forall j | 0 <= j < |a| ensures body[j] != Semicolon {
      assert body[j] == a[j];
    }
    assert IndexOf(body, Semicolon) == |a|;
    assert body[..|a|] == a && body[|a| + 1..] == b;
    DecimalRoundTrip(row);
    DecimalRoundTrip(col);
  }
}
