/** Small shared vocabulary: fixed-width integers, an option type and
    saturating arithmetic as Rust's `usize` uses it. */
module Common {

  /** An unsigned 8-bit value (Rust `u8`). */
  type byte = b: int | 0 <= b < 0x100

  /** An unsigned 16-bit value (Rust `u16`), the type of CSI parameters and of viewport sizes. */
  type u16 = x: int | 0 <= x < 0x1_0000

  datatype Option<+T> = None | Some(value: T)

  function Min(a: nat, b: nat): nat { if a <= b then a else b }

  function Max(a: nat, b: nat): nat { if a >= b then a else b }

  /** `a.saturating_sub(b)` on unsigned integers. */
  function SatSub(a: nat, b: nat): (r: nat)
    ensures r + b >= a && (a >= b ==> r + b == a) && r <= a
  {
    if a >= b then a - b else 0
  }

  /** Index of the first occurrence of `x` in `s`, or `|s|` when there is none. */
  function IndexOf<T(==)>(s: seq<T>, x: T): (i: nat)
    ensures i <= |s|
    ensures i < |s| ==> s[i] == x
    ensures forall j :: 0 <= j < i ==> s[j] != x
    ensures i == |s| <==> x !in s
  {
    if |s| == 0 then 0
    else if s[0] == x then 0
    else 1 + IndexOf(s[1..], x)
  }

  /** Concatenation of a sequence of sequences. */
  function Flatten<T>(ss: seq<seq<T>>): seq<T>
  {
    if |ss| == 0 then [] else ss[0] + Flatten(ss[1..])
  }

  lemma {:induction false} FlattenAppend<T>(a: seq<seq<T>>, b: seq<seq<T>>)
    ensures Flatten(a + b) == Flatten(a) + Flatten(b)
  {
    if |a| == 0 {
      assert a + b == b;
    } else {
      assert (a + b)[1..] == a[1..] + b;
      FlattenAppend(a[1..], b);
    }
  }
}
