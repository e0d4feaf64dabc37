/** Well-formed UTF-8 as defined by the grammar of section 4 of RFC 3629,
    and the length of the longest well-formed prefix of a byte string
    (what Rust's `Utf8Error::valid_up_to` reports). */
module Utf8 {
  import opened Common

  /** Number of bytes of a character whose first byte is `b`, or 0 when no
      well-formed character starts with `b` (0x80-0xC1 and 0xF5-0xFF). */
  function Width(b: byte): (w: nat)
    ensures w <= 4
    ensures w == 0 <==> 0x80 <= b <= 0xC1 || 0xF5 <= b
    ensures w == 1 <==> b <= 0x7F
  {
    if b <= 0x7F then 1
    else if 0xC2 <= b <= 0xDF then 2
    else if 0xE0 <= b <= 0xEF then 3
    else if 0xF0 <= b <= 0xF4 then 4
    else 0
  }

  /** Range allowed for the byte after lead byte `b`: RFC 3629 narrows it
      after E0, ED, F0 and F4 to exclude overlong forms, surrogates and
      values above U+10FFFF. */
  function SecondLow(b: byte): byte
  {
    if b == 0xE0 then 0xA0 else if b == 0xF0 then 0x90 else 0x80
  }

  function SecondHigh(b: byte): byte
  {
    if b == 0xED then 0x9F else if b == 0xF4 then 0x8F else 0xBF
  }

  /** UTF8-tail = %x80-BF */
  predicate IsTail(b: byte)
  {
    0x80 <= b <= 0xBF
  }

  /** Length of the complete, well-formed character `s` starts with, or 0
      when `s` does not start with one. */
  function CharLen(s: seq<byte>): (n: nat)
    ensures n <= |s| && n <= 4
    ensures n > 0 ==> n == Width(s[0])
  {
    if |s| == 0 then 0
    else
      var w := Width(s[0]);
      if w == 0 || |s| < w then 0
      else if w == 1 then 1
      else if SecondLow(s[0]) <= s[1] <= SecondHigh(s[0]) && (w < 3 || IsTail(s[2])) && (w < 4 || IsTail(s[3])) then w
      else 0
  }

  /** UTF8-octets = *( UTF8-char ) */
  predicate Valid(s: seq<byte>)
    decreases |s|
  {
    |s| == 0 || (CharLen(s) > 0 && Valid(s[CharLen(s)..]))
  }

  /** Length of the longest prefix of `s` that is well-formed UTF-8. */
  function ValidUpTo(s: seq<byte>): (k: nat)
    ensures k <= |s|
    decreases |s|
  {
    if CharLen(s) == 0 then 0 else CharLen(s) + ValidUpTo(s[CharLen(s)..])
  }

  /** Whether a character is complete depends only on its own bytes:
      extending a string does not change the character it starts with. */
  lemma CharLenPrefix(s: seq<byte>, t: seq<byte>)
    requires |t| <= |s| && t == s[..|t|]
    ensures CharLen(t) > 0 ==> CharLen(s) == CharLen(t)
    ensures CharLen(s) <= |t| ==> CharLen(t) == CharLen(s)
  {
    if |t| > 0 {
      assert t[0] == s[0];
    }
  }

  /** The prefix `ValidUpTo` measures is well-formed. */
  lemma {:induction false} ValidUpToIsValid(s: seq<byte>)
    ensures Valid(s[..ValidUpTo(s)])
    decreases |s|
  {
    var n := CharLen(s);
    if n > 0 {
      var k := ValidUpTo(s[n..]);
      ValidUpToIsValid(s[n..]);
      var p := s[..n + k];
      CharLenPrefix(s, p);
      assert p[n..] == s[n..][..k];
    }
  }

  /** No longer prefix is well-formed. */
  lemma {:induction false} ValidUpToIsLongest(s: seq<byte>, k: nat)
    requires ValidUpTo(s) < k <= |s|
    ensures !Valid(s[..k])
    decreases |s|
  {
    var p := s[..k];
    if Valid(p) {
      CharLenPrefix(s, p);
      var n := CharLen(s);
      assert n == CharLen(p) > 0;
      assert p[n..] == s[n..][..k - n];
      ValidUpToIsLongest(s[n..], k - n);
    }
  }

  /** `from_utf8` succeeds exactly when the longest valid prefix is everything. */
  lemma ValidIffValidUpToAll(s: seq<byte>)
    ensures Valid(s) <==> ValidUpTo(s) == |s|
  {
    ValidUpToIsValid(s);
    assert s[..|s|] == s;
    if ValidUpTo(s) < |s| {
      ValidUpToIsLongest(s, |s|);
    }
  }

  /** Well-formed strings are closed under concatenation. */
  lemma {:induction false} ValidAppend(a: seq<byte>, b: seq<byte>)
    requires Valid(a) && Valid(b)
    ensures Valid(a + b)
    decreases |a|
  {
    if |a| == 0 {
      assert a + b == b;
    } else {
      var n := CharLen(a);
      CharLenPrefix(a + b, a);
      assert (a + b)[n..] == a[n..] + b;
      ValidAppend(a[n..], b);
    }
  }

  /** Character boundaries are unambiguous: removing a well-formed prefix
      from a well-formed string leaves a well-formed string. */
  lemma {:induction false} ValidCancel(p: seq<byte>, q: seq<byte>)
    requires Valid(p) && Valid(p + q)
    ensures Valid(q)
    decreases |p|
  {
    if |p| == 0 {
      assert p + q == q;
    } else {
      var n := CharLen(p);
      CharLenPrefix(p + q, p);
      assert (p + q)[n..] == p[n..] + q;
      ValidCancel(p[n..], q);
    }
  }

  /** A string whose first byte cannot start any character has no
      non-empty well-formed prefix, however it is extended. */
  lemma BadLeadHasNoValidPrefix(s: seq<byte>)
    requires |s| > 0 && Width(s[0]) == 0
    ensures ValidUpTo(s) == 0
  {
  }
}
