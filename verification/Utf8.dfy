/** Bytes and UTF-8 well-formedness as `String::from_utf8` checks it (Table 3-7 of the Unicode
    Standard), and the one fact the stream decoder relies on: a text may be cut in front of
    any ASCII byte without changing whether it is well formed. */
module Utf8 {

  newtype byte = n: int | 0 <= n < 256

  predicate InRange(s: seq<byte>, i: nat, lo: byte, hi: byte) {
    i < |s| && lo <= s[i] <= hi
  }

  /** Length of the well-formed character at the front of `s`, or 0 when there is none. */
  function CharLen(s: seq<byte>): (k: nat)
    ensures k <= |s| && k <= 4
  {
    if s == [] then 0
    else
      var b := s[0];
      if b <= 0x7F then 1
      else if 0xC2 <= b <= 0xDF then
        if InRange(s, 1, 0x80, 0xBF) then 2 else 0
      else if 0xE0 <= b <= 0xEF then
        if InRange(s, 1, if b == 0xE0 then 0xA0 else 0x80, if b == 0xED then 0x9F else 0xBF) &&
           InRange(s, 2, 0x80, 0xBF) then 3 else 0
      else if 0xF0 <= b <= 0xF4 then
        if InRange(s, 1, if b == 0xF0 then 0x90 else 0x80, if b == 0xF4 then 0x8F else 0xBF) &&
           InRange(s, 2, 0x80, 0xBF) && InRange(s, 3, 0x80, 0xBF) then 4 else 0
      else 0
  }

  predicate Valid(s: seq<byte>) {
    s == [] || (CharLen(s) > 0 && Valid(s[CharLen(s)..]))
  }

  /** A character that is complete in `a` is the same character in `a + b`, and an ASCII byte
      completes nothing. */
  lemma CharLenExtends(a: seq<byte>, b: seq<byte>)
    requires a != [] && (b == [] || b[0] < 0x80)
    ensures CharLen(a + b) == CharLen(a)
  {
    assert forall i :: 0 <= i < |a| ==> (a + b)[i] == a[i];
    assert b != [] ==> (a + b)[|a|] == b[0];
  }

  lemma {:induction false} ValidSplit(a: seq<byte>, b: seq<byte>)
    requires b == [] || b[0] < 0x80
    ensures Valid(a + b) <==> Valid(a) && Valid(b)
    decreases |a|
  {
    if a == [] {
      assert a + b == b;
    } else {
      CharLenExtends(a, b);
      var k := CharLen(a);
      if k > 0 {
        ValidSplit(a[k..], b);
        assert (a + b)[k..] == a[k..] + b;
      }
    }
  }

  lemma CharLenComplete(a: seq<byte>, b: seq<byte>)
    requires CharLen(a) > 0
    ensures CharLen(a + b) == CharLen(a)
  {
    assert forall i :: 0 <= i < |a| ==> (a + b)[i] == a[i];
  }

  /** Text that ends on a character boundary can be followed by anything. */
  lemma {:induction false} ValidPrefix(a: seq<byte>, b: seq<byte>)
    requires Valid(a)
    ensures Valid(a + b) <==> Valid(b)
    decreases |a|
  {
    if a == [] {
      assert a + b == b;
    } else {
      CharLenComplete(a, b);
      var k := CharLen(a);
      ValidPrefix(a[k..], b);
      assert (a + b)[k..] == a[k..] + b;
    }
  }

  lemma {:induction false} ValidAscii(s: seq<byte>)
    requires forall i :: 0 <= i < |s| ==> s[i] < 0x80
    ensures Valid(s)
  {
    if s != [] { ValidAscii(s[1..]); }
  }
}
