/** UTF-8 as an encoding of Unicode scalar values (section 3 of RFC 3629): the byte check accepts
    exactly the encodings. */
module Scalars {
  import opened Utf8

  predicate IsScalar(c: nat) {
    c < 0xD800 || 0xE000 <= c <= 0x10_FFFF
  }

  function Tail(c: nat): byte {
    (0x80 + c % 64) as byte
  }

  function Encode(c: nat): (s: seq<byte>)
    requires IsScalar(c)
    ensures 1 <= |s| <= 4
  {
    if c < 0x80 then [c as byte]
    else if c < 0x800 then [(0xC0 + c / 64) as byte, Tail(c)]
    else if c < 0x1_0000 then [(0xE0 + c / 64 / 64) as byte, Tail(c / 64), Tail(c)]
    else [(0xF0 + c / 64 / 64 / 64) as byte, Tail(c / 64 / 64), Tail(c / 64), Tail(c)]
  }

  function EncodeAll(cs: seq<nat>): seq<byte>
    requires forall i :: 0 <= i < |cs| ==> IsScalar(cs[i])
  {
    if cs == [] then [] else Encode(cs[0]) + EncodeAll(cs[1..])
  }

  // ----- encodings pass the check

  lemma LeadOfThree(c: nat)
    requires 0x800 <= c < 0x1_0000 && IsScalar(c)
    ensures var a, b := c / 64 / 64, c / 64 % 64; a < 16 && (a == 0 ==> b >= 32) && (a == 13 ==> b < 32)
  {
    assert c / 64 == c / 64 / 64 * 64 + c / 64 % 64;
  }

  lemma LeadOfFour(c: nat)
    requires 0x1_0000 <= c <= 0x10_FFFF
    ensures var a, b := c / 64 / 64 / 64, c / 64 / 64 % 64; a <= 4 && (a == 0 ==> b >= 16) && (a == 4 ==> b < 16)
  {
    assert c / 64 / 64 == c / 64 / 64 / 64 * 64 + c / 64 / 64 % 64;
  }

  lemma EncodingPasses(c: nat, rest: seq<byte>)
    requires IsScalar(c)
    ensures CharLen(Encode(c) + rest) == |Encode(c)|
  {
    var s := Encode(c) + rest;
    assert forall i :: 0 <= i < |Encode(c)| ==> s[i] == Encode(c)[i];
    if 0x800 <= c < 0x1_0000 {
      LeadOfThree(c);
    } else if c >= 0x1_0000 {
      LeadOfFour(c);
    }
  }

  // ----- what passes the check is an encoding

  /** The six bits a continuation byte carries. */
  function Low(b: byte): nat {
    b as nat % 64
  }

  lemma TailOf(b: byte, high: nat)
    requires 0x80 <= b <= 0xBF
    ensures Tail(64 * high + Low(b)) == b && (64 * high + Low(b)) / 64 == high
  {
  }

  function Decoded(s: seq<byte>): nat
    requires CharLen(s) > 0
  {
    match CharLen(s)
    case 1 => s[0] as nat
    case 2 => 64 * (s[0] as nat - 0xC0) + Low(s[1])
    case 3 => 64 * (64 * (s[0] as nat - 0xE0) + Low(s[1])) + Low(s[2])
    case _ => 64 * (64 * (64 * (s[0] as nat - 0xF0) + Low(s[1])) + Low(s[2])) + Low(s[3])
  }

  lemma DecodedTwo(s: seq<byte>)
    requires CharLen(s) == 2
    ensures IsScalar(Decoded(s)) && Encode(Decoded(s)) == s[..2]
  {
    TailOf(s[1], s[0] as nat - 0xC0);
  }

  lemma DecodedThree(s: seq<byte>)
    requires CharLen(s) == 3
    ensures IsScalar(Decoded(s)) && Encode(Decoded(s)) == s[..3]
  {
    var high := s[0] as nat - 0xE0;
    TailOf(s[1], high);
    TailOf(s[2], 64 * high + Low(s[1]));
  }

  lemma DecodedFour(s: seq<byte>)
    requires CharLen(s) == 4
    ensures IsScalar(Decoded(s)) && Encode(Decoded(s)) == s[..4]
  {
    var high := s[0] as nat - 0xF0;
    TailOf(s[1], high);
    TailOf(s[2], 64 * high + Low(s[1]));
    TailOf(s[3], 64 * (64 * high + Low(s[1])) + Low(s[2]));
  }

  lemma DecodedIsEncoded(s: seq<byte>)
    requires CharLen(s) > 0
    ensures IsScalar(Decoded(s)) && Encode(Decoded(s)) == s[..CharLen(s)]
  {
    match CharLen(s) {
      case 1 =>
      case 2 => DecodedTwo(s);
      case 3 => DecodedThree(s);
      case _ => DecodedFour(s);
    }
  }

  // ----- whole texts

  ghost predicate Scalars(cs: seq<nat>) {
    forall i :: 0 <= i < |cs| ==> IsScalar(cs[i])
  }

  lemma {:induction false} EncodingIsValid(cs: seq<nat>)
    requires Scalars(cs)
    ensures Valid(EncodeAll(cs))
  {
    if cs != [] {
      hide Encode, CharLen;
      EncodingIsValid(cs[1..]);
      EncodingPasses(cs[0], EncodeAll(cs[1..]));
      assert EncodeAll(cs)[|Encode(cs[0])|..] == EncodeAll(cs[1..]);
    }
  }

  lemma EncodesOneMore(c: nat, rest: seq<nat>)
    requires IsScalar(c) && Scalars(rest)
    ensures Scalars([c] + rest) && EncodeAll([c] + rest) == Encode(c) + EncodeAll(rest)
  {
    hide Encode;
    assert ([c] + rest)[1..] == rest;
  }

  lemma NothingEncoded()
    ensures Scalars([]) && EncodeAll([]) == []
  {
  }

  lemma ValidStep(s: seq<byte>)
    requires Valid(s) && s != []
    ensures CharLen(s) > 0 && Valid(s[CharLen(s)..])
  {
  }

  lemma {:induction false} ValidIsEncoding(s: seq<byte>) returns (cs: seq<nat>)
    requires Valid(s)
    ensures Scalars(cs) && EncodeAll(cs) == s
    decreases |s|
  {
    hide *;
    NothingEncoded();
    cs := [];
    if s != [] {
      var k := CharLen(s);
      ValidStep(s);
      cs := ValidIsEncoding(s[k..]);
      DecodedIsEncoded(s);
      EncodesOneMore(Decoded(s), cs);
      cs := [Decoded(s)] + cs;
      assert s == s[..k] + s[k..];
    }
  }

  /** MAIN: bytes pass the check exactly when they are the encoding of some scalar values. */
  lemma ValidExactly(s: seq<byte>)
    ensures Valid(s) <==> exists cs :: Scalars(cs) && EncodeAll(cs) == s
  {
    if Valid(s) { var cs := ValidIsEncoding(s); }
    if cs :| Scalars(cs) && EncodeAll(cs) == s { EncodingIsValid(cs); }
  }
}
