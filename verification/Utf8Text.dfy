/** UTF-8 as section 3 of RFC 3629 encodes it, against the test on bytes. */
module Utf8Text {
  import opened WireBytes

  /** A Unicode scalar value: a code point that is no surrogate. */
  predicate Scalar(c: int) { 0 <= c < 0xD800 || 0xE000 <= c <= 0x10FFFF }

  function Encode(c: int): (b: Bytes)
    requires Scalar(c)
    ensures 1 <= |b| <= 4
  {
    if c < 0x80 then [c]
    else if c < 0x800 then [0xC0 + c / 0x40, 0x80 + c % 0x40]
    else if c < 0x10000 then [0xE0 + c / 0x40 / 0x40, 0x80 + c / 0x40 % 0x40, 0x80 + c % 0x40]
    else [0xF0 + c / 0x40 / 0x40 / 0x40, 0x80 + c / 0x40 / 0x40 % 0x40, 0x80 + c / 0x40 % 0x40, 0x80 + c % 0x40]
  }

  predicate Scalars(cs: seq<int>) { forall i | 0 <= i < |cs| :: Scalar(cs[i]) }

  function EncodeAll(cs: seq<int>): (b: Bytes)
    requires Scalars(cs)
  {
    if cs == [] then [] else Encode(cs[0]) + EncodeAll(cs[1..])
  }

  lemma EncodedFirst(c: int, rest: Bytes)
    requires Scalar(c)
    ensures Utf8SequenceLength(Encode(c) + rest) == |Encode(c)|
  {
  }

  /** The scalar value the sequence at the front stands for. */
  lemma FirstScalar(s: Bytes) returns (c: int)
    requires s != [] && Utf8SequenceLength(s) > 0
    ensures Scalar(c) && s[..Utf8SequenceLength(s)] == Encode(c)
  {
    var n := Utf8SequenceLength(s);
    if n == 1 {
      c := s[0];
    } else if n == 2 {
      c := Six(s[0] - 0xC0, s[1]);
    } else if n == 3 {
      var high := Six(s[0] - 0xE0, s[1]);
      c := Six(high, s[2]);
    } else {
      var high := Six(s[0] - 0xF0, s[1]);
      var middle := Six(high, s[2]);
      c := Six(middle, s[3]);
    }
  }

  /** Six more bits. */
  lemma Six(high: nat, b: byte) returns (c: nat)
    requires 0x80 <= b <= 0xBF
    ensures c / 0x40 == high && 0x80 + c % 0x40 == b && 0x40 * high <= c < 0x40 * high + 0x40
  {
    var low: int := b - 0x80;
    c := 0x40 * high + low;
  }

  ghost predicate EncodedAs(s: Bytes, cs: seq<int>) { Scalars(cs) && s == EncodeAll(cs) }

  /** Bytes are UTF-8 exactly when they encode some scalar values. */
  lemma Utf8Exactly(s: Bytes)
    ensures Utf8(s) <==> exists cs :: EncodedAs(s, cs)
  {
    hide Utf8;
    if Utf8(s) {
      var cs := Utf8Encodes(s);
    }
    if cs :| EncodedAs(s, cs) {
      EncodedIsUtf8(cs);
    }
  }

  lemma {:induction false} Utf8Encodes(s: Bytes) returns (cs: seq<int>)
    requires Utf8(s)
    ensures EncodedAs(s, cs)
    decreases |s|
  {
    hide Utf8SequenceLength, Encode;
    if s == [] {
      cs := [];
    } else {
      var n := Utf8SequenceLength(s);
      var c := FirstScalar(s);
      var more := Utf8Encodes(s[n..]);
      cs := [c] + more;
      assert cs[1..] == more && s == s[..n] + s[n..];
    }
  }

  lemma {:induction false} EncodedIsUtf8(cs: seq<int>)
    requires Scalars(cs)
    ensures Utf8(EncodeAll(cs))
  {
    if cs != [] {
      EncodedIsUtf8(cs[1..]);
      var rest := EncodeAll(cs[1..]);
      EncodedFirst(cs[0], rest);
      assert (Encode(cs[0]) + rest)[|Encode(cs[0])|..] == rest;
    }
  }
}
