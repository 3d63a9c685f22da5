/** Well-formed UTF-8, which a proto3 string must be: table 3-7 of the Unicode Standard. */
module Utf8 {
  import opened Wire

  predicate In(b: Byte, lo: nat, hi: nat) {
    lo <= b <= hi
  }

  predicate Continues(bs: seq<Byte>, i: nat) {
    i < |bs| && In(bs[i], 0x80, 0xBF)
  }

  /** The number of bytes of the character bs starts with; zero if it starts with none. */
  function CharLen(bs: seq<Byte>): (n: nat)
    ensures n <= |bs|
  {
    if bs == [] then 0
    else if bs[0] <= 0x7F then 1
    else if !Continues(bs, 1) then 0
    else if In(bs[0], 0xC2, 0xDF) then 2
    else if !Continues(bs, 2) then 0
    else if In(bs[0], 0xE0, 0xEF) then
      if (bs[0] == 0xE0 && bs[1] < 0xA0) || (bs[0] == 0xED && bs[1] > 0x9F) then 0 else 3
    else if !Continues(bs, 3) then 0
    else if In(bs[0], 0xF0, 0xF4) then
      if (bs[0] == 0xF0 && bs[1] < 0x90) || (bs[0] == 0xF4 && bs[1] > 0x8F) then 0 else 4
    else 0
  }

  predicate ValidUtf8(bs: seq<Byte>) {
    bs == [] || (CharLen(bs) > 0 && ValidUtf8(bs[CharLen(bs)..]))
  }

  /* ---- The encodings of characters ---- */

  /** A Unicode scalar value: a code point that is not a surrogate. */
  type Scalar = c: nat | c < 0xD800 || 0xE000 <= c <= 0x10FFFF

  /** Table 3-6 of the Unicode Standard: the bits of the character, six to a byte after the first. */
  function EncodeChar(c: Scalar): seq<Byte> {
    if c < 0x80 then [c]
    else if c < 0x800 then [0xC0 + c / 64, 0x80 + c % 64]
    else if c < 0x10000 then [0xE0 + c / 4096, 0x80 + c / 64 % 64, 0x80 + c % 64]
    else [0xF0 + c / 262144, 0x80 + c / 4096 % 64, 0x80 + c / 64 % 64, 0x80 + c % 64]
  }

  function EncodeChars(cs: seq<Scalar>): seq<Byte> {
    if cs == [] then [] else EncodeChar(cs[0]) + EncodeChars(cs[1..])
  }

  /** The bytes are the encoding of some characters. */
  ghost predicate IsText(bs: seq<Byte>) {
    exists cs :: bs == EncodeChars(cs)
  }

  /** A character that is encoded is recognised, whatever follows it. */
  lemma CharEncoded(c: Scalar, rest: seq<Byte>)
    ensures CharLen(EncodeChar(c) + rest) == |EncodeChar(c)|
  {
    if c >= 0x10000 {
      CharEncoded4(c, rest);
    } else if c >= 0x800 {
      CharEncoded3(c, rest);
    } else {
      var bs := EncodeChar(c) + rest;
      assert bs[0] == EncodeChar(c)[0] && (c >= 0x80 ==> bs[1] == EncodeChar(c)[1]);
    }
  }

  lemma CharEncoded3(c: Scalar, rest: seq<Byte>)
    requires 0x800 <= c < 0x10000
    ensures CharLen(EncodeChar(c) + rest) == 3
  {
    var e := EncodeChar(c);
    var bs := e + rest;
    assert bs[0] == e[0] && bs[1] == e[1] && bs[2] == e[2];
  }

  lemma CharEncoded4(c: Scalar, rest: seq<Byte>)
    requires 0x10000 <= c
    ensures CharLen(EncodeChar(c) + rest) == 4
  {
    var e := EncodeChar(c);
    var bs := e + rest;
    assert bs[0] == e[0] && bs[1] == e[1] && bs[2] == e[2] && bs[3] == e[3];
  }

  /** The bits of a byte after the first. */
  function Low(b: Byte): nat {
    if b < 0x80 then 0 else b - 0x80
  }

  lemma Split64(a: nat, b: nat)
    requires b < 64
    ensures (a * 64 + b) / 64 == a && (a * 64 + b) % 64 == b
  {
  }

  lemma Shift64(n: nat)
    ensures n / 4096 == n / 64 / 64 && n / 262144 == n / 64 / 64 / 64
  {
  }

  /** The bytes of a character by the digits of its code point to the base 64. */
  lemma CharByDigits(c: Scalar, x: nat, y: nat, z: nat, w: nat)
    requires y < 64 && z < 64 && w < 64 && c == ((x * 64 + y) * 64 + z) * 64 + w
    ensures c % 64 == w && c / 64 % 64 == z && c / 4096 % 64 == y && c / 262144 == x
    ensures x == 0 ==> c / 4096 == y
    ensures x == 0 && y == 0 ==> c / 64 == z
  {
    Split64((x * 64 + y) * 64 + z, w);
    Split64(x * 64 + y, z);
    Split64(x, y);
    Shift64(c);
  }

  /** The bytes that are recognised as a character are the encoding of one. */
  lemma CharDecoded(bs: seq<Byte>) returns (c: Scalar)
    requires CharLen(bs) > 0
    ensures bs[..CharLen(bs)] == EncodeChar(c)
  {
    var n := CharLen(bs);
    if n == 1 {
      c := bs[0];
    } else if n == 2 {
      c := CharDecoded2(bs);
    } else if n == 3 {
      c := CharDecoded3(bs);
    } else {
      c := CharDecoded4(bs);
    }
  }

  lemma CharDecoded2(bs: seq<Byte>) returns (c: Scalar)
    requires CharLen(bs) == 2
    ensures bs[..2] == EncodeChar(c)
  {
    var first: nat := bs[0];
    var z, w := first - 0xC0, Low(bs[1]);
    c := z * 64 + w;
    CharByDigits(c, 0, 0, z, w);
  }

  lemma CharDecoded3(bs: seq<Byte>) returns (c: Scalar)
    requires CharLen(bs) == 3
    ensures bs[..3] == EncodeChar(c)
  {
    var first: nat := bs[0];
    var y, z, w := first - 0xE0, Low(bs[1]), Low(bs[2]);
    c := (y * 64 + z) * 64 + w;
    CharByDigits(c, 0, y, z, w);
  }

  lemma CharDecoded4(bs: seq<Byte>) returns (c: Scalar)
    requires CharLen(bs) == 4
    ensures bs[..4] == EncodeChar(c)
  {
    var first: nat := bs[0];
    var x, y, z, w := first - 0xF0, Low(bs[1]), Low(bs[2]), Low(bs[3]);
    c := ((x * 64 + y) * 64 + z) * 64 + w;
    CharByDigits(c, x, y, z, w);
  }

  lemma {:induction false} EncodedValid(cs: seq<Scalar>)
    ensures ValidUtf8(EncodeChars(cs))
  {
    if cs != [] {
      hide EncodeChar, CharLen;
      var rest := EncodeChars(cs[1..]);
      CharEncoded(cs[0], rest);
      CharNotEmpty(cs[0]);
      assert EncodeChars(cs)[|EncodeChar(cs[0])|..] == rest;
      EncodedValid(cs[1..]);
    }
  }

  lemma CharNotEmpty(c: Scalar)
    ensures EncodeChar(c) != []
  {
  }

  lemma {:induction false} ValidEncoded(bs: seq<Byte>) returns (cs: seq<Scalar>)
    requires ValidUtf8(bs)
    ensures bs == EncodeChars(cs)
    decreases |bs|
  {
    hide EncodeChar, CharLen, EncodeChars;
    NoChars();
    if bs == [] {
      cs := [];
    } else {
      var n := CharLen(bs);
      var c := CharDecoded(bs);
      var rest := ValidEncoded(bs[n..]);
      cs := [c] + rest;
      EncodeCons(c, rest);
      TakeDrop(bs, n);
    }
  }

  lemma NoChars()
    ensures EncodeChars([]) == []
  {
  }

  lemma TakeDrop(bs: seq<Byte>, n: nat)
    requires n <= |bs|
    ensures bs == bs[..n] + bs[n..]
  {
  }

  lemma EncodeCons(c: Scalar, cs: seq<Scalar>)
    ensures EncodeChars([c] + cs) == EncodeChar(c) + EncodeChars(cs)
  {
    assert ([c] + cs)[1..] == cs;
  }

  /** A string is UTF-8 exactly if it is the encoding of a sequence of Unicode scalar values. */
  lemma Utf8Exact(bs: seq<Byte>)
    ensures ValidUtf8(bs) <==> IsText(bs)
  {
    if ValidUtf8(bs) {
      var cs := ValidEncoded(bs);
    }
    if cs :| bs == EncodeChars(cs) {
      EncodedValid(cs);
    }
  }
}
