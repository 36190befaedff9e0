/**
 What text on the wire may be: the UTF-8 encoding of Unicode scalar values (section 3 of
 RFC 3629) and nothing else.
 */
module Utf8 {
  import opened Types
  import opened Wire

  /** A code point that is not a surrogate. */
  predicate IsScalar(c: int) { 0 <= c < 0xD800 || 0xE000 <= c < 0x11_0000 }

  type Scalar = c: int | 0 <= c < 0xD800 || 0xE000 <= c < 0x11_0000

  /** A byte that continues a character: six bits. */
  function Low(x: nat): byte
    requires x < 0x40
  {
    (0x80 + x) as byte
  }

  function Two(a: nat, b: nat): seq<byte>
    requires a < 0x20 && b < 0x40
  {
    [(0xC0 + a) as byte, Low(b)]
  }

  function Three(a: nat, b: nat, c: nat): seq<byte>
    requires a < 0x10 && b < 0x40 && c < 0x40
  {
    [(0xE0 + a) as byte, Low(b), Low(c)]
  }

  function Four(a: nat, b: nat, c: nat, d: nat): seq<byte>
    requires a < 0x8 && b < 0x40 && c < 0x40 && d < 0x40
  {
    [(0xF0 + a) as byte, Low(b), Low(c), Low(d)]
  }

  /** One to four bytes, six bits in each but the first. */
  function Encoded(c: Scalar): (s: seq<byte>)
    ensures 1 <= |s| <= 4
  {
    if c < 0x80 then [c as byte]
    else if c < 0x800 then Two(c / 0x40, c % 0x40)
    else if c < 0x1_0000 then Split(c); Three(c / 0x40 / 0x40, c / 0x40 % 0x40, c % 0x40)
    else Split(c); Four(c / 0x40 / 0x40 / 0x40, c / 0x40 / 0x40 % 0x40, c / 0x40 % 0x40, c % 0x40)
  }

  lemma Split(c: nat)
    ensures c == c / 0x40 * 0x40 + c % 0x40
    ensures c < 0x1_0000 ==> c / 0x40 / 0x40 < 0x10
    ensures c < 0x11_0000 ==> c / 0x40 / 0x40 / 0x40 < 0x8
  {
  }

  lemma Digits(x: nat, y: nat)
    requires y < 0x40
    ensures (x * 0x40 + y) / 0x40 == x && (x * 0x40 + y) % 0x40 == y
  {
  }

  function EncodedAll(cs: seq<Scalar>): seq<byte> {
    if cs == [] then [] else Encoded(cs[0]) + EncodedAll(cs[1..])
  }

  lemma EncodedReads(c: Scalar, rest: seq<byte>)
    ensures CharLen(Encoded(c) + rest) == |Encoded(c)|
  {
    var e, s := Encoded(c), Encoded(c) + rest;
    assert forall i :: 0 <= i < |e| ==> s[i] == e[i];
    Split(c);
    Split(c / 0x40);
    Split(c / 0x40 / 0x40);
  }

  lemma TwoIs(a: nat, b: nat)
    requires 2 <= a < 0x20 && b < 0x40
    ensures IsScalar(a * 0x40 + b) && Encoded(a * 0x40 + b) == Two(a, b)
  {
    Digits(a, b);
  }

  lemma ThreeIs(a: nat, b: nat, c: nat)
    requires a < 0x10 && b < 0x40 && c < 0x40 && (a == 0 ==> b >= 0x20) && (a == 0xD ==> b < 0x20)
    ensures var n := (a * 0x40 + b) * 0x40 + c; IsScalar(n) && Encoded(n) == Three(a, b, c)
  {
    Digits(a * 0x40 + b, c);
    Digits(a, b);
  }

  lemma FourIs(a: nat, b: nat, c: nat, d: nat)
    requires a <= 4 && b < 0x40 && c < 0x40 && d < 0x40 && (a == 0 ==> b >= 0x10) && (a == 4 ==> b < 0x10)
    ensures var n := ((a * 0x40 + b) * 0x40 + c) * 0x40 + d; IsScalar(n) && Encoded(n) == Four(a, b, c, d)
  {
    Digits((a * 0x40 + b) * 0x40 + c, d);
    Digits(a * 0x40 + b, c);
    Digits(a, b);
  }

  /** The code point that the bytes at the front encode. */
  lemma ReadIsEncoded(s: seq<byte>) returns (c: Scalar)
    requires CharLen(s) > 0
    ensures s[..CharLen(s)] == Encoded(c)
  {
    hide Encoded;
    var n := CharLen(s);
    var b0 := s[0] as int;
    if n == 1 {
      c := b0;
      OneIs(b0);
      assert s[..1] == [s[0]];
    } else if n == 2 {
      TwoIs(b0 - 0xC0, s[1] as int - 0x80);
      c := (b0 - 0xC0) * 0x40 + (s[1] as int - 0x80);
      assert s[..2] == [s[0], s[1]];
    } else if n == 3 {
      ThreeIs(b0 - 0xE0, s[1] as int - 0x80, s[2] as int - 0x80);
      c := ((b0 - 0xE0) * 0x40 + (s[1] as int - 0x80)) * 0x40 + (s[2] as int - 0x80);
      assert s[..3] == [s[0], s[1], s[2]];
    } else {
      FourIs(b0 - 0xF0, s[1] as int - 0x80, s[2] as int - 0x80, s[3] as int - 0x80);
      c := (((b0 - 0xF0) * 0x40 + (s[1] as int - 0x80)) * 0x40 + (s[2] as int - 0x80)) * 0x40 + (s[3] as int - 0x80);
      assert s[..4] == [s[0], s[1], s[2], s[3]];
    }
  }

  lemma OneIs(n: nat)
    requires n < 0x80
    ensures Encoded(n) == [n as byte]
  {
  }

  lemma {:induction false} EncodedIsValid(cs: seq<Scalar>)
    ensures ValidUtf8(EncodedAll(cs))
  {
    hide CharLen, Encoded;
    if cs != [] {
      var e, rest := Encoded(cs[0]), EncodedAll(cs[1..]);
      EncodedReads(cs[0], rest);
      EncodedIsValid(cs[1..]);
      assert (e + rest)[|e|..] == rest;
    }
  }

  lemma {:induction false} ValidIsEncoded(s: seq<byte>) returns (cs: seq<Scalar>)
    requires ValidUtf8(s)
    ensures s == EncodedAll(cs)
    decreases |s|
  {
    hide CharLen, Encoded;
    cs := [];
    if s != [] {
      var n := CharLen(s);
      var c := ReadIsEncoded(s);
      var more := ValidIsEncoded(s[n..]);
      cs := [c] + more;
      assert cs[1..] == more && s == s[..n] + s[n..];
    }
  }

  /** The readers let text through exactly when it encodes some sequence of scalar values. */
  lemma ValidIff(s: seq<byte>)
    ensures ValidUtf8(s) <==> exists cs :: s == EncodedAll(cs)
  {
    hide ValidUtf8, EncodedAll;
    if ValidUtf8(s) { var cs := ValidIsEncoded(s); }
    if cs :| s == EncodedAll(cs) { EncodedIsValid(cs); }
  }

  /** No text has two readings. */
  lemma {:induction false} EncodedOnce(one: seq<Scalar>, other: seq<Scalar>)
    requires EncodedAll(one) == EncodedAll(other)
    ensures one == other
    decreases |one|
  {
    hide CharLen, Encoded;
    if one != [] && other != [] {
      var a, b := Encoded(one[0]), Encoded(other[0]);
      var s, t := EncodedAll(one[1..]), EncodedAll(other[1..]);
      EncodedReads(one[0], s);
      EncodedReads(other[0], t);
      assert (a + s)[..|a|] == a && (b + t)[..|b|] == b && (a + s)[|a|..] == s && (b + t)[|b|..] == t;
      SameScalar(one[0], other[0]);
      EncodedOnce(one[1..], other[1..]);
      assert one == [one[0]] + one[1..] && other == [other[0]] + other[1..];
    } else {
      EncodedEmpty(one);
      EncodedEmpty(other);
    }
  }

  lemma EncodedEmpty(cs: seq<Scalar>)
    ensures EncodedAll(cs) == [] ==> cs == []
  {
  }

  lemma SameScalar(c: Scalar, d: Scalar)
    requires Encoded(c) == Encoded(d)
    ensures c == d
  {
    var e, f := Encoded(c), Encoded(d);
    assert |e| == |f| && forall i :: 0 <= i < |e| ==> e[i] == f[i];
    Split(c);
    Split(d);
    Split(c / 0x40);
    Split(d / 0x40);
    Split(c / 0x40 / 0x40);
    Split(d / 0x40 / 0x40);
  }
}
