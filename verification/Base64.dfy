/**
 The base64 text of byte values in deployed procedures, and its decoder. The encoding
 is the padded one of section 4 of RFC 4648.
 */
module Base64 {
  import opened Types

  const PAD: byte := 61
  const CR: byte := 13
  const LF: byte := 10

  datatype Decoded = Ok(value: seq<byte>) | BadLength | BadCharacter

  // -------------------------------------------------------------- alphabet

  /** The character of a six-bit value: A-Z, a-z, 0-9, plus and slash. */
  function Letter(v: nat): (c: byte)
    requires v < 64
    ensures c < 128 && c != PAD && c != CR && c != LF
  {
    if v < 26 then (65 + v) as byte
    else if v < 52 then (97 + v - 26) as byte
    else if v < 62 then (48 + v - 52) as byte
    else if v == 62 then 43 else 47
  }

  /** The six-bit value of a character, if it is in the alphabet. */
  function LetterValue(c: byte): (v: Option<nat>)
    ensures v.Some? ==> v.value < 64 && Letter(v.value) == c
  {
    if 65 <= c <= 90 then Some(c as nat - 65)
    else if 97 <= c <= 122 then Some(c as nat - 97 + 26)
    else if 48 <= c <= 57 then Some(c as nat - 48 + 52)
    else if c == 43 then Some(62)
    else if c == 47 then Some(63) else None
  }

  lemma LetterRoundTrip(v: nat)
    requires v < 64
    ensures LetterValue(Letter(v)) == Some(v)
  {
  }

  // -------------------------------------------------------------- decoding

  function Strip(s: seq<byte>): (r: seq<byte>)
    ensures CR !in r && LF !in r
  {
    if s == [] then [] else (if s[0] == CR || s[0] == LF then [] else [s[0]]) + Strip(s[1..])
  }

  /** Value and number of pads of a quartet, pads counting as zero bits wherever they stand. */
  function Quartet(chunk: seq<byte>): Option<(nat, nat)> {
    if chunk == [] then Some((0, 0)) else
    var n := |chunk| - 1;
    var (value, pads) :- Quartet(chunk[..n]);
    if chunk[n] == PAD then Some((value * 64, pads + 1)) else
    var v :- LetterValue(chunk[n]);
    Some((value * 64 + v, pads))
  }

  /** The bytes of a quartet: one, two or three, by its pads. */
  function Bytes(n: nat, pads: nat): seq<byte> {
    [(n / 0x1_0000 % 0x100) as byte]
    + (if pads < 2 then [(n / 0x100 % 0x100) as byte] else [])
    + (if pads < 1 then [(n % 0x100) as byte] else [])
  }

  /** Quartet by quartet; a bad character anywhere fails the whole. */
  function DecodeQuartets(s: seq<byte>): Decoded
    requires |s| % 4 == 0
    decreases |s|
  {
    if s == [] then Ok([]) else
    match Quartet(s[..4])
    case None => BadCharacter
    case Some((n, pads)) =>
      var rest := DecodeQuartets(s[4..]);
      if rest.Ok? then Ok(Bytes(n, pads) + rest.value) else rest
  }

  function Decode(s: seq<byte>): Decoded {
    var t := Strip(s);
    if |t| % 4 != 0 then BadLength else DecodeQuartets(t)
  }

  // -------------------------------------------------------------- encoding

  /** Section 4 of RFC 4648: three bytes to four characters, the last group padded. */
  function Encode(b: seq<byte>): seq<byte>
    decreases |b|
  {
    if b == [] then []
    else if |b| == 1 then
      [Letter(b[0] as nat / 4), Letter(b[0] as nat % 4 * 16), PAD, PAD]
    else if |b| == 2 then
      [Letter(b[0] as nat / 4), Letter(b[0] as nat % 4 * 16 + b[1] as nat / 16), Letter(b[1] as nat % 16 * 4), PAD]
    else
      [Letter(b[0] as nat / 4), Letter(b[0] as nat % 4 * 16 + b[1] as nat / 16),
       Letter(b[1] as nat % 16 * 4 + b[2] as nat / 64), Letter(b[2] as nat % 64)] + Encode(b[3..])
  }

  // ------------------------------------------------------------ round trip

  /** A quartet of four letters or pads, spelled out. */
  lemma QuartetOf(c0: byte, c1: byte, c2: byte, c3: byte)
    ensures Quartet([c0, c1, c2, c3]) ==
      (var q :- Quartet([c0, c1, c2]);
       if c3 == PAD then Some((q.0 * 64, q.1 + 1)) else
       var v :- LetterValue(c3);
       Some((q.0 * 64 + v, q.1)))
    ensures Quartet([c0, c1, c2]) ==
      (var q :- Quartet([c0, c1]);
       if c2 == PAD then Some((q.0 * 64, q.1 + 1)) else
       var v :- LetterValue(c2);
       Some((q.0 * 64 + v, q.1)))
  {
    assert [c0, c1, c2, c3][..3] == [c0, c1, c2];
    assert [c0, c1, c2][..2] == [c0, c1];
  }

  lemma FirstTwo(v0: nat, v1: nat)
    requires v0 < 64 && v1 < 64
    ensures Quartet([Letter(v0), Letter(v1)]) == Some((v0 * 64 + v1, 0))
  {
    hide Letter, LetterValue;
    var c0, c1 := Letter(v0), Letter(v1);
    LetterRoundTrip(v0);
    LetterRoundTrip(v1);
    assert [c0, c1][..1] == [c0] && [c0][..0] == [];
    assert Quartet([]) == Some((0, 0));
    assert Quartet([c0]) == Some((v0, 0));
  }

  lemma GroupOfOne(x: nat)
    requires x < 256
    ensures Quartet([Letter(x / 4), Letter(x % 4 * 16), PAD, PAD]) == Some((x * 0x1_0000, 2))
  {
    hide Letter, LetterValue, Quartet;
    FirstTwo(x / 4, x % 4 * 16);
    QuartetOf(Letter(x / 4), Letter(x % 4 * 16), PAD, PAD);
  }

  lemma GroupOfTwo(x: nat, y: nat)
    requires x < 256 && y < 256
    ensures Quartet([Letter(x / 4), Letter(x % 4 * 16 + y / 16), Letter(y % 16 * 4), PAD])
            == Some((x * 0x1_0000 + y * 0x100, 1))
  {
    hide Letter, LetterValue, Quartet;
    FirstTwo(x / 4, x % 4 * 16 + y / 16);
    LetterRoundTrip(y % 16 * 4);
    QuartetOf(Letter(x / 4), Letter(x % 4 * 16 + y / 16), Letter(y % 16 * 4), PAD);
  }

  lemma GroupOfThree(x: nat, y: nat, z: nat)
    requires x < 256 && y < 256 && z < 256
    ensures Quartet([Letter(x / 4), Letter(x % 4 * 16 + y / 16), Letter(y % 16 * 4 + z / 64), Letter(z % 64)])
         == Some((x * 0x1_0000 + y * 0x100 + z, 0))
  {
    hide Letter, LetterValue, Quartet;
    FirstTwo(x / 4, x % 4 * 16 + y / 16);
    LetterRoundTrip(y % 16 * 4 + z / 64);
    LetterRoundTrip(z % 64);
    QuartetOf(Letter(x / 4), Letter(x % 4 * 16 + y / 16), Letter(y % 16 * 4 + z / 64), Letter(z % 64));
  }

  lemma Digits(x: nat, y: nat, z: nat)
    requires x < 256 && y < 256 && z < 256
    ensures (x * 0x1_0000 + y * 0x100 + z) / 0x1_0000 == x
    ensures (x * 0x1_0000 + y * 0x100 + z) / 0x100 == x * 0x100 + y
  {
  }

  lemma BytesOf(x: byte, y: byte, z: byte)
    ensures Bytes(x as nat * 0x1_0000, 2) == [x]
    ensures Bytes(x as nat * 0x1_0000 + y as nat * 0x100, 1) == [x, y]
    ensures Bytes(x as nat * 0x1_0000 + y as nat * 0x100 + z as nat, 0) == [x, y, z]
  {
    Digits(x as nat, 0, 0);
    Digits(x as nat, y as nat, 0);
    Digits(x as nat, y as nat, z as nat);
  }

  lemma QuartetThen(e: seq<byte>, rest: seq<byte>, n: nat, pads: nat, tail: seq<byte>)
    requires |e| == 4 && Quartet(e) == Some((n, pads))
    requires |rest| % 4 == 0 && DecodeQuartets(rest) == Ok(tail)
    ensures |e + rest| % 4 == 0 && DecodeQuartets(e + rest) == Ok(Bytes(n, pads) + tail)
  {
    hide Quartet, Bytes;
    assert (e + rest)[..4] == e && (e + rest)[4..] == rest;
  }

  /** The last, padded group. */
  lemma LastGroup(b: seq<byte>)
    requires 1 <= |b| <= 2
    ensures |Encode(b)| == 4 && DecodeQuartets(Encode(b)) == Ok(b)
  {
    hide Letter, LetterValue, Quartet, Bytes;
    var e := Encode(b);
    var n, pads := b[0] as nat * 0x1_0000 + (if |b| == 2 then b[1] as nat * 0x100 else 0), 3 - |b|;
    BytesOf(b[0], if |b| == 2 then b[1] else 0, 0);
    if |b| == 1 { GroupOfOne(b[0] as nat); } else { GroupOfTwo(b[0] as nat, b[1] as nat); }
    QuartetThen(e, [], n, pads, []);
    assert e + [] == e && Bytes(n, pads) + [] == Bytes(n, pads) == b;
  }

  lemma {:induction false} QuartetsRoundTrip(b: seq<byte>)
    ensures |Encode(b)| % 4 == 0 && DecodeQuartets(Encode(b)) == Ok(b)
    decreases |b|
  {
    hide Letter, LetterValue, Quartet, Bytes, DecodeQuartets;
    if b == [] {
      NoQuartets();
    } else if |b| <= 2 {
      LastGroup(b);
    } else {
      var x, y, z := b[0] as nat, b[1] as nat, b[2] as nat;
      GroupOfThree(x, y, z);
      QuartetsRoundTrip(b[3..]);
      BytesOf(b[0], b[1], b[2]);
      var e := [Letter(x / 4), Letter(x % 4 * 16 + y / 16), Letter(y % 16 * 4 + z / 64), Letter(z % 64)];
      QuartetThen(e, Encode(b[3..]), x * 0x1_0000 + y * 0x100 + z, 0, b[3..]);
      assert b == [b[0], b[1], b[2]] + b[3..];
    }
  }

  lemma NoQuartets()
    ensures Encode([]) == [] && DecodeQuartets([]) == Ok([])
  {
  }

  lemma {:induction false} EncodeHasNoBreaks(b: seq<byte>)
    ensures CR !in Encode(b) && LF !in Encode(b)
    decreases |b|
  {
    hide Letter;
    if |b| >= 3 { EncodeHasNoBreaks(b[3..]); }
  }

  lemma {:induction false} StripNothing(s: seq<byte>)
    requires CR !in s && LF !in s
    ensures Strip(s) == s
  {
    if s != [] { StripNothing(s[1..]); }
  }

  /**
   Decoding gives back every encoded byte sequence, whatever line breaks have been put
   into its text.
   */
  lemma DecodeEncode(b: seq<byte>, text: seq<byte>)
    requires Strip(text) == Encode(b)
    ensures Decode(text) == Ok(b)
    ensures Decode(Encode(b)) == Ok(b)
  {
    QuartetsRoundTrip(b);
    EncodeHasNoBreaks(b);
    StripNothing(Encode(b));
  }

  lemma {:induction false} StripAcross(s: seq<byte>, t: seq<byte>)
    ensures Strip(s + t) == Strip(s) + Strip(t)
  {
    if s == [] {
      assert s + t == t;
    } else {
      assert (s + t)[1..] == s[1..] + t;
      StripAcross(s[1..], t);
    }
  }

  /** One more line break anywhere makes no difference, to any text. */
  lemma {:induction false} QuartetsHaveLength(s: seq<byte>)
    requires |s| % 4 == 0
    ensures !DecodeQuartets(s).BadLength?
    decreases |s|
  {
    if s != [] { QuartetsHaveLength(s[4..]); }
  }

  lemma BreakAnywhere(s: seq<byte>, t: seq<byte>, br: byte)
    requires br == CR || br == LF
    ensures Decode(s + [br] + t) == Decode(s + t)
  {
    StripAcross(s + [br], t);
    StripAcross(s, [br]);
    StripAcross(s, t);
    assert Strip([br]) == Strip([br][1..]) == [];
    assert Strip(s) + [] == Strip(s);
  }

  // ------------------------------------------------------ which texts decode

  predicate Acceptable(c: byte) { c == PAD || LetterValue(c).Some? }

  lemma {:induction false} QuartetIff(chunk: seq<byte>)
    ensures Quartet(chunk).Some? <==> forall i :: 0 <= i < |chunk| ==> Acceptable(chunk[i])
  {
    hide LetterValue;
    if chunk != [] { QuartetIff(chunk[..|chunk| - 1]); }
  }

  lemma {:induction false} QuartetsIff(t: seq<byte>)
    requires |t| % 4 == 0
    ensures DecodeQuartets(t).Ok? <==> forall i :: 0 <= i < |t| ==> Acceptable(t[i])
    decreases |t|
  {
    hide Acceptable, Quartet, Bytes;
    if t != [] {
      QuartetIff(t[..4]);
      QuartetsIff(t[4..]);
      assert forall i :: 0 <= i < 4 ==> t[..4][i] == t[i];
      assert forall i :: 4 <= i < |t| ==> t[4..][i - 4] == t[i];
    }
  }

  /** A text decodes exactly when, without its line breaks, it is quartets of letters and pads, in any places. */
  lemma AcceptsIff(s: seq<byte>)
    ensures Decode(s).Ok? <==> |Strip(s)| % 4 == 0 && forall i :: 0 <= i < |Strip(s)| ==> Acceptable(Strip(s)[i])
    ensures Decode(s).BadLength? <==> |Strip(s)| % 4 != 0
  {
    hide DecodeQuartets, Acceptable;
    if |Strip(s)| % 4 == 0 {
      QuartetsIff(Strip(s));
      QuartetsHaveLength(Strip(s));
    }
  }

  // ------------------------------------------- which texts are encodings

  /** The low bits of a letter, which its bytes do not show, are zero. */
  predicate Clear(c: byte, span: nat)
    requires span > 0
  {
    LetterValue(c).Some? && LetterValue(c).value % span == 0
  }

  /** Pads only as the last one or two characters, and nothing in the bits they drop. */
  predicate Canonical(t: seq<byte>)
    requires |t| % 4 == 0
  {
    var n := |t|;
    t == [] || (
      && (forall i :: 0 <= i < n - 2 ==> t[i] != PAD)
      && (t[n - 2] == PAD ==> t[n - 1] == PAD && Clear(t[n - 3], 16))
      && (t[n - 2] != PAD && t[n - 1] == PAD ==> Clear(t[n - 2], 4)))
  }

  /** Four six-bit values as three bytes and back. */
  lemma Regroup(v0: nat, v1: nat, v2: nat, v3: nat)
    requires v0 < 64 && v1 < 64 && v2 < 64 && v3 < 64
    ensures var x, y, z := v0 * 4 + v1 / 16, v1 % 16 * 16 + v2 / 4, v2 % 4 * 64 + v3;
      && x < 256 && y < 256 && z < 256
      && ((v0 * 64 + v1) * 64 + v2) * 64 + v3 == x * 0x1_0000 + y * 0x100 + z
      && x / 4 == v0 && x % 4 * 16 + y / 16 == v1 && y % 16 * 4 + z / 64 == v2 && z % 64 == v3
  {
    assert v1 == v1 / 16 * 16 + v1 % 16 && v2 == v2 / 4 * 4 + v2 % 4;
  }

  /** A quartet, by the values of its letters; a pad counts as zero. */
  lemma QuartetValues(c0: byte, c1: byte, c2: byte, c3: byte)
    requires LetterValue(c0).Some? && LetterValue(c1).Some? && Acceptable(c2) && Acceptable(c3)
    requires c0 != PAD && c1 != PAD
    ensures var v0, v1 := LetterValue(c0).value, LetterValue(c1).value;
      var v2, v3 := if c2 == PAD then 0 else LetterValue(c2).value, if c3 == PAD then 0 else LetterValue(c3).value;
      Quartet([c0, c1, c2, c3])
        == Some((((v0 * 64 + v1) * 64 + v2) * 64 + v3, (if c2 == PAD then 1 else 0) + (if c3 == PAD then 1 else 0)))
  {
    hide Quartet, Letter, LetterValue;
    FirstTwo(LetterValue(c0).value, LetterValue(c1).value);
    QuartetOf(c0, c1, c2, c3);
  }

  /** A quartet that may stand in an encoding: its bytes, encoded, give it back. */
  lemma CanonicalQuartet(c0: byte, c1: byte, c2: byte, c3: byte)
    requires LetterValue(c0).Some? && LetterValue(c1).Some? && Acceptable(c2) && Acceptable(c3)
    requires Canonical([c0, c1, c2, c3])
    ensures Quartet([c0, c1, c2, c3]).Some?
    ensures var q := Quartet([c0, c1, c2, c3]).value;
      var b := Bytes(q.0, q.1); |b| == 3 - q.1 && q.1 <= 2 && Encode(b) == [c0, c1, c2, c3]
    ensures c3 != PAD ==> Quartet([c0, c1, c2, c3]).value.1 == 0
  {
    hide Letter, LetterValue, Quartet, Bytes;
    var t := [c0, c1, c2, c3];
    assert t[0] == c0 && t[1] == c1 && t[2] == c2 && t[3] == c3;
    QuartetValues(c0, c1, c2, c3);
    var v0, v1 := LetterValue(c0).value, LetterValue(c1).value;
    var v2, v3 := if c2 == PAD then 0 else LetterValue(c2).value, if c3 == PAD then 0 else LetterValue(c3).value;
    Regroup(v0, v1, v2, v3);
    var x, y, z := v0 * 4 + v1 / 16, v1 % 16 * 16 + v2 / 4, v2 % 4 * 64 + v3;
    BytesOf(x as byte, y as byte, z as byte);
    assert Encode([]) == [];
  }

  /** A canonical text is the encoding of the bytes it decodes to. */
  lemma {:induction false} CanonicalIsEncoding(t: seq<byte>)
    requires |t| % 4 == 0 && Canonical(t) && forall i :: 0 <= i < |t| ==> Acceptable(t[i])
    ensures DecodeQuartets(t).Ok? && Encode(DecodeQuartets(t).value) == t
    decreases |t|
  {
    hide Letter, LetterValue, Quartet, Bytes, Encode;
    QuartetsIff(t);
    if t == [] {
      NoQuartets();
    } else {
      var head := [t[0], t[1], t[2], t[3]];
      assert t[..4] == head && t == head + t[4..];
      CanonicalIsEncoding(t[4..]);
      CanonicalQuartet(t[0], t[1], t[2], t[3]);
      var q := Quartet(head).value;
      EncodeAcross(Bytes(q.0, q.1), DecodeQuartets(t[4..]).value);
    }
  }

  /** Encoding goes on behind a full group. */
  lemma EncodeAcross(b: seq<byte>, rest: seq<byte>)
    requires |b| == 3 || (|b| <= 3 && rest == [])
    ensures Encode(b + rest) == Encode(b) + Encode(rest)
  {
    hide Letter;
    assert Encode([]) == [];
    if |b| == 3 {
      assert (b + rest)[3..] == rest && b[3..] == [];
    } else {
      assert b + rest == b;
    }
  }

  lemma CanonicalBehind(head: seq<byte>, rest: seq<byte>)
    requires |head| == 4 && (forall i :: 0 <= i < 4 ==> head[i] != PAD) && |rest| % 4 == 0 && Canonical(rest)
    ensures Canonical(head + rest)
  {
    hide Clear;
    var t := head + rest;
    assert forall i :: 0 <= i < 4 ==> t[i] == head[i];
    assert forall i :: 4 <= i < |t| ==> t[i] == rest[i - 4];
  }

  lemma {:induction false} EncodingIsCanonical(b: seq<byte>)
    ensures |Encode(b)| % 4 == 0 && Canonical(Encode(b))
    decreases |b|
  {
    hide Letter, LetterValue;
    if |b| == 1 {
      LetterRoundTrip(b[0] as nat % 4 * 16);
    } else if |b| == 2 {
      LetterRoundTrip(b[1] as nat % 16 * 4);
    } else if |b| >= 3 {
      EncodingIsCanonical(b[3..]);
      var e, rest := Encode(b), Encode(b[3..]);
      hide Encode, Canonical;
      assert e == e[..4] + rest && forall i :: 0 <= i < 4 ==> e[..4][i] != PAD;
      CanonicalBehind(e[..4], rest);
    }
  }

  /** A text that decodes is, without its line breaks, the encoding of its bytes exactly when it is canonical. */
  lemma CanonicalIff(s: seq<byte>)
    requires Decode(s).Ok?
    ensures Strip(s) == Encode(Decode(s).value) <==> Canonical(Strip(s))
  {
    hide DecodeQuartets, Acceptable, Canonical, Encode;
    var t := Strip(s);
    AcceptsIff(s);
    if Canonical(t) { CanonicalIsEncoding(t); }
    EncodingIsCanonical(Decode(s).value);
  }

  // ------------------------------------------------------------ the decoder

  /** The table the decoder looks characters up in: zero for those outside the alphabet. */
  predicate IsTable(vals: seq<byte>, upTo: nat)
    requires upTo <= 64
  {
    |vals| == 128
    && forall c: byte :: c < 128 ==>
         vals[c as int] ==
            if LetterValue(c).Some? && LetterValue(c).value < upTo then LetterValue(c).value as byte else 0
  }

  method LookupTable() returns (vals: array<byte>)
    ensures fresh(vals) && IsTable(vals[..], 64)
  {
    vals := new byte[128](_ => 0);
    for i := 0 to 64
      invariant vals.Length == 128 && IsTable(vals[..], i)
    {
      LetterRoundTrip(i);
      vals[Letter(i) as int] := i as byte;
    }
  }

  /** One quartet through the table. */
  method DecodeChunk(vals: array<byte>, chunk: seq<byte>) returns (r: Option<(nat, nat)>)
    requires IsTable(vals[..], 64)
    ensures r == Quartet(chunk)
  {
    hide LetterValue, IsTable;
    var n: nat, pad: nat := 0, 0;
    for j := 0 to |chunk|
      invariant Quartet(chunk[..j]) == Some((n, pad))
    {
      assert chunk[..j + 1][..j] == chunk[..j];
      var b := chunk[j];
      TableLength(vals[..]);
      if b == PAD {
        n, pad := n * 64, pad + 1;
      } else {
        if b >= 128 || (vals[b as int] == 0 && b != 65) {
          NotALetter(vals[..], b);
          BadQuartet(chunk, j);
          return None;
        }
        ALetter(vals[..], b);
        n := n * 64 + vals[b as int] as nat;
      }
    }
    assert chunk[..|chunk|] == chunk;
    r := Some((n, pad));
  }

  method DecodeText(s: seq<byte>) returns (r: Decoded)
    ensures r == Decode(s)
  {
    hide Quartet, Bytes, Strip, IsTable;
    var vals := LookupTable();
    var bytes := StripBreaks(s);
    if |bytes| == 0 { return Ok([]); }
    if |bytes| % 4 != 0 { return BadLength; }
    var out: seq<byte> := [];
    var at := 0;
    while at < |bytes|
      invariant 0 <= at <= |bytes| && at % 4 == 0
      invariant IsTable(vals[..], 64)
      invariant DecodeQuartets(bytes) == Prepend(out, DecodeQuartets(bytes[at..]))
    {
      var chunk := bytes[at..at + 4];
      assert bytes[at..][..4] == chunk && bytes[at..][4..] == bytes[at + 4..];
      var q := DecodeChunk(vals, chunk);
      if q.None? { return BadCharacter; }
      out := out + Bytes(q.value.0, q.value.1);
      at := at + 4;
    }
    assert bytes[at..] == [];
    r := Ok(out);
  }

  method StripBreaks(s: seq<byte>) returns (bytes: seq<byte>)
    ensures bytes == Strip(s)
  {
    hide Strip;
    bytes := [];
    StripNothing([]);
    for i := 0 to |s|
      invariant bytes == Strip(s[..i])
    {
      StripAcross(s[..i], [s[i]]);
      StripOne(s[i]);
      assert s[..i + 1] == s[..i] + [s[i]];
      if s[i] != CR && s[i] != LF { bytes := bytes + [s[i]]; } else { assert bytes + [] == bytes; }
    }
    assert s[..|s|] == s;
  }

  lemma StripOne(c: byte)
    ensures Strip([c]) == if c == CR || c == LF then [] else [c]
  {
    assert Strip([c][1..]) == [];
  }

  function Prepend(out: seq<byte>, d: Decoded): Decoded { if d.Ok? then Ok(out + d.value) else d }

  lemma TableLength(vals: seq<byte>)
    requires IsTable(vals, 64)
    ensures |vals| == 128
  {
  }

  lemma NotALetter(vals: seq<byte>, b: byte)
    requires IsTable(vals, 64) && (b >= 128 || (vals[b as int] == 0 && b != 65))
    ensures LetterValue(b) == None
  {
  }

  lemma ALetter(vals: seq<byte>, b: byte)
    requires IsTable(vals, 64) && b < 128 && !(vals[b as int] == 0 && b != 65)
    ensures LetterValue(b) == Some(vals[b as int] as nat)
  {
  }

  lemma {:induction false} BadQuartet(chunk: seq<byte>, j: nat)
    requires j < |chunk| && chunk[j] != PAD && LetterValue(chunk[j]).None?
    ensures Quartet(chunk).None?
  {
    if j < |chunk| - 1 { BadQuartet(chunk[..|chunk| - 1], j); }
  }
}
