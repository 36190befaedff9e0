/**
 The LIKE filter: a pattern is cut at its percent signs and the pieces are looked for
 from left to right, each at its leftmost place. Strings are UTF-8 bytes, already
 lower-cased; a match of one valid string in another starts and ends between characters.
 */
module Like {
  import opened Types

  const PERCENT: byte := 37

  // ------------------------------------------------------------- the scan

  /** The leftmost place of `part` in `s`. */
  function Find(s: Text, part: Text): (r: Option<nat>)
    ensures r.Some? ==> r.value + |part| <= |s| && s[r.value..r.value + |part|] == part
    ensures r.Some? ==> forall k :: 0 <= k < r.value ==> !(part <= s[k..])
    ensures r.None? ==> forall k :: 0 <= k <= |s| ==> !(part <= s[k..])
  {
    if part <= s then Some(0)
    else if s == [] then None
    else
      var r := Find(s[1..], part);
      assert forall k :: 1 <= k <= |s| ==> s[k..] == s[1..][k - 1..];
      if r.Some? then Some(r.value + 1) else None
  }

  function FirstPercent(p: Text): (i: nat)
    ensures i <= |p| && PERCENT !in p[..i] && (i < |p| ==> p[i] == PERCENT)
  {
    if p == [] || p[0] == PERCENT then 0 else 1 + FirstPercent(p[1..])
  }

  /** The pieces between percent signs, empty ones included. */
  function Split(p: Text): (parts: seq<Text>)
    ensures |parts| >= 1 && (|parts| == 1 <==> PERCENT !in p)
    decreases |p|
  {
    var i := FirstPercent(p);
    if i == |p| then [p] else [p[..i]] + Split(p[i + 1..])
  }

  /** The pieces are all found, one behind the other; the very first must be at the start. */
  predicate Scan(s: Text, parts: seq<Text>, atStart: bool)
    decreases |parts|
  {
    if parts == [] then true
    else if parts[0] == [] then Scan(s, parts[1..], false)
    else match Find(s, parts[0])
         case None => false
         case Some(k) => !(atStart && k != 0) && Scan(s[k + |parts[0]|..], parts[1..], false)
  }

  predicate Like(s: Text, p: Text) {
    var parts := Split(p);
    if |parts| == 1 then s == p else Scan(s, parts, true)
  }

  method MatchesLike(s: Text, p: Text) returns (r: bool)
    ensures r == Like(s, p)
  {
    hide Find, Split;
    var parts := Split(p);
    if |parts| == 1 { return s == p; }
    var pos: nat := 0;
    for i := 0 to |parts|
      invariant pos <= |s|
      invariant Scan(s, parts, true) == Scan(s[pos..], parts[i..], i == 0)
    {
      var part := parts[i];
      assert parts[i..][0] == part && parts[i..][1..] == parts[i + 1..];
      if part == [] { continue; }
      match Find(s[pos..], part) {
        case Some(idx) =>
          if i == 0 && idx != 0 { return false; }
          assert s[pos..][idx + |part|..] == s[pos + idx + |part|..];
          pos := pos + idx + |part|;
        case None =>
          return false;
      }
    }
    return true;
  }

  /** The filter on a cell: only a string can be like a pattern. */
  method LikeFilter(lower: Text -> Text, cell: Option<Value>, pattern: Text) returns (r: bool)
    ensures r == (cell.Some? && cell.value.String? && Like(lower(cell.value.s), lower(pattern)))
  {
    if cell.Some? && cell.value.String? {
      r := MatchesLike(lower(cell.value.s), lower(pattern));
    } else {
      r := false;
    }
  }

  // ------------------------------------------------ what a pattern stands for

  /** A percent sign stands for any text, everything else for itself. */
  predicate Matches(s: Text, p: Text)
    decreases |p|
  {
    if p == [] then s == []
    else if p[0] == PERCENT then exists k :: 0 <= k <= |s| && Matches(s[k..], p[1..])
    else s != [] && s[0] == p[0] && Matches(s[1..], p[1..])
  }

  /** The pattern matches the front of some tail of the string. */
  ghost predicate Somewhere(s: Text, p: Text) {
    exists k :: 0 <= k <= |s| && Matches(s[k..], p + [PERCENT])
  }

  lemma {:induction false} LiteralFirst(s: Text, q: Text, rest: Text)
    requires PERCENT !in q
    ensures Matches(s, q + rest) <==> q <= s && Matches(s[|q|..], rest)
    decreases |q|
  {
    if q == [] {
      assert q + rest == rest;
    } else {
      assert (q + rest)[1..] == q[1..] + rest;
      if s != [] && s[0] == q[0] {
        LiteralFirst(s[1..], q[1..], rest);
        assert q <= s <==> q[1..] <= s[1..];
        if q <= s { assert s[|q|..] == s[1..][|q| - 1..]; }
      }
    }
  }

  lemma AnyTail(s: Text)
    ensures Matches(s, [PERCENT])
  {
    assert s[|s|..] == [] && [PERCENT][1..] == [];
    assert Matches(s[|s|..], [PERCENT][1..]);
  }

  lemma TailAtEnd(q: Text, s: Text)
    requires PERCENT !in q
    ensures Matches(s, q + [PERCENT]) <==> q <= s
  {
    LiteralFirst(s, q, [PERCENT]);
    if q <= s { AnyTail(s[|q|..]); }
  }

  lemma SomewhereEarlier(s: Text, j: nat, p: Text)
    requires j <= |s| && Somewhere(s[j..], p)
    ensures Somewhere(s, p)
  {
    var k :| 0 <= k <= |s[j..]| && Matches(s[j..][k..], p + [PERCENT]);
    assert s[j..][k..] == s[j + k..];
  }

  /** A percent sign in front: anywhere will do. */
  lemma PercentFirst(s: Text, p: Text)
    ensures Matches(s, [PERCENT] + p + [PERCENT]) <==> Somewhere(s, p)
  {
    assert ([PERCENT] + p + [PERCENT])[1..] == p + [PERCENT];
  }

  /** A piece, then a percent sign: the piece here, the rest anywhere behind it. */
  lemma PieceFirst(s: Text, q: Text, p: Text)
    requires PERCENT !in q
    ensures Matches(s, q + [PERCENT] + p + [PERCENT]) <==> q <= s && Somewhere(s[|q|..], p)
  {
    assert q + [PERCENT] + p + [PERCENT] == q + ([PERCENT] + p + [PERCENT]);
    LiteralFirst(s, q, [PERCENT] + p + [PERCENT]);
    if q <= s { PercentFirst(s[|q|..], p); }
  }

  lemma SplitFirst(p: Text) returns (q: Text, rest: Text)
    requires |Split(p)| > 1
    ensures PERCENT !in q && p == q + [PERCENT] + rest
    ensures Split(p) == [q] + Split(rest) && |rest| < |p|
  {
    var i := FirstPercent(p);
    q, rest := p[..i], p[i + 1..];
  }

  /** Taking every piece at its leftmost place loses no match. */
  lemma {:induction false} GreedyScan(s: Text, p: Text)
    ensures Scan(s, Split(p), false) <==> Somewhere(s, p)
    decreases |p|
  {
    hide Find, Split, Matches, Somewhere;
    if |Split(p)| == 1 {
      GreedyLastPiece(s, p);
    } else {
      var q, rest := SplitFirst(p);
      var parts := Split(p);
      assert parts[0] == q && parts[1..] == Split(rest);
      if q == [] {
        GreedyScan(s, rest);
        NoPiece(s, rest);
        assert p == [PERCENT] + rest;
      } else {
        GreedyPiece(s, q, rest);
        match Find(s, q)
        case None =>
        case Some(k) => GreedyScan(s[k + |q|..], rest);
      }
    }
  }

  lemma GreedyLastPiece(s: Text, q: Text)
    requires |Split(q)| == 1
    ensures Scan(s, Split(q), false) <==> Somewhere(s, q)
  {
    hide Find, Matches;
    assert Split(q) == [q];
    assert [q][1..] == [];
    forall k | 0 <= k <= |s| ensures Matches(s[k..], q + [PERCENT]) <==> q <= s[k..] { TailAtEnd(q, s[k..]); }
    match Find(s, q)
    case None =>
      assert q != [] || q <= s[0..];
    case Some(k) =>
      assert q <= s[k..];
      assert Matches(s[k..], q + [PERCENT]);
    if q == [] { assert q <= s[0..]; assert Matches(s[0..], q + [PERCENT]); }
  }

  lemma NoPiece(s: Text, rest: Text)
    ensures Somewhere(s, [PERCENT] + rest) <==> Somewhere(s, rest)
  {
    hide Matches;
    if Somewhere(s, [PERCENT] + rest) {
      var k :| 0 <= k <= |s| && Matches(s[k..], [PERCENT] + rest + [PERCENT]);
      PercentFirst(s[k..], rest);
      SomewhereEarlier(s, k, rest);
    }
    if Somewhere(s, rest) {
      PercentFirst(s, rest);
      assert s[0..] == s;
      assert Matches(s[0..], [PERCENT] + rest + [PERCENT]);
    }
  }

  lemma GreedyPiece(s: Text, q: Text, rest: Text)
    requires PERCENT !in q
    ensures Somewhere(s, q + [PERCENT] + rest) <==> Find(s, q).Some? && Somewhere(s[Find(s, q).value + |q|..], rest)
  {
    hide Matches, Find, Somewhere;
    if Somewhere(s, q + [PERCENT] + rest) { PieceIsFound(s, q, rest); }
    if Find(s, q).Some? && Somewhere(s[Find(s, q).value + |q|..], rest) { FoundPieceMatches(s, q, rest); }
  }

  lemma PieceIsFound(s: Text, q: Text, rest: Text)
    requires PERCENT !in q && Somewhere(s, q + [PERCENT] + rest)
    ensures Find(s, q).Some? && Somewhere(s[Find(s, q).value + |q|..], rest)
  {
    hide Matches, Find;
    var k :| 0 <= k <= |s| && Matches(s[k..], q + [PERCENT] + rest + [PERCENT]);
    hide Somewhere;
    PieceFirst(s[k..], q, rest);
    var i := Find(s, q).value;
    assert i <= k;
    var tail := s[i + |q|..];
    assert s[k..][|q|..] == tail[k - i..];
    SomewhereEarlier(tail, k - i, rest);
  }

  lemma FoundPieceMatches(s: Text, q: Text, rest: Text)
    requires PERCENT !in q && Find(s, q).Some? && Somewhere(s[Find(s, q).value + |q|..], rest)
    ensures Somewhere(s, q + [PERCENT] + rest)
  {
    hide Matches, Find;
    var i := Find(s, q).value;
    assert s[i..][|q|..] == s[i + |q|..];
    assert q <= s[i..];
    PieceFirst(s[i..], q, rest);
    assert Matches(s[i..], q + [PERCENT] + rest + [PERCENT]);
  }

  // ----------------------------------------------------------- main results

  /** With a percent sign in it, a pattern is taken as if it ended in one: its end is not anchored. */
  lemma ScanIsOpenEnded(s: Text, p: Text)
    requires PERCENT in p
    ensures Like(s, p) <==> Matches(s, p + [PERCENT])
  {
    hide Find, Split, Matches, Somewhere;
    var q, rest := SplitFirst(p);
    var parts := Split(p);
    assert parts[0] == q && parts[1..] == Split(rest);
    PieceFirst(s, q, rest);
    if q == [] {
      GreedyScan(s, rest);
      assert s[0..] == s;
    } else {
      FoundAtStart(s, q);
      if q <= s { GreedyScan(s[|q|..], rest); }
    }
  }

  lemma FoundAtStart(s: Text, q: Text)
    ensures Find(s, q) == Some(0) <==> q <= s
  {
  }

  lemma {:induction false} LiteralPattern(s: Text, p: Text)
    requires PERCENT !in p
    ensures Matches(s, p) <==> s == p
  {
    LiteralFirst(s, p, []);
    assert p + [] == p;
  }

  /** A second percent sign at the end adds nothing. */
  lemma {:induction false} DoubledPercent(s: Text, p: Text)
    ensures Matches(s, p + [PERCENT] + [PERCENT]) <==> Matches(s, p + [PERCENT])
    decreases |p|
  {
    var one, two := p + [PERCENT], p + [PERCENT] + [PERCENT];
    if p == [] {
      assert two[1..] == [PERCENT] && one == [PERCENT];
      AnyTail(s);
      assert s[0..] == s;
    } else {
      assert one[1..] == p[1..] + [PERCENT] && two[1..] == p[1..] + [PERCENT] + [PERCENT];
      forall k | 0 <= k <= |s|
        ensures Matches(s[k..], two[1..]) <==> Matches(s[k..], one[1..])
      {
        DoubledPercent(s[k..], p[1..]);
      }
    }
  }

  lemma {:induction false} OpenEndIsWeaker(s: Text, p: Text)
    requires Matches(s, p)
    ensures Matches(s, p + [PERCENT])
    decreases |p|
  {
    if p == [] {
      assert p + [PERCENT] == [PERCENT];
      AnyTail(s);
    } else {
      assert (p + [PERCENT])[1..] == p[1..] + [PERCENT];
      if p[0] == PERCENT {
        var k :| 0 <= k <= |s| && Matches(s[k..], p[1..]);
        OpenEndIsWeaker(s[k..], p[1..]);
      } else {
        OpenEndIsWeaker(s[1..], p[1..]);
      }
    }
  }

  /** Whatever the pattern, the scan never drops a string that matches it. */
  lemma LikeMissesNothing(s: Text, p: Text)
    requires Matches(s, p)
    ensures Like(s, p)
  {
    hide Like, Matches;
    if PERCENT in p {
      OpenEndIsWeaker(s, p);
      ScanIsOpenEnded(s, p);
    } else {
      LikeIsMatching(s, p);
    }
  }

  predicate EndsOpen(p: Text) { PERCENT !in p || p[|p| - 1] == PERCENT }

  /** On a pattern without a percent sign, or with one at the end, the scan is exact. */
  lemma LikeIsMatching(s: Text, p: Text)
    requires EndsOpen(p)
    ensures Like(s, p) <==> Matches(s, p)
  {
    if PERCENT !in p {
      LiteralPattern(s, p);
    } else {
      ScanIsOpenEnded(s, p);
      var front := p[..|p| - 1];
      assert p == front + [PERCENT];
      DoubledPercent(s, front);
    }
  }

  /** The pattern's own characters, every percent sign standing for nothing. */
  function Bare(p: Text): Text {
    if p == [] then [] else (if p[0] == PERCENT then [] else [p[0]]) + Bare(p[1..])
  }

  lemma {:induction false} BareMatches(p: Text, tail: Text)
    ensures Matches(Bare(p) + tail, p + [PERCENT])
    decreases |p|
  {
    var s, q := Bare(p) + tail, p + [PERCENT];
    if p == [] {
      assert s == tail && q == [PERCENT];
      AnyTail(tail);
    } else {
      BareMatches(p[1..], tail);
      assert q[1..] == p[1..] + [PERCENT];
      if p[0] == PERCENT {
        assert s == Bare(p[1..]) + tail && s[0..] == s;
      } else {
        assert s == [p[0]] + (Bare(p[1..]) + tail) && s[1..] == Bare(p[1..]) + tail;
      }
    }
  }

  /** A pattern that ends in a character matches only strings that end in it. */
  lemma {:induction false} LastCharacter(s: Text, p: Text)
    requires p != [] && p[|p| - 1] != PERCENT && Matches(s, p)
    ensures s != [] && s[|s| - 1] == p[|p| - 1]
    decreases |p|
  {
    if p[0] == PERCENT {
      var k :| 0 <= k <= |s| && Matches(s[k..], p[1..]);
      LastCharacter(s[k..], p[1..]);
    } else if |p| == 1 {
      assert p[1..] == [];
    } else {
      LastCharacter(s[1..], p[1..]);
    }
  }

  /**
   The filter means what the pattern says on every string exactly when the pattern has
   no percent sign or ends in one; otherwise some string that does not match gets in.
   */
  lemma LikeIsExactIff(p: Text)
    ensures (forall s: Text :: Like(s, p) <==> Matches(s, p)) <==> EndsOpen(p)
  {
    hide Like, Matches;
    if EndsOpen(p) {
      forall s: Text ensures Like(s, p) <==> Matches(s, p) { LikeIsMatching(s, p); }
    } else {
      var other: byte := if p[|p| - 1] == 97 then 98 else 97;
      var s := Bare(p) + [other];
      BareMatches(p, [other]);
      ScanIsOpenEnded(s, p);
      if Matches(s, p) { LastCharacter(s, p); }
      assert Like(s, p) && !Matches(s, p);
    }
  }
}
