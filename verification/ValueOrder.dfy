/**
 The order on values: null first, then by variant, then by content. Floats are ordered
 by their raw bits, JSON by its text, which `render` gives.
 */
module ValueOrder {
  import opened Types
  import opened Calendar

  datatype Ordering = Less | Equal | Greater

  function Reverse(o: Ordering): Ordering {
    match o case Less => Greater case Equal => Equal case Greater => Less
  }

  function CmpInt(a: int, b: int): Ordering { if a < b then Less else if a == b then Equal else Greater }

  function CmpBytes(a: seq<byte>, b: seq<byte>): Ordering {
    if a == [] || b == [] then CmpInt(|a|, |b|)
    else if a[0] == b[0] then CmpBytes(a[1..], b[1..])
    else CmpInt(a[0] as int, b[0] as int)
  }

  function CmpDate(a: Civil, b: Civil): Ordering {
    if a.y != b.y then CmpInt(a.y, b.y) else if a.m != b.m then CmpInt(a.m, b.m) else CmpInt(a.d, b.d)
  }

  function Bit(b: bool): int { if b then 1 else 0 }

  function Index(v: Value): int {
    match v
    case Boolean(_) => 0
    case Int8(_) => 1
    case Int16(_) => 2
    case Int32(_) => 3
    case Int64(_) => 4
    case UInt8(_) => 5
    case UInt16(_) => 6
    case UInt32(_) => 7
    case UInt64(_) => 8
    case Float32(_) => 9
    case Float64(_) => 10
    case Decimal(_) => 11
    case String(_) => 12
    case Bytes(_) => 13
    case Uuid(_) => 14
    case Timestamp(_) => 15
    case Date(_) => 16
    case JsonV(_) => 17
    case Array(_) => 18
    case Null => 19
  }

  function Cmp(render: Json -> Text, a: Value, b: Value): Ordering
    decreases a
  {
    if a.Null? && b.Null? then Equal
    else if a.Null? then Less
    else if b.Null? then Greater
    else if Index(a) != Index(b) then CmpInt(Index(a), Index(b))
    else match a
      case Boolean(x) => CmpInt(Bit(x), Bit(b.b))
      case Int8(x) => CmpInt(x, b.i8)
      case Int16(x) => CmpInt(x, b.i16)
      case Int32(x) => CmpInt(x, b.i32)
      case Int64(x) => CmpInt(x, b.i64)
      case UInt8(x) => CmpInt(x, b.u8)
      case UInt16(x) => CmpInt(x, b.u16)
      case UInt32(x) => CmpInt(x, b.u32)
      case UInt64(x) => CmpInt(x, b.u64)
      case Float32(x) => CmpInt(x, b.f32)
      case Float64(x) => CmpInt(x, b.f64)
      case Decimal(x) => CmpBytes(x, b.dec)
      case String(x) => CmpBytes(x, b.s)
      case Bytes(x) => CmpBytes(x, b.raw)
      case Uuid(x) => CmpBytes(x, b.uuid)
      case Timestamp(x) => CmpInt(x, b.micros)
      case Date(x) => CmpDate(x, b.date)
      case JsonV(x) => CmpBytes(render(x), render(b.j))
      case Array(xs) => CmpList(render, xs, b.items)
      case Null => Equal
  }

  /** Element by element, then by length. */
  function CmpList(render: Json -> Text, xs: seq<Value>, ys: seq<Value>): Ordering
    decreases xs
  {
    if xs == [] || ys == [] then CmpInt(|xs|, |ys|) else
    var c := Cmp(render, xs[0], ys[0]);
    if c == Equal then CmpList(render, xs[1..], ys[1..]) else c
  }

  // ------------------------------------------------------- a strict total order

  ghost predicate Lossless(render: Json -> Text) {
    forall x: Json, y: Json :: render(x) == render(y) ==> x == y
  }

  /** What `Cmp` says of three values taken together. */
  predicate Lawful(ab: Ordering, ba: Ordering, bc: Ordering, ac: Ordering, same: bool) {
    && (ab == Equal <==> same)
    && ba == Reverse(ab)
    && (ab == bc == Less ==> ac == Less)
    && (ab == Equal ==> ac == bc)
    && (bc == Equal ==> ac == ab)
  }

  lemma {:induction false} BytesLawful(a: seq<byte>, b: seq<byte>, c: seq<byte>)
    ensures Lawful(CmpBytes(a, b), CmpBytes(b, a), CmpBytes(b, c), CmpBytes(a, c), a == b)
    decreases |a| + |b| + |c|
  {
    if a == [] || b == [] || c == [] {
      if a == b || b == c { BytesEqual(b, c); }
      if a != [] && b != [] { BytesLawfulPair(a, b); }
    } else {
      assert a == [a[0]] + a[1..] && b == [b[0]] + b[1..];
      BytesLawful(a[1..], b[1..], c[1..]);
      BytesEqual(b, c);
    }
  }

  lemma {:induction false} BytesEqual(a: seq<byte>, b: seq<byte>)
    ensures CmpBytes(a, b) == Equal <==> a == b
  {
    if a != [] && b != [] {
      assert a == [a[0]] + a[1..] && b == [b[0]] + b[1..];
      BytesEqual(a[1..], b[1..]);
    }
  }

  lemma {:induction false} BytesLawfulPair(a: seq<byte>, b: seq<byte>)
    ensures CmpBytes(b, a) == Reverse(CmpBytes(a, b)) && (CmpBytes(a, b) == Equal <==> a == b)
  {
    if a != [] && b != [] {
      assert a == [a[0]] + a[1..] && b == [b[0]] + b[1..];
      BytesLawfulPair(a[1..], b[1..]);
    }
  }

  /** Neither null nor an array. */
  predicate Plain(v: Value) { !v.Null? && !v.Array? }

  /** Values ordered as bytes: text of all kinds, and JSON by its text. */
  predicate IsBytes(v: Value) { v.Decimal? || v.String? || v.Bytes? || v.Uuid? || v.JsonV? }

  function Content(render: Json -> Text, v: Value): seq<byte>
    requires IsBytes(v)
  {
    match v
    case Decimal(s) => s
    case String(s) => s
    case Bytes(raw) => raw
    case Uuid(raw) => raw
    case JsonV(j) => render(j)
  }

  function Number(v: Value): int
    requires Plain(v) && !IsBytes(v) && !v.Date?
  {
    match v
    case Boolean(x) => Bit(x)
    case Int8(x) => x
    case Int16(x) => x
    case Int32(x) => x
    case Int64(x) => x
    case UInt8(x) => x
    case UInt16(x) => x
    case UInt32(x) => x
    case UInt64(x) => x
    case Float32(x) => x
    case Float64(x) => x
    case Timestamp(x) => x
  }

  lemma BytesCmp(render: Json -> Text, a: Value, b: Value)
    requires Lossless(render) && IsBytes(a) && Index(a) == Index(b)
    ensures IsBytes(b) && Cmp(render, a, b) == CmpBytes(Content(render, a), Content(render, b))
    ensures a == b <==> Content(render, a) == Content(render, b)
  {
    hide CmpBytes;
  }

  lemma NumberCmp(render: Json -> Text, a: Value, b: Value)
    requires Plain(a) && !IsBytes(a) && !a.Date? && Index(a) == Index(b)
    ensures Plain(b) && !IsBytes(b) && !b.Date? && Cmp(render, a, b) == CmpInt(Number(a), Number(b))
    ensures a == b <==> Number(a) == Number(b)
  {
    hide CmpInt;
  }

  lemma PlainLawful(render: Json -> Text, a: Value, b: Value, c: Value)
    requires Lossless(render) && Plain(a) && Index(a) == Index(b) == Index(c)
    ensures Lawful(Cmp(render, a, b), Cmp(render, b, a), Cmp(render, b, c), Cmp(render, a, c), a == b)
  {
    if a.Date? {
      hide CmpBytes;
    } else if IsBytes(a) {
      hide *;
      BytesCmp(render, a, b);
      BytesCmp(render, b, a);
      BytesCmp(render, b, c);
      BytesCmp(render, a, c);
      BytesLawful(Content(render, a), Content(render, b), Content(render, c));
    } else {
      hide Cmp;
      NumberCmp(render, a, b);
      NumberCmp(render, b, a);
      NumberCmp(render, b, c);
      NumberCmp(render, a, c);
    }
  }

  /** Null below everything, then the variants in their order. */
  function Rank(v: Value): int { if v.Null? then -1 else Index(v) }

  lemma RankCmp(render: Json -> Text, a: Value, b: Value)
    ensures Rank(a) != Rank(b) ==> Cmp(render, a, b) == CmpInt(Rank(a), Rank(b))
    ensures Rank(a) == Rank(b) == -1 ==> Cmp(render, a, b) == Equal && a == b
    ensures a.Array? && b.Array? ==> Cmp(render, a, b) == CmpList(render, a.items, b.items)
    ensures Rank(a) == Rank(b) ==> a.Array? == b.Array? && Plain(a) == Plain(b) && Index(a) == Index(b)
    ensures a.Array? || Plain(a) || Rank(a) == -1
  {
    hide CmpBytes, CmpDate, CmpList;
  }

  lemma {:induction false} CmpLawful(render: Json -> Text, a: Value, b: Value, c: Value)
    requires Lossless(render)
    ensures Lawful(Cmp(render, a, b), Cmp(render, b, a), Cmp(render, b, c), Cmp(render, a, c), a == b)
    decreases a
  {
    hide Cmp, CmpList, Plain, Rank, Index;
    RankCmp(render, a, b);
    RankCmp(render, b, a);
    RankCmp(render, b, c);
    RankCmp(render, a, c);
    if Rank(a) == Rank(b) {
      var c' := if Rank(b) == Rank(c) then c else b;
      if a.Array? { ListLawful(render, a.items, b.items, c'.items); }
      if Plain(a) { PlainLawful(render, a, b, c'); }
    }
  }

  lemma {:induction false} ListLawful(render: Json -> Text, a: seq<Value>, b: seq<Value>, c: seq<Value>)
    requires Lossless(render)
    ensures Lawful(CmpList(render, a, b), CmpList(render, b, a), CmpList(render, b, c), CmpList(render, a, c), a == b)
    decreases a
  {
    hide Cmp;
    if a != [] && b != [] {
      assert a == [a[0]] + a[1..] && b == [b[0]] + b[1..];
      CmpLawful(render, a[0], b[0], if c != [] then c[0] else b[0]);
      ListLawful(render, a[1..], b[1..], if c != [] then c[1..] else b[1..]);
    }
  }

  // ------------------------------------------------------- which way it goes

  /** A proper prefix comes first. */
  lemma {:induction false} PrefixIsLess(a: seq<byte>, b: seq<byte>)
    requires a < b
    ensures CmpBytes(a, b) == Less
  {
    if a != [] { PrefixIsLess(a[1..], b[1..]); }
  }

  lemma {:induction false} PrefixListIsLess(render: Json -> Text, a: seq<Value>, b: seq<Value>)
    requires Lossless(render) && a < b
    ensures CmpList(render, a, b) == Less
  {
    hide Cmp;
    if a != [] {
      CmpLawful(render, a[0], b[0], b[0]);
      PrefixListIsLess(render, a[1..], b[1..]);
    }
  }

  /** Null below everything else, integers by size, texts by their first different byte. */
  lemma Direction(render: Json -> Text, v: Value, m: I64, n: I64, p: Text, x: byte, y: byte, q: Text, t: Text)
    requires v != Null && m < n && x < y
    ensures Cmp(render, Null, v) == Less && Cmp(render, Int64(m), Int64(n)) == Less
    ensures Cmp(render, String(p + [x] + q), String(p + [y] + t)) == Less
  {
    FirstDifference(p, x, y, q, t);
  }

  /** Within a type numbers go by size: integers of any width, instants, the bits of floats, false before true. */
  lemma SameTypeBySize(render: Json -> Text, m: int, n: int)
    requires m < n
    ensures -0x80 <= m && n < 0x80 ==> Cmp(render, Int8(m), Int8(n)) == Less
    ensures -0x8000 <= m && n < 0x8000 ==> Cmp(render, Int16(m), Int16(n)) == Less
    ensures -0x8000_0000 <= m && n < 0x8000_0000 ==> Cmp(render, Int32(m), Int32(n)) == Less
    ensures 0 <= m && n < 0x100 ==> Cmp(render, UInt8(m), UInt8(n)) == Less
    ensures 0 <= m && n < 0x1_0000 ==> Cmp(render, UInt16(m), UInt16(n)) == Less
    ensures 0 <= m && n < 0x1_0000_0000 ==>
              Cmp(render, UInt32(m), UInt32(n)) == Less && Cmp(render, Float32(m), Float32(n)) == Less
    ensures 0 <= m && n < 0x1_0000_0000_0000_0000 ==>
              Cmp(render, UInt64(m), UInt64(n)) == Less && Cmp(render, Float64(m), Float64(n)) == Less
    ensures -0x8000_0000_0000_0000 <= m && n < 0x8000_0000_0000_0000 ==>
              Cmp(render, Int64(m), Int64(n)) == Less && Cmp(render, Timestamp(m), Timestamp(n)) == Less
    ensures Cmp(render, Boolean(false), Boolean(true)) == Less
  {
  }

  /** Bytes, uuids, decimals and JSON go by the first byte that differs, JSON in its text. */
  lemma SameTypeByText(render: Json -> Text, p: seq<byte>, x: byte, y: byte, q: seq<byte>, t: seq<byte>,
                       a: Json, b: Json)
    requires x < y
    ensures var s, u := p + [x] + q, p + [y] + t;
      && Cmp(render, Bytes(s), Bytes(u)) == Less && Cmp(render, Uuid(s), Uuid(u)) == Less
      && Cmp(render, Decimal(s), Decimal(u)) == Less
      && (render(a) == s && render(b) == u ==> Cmp(render, JsonV(a), JsonV(b)) == Less)
  {
    FirstDifference(p, x, y, q, t);
  }

  /** Lists go by the first item that differs. */
  lemma {:induction false} FirstItemDecides(render: Json -> Text, p: seq<Value>, x: Value, y: Value,
                                            q: seq<Value>, t: seq<Value>)
    requires Lossless(render) && x != y
    ensures CmpList(render, p + [x] + q, p + [y] + t) == Cmp(render, x, y)
    decreases |p|
  {
    hide Cmp;
    if p == [] {
      CmpLawful(render, x, y, y);
      assert p + [x] + q == [x] + q && p + [y] + t == [y] + t;
    } else {
      CmpLawful(render, p[0], p[0], p[0]);
      assert (p + [x] + q)[1..] == p[1..] + [x] + q && (p + [y] + t)[1..] == p[1..] + [y] + t;
      FirstItemDecides(render, p[1..], x, y, q, t);
    }
  }

  /** A text comes before every longer text that it starts. */
  lemma {:induction false} PrefixTextIsLess(p: Text, q: Text)
    requires q != []
    ensures CmpBytes(p, p + q) == Less
  {
    if p != [] {
      assert (p + q)[1..] == p[1..] + q;
      PrefixTextIsLess(p[1..], q);
    }
  }

  /** A day earlier in the calendar is less. */
  lemma EarlierDateIsLess(render: Json -> Text, a: Civil, b: Civil)
    requires ValidDate(a) && ValidDate(b)
    ensures Cmp(render, Date(a), Date(b)) == Less <==> NumDaysFromCe(a) < NumDaysFromCe(b)
  {
    DateOrder(a, b);
    DateOrder(b, a);
  }

  lemma DateOrder(a: Civil, b: Civil)
    requires ValidDate(a) && ValidDate(b)
    ensures CmpDate(a, b) == Less ==> NumDaysFromCe(a) < NumDaysFromCe(b)
    ensures CmpDate(a, b) == Equal ==> a == b
    ensures CmpDate(b, a) == Reverse(CmpDate(a, b))
  {
    if CmpDate(a, b) == Less { EarlierCountsLess(a, b); }
  }

  /** One value of each type. */
  predicate OneOfEach(vs: seq<Value>) {
    && |vs| == 19
    && vs[0].Boolean? && vs[1].Int8? && vs[2].Int16? && vs[3].Int32? && vs[4].Int64?
    && vs[5].UInt8? && vs[6].UInt16? && vs[7].UInt32? && vs[8].UInt64? && vs[9].Float32? && vs[10].Float64?
    && vs[11].Decimal? && vs[12].String? && vs[13].Bytes? && vs[14].Uuid? && vs[15].Timestamp? && vs[16].Date?
    && vs[17].JsonV? && vs[18].Array?
  }

  /** Values of different types go by type, whatever they hold, in the order of the declaration. */
  lemma TypesInOrder(render: Json -> Text, vs: seq<Value>, i: nat, j: nat)
    requires OneOfEach(vs) && i < j < 19
    ensures Cmp(render, vs[i], vs[j]) == Less
  {
    assert Index(vs[i]) == i && Index(vs[j]) == j;
  }

  lemma {:induction false} FirstDifference(p: Text, x: byte, y: byte, q: Text, t: Text)
    requires x < y
    ensures CmpBytes(p + [x] + q, p + [y] + t) == Less
  {
    if p != [] {
      assert (p + [x] + q)[1..] == p[1..] + [x] + q && (p + [y] + t)[1..] == p[1..] + [y] + t;
      FirstDifference(p[1..], x, y, q, t);
    }
  }
}
