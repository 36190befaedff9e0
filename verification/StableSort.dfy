/**
 What the standard library's stable sort promises, and that this promise leaves it no
 choice: any two stable sorts of the same rows by the same order give the same list.
 */
module StableSort {
  import opened ValueOrder

  /** A comparison that a sort can rely on: reflexive, consistent both ways, transitive. */
  ghost predicate Preorder<T(!new)>(cmp: (T, T) -> Ordering) {
    && (forall a :: cmp(a, a) == Equal)
    && (forall a, b :: cmp(b, a) == Reverse(cmp(a, b)))
    && (forall a, b, c :: cmp(a, b) != Greater && cmp(b, c) != Greater ==> cmp(a, c) != Greater)
  }

  predicate Sorted<T>(cmp: (T, T) -> Ordering, s: seq<T>) {
    forall i, j :: 0 <= i < j < |s| ==> cmp(s[i], s[j]) != Greater
  }

  /** The elements that compare equal to `x`, in their order. */
  function Class<T>(cmp: (T, T) -> Ordering, s: seq<T>, x: T): seq<T> {
    if s == [] then [] else (if cmp(s[0], x) == Equal then [s[0]] else []) + Class(cmp, s[1..], x)
  }

  /** Sorted, with equal elements kept in the order they came in. */
  ghost predicate StableSorted<T(!new)>(cmp: (T, T) -> Ordering, s: seq<T>, t: seq<T>) {
    Sorted(cmp, t) && forall x :: Class(cmp, t, x) == Class(cmp, s, x)
  }

  function Insert<T>(cmp: (T, T) -> Ordering, x: T, s: seq<T>): seq<T> {
    if s == [] || cmp(x, s[0]) != Greater then [x] + s else [s[0]] + Insert(cmp, x, s[1..])
  }

  function Sort<T>(cmp: (T, T) -> Ordering, s: seq<T>): seq<T> {
    if s == [] then [] else Insert(cmp, s[0], Sort(cmp, s[1..]))
  }

  lemma SortOne<T>(cmp: (T, T) -> Ordering, s: seq<T>)
    requires |s| == 1
    ensures Sort(cmp, s) == s
  {
    assert s[1..] == [];
  }

  // ------------------------------------------------------------- it is one

  lemma {:induction false} InsertClass<T(!new)>(cmp: (T, T) -> Ordering, x: T, s: seq<T>, y: T)
    requires Preorder(cmp)
    ensures Class(cmp, Insert(cmp, x, s), y) == Class(cmp, [x] + s, y)
  {
    if s != [] && cmp(x, s[0]) == Greater {
      InsertClass(cmp, x, s[1..], y);
      assert (([x] + s)[1..]) == s && ([x] + s[1..])[1..] == s[1..];
      var t := Insert(cmp, x, s);
      assert t[0] == s[0] && t[1..] == Insert(cmp, x, s[1..]);
      NotBothEqual(cmp, x, s[0], y);
    }
  }

  lemma NotBothEqual<T(!new)>(cmp: (T, T) -> Ordering, a: T, b: T, y: T)
    requires Preorder(cmp) && cmp(a, b) == Greater
    ensures !(cmp(a, y) == Equal && cmp(b, y) == Equal)
  {
    assert cmp(y, b) == Reverse(cmp(b, y));
  }

  lemma {:induction false} InsertMembers<T>(cmp: (T, T) -> Ordering, x: T, s: seq<T>)
    ensures multiset(Insert(cmp, x, s)) == multiset(s) + multiset{x}
  {
    if s != [] && cmp(x, s[0]) == Greater {
      InsertMembers(cmp, x, s[1..]);
      assert s == [s[0]] + s[1..];
    }
  }

  lemma SortedCons<T>(cmp: (T, T) -> Ordering, x: T, s: seq<T>)
    requires Sorted(cmp, s) && forall y :: y in s ==> cmp(x, y) != Greater
    ensures Sorted(cmp, [x] + s)
  {
  }

  lemma {:induction false} InsertSorted<T(!new)>(cmp: (T, T) -> Ordering, x: T, s: seq<T>)
    requires Preorder(cmp) && Sorted(cmp, s)
    ensures Sorted(cmp, Insert(cmp, x, s))
  {
    if s == [] {
    } else if cmp(x, s[0]) != Greater {
      forall y | y in s ensures cmp(x, y) != Greater {
        var k :| 0 <= k < |s| && s[k] == y;
        assert k > 0 ==> cmp(s[0], s[k]) != Greater;
      }
      SortedCons(cmp, x, s);
    } else {
      var rest := Insert(cmp, x, s[1..]);
      InsertSorted(cmp, x, s[1..]);
      InsertMembers(cmp, x, s[1..]);
      forall y | y in rest ensures cmp(s[0], y) != Greater {
        assert y in multiset(rest);
        if y != x {
          assert y in s[1..];
          var k :| 0 <= k < |s[1..]| && s[1..][k] == y;
          assert cmp(s[0], s[k + 1]) != Greater;
        } else {
          assert cmp(s[0], x) == Less;
        }
      }
      SortedCons(cmp, s[0], rest);
    }
  }

  lemma {:induction false} SortIsStable<T(!new)>(cmp: (T, T) -> Ordering, s: seq<T>)
    requires Preorder(cmp)
    ensures StableSorted(cmp, s, Sort(cmp, s)) && multiset(Sort(cmp, s)) == multiset(s)
  {
    if s != [] {
      SortIsStable(cmp, s[1..]);
      var rest := Sort(cmp, s[1..]);
      InsertSorted(cmp, s[0], rest);
      InsertMembers(cmp, s[0], rest);
      assert s == [s[0]] + s[1..];
      forall x ensures Class(cmp, Sort(cmp, s), x) == Class(cmp, s, x) {
        InsertClass(cmp, s[0], rest, x);
        assert ([s[0]] + rest)[1..] == rest;
      }
    }
  }

  // ------------------------------------------------------ and the only one

  lemma {:induction false} ClassMember<T(!new)>(cmp: (T, T) -> Ordering, s: seq<T>, x: T, k: nat)
    requires k < |s| && cmp(s[k], x) == Equal
    ensures s[k] in Class(cmp, s, x)
  {
    if k > 0 { ClassMember(cmp, s[1..], x, k - 1); }
  }

  lemma {:induction false} ClassIsThere<T(!new)>(cmp: (T, T) -> Ordering, s: seq<T>, x: T) returns (k: nat)
    requires Class(cmp, s, x) != []
    ensures k < |s| && cmp(s[k], x) == Equal
  {
    if cmp(s[0], x) == Equal {
      k := 0;
    } else {
      k := ClassIsThere(cmp, s[1..], x);
      k := k + 1;
    }
  }

  /** The first element of one stable sort is no greater than the first of another. */
  lemma HeadNoGreater<T(!new)>(cmp: (T, T) -> Ordering, t: seq<T>, u: seq<T>)
    requires Preorder(cmp) && t != [] && u != []
    requires Sorted(cmp, u) && forall x :: Class(cmp, t, x) == Class(cmp, u, x)
    ensures cmp(u[0], t[0]) != Greater
  {
    ClassMember(cmp, t, t[0], 0);
    assert Class(cmp, u, t[0]) != [];
    var k := ClassIsThere(cmp, u, t[0]);
    assert k > 0 ==> cmp(u[0], u[k]) != Greater;
  }

  /** Two lists in order with the same classes are the same list. */
  lemma {:induction false} StableSortUnique<T(!new)>(cmp: (T, T) -> Ordering, t: seq<T>, u: seq<T>)
    requires Preorder(cmp) && Sorted(cmp, t) && Sorted(cmp, u)
    requires forall x :: Class(cmp, t, x) == Class(cmp, u, x)
    ensures t == u
  {
    if t == [] || u == [] {
      if u != [] { ClassMember(cmp, u, u[0], 0); }
      if t != [] { ClassMember(cmp, t, t[0], 0); }
    } else {
      HeadNoGreater(cmp, t, u);
      HeadNoGreater(cmp, u, t);
      var x := t[0];
      assert cmp(u[0], x) == Equal;
      assert Class(cmp, t, x)[0] == t[0] && Class(cmp, u, x)[0] == u[0];
      forall y ensures Class(cmp, t[1..], y) == Class(cmp, u[1..], y) {
        assert Class(cmp, t, y) == Class(cmp, u, y);
        var head := if cmp(t[0], y) == Equal then [t[0]] else [];
        assert Class(cmp, t[1..], y) == Class(cmp, t, y)[|head|..];
        assert Class(cmp, u[1..], y) == Class(cmp, u, y)[|head|..];
      }
      StableSortUnique(cmp, t[1..], u[1..]);
      assert t == [t[0]] + t[1..] && u == [u[0]] + u[1..];
    }
  }

  /** Whatever the sort does inside, a stable sort of `s` is this one. */
  lemma AnyStableSortIsSort<T(!new)>(cmp: (T, T) -> Ordering, s: seq<T>, t: seq<T>)
    requires Preorder(cmp) && StableSorted(cmp, s, t)
    ensures t == Sort(cmp, s)
  {
    SortIsStable(cmp, s);
    StableSortUnique(cmp, t, Sort(cmp, s));
  }
}
