/** Python's `list.sort(key=...)` and `sorted(..., key=...)`: a stable sort by a
    strict weak order `lt` ("the key of a is smaller than the key of b"). The result
    is sorted, a permutation of the input, and keeps elements with equal keys in
    their original relative order; these three facts determine it uniquely. */
module Sorting {
  import opened Wrappers

  /** `lt` behaves like `<` on keys: irreflexive, transitive, and "equal keys"
      (neither is smaller) is transitive. */
  ghost predicate StrictWeakOrder<T(!new)>(lt: (T, T) -> bool) {
    && (forall a :: !lt(a, a))
    && (forall a, b, c :: lt(a, b) && lt(b, c) ==> lt(a, c))
    && (forall a, b, c :: Equiv(a, b, lt) && Equiv(b, c, lt) ==> Equiv(a, c, lt))
  }

  /** Neither key is smaller: the two elements tie. */
  predicate Equiv<T>(a: T, b: T, lt: (T, T) -> bool) {
    !lt(a, b) && !lt(b, a)
  }

  /** No later element has a smaller key than an earlier one. */
  ghost predicate Sorted<T>(s: seq<T>, lt: (T, T) -> bool) {
    forall i, j :: 0 <= i < j < |s| ==> !lt(s[j], s[i])
  }

  /** The elements of `s` that tie with `x`, in their order in `s`. */
  function Ties<T>(s: seq<T>, x: T, lt: (T, T) -> bool): seq<T> {
    if s == [] then [] else (if Equiv(s[0], x, lt) then [s[0]] else []) + Ties(s[1..], x, lt)
  }

  /** Inserts `x` after every element whose key is not larger than its own. */
  function Insert<T>(x: T, s: seq<T>, lt: (T, T) -> bool): (r: seq<T>)
    ensures multiset(r) == multiset(s) + multiset{x}
  {
    if s == [] then [x]
    else if lt(x, s[0]) then [x] + s
    else
      assert s == [s[0]] + s[1..];
      [s[0]] + Insert(x, s[1..], lt)
  }

  /** Stable insertion sort of `s` by `lt`. */
  function SortBy<T>(s: seq<T>, lt: (T, T) -> bool): (r: seq<T>)
    ensures multiset(r) == multiset(s)
  {
    if s == [] then []
    else
      assert s == s[..|s| - 1] + [s[|s| - 1]];
      Insert(s[|s| - 1], SortBy(s[..|s| - 1], lt), lt)
  }

  lemma {:induction false} InsertSorted<T(!new)>(x: T, s: seq<T>, lt: (T, T) -> bool)
    requires StrictWeakOrder(lt) && Sorted(s, lt)
    ensures Sorted(Insert(x, s, lt), lt)
  {
    if s == [] {
      assert Insert(x, s, lt) == [x];
    } else if lt(x, s[0]) {
      forall y | y in s ensures !lt(y, x) {
        var k :| 0 <= k < |s| && s[k] == y;
        assert !lt(s[k], s[0]);
        NotLtThrough(y, x, s[0], lt);
      }
      SortedCons(x, s, lt);
    } else {
      SortedTail(s, lt);
      InsertSorted(x, s[1..], lt);
      var t := Insert(x, s[1..], lt);
      forall y | y in t ensures !lt(y, s[0]) {
        assert y in multiset(t);
        if y != x {
          var k :| 0 <= k < |s[1..]| && s[1..][k] == y;
          assert s[k + 1] == y;
        }
      }
      SortedCons(s[0], t, lt);
    }
  }

  lemma NotLtThrough<T(!new)>(y: T, x: T, b: T, lt: (T, T) -> bool)
    requires StrictWeakOrder(lt) && lt(x, b) && !lt(y, b)
    ensures !lt(y, x)
  {
  }

  /** A sorted list stays sorted behind an element no later element is smaller than. */
  lemma SortedCons<T>(a: T, t: seq<T>, lt: (T, T) -> bool)
    requires Sorted(t, lt) && forall y :: y in t ==> !lt(y, a)
    ensures Sorted([a] + t, lt)
  {
    var r := [a] + t;
    forall i, j | 0 <= i < j < |r| ensures !lt(r[j], r[i]) {
      assert r[j] == t[j - 1];
      if i > 0 {
        assert r[i] == t[i - 1];
      } else {
        assert r[j] in t;
      }
    }
  }

  /** The result of `SortBy` is sorted. */
  lemma {:induction false} SortBySorted<T(!new)>(s: seq<T>, lt: (T, T) -> bool)
    requires StrictWeakOrder(lt)
    ensures Sorted(SortBy(s, lt), lt)
  {
    if s != [] {
      SortBySorted(s[..|s| - 1], lt);
      InsertSorted(s[|s| - 1], SortBy(s[..|s| - 1], lt), lt);
    }
  }

  lemma {:induction false} TiesNone<T(!new)>(s: seq<T>, x: T, lt: (T, T) -> bool)
    requires forall k :: 0 <= k < |s| ==> !Equiv(s[k], x, lt)
    ensures Ties(s, x, lt) == []
  {
    if s != [] {
      assert forall k :: 0 <= k < |s[1..]| ==> s[1..][k] == s[k + 1];
      TiesNone(s[1..], x, lt);
    }
  }

  lemma {:induction false} TiesAppend<T(!new)>(a: seq<T>, b: seq<T>, x: T, lt: (T, T) -> bool)
    ensures Ties(a + b, x, lt) == Ties(a, x, lt) + Ties(b, x, lt)
  {
    if a != [] {
      assert (a + b)[0] == a[0];
      assert (a + b)[1..] == a[1..] + b;
      TiesAppend(a[1..], b, x, lt);
    } else {
      assert a + b == b;
    }
  }

  /** Something smaller than `b` is smaller than anything not smaller than `b`. */
  lemma LtThenNotLt<T(!new)>(a: T, b: T, c: T, lt: (T, T) -> bool)
    requires StrictWeakOrder(lt) && lt(a, b) && !lt(c, b)
    ensures lt(a, c)
  {
    if !lt(a, c) && !lt(c, a) && !lt(b, c) {
      assert Equiv(a, c, lt) && Equiv(c, b, lt);
    }
  }

  /** What is larger than `e` does not tie with anything `e` ties with. */
  lemma TieThrough<T(!new)>(e: T, x: T, y: T, lt: (T, T) -> bool)
    requires StrictWeakOrder(lt) && Equiv(e, x, lt) && lt(e, y)
    ensures !Equiv(y, x, lt)
  {
    assert Equiv(y, x, lt) == Equiv(x, y, lt);
  }

  /** Inserting `e` into a sorted list appends it to the ties of `e` and leaves
      every other tie list unchanged. */
  lemma {:induction false} InsertTies<T(!new)>(e: T, s: seq<T>, x: T, lt: (T, T) -> bool)
    requires StrictWeakOrder(lt) && Sorted(s, lt)
    ensures Ties(Insert(e, s, lt), x, lt)
         == Ties(s, x, lt) + (if Equiv(e, x, lt) then [e] else [])
  {
    var extra := if Equiv(e, x, lt) then [e] else [];
    if s == [] {
      TiesSingle(e, x, lt);
      assert Insert(e, s, lt) == [e];
      assert Ties(s, x, lt) == [];
    } else if lt(e, s[0]) {
      InsertFront(e, s, x, lt);
    } else {
      SortedTail(s, lt);
      InsertTies(e, s[1..], x, lt);
      InsertBehind(e, s, x, lt);
    }
  }

  /** An element not smaller than the first goes behind it. */
  lemma InsertBehind<T>(e: T, s: seq<T>, x: T, lt: (T, T) -> bool)
    requires s != [] && !lt(e, s[0])
    requires Ties(Insert(e, s[1..], lt), x, lt) == Ties(s[1..], x, lt) + (if Equiv(e, x, lt) then [e] else [])
    ensures Ties(Insert(e, s, lt), x, lt) == Ties(s, x, lt) + (if Equiv(e, x, lt) then [e] else [])
  {
    var head := if Equiv(s[0], x, lt) then [s[0]] else [];
    var extra := if Equiv(e, x, lt) then [e] else [];
    assert Insert(e, s, lt) == [s[0]] + Insert(e, s[1..], lt);
    TiesCons(s[0], Insert(e, s[1..], lt), x, lt);
    assert Ties(s, x, lt) == head + Ties(s[1..], x, lt);
    SeqAssoc(head, Ties(s[1..], x, lt), extra);
  }

  /** An element smaller than the first of a sorted list goes in front, and ties
      with nothing in it that ties with `x` unless it comes last among them. */
  lemma InsertFront<T(!new)>(e: T, s: seq<T>, x: T, lt: (T, T) -> bool)
    requires StrictWeakOrder(lt) && Sorted(s, lt) && s != [] && lt(e, s[0])
    ensures Ties(Insert(e, s, lt), x, lt) == Ties(s, x, lt) + (if Equiv(e, x, lt) then [e] else [])
  {
    assert Insert(e, s, lt) == [e] + s;
    TiesCons(e, s, x, lt);
    if Equiv(e, x, lt) {
      forall k | 0 <= k < |s| ensures !Equiv(s[k], x, lt) {
        if k > 0 {
          LtThenNotLt(e, s[0], s[k], lt);
        }
        TieThrough(e, x, s[k], lt);
      }
      TiesNone(s, x, lt);
    } else {
      assert Ties(s, x, lt) + [] == Ties(s, x, lt);
    }
  }

  lemma TiesCons<T>(a: T, t: seq<T>, x: T, lt: (T, T) -> bool)
    ensures Ties([a] + t, x, lt) == (if Equiv(a, x, lt) then [a] else []) + Ties(t, x, lt)
  {
    assert ([a] + t)[1..] == t;
  }

  lemma SortedTail<T>(s: seq<T>, lt: (T, T) -> bool)
    requires Sorted(s, lt) && s != []
    ensures Sorted(s[1..], lt)
  {
    assert forall i :: 0 <= i < |s| - 1 ==> s[1..][i] == s[i + 1];
  }

  /** `SortBy` is stable: the elements that tie with any `x` keep their order. */
  lemma {:induction false} SortByStable<T(!new)>(s: seq<T>, x: T, lt: (T, T) -> bool)
    requires StrictWeakOrder(lt)
    ensures Ties(SortBy(s, lt), x, lt) == Ties(s, x, lt)
  {
    if s != [] {
      var init, last := s[..|s| - 1], s[|s| - 1];
      var sorted := SortBy(init, lt);
      calc {
        Ties(SortBy(s, lt), x, lt);
        Ties(Insert(last, sorted, lt), x, lt);
        { SortBySorted(init, lt); InsertTies(last, sorted, x, lt); }
        Ties(sorted, x, lt) + (if Equiv(last, x, lt) then [last] else []);
        { SortByStable(init, x, lt); }
        Ties(init, x, lt) + (if Equiv(last, x, lt) then [last] else []);
        { TiesSingle(last, x, lt); }
        Ties(init, x, lt) + Ties([last], x, lt);
        { TiesAppend(init, [last], x, lt); assert s == init + [last]; }
        Ties(s, x, lt);
      }
    }
  }

  lemma TiesSingle<T>(y: T, x: T, lt: (T, T) -> bool)
    ensures Ties([y], x, lt) == if Equiv(y, x, lt) then [y] else []
  {
    assert [y][1..] == [];
  }

  /** No element appears twice. */
  predicate Distinct<T(==)>(s: seq<T>) {
    forall i, j :: 0 <= i < j < |s| ==> s[i] != s[j]
  }

  /** Distinct means every element occurs at most once. */
  lemma {:induction false} DistinctMultiset<T>(s: seq<T>)
    ensures Distinct(s) <==> forall x :: multiset(s)[x] <= 1
  {
    if s != [] {
      var rest := s[1..];
      DistinctMultiset(rest);
      assert s == [s[0]] + rest;
      assert multiset(s) == multiset{s[0]} + multiset(rest);
      if Distinct(s) {
        assert forall j :: 0 <= j < |rest| ==> rest[j] == s[j + 1];
        assert s[0] !in rest;
        assert Distinct(rest) by {
          forall i, j | 0 <= i < j < |rest| ensures rest[i] != rest[j] {
            assert rest[i] == s[i + 1] && rest[j] == s[j + 1];
          }
        }
      } else {
        var i, j :| 0 <= i < j < |s| && s[i] == s[j];
        if i == 0 {
          assert s[j] == rest[j - 1];
          assert s[0] in multiset(rest);
          assert multiset(s)[s[0]] >= 2;
        } else {
          assert rest[i - 1] == rest[j - 1];
          assert !Distinct(rest);
          var x :| multiset(rest)[x] > 1;
          assert multiset(s)[x] > 1;
        }
      }
    }
  }

  /** A permutation of a list without repeats has none either. */
  lemma DistinctPerm<T>(a: seq<T>, b: seq<T>)
    requires Distinct(a) && multiset(a) == multiset(b)
    ensures Distinct(b)
  {
    DistinctMultiset(a);
    DistinctMultiset(b);
  }
}
