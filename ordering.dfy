/**
 * The two orderings the scripts rely on: Python's comparison of `str` values
 * (used by `min`, `max` and by sorting on `start_date`) and the stable sort of
 * `list.sort` / `sorted` with `reverse=True`, which puts greater keys first and
 * keeps elements with equal keys in their original order.
 */
module Ordering {

  // ---------------------------------------------------------------------------
  // Python string comparison
  // ---------------------------------------------------------------------------

  /** `a <= b` on Python strings: code point by code point, a prefix first. */
  predicate LexLe(a: string, b: string)
  {
    if a == [] then true
    else if b == [] then false
    else if a[0] != b[0] then a[0] < b[0]
    else LexLe(a[1..], b[1..])
  }

  lemma {:induction false} LexLeReflexive(a: string)
    ensures LexLe(a, a)
  {
    if a != [] {
      LexLeReflexive(a[1..]);
    }
  }

  lemma {:induction false} LexLeTotal(a: string, b: string)
    ensures LexLe(a, b) || LexLe(b, a)
  {
    if a != [] && b != [] && a[0] == b[0] {
      LexLeTotal(a[1..], b[1..]);
    }
  }

  lemma {:induction false} LexLeTransitive(a: string, b: string, c: string)
    requires LexLe(a, b) && LexLe(b, c)
    ensures LexLe(a, c)
  {
    if a != [] && b != [] && c != [] && a[0] == b[0] && b[0] == c[0] {
      LexLeTransitive(a[1..], b[1..], c[1..]);
    }
  }

  lemma {:induction false} LexLeAntisymmetric(a: string, b: string)
    requires LexLe(a, b) && LexLe(b, a)
    ensures a == b
  {
    if a != [] && b != [] {
      LexLeAntisymmetric(a[1..], b[1..]);
      assert a == [a[0]] + a[1..];
      assert b == [b[0]] + b[1..];
    }
  }

  // ---------------------------------------------------------------------------
  // Stable sort, greatest first
  // ---------------------------------------------------------------------------

  /**
   * `geq(x, y)` says that the key of `x` is at least the key of `y`: `x` may
   * stand before `y` in a list sorted with `reverse=True`.
   */
  ghost predicate TotalPreorder<T(!new)>(geq: (T, T) -> bool)
  {
    Total(geq) && Transitive(geq)
  }

  ghost predicate Total<T(!new)>(geq: (T, T) -> bool)
  {
    forall x, y :: geq(x, y) || geq(y, x)
  }

  ghost predicate Transitive<T(!new)>(geq: (T, T) -> bool)
  {
    forall x, y, z :: geq(x, y) && geq(y, z) ==> geq(x, z)
  }

  /** Non-increasing by `geq`: every element may stand before every later one. */
  ghost predicate SortedBy<T>(s: seq<T>, geq: (T, T) -> bool)
  {
    forall i, j :: 0 <= i < j < |s| ==> geq(s[i], s[j])
  }

  /** Equal keys. */
  predicate Tied<T>(x: T, y: T, geq: (T, T) -> bool)
  {
    geq(x, y) && geq(y, x)
  }

  /** The elements of `s` whose key equals the key of `e`, in their order in `s`. */
  function Cohort<T>(s: seq<T>, e: T, geq: (T, T) -> bool): seq<T>
  {
    if s == [] then []
    else (if Tied(s[0], e, geq) then [s[0]] else []) + Cohort(s[1..], e, geq)
  }

  /** Stability: every run of equal keys keeps the order it had in the input. */
  ghost predicate StableFor<T(!new)>(out: seq<T>, input: seq<T>, geq: (T, T) -> bool)
  {
    forall e :: Cohort(out, e, geq) == Cohort(input, e, geq)
  }

  /** Puts `x` before the first element whose key is not greater than its own. */
  function Insert<T>(x: T, s: seq<T>, geq: (T, T) -> bool): seq<T>
  {
    if s == [] then [x]
    else if geq(x, s[0]) then [x] + s
    else [s[0]] + Insert(x, s[1..], geq)
  }

  /**
   * The list that `sort(key=..., reverse=True)` produces: an insertion sort
   * that inserts each element ahead of the equal keys that follow it in the
   * input. StableSortUnique shows that every stable sort gives this list.
   */
  function SortBy<T>(s: seq<T>, geq: (T, T) -> bool): seq<T>
  {
    if s == [] then [] else Insert(s[0], SortBy(s[1..], geq), geq)
  }

  lemma {:induction false} InsertPermutes<T>(x: T, s: seq<T>, geq: (T, T) -> bool)
    ensures multiset(Insert(x, s, geq)) == multiset(s) + multiset{x}
  {
    if s != [] && !geq(x, s[0]) {
      InsertPermutes(x, s[1..], geq);
      assert s == [s[0]] + s[1..];
    }
  }

  lemma {:induction false} InsertSorted<T(!new)>(x: T, s: seq<T>, geq: (T, T) -> bool)
    requires TotalPreorder(geq)
    requires SortedBy(s, geq)
    ensures SortedBy(Insert(x, s, geq), geq)
  {
    if s != [] && !geq(x, s[0]) {
      InsertSorted(x, s[1..], geq);
      InsertPermutes(x, s[1..], geq);
      var r := Insert(x, s[1..], geq);
      forall k | 0 <= k < |r|
        ensures geq(s[0], r[k])
      {
        assert r[k] in multiset(r);
        assert r[k] in multiset(s[1..]) + multiset{x};
        if r[k] != x {
          assert r[k] in s[1..];
        }
      }
    }
  }

  lemma {:induction false} SortByPermutes<T>(s: seq<T>, geq: (T, T) -> bool)
    ensures multiset(SortBy(s, geq)) == multiset(s)
  {
    if s != [] {
      SortByPermutes(s[1..], geq);
      InsertPermutes(s[0], SortBy(s[1..], geq), geq);
      assert s == [s[0]] + s[1..];
    }
  }

  lemma {:induction false} SortBySorted<T(!new)>(s: seq<T>, geq: (T, T) -> bool)
    requires TotalPreorder(geq)
    ensures SortedBy(SortBy(s, geq), geq)
  {
    if s != [] {
      SortBySorted(s[1..], geq);
      InsertSorted(s[0], SortBy(s[1..], geq), geq);
    }
  }

  lemma {:induction false} CohortAppend<T>(a: seq<T>, b: seq<T>, e: T, geq: (T, T) -> bool)
    ensures Cohort(a + b, e, geq) == Cohort(a, e, geq) + Cohort(b, e, geq)
  {
    if a == [] {
      assert a + b == b;
    } else {
      var head := if Tied(a[0], e, geq) then [a[0]] else [];
      assert Cohort(a + b, e, geq) == head + Cohort(a[1..] + b, e, geq) by {
        assert (a + b)[0] == a[0];
        assert (a + b)[1..] == a[1..] + b;
      }
      CohortAppend(a[1..], b, e, geq);
      assert Cohort(a, e, geq) == head + Cohort(a[1..], e, geq);
    }
  }

  lemma {:induction false} CohortInsert<T(!new)>(x: T, s: seq<T>, e: T, geq: (T, T) -> bool)
    requires Transitive(geq)
    ensures Cohort(Insert(x, s, geq), e, geq)
         == (if Tied(x, e, geq) then [x] else []) + Cohort(s, e, geq)
  {
    if s == [] {
      assert Insert(x, s, geq) == [x];
    } else if geq(x, s[0]) {
      assert Insert(x, s, geq) == [x] + s;
      assert ([x] + s)[1..] == s;
    } else {
      var r := Insert(x, s[1..], geq);
      assert Insert(x, s, geq) == [s[0]] + r;
      CohortInsert(x, s[1..], e, geq);
      assert ([s[0]] + r)[1..] == r;
      var hs := if Tied(s[0], e, geq) then [s[0]] else [];
      var hx := if Tied(x, e, geq) then [x] else [];
      assert Cohort([s[0]] + r, e, geq) == hs + Cohort(r, e, geq);
      assert Cohort(s, e, geq) == hs + Cohort(s[1..], e, geq);
      assert hs == [] || hx == [];
    }
  }

  lemma {:induction false} SortByStable<T(!new)>(s: seq<T>, geq: (T, T) -> bool)
    requires TotalPreorder(geq)
    ensures StableFor(SortBy(s, geq), s, geq)
  {
    if s != [] {
      SortByStable(s[1..], geq);
      forall e
        ensures Cohort(SortBy(s, geq), e, geq) == Cohort(s, e, geq)
      {
        CohortInsert(s[0], SortBy(s[1..], geq), e, geq);
      }
    }
  }

  lemma {:induction false} CohortMember<T>(s: seq<T>, e: T, geq: (T, T) -> bool, y: T)
    requires y in Cohort(s, e, geq)
    ensures y in s && Tied(y, e, geq)
  {
    if s != [] && !(Tied(s[0], e, geq) && y == s[0]) {
      CohortMember(s[1..], e, geq, y);
    }
  }

  lemma {:induction false} CohortOfHead<T(!new)>(s: seq<T>, geq: (T, T) -> bool)
    requires TotalPreorder(geq)
    requires s != []
    ensures Cohort(s, s[0], geq) != [] && Cohort(s, s[0], geq)[0] == s[0]
  {
    assert geq(s[0], s[0]);
  }

  /** The head of a sorted list has a key at least that of any member. */
  lemma HeadIsGreatest<T>(s: seq<T>, geq: (T, T) -> bool, y: T)
    requires SortedBy(s, geq) && y in s && geq(y, y)
    ensures geq(s[0], y)
  {
    var i :| 0 <= i < |s| && s[i] == y;
    if i > 0 {
      assert geq(s[0], s[i]);
    }
  }

  lemma {:induction false} CohortTails<T>(a: seq<T>, b: seq<T>, geq: (T, T) -> bool)
    requires a != [] && b != [] && a[0] == b[0]
    requires forall e :: Cohort(a, e, geq) == Cohort(b, e, geq)
    ensures forall e :: Cohort(a[1..], e, geq) == Cohort(b[1..], e, geq)
  {
    forall e
      ensures Cohort(a[1..], e, geq) == Cohort(b[1..], e, geq)
    {
      assert Cohort(a, e, geq) == Cohort(b, e, geq);
      var h := if Tied(a[0], e, geq) then [a[0]] else [];
      assert Cohort(a, e, geq) == h + Cohort(a[1..], e, geq);
      assert Cohort(b, e, geq) == h + Cohort(b[1..], e, geq);
      assert (h + Cohort(a[1..], e, geq))[|h|..] == Cohort(a[1..], e, geq);
      assert (h + Cohort(b[1..], e, geq))[|h|..] == Cohort(b[1..], e, geq);
    }
  }

  lemma SameHead<T(!new)>(a: seq<T>, b: seq<T>, geq: (T, T) -> bool)
    requires TotalPreorder(geq)
    requires SortedBy(a, geq) && SortedBy(b, geq)
    requires a != [] && b != []
    requires forall e :: Cohort(a, e, geq) == Cohort(b, e, geq)
    ensures a[0] == b[0]
  {
    CohortOfHead(a, geq);
    CohortOfHead(b, geq);
    var ca := Cohort(a, a[0], geq);
    var cb := Cohort(b, b[0], geq);
    assert ca == Cohort(b, a[0], geq);
    assert cb == Cohort(a, b[0], geq);
    CohortMember(b, a[0], geq, a[0]);
    CohortMember(a, b[0], geq, b[0]);
    HeadIsGreatest(b, geq, a[0]);
    HeadIsGreatest(a, geq, b[0]);
    assert Tied(b[0], a[0], geq);
    assert Cohort(b, a[0], geq)[0] == b[0];
  }

  /**
   * A list that is sorted and stable with respect to `input` is determined
   * by `input` alone, so SortBy agrees with every stable sort.
   */
  lemma {:induction false} StableSortUnique<T(!new)>(a: seq<T>, b: seq<T>, geq: (T, T) -> bool)
    requires TotalPreorder(geq)
    requires SortedBy(a, geq) && SortedBy(b, geq)
    requires forall e :: Cohort(a, e, geq) == Cohort(b, e, geq)
    ensures a == b
  {
    if a == [] && b != [] {
      CohortOfHead(b, geq);
    } else if a != [] && b == [] {
      CohortOfHead(a, geq);
    } else if a != [] {
      SameHead(a, b, geq);
      CohortTails(a, b, geq);
      assert SortedBy(a[1..], geq) && SortedBy(b[1..], geq);
      StableSortUnique(a[1..], b[1..], geq);
      assert a == [a[0]] + a[1..];
      assert b == [b[0]] + b[1..];
    }
  }

  /** Sorting a list that is already sorted leaves it as it is. */
  lemma {:induction false} SortBySortedIsIdentity<T(!new)>(s: seq<T>, geq: (T, T) -> bool)
    requires SortedBy(s, geq)
    ensures SortBy(s, geq) == s
  {
    if s != [] {
      assert SortedBy(s[1..], geq);
      SortBySortedIsIdentity(s[1..], geq);
      if |s| > 1 {
        assert geq(s[0], s[1]);
      }
      assert s == [s[0]] + s[1..];
    }
  }
}
