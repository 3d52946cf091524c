/** Stable sorting, removal of adjacent duplicates, filtering and mapping of sequences. */
module Sorting {

  ghost predicate TotalPreorder<T(!new)>(le: (T, T) -> bool) {
    && (forall a, b :: le(a, b) || le(b, a))
    && (forall a, b, c :: le(a, b) && le(b, c) ==> le(a, c))
  }

  ghost predicate TotalOrder<T(!new)>(le: (T, T) -> bool) {
    TotalPreorder(le) && forall a, b :: le(a, b) && le(b, a) ==> a == b
  }

  ghost predicate Sorted<T>(le: (T, T) -> bool, s: seq<T>) {
    forall i, j :: 0 <= i < j < |s| ==> le(s[i], s[j])
  }

  predicate Distinct<T(==)>(s: seq<T>) {
    forall i, j :: 0 <= i < j < |s| ==> s[i] != s[j]
  }

  function Insert<T>(le: (T, T) -> bool, x: T, s: seq<T>): seq<T> {
    if s == [] || le(x, s[0]) then [x] + s else [s[0]] + Insert(le, x, s[1..])
  }

  /** A stable sort: an element stays before the later ones it is not greater than. */
  function Sort<T>(le: (T, T) -> bool, s: seq<T>): seq<T> {
    if s == [] then [] else Insert(le, s[0], Sort(le, s[1..]))
  }

  /** `dedup`: keeps one of each run of equal neighbours. */
  function Dedup<T(==)>(s: seq<T>): seq<T> {
    if |s| <= 1 then s
    else if s[0] == s[1] then Dedup(s[1..])
    else [s[0]] + Dedup(s[1..])
  }

  /** `retain` */
  function Filter<T>(p: T -> bool, s: seq<T>): seq<T> {
    if s == [] then [] else (if p(s[0]) then [s[0]] else []) + Filter(p, s[1..])
  }

  function Map<T, U>(f: T -> U, s: seq<T>): (r: seq<U>)
    ensures |r| == |s| && forall i :: 0 <= i < |s| ==> r[i] == f(s[i])
  {
    seq(|s|, i requires 0 <= i < |s| => f(s[i]))
  }

  ghost function Elements<T>(s: seq<T>): set<T> {
    set x | x in s
  }

  lemma {:induction false} InsertAdds<T>(le: (T, T) -> bool, x: T, s: seq<T>)
    ensures multiset(Insert(le, x, s)) == multiset(s) + multiset{x}
  {
    if s != [] && !le(x, s[0]) {
      InsertAdds(le, x, s[1..]);
      assert s == [s[0]] + s[1..];
    }
  }

  /** Sorting permutes. */
  lemma {:induction false} SortPermutes<T>(le: (T, T) -> bool, s: seq<T>)
    ensures multiset(Sort(le, s)) == multiset(s)
  {
    if s == [] {
    } else {
      SortPermutes(le, s[1..]);
      InsertAdds(le, s[0], Sort(le, s[1..]));
      assert s == [s[0]] + s[1..];
    }
  }

  lemma PermutationFacts<T>(a: seq<T>, b: seq<T>)
    requires multiset(a) == multiset(b)
    ensures |a| == |b| && forall x :: x in a <==> x in b
  {
    assert |multiset(a)| == |multiset(b)|;
    forall x ensures x in a <==> x in b {
      assert x in a <==> x in multiset(a);
      assert x in b <==> x in multiset(b);
    }
  }

  lemma SortFacts<T>(le: (T, T) -> bool, s: seq<T>)
    ensures |Sort(le, s)| == |s| && forall x :: x in Sort(le, s) <==> x in s
  {
    SortPermutes(le, s);
    PermutationFacts(Sort(le, s), s);
  }

  lemma {:induction false} InsertKeepsSorted<T(!new)>(le: (T, T) -> bool, x: T, s: seq<T>)
    requires TotalPreorder(le) && Sorted(le, s)
    ensures Sorted(le, Insert(le, x, s))
  {
    if s == [] {
    } else if le(x, s[0]) {
      var r := [x] + s;
      forall i, j | 0 <= i < j < |r| ensures le(r[i], r[j]) {
        if i == 0 {
          assert j > 1 ==> le(s[0], s[j - 1]);
        }
      }
    } else {
      InsertKeepsSorted(le, x, s[1..]);
      InsertAdds(le, x, s[1..]);
      var t := Insert(le, x, s[1..]);
      forall y | y in t ensures le(s[0], y) {
        assert y in multiset(t);
        if y != x {
          assert y in s[1..];
        }
      }
    }
  }

  lemma {:induction false} SortSorts<T(!new)>(le: (T, T) -> bool, s: seq<T>)
    requires TotalPreorder(le)
    ensures Sorted(le, Sort(le, s))
  {
    if s == [] {
    } else {
      SortSorts(le, s[1..]);
      InsertKeepsSorted(le, s[0], Sort(le, s[1..]));
    }
  }

  /** A sorted sequence is left alone. */
  lemma {:induction false} SortFixed<T>(le: (T, T) -> bool, s: seq<T>)
    requires Sorted(le, s)
    ensures Sort(le, s) == s
  {
    if s == [] {
    } else {
      SortFixed(le, s[1..]);
      assert |s| > 1 ==> le(s[0], s[1]);
    }
  }

  lemma {:induction false} DedupFacts<T>(s: seq<T>)
    ensures forall x :: x in Dedup(s) <==> x in s
    ensures s != [] ==> Dedup(s) != [] && Dedup(s)[0] == s[0]
    ensures |Dedup(s)| <= |s|
  {
    if |s| <= 1 {
    } else {
      DedupFacts(s[1..]);
      assert s == [s[0]] + s[1..];
    }
  }

  lemma HeadStaysBelow<T(!new)>(le: (T, T) -> bool, s: seq<T>, y: T)
    requires TotalOrder(le) && Sorted(le, s) && |s| > 1 && s[0] != s[1] && y in s[1..]
    ensures le(s[0], y) && y != s[0]
  {
    var k :| 0 <= k < |s[1..]| && s[1..][k] == y;
    assert y == s[k + 1];
    assert le(s[0], s[1]) && le(s[0], s[k + 1]);
    if k > 0 {
      assert le(s[1], s[k + 1]);
    }
  }

  /** On a sequence sorted by a total order, only distinct elements remain, still sorted. */
  lemma {:induction false} DedupDistinct<T(!new)>(le: (T, T) -> bool, s: seq<T>)
    requires TotalOrder(le) && Sorted(le, s)
    ensures Sorted(le, Dedup(s)) && Distinct(Dedup(s))
  {
    if |s| <= 1 {
    } else {
      var tail := s[1..];
      DedupDistinct(le, tail);
      if s[0] != s[1] {
        DedupFacts(tail);
        var rest := Dedup(tail);
        forall i | 0 <= i < |rest| ensures le(s[0], rest[i]) && rest[i] != s[0] {
          assert rest[i] in rest;
          HeadStaysBelow(le, s, rest[i]);
        }
        hide TotalOrder;
        assert Dedup(s) == [s[0]] + rest;
      }
    }
  }

  lemma {:induction false} DedupFixed<T>(s: seq<T>)
    requires Distinct(s)
    ensures Dedup(s) == s
  {
    if |s| <= 1 {
    } else {
      assert s[0] != s[1];
      DedupFixed(s[1..]);
    }
  }

  /** A set has one sorted enumeration. */
  lemma {:induction false} SortedUnique<T(!new)>(le: (T, T) -> bool, a: seq<T>, b: seq<T>)
    requires TotalOrder(le)
    requires Sorted(le, a) && Distinct(a) && Sorted(le, b) && Distinct(b)
    requires forall x :: x in a <==> x in b
    ensures a == b
  {
    assert b == [] || b[0] in b;
    if a == [] {
    } else {
      assert a[0] in b && b != [];
      assert b[0] in a;
      assert le(a[0], b[0]) by {
        var k :| 0 <= k < |a| && a[k] == b[0];
      }
      assert le(b[0], a[0]) by {
        var k :| 0 <= k < |b| && b[k] == a[0];
      }
      forall x ensures x in a[1..] <==> x in b[1..] {
        assert x in a[1..] <==> x in a && x != a[0] by {
          assert a == [a[0]] + a[1..];
        }
        assert x in b[1..] <==> x in b && x != b[0] by {
          assert b == [b[0]] + b[1..];
        }
      }
      SortedUnique(le, a[1..], b[1..]);
    }
  }

  lemma {:induction false} FilterFacts<T>(p: T -> bool, s: seq<T>)
    ensures forall x :: x in Filter(p, s) <==> x in s && p(x)
    ensures |Filter(p, s)| <= |s|
    ensures (forall x :: x in s ==> p(x)) <==> |Filter(p, s)| == |s|
    ensures (forall x :: x in s ==> p(x)) ==> Filter(p, s) == s
  {
    if s == [] {
    } else {
      FilterFacts(p, s[1..]);
      assert s == [s[0]] + s[1..];
    }
  }

  lemma FilterMember<T>(p: T -> bool, s: seq<T>, x: T)
    ensures x in Filter(p, s) <==> x in s && p(x)
  {
    FilterFacts(p, s);
  }

  lemma {:induction false} FilterKeepsSorted<T>(le: (T, T) -> bool, p: T -> bool, s: seq<T>)
    requires Sorted(le, s)
    ensures Sorted(le, Filter(p, s))
  {
    if s == [] {
    } else {
      var tail := s[1..];
      FilterKeepsSorted(le, p, tail);
      var rest := Filter(p, tail);
      forall k | 0 <= k < |rest| ensures le(s[0], rest[k]) {
        FilterMember(p, tail, rest[k]);
        var j :| 0 <= j < |tail| && tail[j] == rest[k];
        assert tail[j] == s[j + 1];
      }
    }
  }

  lemma {:induction false} FilterKeepsDistinct<T>(p: T -> bool, s: seq<T>)
    requires Distinct(s)
    ensures Distinct(Filter(p, s))
  {
    if s == [] {
    } else {
      var tail := s[1..];
      FilterKeepsDistinct(p, tail);
      var rest := Filter(p, tail);
      forall k | 0 <= k < |rest| ensures s[0] != rest[k] {
        FilterMember(p, tail, rest[k]);
        var j :| 0 <= j < |tail| && tail[j] == rest[k];
        assert tail[j] == s[j + 1];
      }
    }
  }

  /** Sorting by a key commutes with taking the key. */
  lemma {:induction false} InsertMap<T(!new), U>(le: (T, T) -> bool, le': (U, U) -> bool, f: T -> U, x: T, s: seq<T>)
    requires forall a, b :: le(a, b) <==> le'(f(a), f(b))
    ensures Map(f, Insert(le, x, s)) == Insert(le', f(x), Map(f, s))
  {
    if s != [] && !le(x, s[0]) {
      InsertMap(le, le', f, x, s[1..]);
      assert Map(f, s)[1..] == Map(f, s[1..]);
    }
  }

  lemma {:induction false} SortMap<T(!new), U>(le: (T, T) -> bool, le': (U, U) -> bool, f: T -> U, s: seq<T>)
    requires forall a, b :: le(a, b) <==> le'(f(a), f(b))
    ensures Map(f, Sort(le, s)) == Sort(le', Map(f, s))
  {
    if s == [] {
    } else {
      SortMap(le, le', f, s[1..]);
      InsertMap(le, le', f, s[0], Sort(le, s[1..]));
      assert Map(f, s)[1..] == Map(f, s[1..]);
    }
  }

  lemma {:induction false} DistinctCounts<T>(s: seq<T>)
    ensures Distinct(s) <==> forall x :: multiset(s)[x] <= 1
  {
    if s == [] {
    } else {
      var rest := s[1..];
      DistinctCounts(rest);
      assert s == [s[0]] + rest;
      if Distinct(s) {
        assert s[0] !in rest;
        assert multiset(rest)[s[0]] == 0;
      }
      if forall x :: multiset(s)[x] <= 1 {
        assert multiset(s)[s[0]] <= 1;
        assert s[0] !in rest by {
          assert s[0] in rest ==> multiset(rest)[s[0]] >= 1;
        }
        forall x ensures multiset(rest)[x] <= 1 {
          assert multiset(s)[x] <= 1;
        }
      }
    }
  }

  lemma SortDistinct<T>(le: (T, T) -> bool, s: seq<T>)
    ensures Distinct(Sort(le, s)) <==> Distinct(s)
  {
    SortPermutes(le, s);
    DistinctCounts(s);
    DistinctCounts(Sort(le, s));
  }

  /** The number of different elements tells whether any is repeated. */
  lemma {:induction false} DistinctIffAsMany<T>(s: seq<T>)
    ensures |Elements(s)| <= |s|
    ensures |Elements(s)| == |s| <==> Distinct(s)
  {
    if s == [] {
      assert Elements(s) == {};
    } else {
      var (front, x) := (s[..|s| - 1], s[|s| - 1]);
      DistinctIffAsMany(front);
      assert s == front + [x];
      assert Elements(s) == Elements(front) + {x};
      if x in front {
        assert Elements(s) == Elements(front);
        var i :| 0 <= i < |front| && front[i] == x;
        assert s[i] == s[|s| - 1];
      } else {
        assert Distinct(s) <==> Distinct(front);
      }
    }
  }
}
