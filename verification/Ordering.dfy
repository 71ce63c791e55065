/** Code-point order on strings and stable sorting, as Python's `sorted` does it. */
module Ordering {
  function LexLeq(a: string, b: string): bool {
    if a == [] then true
    else if b == [] then false
    else if a[0] != b[0] then a[0] < b[0]
    else LexLeq(a[1..], b[1..])
  }

  lemma {:induction false} LexTotal(a: string, b: string)
    ensures LexLeq(a, b) || LexLeq(b, a)
    ensures LexLeq(a, b) && LexLeq(b, a) ==> a == b
  {
    if a != [] && b != [] && a[0] == b[0] {
      LexTotal(a[1..], b[1..]);
      assert a == [a[0]] + a[1..] && b == [b[0]] + b[1..];
    }
  }

  lemma {:induction false} LexTransitive(a: string, b: string, c: string)
    requires LexLeq(a, b) && LexLeq(b, c)
    ensures LexLeq(a, c)
  {
    if a != [] && b != [] && c != [] && a[0] == b[0] == c[0] {
      LexTransitive(a[1..], b[1..], c[1..]);
    }
  }

  ghost predicate TotalPreorder<T(!new)>(leq: (T, T) -> bool) {
    && (forall x, y :: leq(x, y) || leq(y, x))
    && (forall x, y, z :: leq(x, y) && leq(y, z) ==> leq(x, z))
  }

  ghost predicate SortedBy<T(!new)>(leq: (T, T) -> bool, s: seq<T>) {
    forall i, j :: 0 <= i < j < |s| ==> leq(s[i], s[j])
  }

  function Insert<T>(leq: (T, T) -> bool, x: T, s: seq<T>): (r: seq<T>)
    ensures multiset(r) == multiset{x} + multiset(s)
  {
    if s == [] then [x]
    else
      assert s == [s[0]] + s[1..];
      if leq(x, s[0]) then [x] + s else [s[0]] + Insert(leq, x, s[1..])
  }

  /** Stable: equal elements keep their order. */
  function SortBy<T>(leq: (T, T) -> bool, s: seq<T>): (r: seq<T>)
    ensures multiset(r) == multiset(s)
  {
    if s == [] then []
    else
      assert s == [s[0]] + s[1..];
      Insert(leq, s[0], SortBy(leq, s[1..]))
  }

  lemma {:induction false} InsertSorted<T(!new)>(leq: (T, T) -> bool, x: T, s: seq<T>)
    requires TotalPreorder(leq) && SortedBy(leq, s)
    ensures SortedBy(leq, Insert(leq, x, s))
  {
    if s != [] && !leq(x, s[0]) {
      InsertSorted(leq, x, s[1..]);
      var rest := Insert(leq, x, s[1..]);
      forall k | 0 <= k < |rest|
        ensures leq(s[0], rest[k])
      {
        assert rest[k] in multiset(rest);
        assert rest[k] == x || rest[k] in s[1..];
      }
    }
  }

  lemma {:induction false} SortByIsSorted<T(!new)>(leq: (T, T) -> bool, s: seq<T>)
    requires TotalPreorder(leq)
    ensures SortedBy(leq, SortBy(leq, s))
  {
    if s != [] {
      SortByIsSorted(leq, s[1..]);
      InsertSorted(leq, s[0], SortBy(leq, s[1..]));
    }
  }

  lemma SortByMembers<T(!new)>(leq: (T, T) -> bool, s: seq<T>)
    ensures |SortBy(leq, s)| == |s|
    ensures forall x :: x in SortBy(leq, s) <==> x in s
  {
    var r := SortBy(leq, s);
    assert |multiset(r)| == |r| && |multiset(s)| == |s|;
    forall x
      ensures x in r <==> x in s
    {
      assert x in r <==> x in multiset(r);
      assert x in s <==> x in multiset(s);
    }
  }

  predicate Distinct<T(==)>(s: seq<T>) {
    forall i, j :: 0 <= i < j < |s| ==> s[i] != s[j]
  }

  lemma Multiplicity<T>(s: seq<T>, i: nat, j: nat)
    requires i < j < |s| && s[i] == s[j]
    ensures multiset(s)[s[i]] >= 2
  {
    assert s == s[..j] + [s[j]] + s[j + 1..];
    assert s[..j][i] == s[i];
    assert s[i] in multiset(s[..j]);
  }

  lemma {:induction false} OnlyOnce<T>(s: seq<T>, x: T)
    requires Distinct(s)
    ensures multiset(s)[x] <= 1
  {
    if s != [] {
      var front, last := s[..|s| - 1], s[|s| - 1];
      OnlyOnce(front, x);
      assert s == front + [last];
      if x == last {
        assert x !in front;
      }
    }
  }

  /** Sorting brings in no repetition. */
  lemma SortByDistinct<T(!new)>(leq: (T, T) -> bool, s: seq<T>)
    requires Distinct(s)
    ensures Distinct(SortBy(leq, s))
  {
    var r := SortBy(leq, s);
    forall i, j | 0 <= i < j < |r|
      ensures r[i] != r[j]
    {
      OnlyOnce(s, r[i]);
      if r[i] == r[j] {
        Multiplicity(r, i, j);
      }
    }
  }
}
