/** The values of a dictionary with integer keys, listed by increasing key. */
module SortedKeys {
  import opened Common

  predicate IsLeast(s: set<int>, k: int) {
    k in s && forall j :: j in s ==> k <= j
  }

  lemma LeastExists(s: set<int>)
    requires s != {}
    ensures exists k :: IsLeast(s, k)
    decreases s
  {
    assert (forall x: int :: x !in s) ==> s <= {};
    var x :| x in s;
    if s == {x} {
      assert IsLeast(s, x);
    } else {
      LeastExists(s - {x});
      var k :| IsLeast(s - {x}, k);
      assert forall j :: j in s ==> j == x || j in s - {x};
      assert IsLeast(s, Min(x, k));
    }
  }

  function Least(s: set<int>): (k: int)
    requires s != {}
    ensures IsLeast(s, k)
  {
    LeastExists(s);
    var k :| k in s && IsLeast(s, k);
    k
  }

  function Listed<T>(table: map<int, T>): seq<T>
    decreases table.Keys
  {
    if table == map[] then []
    else
      var k := Least(table.Keys);
      [table[k]] + Listed(table - {k})
  }
}
