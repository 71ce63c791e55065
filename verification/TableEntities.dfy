/**
 Rows of the evidence Table as the migration scripts see them: dictionaries of scalar properties
 compared with Python's equality, under which True, 1 and 1.0 are equal but encode differently.
 */
module TableEntities {
  import opened Ordering

  /** `Nested` stands for a dictionary, a list or null, which canonical rows may not hold. */
  datatype Value = Str(text: string) | Int(number: int) | Bool(truth: bool) | Float(exact: real) | Nested(json: string)

  /** The properties the scripts name; `Server` ones are maintained by the service. */
  datatype Field =
    | PartitionKey | RowKey | Kind | NextIndex | SchemaVersion | LogId | LogIndex
    | EventJson | EventHash | LeafHash | EventId
    | Other(name: string)
    | Server(name: string)

  type Entity = map<Field, Value>

  function Number(v: Value): real {
    match v
    case Int(n) => n as real
    case Bool(b) => if b then 1.0 else 0.0
    case Float(r) => r
    case _ => 0.0
  }

  predicate IsNumber(v: Value) {
    v.Int? || v.Bool? || v.Float?
  }

  /** Python's == on property values. */
  predicate PyEq(v: Value, w: Value) {
    if IsNumber(v) && IsNumber(w) then Number(v) == Number(w) else v == w
  }

  /** Python's == on rows. */
  predicate Same(a: Entity, b: Entity) {
    a.Keys == b.Keys && forall f :: f in a ==> PyEq(a[f], b[f])
  }

  lemma SameIsEquivalence(a: Entity, b: Entity, c: Entity)
    ensures Same(a, a)
    ensures Same(a, b) ==> Same(b, a)
    ensures Same(a, b) && Same(b, c) ==> Same(a, c)
  {
  }

  predicate SameList(xs: seq<Entity>, ys: seq<Entity>) {
    |xs| == |ys| && forall i :: 0 <= i < |xs| ==> Same(xs[i], ys[i])
  }

  predicate Holds(e: Entity, f: Field, v: Value) {
    f in e && e[f] == v
  }

  predicate Text(e: Entity, f: Field) {
    f in e && e[f].Str? && e[f].text != ""
  }

  predicate Integer(e: Entity, f: Field) {
    f in e && e[f].Int?
  }

  /** `_entity_key` succeeds. */
  predicate Keyed(e: Entity) {
    Text(e, PartitionKey) && Text(e, RowKey)
  }

  type Key = (string, string)

  function KeyOf(e: Entity): Key
    requires Keyed(e)
  {
    (e[PartitionKey].text, e[RowKey].text)
  }

  // ---------------------------------------------------------------------------
  // Canonical listings

  predicate Storable(e: Entity) {
    Keyed(e) && forall f :: f in e && !f.Server? ==> !e[f].Nested?
  }

  function Strip(e: Entity): Entity {
    map f | f in e && !f.Server? :: e[f]
  }

  predicate DistinctKeys(rows: seq<Entity>) {
    && (forall i :: 0 <= i < |rows| ==> Keyed(rows[i]))
    && forall i, j :: 0 <= i < j < |rows| ==> KeyOf(rows[i]) != KeyOf(rows[j])
  }

  predicate KeyLeq(a: Key, b: Key) {
    if a.0 != b.0 then LexLeq(a.0, b.0) else LexLeq(a.1, b.1)
  }

  function ByKey(): (Entity, Entity) -> bool {
    (a: Entity, b: Entity) => if Keyed(a) && Keyed(b) then KeyLeq(KeyOf(a), KeyOf(b)) else !Keyed(a)
  }

  lemma KeyOrder(a: Key, b: Key, c: Key)
    ensures KeyLeq(a, b) || KeyLeq(b, a)
    ensures KeyLeq(a, b) && KeyLeq(b, a) ==> a == b
    ensures KeyLeq(a, b) && KeyLeq(b, c) ==> KeyLeq(a, c)
  {
    LexTotal(a.0, b.0);
    LexTotal(a.1, b.1);
    LexTotal(b.0, c.0);
    LexTotal(a.0, c.0);
    if LexLeq(a.0, b.0) && LexLeq(b.0, c.0) {
      LexTransitive(a.0, b.0, c.0);
    }
    if LexLeq(a.1, b.1) && LexLeq(b.1, c.1) {
      LexTransitive(a.1, b.1, c.1);
    }
  }

  lemma ByKeyIsOrder()
    ensures TotalPreorder(ByKey())
  {
    var leq := ByKey();
    forall a, b
      ensures leq(a, b) || leq(b, a)
    {
      if Keyed(a) && Keyed(b) {
        KeyOrder(KeyOf(a), KeyOf(b), KeyOf(a));
      }
    }
    forall a, b, c | leq(a, b) && leq(b, c)
      ensures leq(a, c)
    {
      if Keyed(a) && Keyed(b) && Keyed(c) {
        KeyOrder(KeyOf(a), KeyOf(b), KeyOf(c));
      }
    }
  }

  function StripAll(rows: seq<Entity>): (r: seq<Entity>)
    ensures |r| == |rows| && forall i :: 0 <= i < |r| ==> r[i] == Strip(rows[i])
  {
    seq(|rows|, i requires 0 <= i < |rows| => Strip(rows[i]))
  }

  /** `_canonical_entities` accepts. */
  predicate Listable(rows: seq<Entity>) {
    (forall i :: 0 <= i < |rows| ==> Storable(rows[i])) && DistinctKeys(rows)
  }

  /** The rows without service properties, in key order. */
  function Listing(rows: seq<Entity>): seq<Entity> {
    SortBy(ByKey(), StripAll(rows))
  }

  /** A list in the form every listing has. */
  ghost predicate Canonical(rows: seq<Entity>) {
    DistinctKeys(rows) && SortedBy(ByKey(), rows)
  }

  predicate SameMembers(xs: seq<Entity>, ys: seq<Entity>) {
    (forall e :: e in xs ==> e in ys) && (forall e :: e in ys ==> e in xs)
  }

  lemma DistinctIsPermutationInvariant(xs: seq<Entity>, ys: seq<Entity>)
    requires DistinctKeys(xs) && multiset(xs) == multiset(ys)
    ensures DistinctKeys(ys)
  {
    forall i | 0 <= i < |ys|
      ensures ys[i] in xs
    {
      assert ys[i] in multiset(ys);
      assert ys[i] in multiset(xs);
    }
    forall i, j | 0 <= i < j < |ys|
      ensures KeyOf(ys[i]) != KeyOf(ys[j])
    {
      if KeyOf(ys[i]) == KeyOf(ys[j]) {
        var a :| 0 <= a < |xs| && xs[a] == ys[i];
        var b :| 0 <= b < |xs| && xs[b] == ys[j];
        assert a == b;
        Multiplicity(ys, i, j);
        NoRepeats(xs, a);
      }
    }
  }

  lemma NoRepeats(xs: seq<Entity>, a: nat)
    requires DistinctKeys(xs) && a < |xs|
    ensures multiset(xs)[xs[a]] == 1
  {
    assert xs == xs[..a] + [xs[a]] + xs[a + 1..];
    forall e | e in xs[..a] || e in xs[a + 1..]
      ensures e != xs[a]
    {
      if e in xs[..a] {
        var k :| 0 <= k < a && xs[k] == e;
      } else {
        var k :| a < k < |xs| && xs[k] == e;
      }
    }
    assert xs[a] !in multiset(xs[..a]) && xs[a] !in multiset(xs[a + 1..]);
  }

  /** A listing holds exactly the stripped rows, once each and in order. */
  lemma ListingIsCanonical(rows: seq<Entity>)
    requires Listable(rows)
    ensures Canonical(Listing(rows)) && SameMembers(Listing(rows), StripAll(rows)) && |Listing(rows)| == |rows|
  {
    var stripped := StripAll(rows);
    assert DistinctKeys(stripped) by {
      forall i | 0 <= i < |stripped|
        ensures Keyed(stripped[i]) && KeyOf(stripped[i]) == KeyOf(rows[i])
      {
      }
    }
    ByKeyIsOrder();
    SortByIsSorted(ByKey(), stripped);
    SortByMembers(ByKey(), stripped);
    DistinctIsPermutationInvariant(stripped, Listing(rows));
  }

  // ---------------------------------------------------------------------------
  // Canonical lists are determined by their rows

  predicate Matches(ys: seq<Entity>, e: Entity) {
    exists j :: 0 <= j < |ys| && Same(ys[j], e)
  }

  /** Every row of each list equals, as Python compares, some row of the other. */
  predicate SameRows(xs: seq<Entity>, ys: seq<Entity>) {
    && (forall i :: 0 <= i < |xs| ==> Matches(ys, xs[i]))
    && (forall j :: 0 <= j < |ys| ==> Matches(xs, ys[j]))
  }

  lemma SameKeys(a: Entity, b: Entity)
    requires Same(a, b) && Keyed(a)
    ensures Keyed(b) && KeyOf(b) == KeyOf(a)
  {
    assert PyEq(a[PartitionKey], b[PartitionKey]) && PyEq(a[RowKey], b[RowKey]);
  }

  /** A row's counterpart cannot stand before rows that are already paired off. */
  lemma MatchNotBefore(xs: seq<Entity>, ys: seq<Entity>, i: nat) returns (j: nat)
    requires DistinctKeys(xs) && DistinctKeys(ys) && i < |xs| && i <= |ys| && Matches(ys, xs[i])
    requires forall k :: 0 <= k < i ==> KeyOf(xs[k]) == KeyOf(ys[k])
    ensures i <= j < |ys| && Same(ys[j], xs[i]) && KeyOf(ys[j]) == KeyOf(xs[i])
  {
    j :| 0 <= j < |ys| && Same(ys[j], xs[i]);
    SameKeys(ys[j], xs[i]);
  }

  lemma CanonicalAscends(xs: seq<Entity>, i: nat, j: nat)
    requires Canonical(xs) && i < j < |xs|
    ensures Keyed(xs[i]) && Keyed(xs[j]) && KeyLeq(KeyOf(xs[i]), KeyOf(xs[j])) && KeyOf(xs[i]) != KeyOf(xs[j])
  {
    assert ByKey()(xs[i], xs[j]);
  }

  /** At the first unpaired position both lists hold the same key. */
  lemma NextKeysAgree(xs: seq<Entity>, ys: seq<Entity>, i: nat, j: nat, m: nat)
    requires Canonical(xs) && Canonical(ys) && i <= j < |ys| && i <= m < |xs|
    requires KeyOf(ys[j]) == KeyOf(xs[i]) && KeyOf(xs[m]) == KeyOf(ys[i])
    ensures KeyOf(xs[i]) == KeyOf(ys[i])
  {
    if j > i && m > i {
      CanonicalAscends(xs, i, m);
      CanonicalAscends(ys, i, j);
      KeyOrder(KeyOf(xs[i]), KeyOf(ys[i]), KeyOf(xs[i]));
    }
  }

  lemma {:induction false} CanonicalAligned(xs: seq<Entity>, ys: seq<Entity>, i: nat)
    requires Canonical(xs) && Canonical(ys) && SameRows(xs, ys) && i < |xs|
    ensures i < |ys| && forall k :: 0 <= k <= i ==> KeyOf(xs[k]) == KeyOf(ys[k])
  {
    if i > 0 {
      CanonicalAligned(xs, ys, i - 1);
    }
    assert Matches(ys, xs[i]);
    var j := MatchNotBefore(xs, ys, i);
    assert Matches(xs, ys[i]);
    var m := MatchNotBefore(ys, xs, i);
    NextKeysAgree(xs, ys, i, j, m);
  }

  lemma SameKeySameRow(xs: seq<Entity>, ys: seq<Entity>, i: nat)
    requires DistinctKeys(xs) && DistinctKeys(ys) && i < |xs| && i < |ys| && Matches(ys, xs[i])
    requires KeyOf(xs[i]) == KeyOf(ys[i])
    ensures Same(xs[i], ys[i])
  {
    var j :| 0 <= j < |ys| && Same(ys[j], xs[i]);
    SameKeys(ys[j], xs[i]);
    SameIsEquivalence(ys[j], xs[i], xs[i]);
  }

  /** Two canonical lists of equal rows are equal lists. */
  lemma CanonicalIsUnique(xs: seq<Entity>, ys: seq<Entity>)
    requires Canonical(xs) && Canonical(ys) && SameRows(xs, ys)
    ensures SameList(xs, ys)
  {
    if xs != [] {
      CanonicalAligned(xs, ys, |xs| - 1);
    }
    if ys != [] {
      CanonicalAligned(ys, xs, |ys| - 1);
    }
    forall i | 0 <= i < |xs|
      ensures Same(xs[i], ys[i])
    {
      SameKeySameRow(xs, ys, i);
    }
  }
}
