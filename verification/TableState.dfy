/** Validation of an evidence Table: one metadata row and a contiguous run of entry/index pairs. */
module TableState {
  import opened Common
  import opened Decimals
  import opened Ordering
  import opened TableEntities

  // ---------------------------------------------------------------------------
  // Selecting rows

  function Select(es: seq<Entity>, p: Entity -> bool): (r: seq<Entity>)
    ensures |r| <= |es|
    ensures forall e :: e in r <==> e in es && p(e)
  {
    if es == [] then []
    else
      var last := es[|es| - 1];
      assert es == es[..|es| - 1] + [last];
      Select(es[..|es| - 1], p) + if p(last) then [last] else []
  }

  lemma SelectSnoc(es: seq<Entity>, e: Entity, p: Entity -> bool)
    ensures Select(es + [e], p) == Select(es, p) + if p(e) then [e] else []
  {
    assert (es + [e])[..|es|] == es;
  }

  lemma {:induction false} SelectDistinct(es: seq<Entity>, p: Entity -> bool)
    requires DistinctKeys(es)
    ensures DistinctKeys(Select(es, p))
  {
    if es != [] {
      var front := es[..|es| - 1];
      SelectDistinct(front, p);
      var r := Select(front, p);
      forall i | 0 <= i < |r|
        ensures KeyOf(r[i]) != KeyOf(es[|es| - 1])
      {
        assert r[i] in front;
        var k :| 0 <= k < |front| && front[k] == r[i];
        assert es[k] == r[i];
      }
    }
  }

  lemma {:induction false} SelectSorted(es: seq<Entity>, p: Entity -> bool)
    requires SortedBy(ByKey(), es)
    ensures SortedBy(ByKey(), Select(es, p))
  {
    if es != [] {
      var front := es[..|es| - 1];
      SelectSorted(front, p);
      var r := Select(front, p);
      forall i | 0 <= i < |r|
        ensures ByKey()(r[i], es[|es| - 1])
      {
        assert r[i] in front;
        var k :| 0 <= k < |front| && front[k] == r[i];
        assert es[k] == r[i];
      }
    }
  }

  /** Selecting corresponding rows of equal lists gives equal lists. */
  lemma {:induction false} SelectSame(xs: seq<Entity>, ys: seq<Entity>, p: Entity -> bool)
    requires SameList(xs, ys)
    requires forall i :: 0 <= i < |xs| ==> p(xs[i]) == p(ys[i])
    ensures SameList(Select(xs, p), Select(ys, p))
  {
    if xs != [] {
      SelectSame(xs[..|xs| - 1], ys[..|ys| - 1], p);
    }
  }

  lemma {:induction false} SelectAppend(a: seq<Entity>, b: seq<Entity>, p: Entity -> bool)
    ensures Select(a + b, p) == Select(a, p) + Select(b, p)
  {
    if b == [] {
      assert a + b == a;
    } else {
      var front := b[..|b| - 1];
      assert a + b == (a + front) + [b[|b| - 1]];
      SelectSnoc(a + front, b[|b| - 1], p);
      SelectAppend(a, front, p);
    }
  }

  /** Selecting again by a stronger condition is selecting by it at once. */
  lemma {:induction false} SelectSelect(es: seq<Entity>, p: Entity -> bool, q: Entity -> bool)
    requires forall e :: e in es && q(e) ==> p(e)
    ensures Select(Select(es, p), q) == Select(es, q)
  {
    if es != [] {
      var front, last := es[..|es| - 1], es[|es| - 1];
      SelectSelect(front, p, q);
      assert last in es;
      if p(last) {
        SelectSnoc(Select(front, p), last, q);
      } else {
        assert Select(es, p) == Select(front, p) && Select(es, q) == Select(front, q);
      }
    }
  }

  lemma {:induction false} SelectPartition(es: seq<Entity>, p: Entity -> bool, q: Entity -> bool)
    requires forall e :: e in es ==> p(e) != q(e)
    ensures |Select(es, p)| + |Select(es, q)| == |es|
  {
    if es != [] {
      SelectPartition(es[..|es| - 1], p, q);
      assert es[|es| - 1] in es;
    }
  }

  lemma {:induction false} SelectNone(es: seq<Entity>, p: Entity -> bool)
    requires forall e :: e in es ==> !p(e)
    ensures Select(es, p) == []
  {
    if es != [] {
      SelectNone(es[..|es| - 1], p);
      assert es[|es| - 1] in es;
    }
  }

  // ---------------------------------------------------------------------------
  // Row kinds

  predicate IsMetadata(e: Entity) { Holds(e, Kind, Str("metadata")) }

  predicate IsEntry(e: Entity) { Holds(e, Kind, Str("entry")) }

  predicate IsIndex(e: Entity) { Holds(e, Kind, Str("event_index")) }

  function Metadata(es: seq<Entity>): seq<Entity> { Select(es, IsMetadata) }

  function Entries(es: seq<Entity>): seq<Entity> { Select(es, IsEntry) }

  function Indexes(es: seq<Entity>): seq<Entity> { Select(es, IsIndex) }

  /** What is hashed as JSON text, which tells True, 1 and 1.0 apart. */
  datatype Document = MetadataDocument(identity: Entity) | PairDocument(entry: Entity, index: Entity)

  datatype Digests = Digests(sha256: string -> string, digest: Document -> string)

  function Stable(e: Entity): Entity {
    map f | f in e && !f.Other? && !f.Server? :: e[f]
  }

  function MetadataIdentity(e: Entity): Entity {
    map f | f in e && f in {PartitionKey, RowKey, Kind, SchemaVersion, LogId} :: e[f]
  }

  /** No two of the documents share a digest. */
  ghost predicate CollisionFree(d: Digests, docs: set<Document>) {
    forall a, b :: a in docs && b in docs && d.digest(a) == d.digest(b) ==> a == b
  }

  function MetadataDocuments(es: seq<Entity>): set<Document> {
    set m | m in Metadata(es) :: MetadataDocument(MetadataIdentity(m))
  }

  function PairDocuments(es: seq<Entity>): set<Document> {
    set e, i | e in Entries(es) && i in Indexes(es) :: PairDocument(Stable(e), Stable(i))
  }

  /** The digests tell the metadata rows of the two tables apart. */
  ghost predicate TellsMetadataApart(d: Digests, src: seq<Entity>, dst: seq<Entity>) {
    CollisionFree(d, MetadataDocuments(src) + MetadataDocuments(dst))
  }

  /** The digests tell apart the pairs of an entry and an index row, each found in one of the tables. */
  ghost predicate TellsPairsApart(d: Digests, src: seq<Entity>, dst: seq<Entity>) {
    CollisionFree(d, PairDocuments(src + dst))
  }

  /** Python's `020d`: the sign counts towards the width. */
  function EntryKey(index: int): string {
    "entry-" + if index >= 0 then Padded(index, 20) else "-" + Padded(-index, 19)
  }

  function Index(e: Entity): int
    requires Integer(e, LogIndex)
  {
    e[LogIndex].number
  }

  predicate MetadataOk(e: Entity) {
    && Holds(e, RowKey, Str("meta"))
    && SchemaVersion in e && PyEq(e[SchemaVersion], Int(1))
    && Holds(e, LogId, Str("ets-live-primary"))
    && Integer(e, NextIndex) && e[NextIndex].number >= 0
    && Text(e, PartitionKey)
  }

  predicate EntryOk(e: Entity) {
    && Integer(e, LogIndex)
    && Holds(e, RowKey, Str(EntryKey(Index(e))))
    && Text(e, EventJson) && Text(e, EventHash) && Text(e, LeafHash)
  }

  predicate IndexOk(d: Digests, e: Entity) {
    && Integer(e, LogIndex)
    && Text(e, EventId)
    && Holds(e, RowKey, Str("event-" + d.sha256(e[EventId].text)))
  }

  // ---------------------------------------------------------------------------
  // A valid table

  predicate Indexed(rows: seq<Entity>) {
    forall i :: 0 <= i < |rows| ==> Integer(rows[i], LogIndex)
  }

  /** The last row with each log index. */
  function ByIndex(rows: seq<Entity>): (m: map<int, Entity>)
    requires Indexed(rows)
  {
    if rows == [] then map[]
    else ByIndex(rows[..|rows| - 1])[Index(rows[|rows| - 1]) := rows[|rows| - 1]]
  }

  predicate DistinctIndexes(rows: seq<Entity>)
    requires Indexed(rows)
  {
    forall i, j :: 0 <= i < j < |rows| ==> Index(rows[i]) != Index(rows[j])
  }

  /** The rows carry the log indexes 0, ..., next - 1, each once. */
  predicate Contiguous(rows: seq<Entity>, next: int) {
    && Indexed(rows)
    && DistinctIndexes(rows)
    && |rows| == next
    && forall i :: 0 <= i < |rows| ==> 0 <= Index(rows[i]) < next
  }

  function NextOf(es: seq<Entity>): int {
    if |Metadata(es)| == 1 && Integer(Metadata(es)[0], NextIndex) then Metadata(es)[0][NextIndex].number else 0
  }

  /** What `_validated_state` accepts. */
  predicate ValidTable(d: Digests, es: seq<Entity>) {
    && |Metadata(es)| == 1
    && |es| == 1 + |Entries(es)| + |Indexes(es)|
    && MetadataOk(Metadata(es)[0])
    && (forall i :: 0 <= i < |es| ==> Holds(es[i], PartitionKey, Metadata(es)[0][PartitionKey]))
    && (forall i :: 0 <= i < |Entries(es)| ==> EntryOk(Entries(es)[i]))
    && (forall i :: 0 <= i < |Indexes(es)| ==> IndexOk(d, Indexes(es)[i]))
    && Contiguous(Entries(es), NextOf(es))
    && Contiguous(Indexes(es), NextOf(es))
  }

  datatype State = State(nextIndex: nat, entityCount: nat, metadataDigest: string, pairDigests: seq<string>)

  lemma {:induction false} ByIndexAt(rows: seq<Entity>, i: nat)
    requires Indexed(rows) && DistinctIndexes(rows) && i < |rows|
    ensures Index(rows[i]) in ByIndex(rows) && ByIndex(rows)[Index(rows[i])] == rows[i]
  {
    if i < |rows| - 1 {
      var front := rows[..|rows| - 1];
      forall a, b | 0 <= a < b < |front|
        ensures Index(front[a]) != Index(front[b])
      {
        assert front[a] == rows[a] && front[b] == rows[b];
      }
      ByIndexAt(front, i);
      assert Index(rows[i]) != Index(rows[|rows| - 1]);
    }
  }

  lemma {:induction false} ByIndexKeys(rows: seq<Entity>, k: int)
    requires Indexed(rows)
    ensures k in ByIndex(rows) <==> exists i :: 0 <= i < |rows| && Index(rows[i]) == k
    ensures k in ByIndex(rows) ==>
              var row := ByIndex(rows)[k]; row in rows && Integer(row, LogIndex) && Index(row) == k
  {
    if rows != [] {
      var front := rows[..|rows| - 1];
      ByIndexKeys(front, k);
      assert forall i :: 0 <= i < |front| ==> front[i] == rows[i];
      if exists i :: 0 <= i < |rows| && Index(rows[i]) == k {
        var i :| 0 <= i < |rows| && Index(rows[i]) == k;
        assert i < |front| ==> Index(front[i]) == k;
      }
    }
  }

  function IndexSet(rows: seq<Entity>): set<int>
    requires Indexed(rows)
  {
    set i | 0 <= i < |rows| :: Index(rows[i])
  }

  lemma {:induction false} IndexSetSize(rows: seq<Entity>)
    requires Indexed(rows) && DistinctIndexes(rows)
    ensures |IndexSet(rows)| == |rows|
  {
    if rows != [] {
      var front := rows[..|rows| - 1];
      assert forall i :: 0 <= i < |front| ==> front[i] == rows[i];
      forall a, b | 0 <= a < b < |front|
        ensures Index(front[a]) != Index(front[b])
      {
        assert Index(rows[a]) != Index(rows[b]);
      }
      IndexSetSize(front);
      var last := Index(rows[|rows| - 1]);
      assert IndexSet(rows) == IndexSet(front) + {last} by {
        assert rows[|rows| - 1] == rows[|front|];
        forall k
          ensures k in IndexSet(rows) <==> k in IndexSet(front) + {last}
        {
          if k in IndexSet(front) {
            var i :| 0 <= i < |front| && Index(front[i]) == k;
            assert Index(rows[i]) == k;
          }
          if k in IndexSet(rows) {
            var i :| 0 <= i < |rows| && Index(rows[i]) == k;
            assert i < |front| ==> Index(front[i]) == k;
          }
        }
      }
      assert last !in IndexSet(front);
    }
  }

  function Range(n: nat): (r: set<int>)
    ensures |r| == n && forall k :: k in r <==> 0 <= k < n
  {
    if n == 0 then {} else Range(n - 1) + {n - 1}
  }

  /** Contiguous rows hold a row for every index. */
  lemma ContiguousCovers(rows: seq<Entity>, next: nat, k: nat)
    requires Contiguous(rows, next) && k < next
    ensures k in ByIndex(rows)
  {
    IndexSetSize(rows);
    SubsetOfSameSize(IndexSet(rows), Range(next));
    assert k in IndexSet(rows);
    ByIndexKeys(rows, k);
  }

  lemma SubsetOfSameSize<T>(a: set<T>, b: set<T>)
    requires a <= b && |a| == |b|
    ensures a == b
  {
    assert b == a + (b - a);
    assert |b - a| == 0;
  }

  function PairDigest(d: Digests, es: seq<Entity>, k: nat): string
    requires Indexed(Entries(es)) && Indexed(Indexes(es))
    requires k in ByIndex(Entries(es)) && k in ByIndex(Indexes(es))
  {
    d.digest(PairDocument(Stable(ByIndex(Entries(es))[k]), Stable(ByIndex(Indexes(es))[k])))
  }

  lemma PairsExist(d: Digests, es: seq<Entity>, k: nat)
    requires ValidTable(d, es) && k < NextOf(es)
    ensures k in ByIndex(Entries(es)) && k in ByIndex(Indexes(es))
  {
    ContiguousCovers(Entries(es), NextOf(es), k);
    ContiguousCovers(Indexes(es), NextOf(es), k);
  }

  function StateOf(d: Digests, es: seq<Entity>): (s: State)
    requires ValidTable(d, es)
    ensures |s.pairDigests| == s.nextIndex == NextOf(es)
    ensures forall k :: 0 <= k < s.nextIndex ==>
              k in ByIndex(Entries(es)) && k in ByIndex(Indexes(es)) && s.pairDigests[k] == PairDigest(d, es, k)
  {
    assert forall k :: 0 <= k < NextOf(es) ==> k in ByIndex(Entries(es)) && k in ByIndex(Indexes(es)) by {
      forall k | 0 <= k < NextOf(es)
        ensures k in ByIndex(Entries(es)) && k in ByIndex(Indexes(es))
      {
        PairsExist(d, es, k);
      }
    }
    State(NextOf(es), |es|, d.digest(MetadataDocument(MetadataIdentity(Metadata(es)[0]))),
          seq(NextOf(es), k requires 0 <= k < NextOf(es) => PairDigest(d, es, k)))
  }

  // ---------------------------------------------------------------------------
  // The validation loops

  datatype MigrationError = MigrationControlError

  method CollectByIndex(rows: seq<Entity>, ok: Entity -> bool, next: nat) returns (r: Option<map<int, Entity>>)
    requires forall e :: ok(e) ==> Integer(e, LogIndex)
    requires |rows| == next
    ensures r.Some? <==> (forall i :: 0 <= i < |rows| ==> ok(rows[i])) && Contiguous(rows, next)
    ensures r.Some? ==> r.value == ByIndex(rows)
  {
    var table: map<int, Entity> := map[];
    for i := 0 to |rows|
      invariant forall j :: 0 <= j < i ==> ok(rows[j])
      invariant Indexed(rows[..i]) && DistinctIndexes(rows[..i])
      invariant table == ByIndex(rows[..i])
    {
      if !ok(rows[i]) {
        return None;
      }
      assert rows[..i + 1][..i] == rows[..i];
      ByIndexKeys(rows[..i], Index(rows[i]));
      if Index(rows[i]) in table {
        var j :| 0 <= j < i && Index(rows[..i][j]) == Index(rows[i]);
        assert rows[j] == rows[..i][j];
        return None;
      }
      table := table[Index(rows[i]) := rows[i]];
    }
    assert rows[..|rows|] == rows;
    if forall k :: k in table ==> 0 <= k < next {
      assert Contiguous(rows, next) by {
        forall i | 0 <= i < |rows|
          ensures 0 <= Index(rows[i]) < next
        {
          ByIndexKeys(rows, Index(rows[i]));
        }
      }
      return Some(table);
    }
    ghost var k :| k in table && !(0 <= k < next);
    ByIndexKeys(rows, k);
    return None;
  }

  lemma EntriesAreIndexed(d: Digests)
    ensures forall e :: EntryOk(e) ==> Integer(e, LogIndex)
    ensures forall e :: IndexOk(d, e) ==> Integer(e, LogIndex)
  {
  }

  method ValidatedState(d: Digests, es: seq<Entity>) returns (r: Result<State, MigrationError>)
    ensures r.Ok? <==> ValidTable(d, es)
    ensures r.Ok? ==> r.value == StateOf(d, es)
  {
    hide Select, EntryOk, IndexOk, EntryKey;
    EntriesAreIndexed(d);
    var metadata, entries, indexes := Metadata(es), Entries(es), Indexes(es);
    if |metadata| != 1 || |metadata| + |entries| + |indexes| != |es| {
      return Err(MigrationControlError);
    }
    var m := metadata[0];
    if !MetadataOk(m) {
      return Err(MigrationControlError);
    }
    var next := m[NextIndex].number;
    if |entries| != next || |indexes| != next || |es| != 1 + 2 * next {
      return Err(MigrationControlError);
    }
    if exists i :: 0 <= i < |es| && !Holds(es[i], PartitionKey, m[PartitionKey]) {
      return Err(MigrationControlError);
    }
    var entryByIndex := CollectByIndex(entries, EntryOk, next);
    if entryByIndex.None? {
      return Err(MigrationControlError);
    }
    var eventByIndex := CollectByIndex(indexes, (e: Entity) => IndexOk(d, e), next);
    if eventByIndex.None? {
      return Err(MigrationControlError);
    }
    return Ok(StateOf(d, es));
  }
}
