/** What the table checks accept, said of the rows themselves: no selection, lookup or count is used. */
module TableMeaning {
  import opened Ordering
  import opened TableEntities
  import opened TableState
  import opened SuffixWriter
  import opened SuffixProtocol

  predicate HasText(e: Entity, f: Field) {
    f in e && e[f].Str? && |e[f].text| > 0
  }

  /** The one metadata row: where it may stand, its fixed identity, its partition and its mark. */
  predicate MetadataRow(e: Entity, partition: string, n: int) {
    && Kind in e && e[Kind] == Str("metadata")
    && RowKey in e && e[RowKey] == Str("meta")
    && SchemaVersion in e && e[SchemaVersion] in {Int(1), Bool(true), Float(1.0)}
    && LogId in e && e[LogId] == Str("ets-live-primary")
    && NextIndex in e && e[NextIndex] == Int(n) && n >= 0
    && PartitionKey in e && e[PartitionKey] == Str(partition) && partition != ""
  }

  predicate EntryRow(e: Entity, partition: string, x: int) {
    && Kind in e && e[Kind] == Str("entry")
    && PartitionKey in e && e[PartitionKey] == Str(partition)
    && LogIndex in e && e[LogIndex] == Int(x)
    && RowKey in e && e[RowKey] == Str(EntryKey(x))
    && HasText(e, EventJson) && HasText(e, EventHash) && HasText(e, LeafHash)
  }

  predicate IndexRow(d: Digests, e: Entity, partition: string, x: int) {
    && Kind in e && e[Kind] == Str("event_index")
    && PartitionKey in e && e[PartitionKey] == Str(partition)
    && LogIndex in e && e[LogIndex] == Int(x)
    && HasText(e, EventId)
    && RowKey in e && e[RowKey] == Str("event-" + d.sha256(e[EventId].text))
  }

  /** An entry or an index row of a log index below n. */
  ghost predicate LogRow(d: Digests, e: Entity, partition: string, n: int) {
    exists x :: 0 <= x < n && (EntryRow(e, partition, x) || IndexRow(d, e, partition, x))
  }

  /** An entry and an index row are there for the log index. */
  predicate HasPair(d: Digests, es: seq<Entity>, partition: string, x: int) {
    && (exists i :: 0 <= i < |es| && EntryRow(es[i], partition, x))
    && (exists i :: 0 <= i < |es| && IndexRow(d, es[i], partition, x))
  }

  /**
   The metadata row stands at position k and announces n; every other row is an entry or an index
   row of a log index below n; and for each of those there is one of both kinds, and no second.
   */
  ghost predicate WellFormed(d: Digests, es: seq<Entity>, k: nat, partition: string, n: nat) {
    && k < |es| && MetadataRow(es[k], partition, n)
    && (forall i :: 0 <= i < |es| && i != k ==> LogRow(d, es[i], partition, n))
    && (forall x :: 0 <= x < n ==> HasPair(d, es, partition, x))
    && (forall i, j, x :: 0 <= i < j < |es| ==> !(EntryRow(es[i], partition, x) && EntryRow(es[j], partition, x)))
    && (forall i, j, x :: 0 <= i < j < |es| ==> !(IndexRow(d, es[i], partition, x) && IndexRow(d, es[j], partition, x)))
  }

  // ---------------------------------------------------------------------------
  // Positions in a selection

  /** Two positions selected keep their order. */
  lemma {:induction false} SelectedPair(es: seq<Entity>, p: Entity -> bool, i: nat, j: nat) returns (a: nat, b: nat)
    requires i < j < |es| && p(es[i]) && p(es[j])
    ensures a < b < |Select(es, p)| && Select(es, p)[a] == es[i] && Select(es, p)[b] == es[j]
  {
    var front := es[..|es| - 1];
    if j < |es| - 1 {
      a, b := SelectedPair(front, p, i, j);
    } else {
      assert front[i] == es[i] && front[i] in front;
      a :| 0 <= a < |Select(front, p)| && Select(front, p)[a] == es[i];
      b := |Select(front, p)|;
    }
  }

  /** Two elements of a selection come from two positions in order. */
  lemma {:induction false} SelectedFrom(es: seq<Entity>, p: Entity -> bool, a: nat, b: nat) returns (i: nat, j: nat)
    requires a < b < |Select(es, p)|
    ensures i < j < |es| && Select(es, p)[a] == es[i] && Select(es, p)[b] == es[j]
  {
    var front := es[..|es| - 1];
    if b < |Select(front, p)| {
      i, j := SelectedFrom(front, p, a, b);
    } else {
      assert Select(front, p)[a] in Select(front, p);
      i :| 0 <= i < |front| && front[i] == Select(front, p)[a];
      j := |es| - 1;
    }
  }

  // ---------------------------------------------------------------------------
  // From the checks to the rows

  lemma NumberOne(v: Value)
    ensures PyEq(v, Int(1)) <==> v in {Int(1), Bool(true), Float(1.0)}
  {
  }

  lemma ValidRow(d: Digests, es: seq<Entity>, i: nat)
    requires ValidTable(d, es) && i < |es| && !IsMetadata(es[i])
    ensures var p, n := Metadata(es)[0][PartitionKey].text, NextOf(es);
            && es[i] in DataRows(es) && Integer(es[i], LogIndex) && 0 <= Index(es[i]) < n
            && (IsEntry(es[i]) ==> EntryRow(es[i], p, Index(es[i])))
            && (IsIndex(es[i]) ==> IndexRow(d, es[i], p, Index(es[i])))
  {
    hide EntryKey;
    KindCounts(es);
    assert es[i] in es;
    SourceRowFacts(d, es, es[i]);
  }

  lemma ValidMetadata(d: Digests, es: seq<Entity>) returns (k: nat)
    requires ValidTable(d, es)
    ensures k < |es| && es[k] == Metadata(es)[0] && MetadataRow(es[k], es[k][PartitionKey].text, NextOf(es))
    ensures forall i :: 0 <= i < |es| && i != k ==> !IsMetadata(es[i])
  {
    hide EntryOk, IndexOk, Contiguous;
    assert Metadata(es)[0] in Metadata(es);
    k :| 0 <= k < |es| && es[k] == Metadata(es)[0];
    NumberOne(es[k][SchemaVersion]);
    forall i | 0 <= i < |es| && i != k
      ensures !IsMetadata(es[i])
    {
      OneMetadataRow(es, if i < k then i else k, if i < k then k else i);
    }
  }

  lemma ValidCovers(d: Digests, es: seq<Entity>, entry: bool, x: nat) returns (i: nat)
    requires ValidTable(d, es) && x < NextOf(es)
    ensures i < |es|
    ensures var p := Metadata(es)[0][PartitionKey].text;
            if entry then EntryRow(es[i], p, x) else IndexRow(d, es[i], p, x)
  {
    hide Select, EntryKey, EntryRow, IndexRow, EntryOk, IndexOk;
    var rows := if entry then Entries(es) else Indexes(es);
    ContiguousCovers(rows, NextOf(es), x);
    ByIndexKeys(rows, x);
    var e := ByIndex(rows)[x];
    KindsExclude(e);
    i :| 0 <= i < |es| && es[i] == e;
    ValidRow(d, es, i);
  }

  lemma ValidOnce(d: Digests, es: seq<Entity>, i: nat, j: nat, p: string, x: int)
    requires ValidTable(d, es) && i < j < |es|
    ensures !(EntryRow(es[i], p, x) && EntryRow(es[j], p, x))
    ensures !(IndexRow(d, es[i], p, x) && IndexRow(d, es[j], p, x))
  {
    hide Select, EntryKey, MetadataOk, EntryOk, IndexOk;
    if EntryRow(es[i], p, x) && EntryRow(es[j], p, x) {
      var a, b := SelectedPair(es, IsEntry, i, j);
    }
    if IndexRow(d, es[i], p, x) && IndexRow(d, es[j], p, x) {
      var a, b := SelectedPair(es, IsIndex, i, j);
    }
  }

  lemma ValidIsWellFormed(d: Digests, es: seq<Entity>) returns (k: nat)
    requires ValidTable(d, es)
    ensures k < |es| && es[k] == Metadata(es)[0] && PartitionKey in es[k] && es[k][PartitionKey].Str? && NextOf(es) >= 0
    ensures WellFormed(d, es, k, es[k][PartitionKey].text, NextOf(es))
  {
    hide ValidTable, EntryRow, IndexRow, NextOf, Metadata;
    k := ValidMetadata(d, es);
    var p, n := es[k][PartitionKey].text, NextOf(es);
    forall i | 0 <= i < |es| && i != k
      ensures LogRow(d, es[i], p, n)
    {
      ValidRow(d, es, i);
      DataIsOneKind(es, es[i]);
      var x := Index(es[i]);
      assert EntryRow(es[i], p, x) || IndexRow(d, es[i], p, x);
    }
    forall x | 0 <= x < n
      ensures HasPair(d, es, p, x)
    {
      var i := ValidCovers(d, es, true, x);
      var j := ValidCovers(d, es, false, x);
    }
    forall i, j, x | 0 <= i < j < |es|
      ensures !(EntryRow(es[i], p, x) && EntryRow(es[j], p, x))
    {
      ValidOnce(d, es, i, j, p, x);
    }
    forall i, j, x | 0 <= i < j < |es|
      ensures !(IndexRow(d, es[i], p, x) && IndexRow(d, es[j], p, x))
    {
      ValidOnce(d, es, i, j, p, x);
    }
  }

  lemma DataIsOneKind(es: seq<Entity>, e: Entity)
    requires e in DataRows(es)
    ensures IsEntry(e) || IsIndex(e)
  {
  }

  // ---------------------------------------------------------------------------
  // From the rows to the checks

  lemma KindOfRow(d: Digests, e: Entity, p: string, x: int)
    ensures EntryRow(e, p, x) || IndexRow(d, e, p, x) ==> Integer(e, LogIndex) && Index(e) == x
    ensures EntryRow(e, p, x) ==> IsEntry(e) && !IsIndex(e) && !IsMetadata(e) && EntryOk(e)
    ensures IndexRow(d, e, p, x) ==> IsIndex(e) && !IsEntry(e) && !IsMetadata(e) && IndexOk(d, e)
    ensures MetadataRow(e, p, x) ==> IsMetadata(e) && !IsEntry(e) && !IsIndex(e) && MetadataOk(e)
  {
    hide EntryKey;
    KindsExclude(e);
    if MetadataRow(e, p, x) {
      NumberOne(e[SchemaVersion]);
    }
  }

  /** The row at a position other than the metadata's, with its log index. */
  lemma RowAt(d: Digests, es: seq<Entity>, k: nat, p: string, n: nat, i: nat) returns (x: int)
    requires WellFormed(d, es, k, p, n) && i < |es| && i != k
    ensures 0 <= x < n && (EntryRow(es[i], p, x) || IndexRow(d, es[i], p, x))
    ensures !IsMetadata(es[i]) && IsEntry(es[i]) != IsIndex(es[i]) && Integer(es[i], LogIndex) && Index(es[i]) == x
    ensures IsEntry(es[i]) ==> EntryRow(es[i], p, x) && EntryOk(es[i])
    ensures IsIndex(es[i]) ==> IndexRow(d, es[i], p, x) && IndexOk(d, es[i])
  {
    hide EntryRow, IndexRow, MetadataRow, EntryOk, IndexOk;
    assert LogRow(d, es[i], p, n);
    x :| 0 <= x < n && (EntryRow(es[i], p, x) || IndexRow(d, es[i], p, x));
    KindOfRow(d, es[i], p, x);
  }

  lemma WellFormedKinds(d: Digests, es: seq<Entity>, k: nat, p: string, n: nat)
    requires WellFormed(d, es, k, p, n)
    ensures Metadata(es) == [es[k]] && |es| == 1 + |Entries(es)| + |Indexes(es)|
  {
    hide EntryRow, IndexRow, MetadataRow, HasPair, EntryOk, IndexOk, MetadataOk;
    KindOfRow(d, es[k], p, n);
    forall i | 0 <= i < |es| && i != k
      ensures !IsMetadata(es[i]) && IsEntry(es[i]) != IsIndex(es[i])
    {
      var x := RowAt(d, es, k, p, n, i);
    }
    OnlyAt(es, IsMetadata, k);
    forall e | e in es
      ensures IsMetadata(e) != IsData(e)
    {
      var i :| 0 <= i < |es| && es[i] == e;
    }
    SelectPartition(es, IsMetadata, IsData);
    forall e | e in DataRows(es)
      ensures IsEntry(e) != IsIndex(e)
    {
      var i :| 0 <= i < |es| && es[i] == e;
    }
    SelectPartition(DataRows(es), IsEntry, IsIndex);
    SelectSelect(es, IsData, IsEntry);
    SelectSelect(es, IsData, IsIndex);
  }

  lemma {:induction false} OnlyAt(es: seq<Entity>, p: Entity -> bool, k: nat)
    requires k < |es| && p(es[k]) && forall i :: 0 <= i < |es| && i != k ==> !p(es[i])
    ensures Select(es, p) == [es[k]]
  {
    var front := es[..|es| - 1];
    if k == |es| - 1 {
      forall e | e in front
        ensures !p(e)
      {
        var i :| 0 <= i < |front| && front[i] == e;
        assert es[i] == e;
      }
      SelectNone(front, p);
    } else {
      OnlyAt(front, p, k);
    }
  }

  lemma WellFormedRow(d: Digests, es: seq<Entity>, k: nat, p: string, n: nat, entry: bool, e: Entity)
    requires WellFormed(d, es, k, p, n) && e in (if entry then Entries(es) else Indexes(es))
    ensures Integer(e, LogIndex) && 0 <= Index(e) < n && if entry then EntryOk(e) else IndexOk(d, e)
  {
    hide EntryRow, IndexRow, MetadataRow, EntryOk, IndexOk, MetadataOk, HasPair, IsEntry, IsIndex, IsMetadata;
    KindOfRow(d, es[k], p, n);
    var i :| 0 <= i < |es| && es[i] == e;
    var x := RowAt(d, es, k, p, n, i);
  }

  lemma WellFormedOnce(d: Digests, es: seq<Entity>, k: nat, p: string, n: nat, entry: bool, a: nat, b: nat)
    requires WellFormed(d, es, k, p, n) && a < b < |if entry then Entries(es) else Indexes(es)|
    ensures var rows := if entry then Entries(es) else Indexes(es);
            && Integer(rows[a], LogIndex) && Integer(rows[b], LogIndex)
            && Index(rows[a]) != Index(rows[b])
  {
    hide EntryRow, IndexRow, MetadataRow, EntryOk, IndexOk, MetadataOk, Select, HasPair, IsEntry, IsIndex, IsMetadata;
    KindOfRow(d, es[k], p, n);
    var kind := if entry then IsEntry else IsIndex;
    var rows := Select(es, kind);
    assert rows[a] in rows && rows[b] in rows;
    var i, j := SelectedFrom(es, kind, a, b);
    var x := RowAt(d, es, k, p, n, i);
    var y := RowAt(d, es, k, p, n, j);
  }

  lemma WellFormedIndex(d: Digests, es: seq<Entity>, k: nat, p: string, n: nat, entry: bool, x: int)
    requires WellFormed(d, es, k, p, n) && 0 <= x < n
    ensures var rows := if entry then Entries(es) else Indexes(es);
            exists a :: 0 <= a < |rows| && Integer(rows[a], LogIndex) && Index(rows[a]) == x
  {
    hide EntryRow, IndexRow, MetadataRow, EntryOk, IndexOk, MetadataOk, Select, IsEntry, IsIndex, IsMetadata;
    var rows := if entry then Entries(es) else Indexes(es);
    assert HasPair(d, es, p, x);
    var i :| 0 <= i < |es| && if entry then EntryRow(es[i], p, x) else IndexRow(d, es[i], p, x);
    KindOfRow(d, es[i], p, x);
    assert es[i] in rows;
  }

  lemma WellFormedContiguous(d: Digests, es: seq<Entity>, k: nat, p: string, n: nat, entry: bool)
    requires WellFormed(d, es, k, p, n)
    ensures Contiguous(if entry then Entries(es) else Indexes(es), n)
  {
    hide WellFormed, Select, EntryOk, IndexOk;
    var rows := if entry then Entries(es) else Indexes(es);
    forall a | 0 <= a < |rows|
      ensures Integer(rows[a], LogIndex) && 0 <= Index(rows[a]) < n
    {
      WellFormedRow(d, es, k, p, n, entry, rows[a]);
    }
    forall a, b | 0 <= a < b < |rows|
      ensures Index(rows[a]) != Index(rows[b])
    {
      WellFormedOnce(d, es, k, p, n, entry, a, b);
    }
    forall x | x in Range(n)
      ensures x in IndexSet(rows)
    {
      WellFormedIndex(d, es, k, p, n, entry, x);
    }
    IndexSetSize(rows);
    assert IndexSet(rows) == Range(n);
  }

  /** What `_validated_state` accepts, said of the rows. */
  lemma ValidTableIff(d: Digests, es: seq<Entity>)
    ensures ValidTable(d, es) <==> exists k, partition, n :: WellFormed(d, es, k, partition, n)
  {
    hide WellFormed, ValidTable, NextOf, Metadata;
    if ValidTable(d, es) {
      var k := ValidIsWellFormed(d, es);
    }
    if k, p, n :| WellFormed(d, es, k, p, n) {
      WellFormedIsValid(d, es, k, p, n);
    }
  }

  lemma WellFormedIsValid(d: Digests, es: seq<Entity>, k: nat, p: string, n: nat)
    requires WellFormed(d, es, k, p, n)
    ensures ValidTable(d, es)
  {
    hide Contiguous, EntryOk, IndexOk, HasPair, Select, EntryKey;
    WellFormedKinds(d, es, k, p, n);
    KindOfRow(d, es[k], p, n);
    WellFormedContiguous(d, es, k, p, n, true);
    WellFormedContiguous(d, es, k, p, n, false);
    forall e | e in Entries(es)
      ensures EntryOk(e)
    {
      WellFormedRow(d, es, k, p, n, true, e);
    }
    forall e | e in Indexes(es)
      ensures IndexOk(d, e)
    {
      WellFormedRow(d, es, k, p, n, false, e);
    }
    forall i | 0 <= i < |es|
      ensures PartitionKey in es[i] && es[i][PartitionKey] == Str(p)
    {
      if i != k {
        var x := RowAt(d, es, k, p, n, i);
      }
    }
  }

  // ---------------------------------------------------------------------------
  // The digests of a valid table

  /** The properties that are digested. */
  function Digested(e: Entity): Entity {
    map f | f in e && f in {PartitionKey, RowKey, Kind, NextIndex, SchemaVersion, LogId, LogIndex,
                            EventJson, EventHash, LeafHash, EventId} :: e[f]
  }

  lemma StableIsDigested(e: Entity)
    ensures Stable(e) == Digested(e)
  {
    forall f: Field
      ensures !f.Other? && !f.Server? <==>
                f in {PartitionKey, RowKey, Kind, NextIndex, SchemaVersion, LogId, LogIndex,
                      EventJson, EventHash, LeafHash, EventId}
    {
    }
  }

  /** What `_validated_state` reports: one digest per log index, of the entry and the index row with that index. */
  lemma StateInRows(d: Digests, es: seq<Entity>, k: nat, p: string, n: nat)
    requires WellFormed(d, es, k, p, n)
    ensures ValidTable(d, es)
    ensures var st := StateOf(d, es);
            && st.nextIndex == n && st.entityCount == |es| == 2 * n + 1 && |st.pairDigests| == n
            && SchemaVersion in es[k]
            && st.metadataDigest == d.digest(MetadataDocument(
                 map[PartitionKey := Str(p), RowKey := Str("meta"), Kind := Str("metadata"),
                     SchemaVersion := es[k][SchemaVersion], LogId := Str("ets-live-primary")]))
            && forall i, j, x ::
                 && 0 <= i < |es| && 0 <= j < |es| && 0 <= x < n
                 && EntryRow(es[i], p, x) && IndexRow(d, es[j], p, x)
                 ==> st.pairDigests[x] == d.digest(PairDocument(Digested(es[i]), Digested(es[j])))
  {
    hide Contiguous, EntryOk, IndexOk, HasPair, Select, EntryKey, EntryRow, IndexRow, Stable, Digested;
    WellFormedIsValid(d, es, k, p, n);
    WellFormedKinds(d, es, k, p, n);
    WellFormedSizes(d, es, k, p, n);
    assert MetadataIdentity(es[k]) ==
           map[PartitionKey := Str(p), RowKey := Str("meta"), Kind := Str("metadata"),
               SchemaVersion := es[k][SchemaVersion], LogId := Str("ets-live-primary")];
    var st := StateOf(d, es);
    forall i, j, x | && 0 <= i < |es| && 0 <= j < |es| && 0 <= x < n
                     && EntryRow(es[i], p, x) && IndexRow(d, es[j], p, x)
      ensures st.pairDigests[x] == d.digest(PairDocument(Digested(es[i]), Digested(es[j])))
    {
      PairInRows(d, es, p, i, j, x);
    }
  }

  lemma WellFormedSizes(d: Digests, es: seq<Entity>, k: nat, p: string, n: nat)
    requires WellFormed(d, es, k, p, n)
    ensures NextOf(es) == n && |Entries(es)| == n && |Indexes(es)| == n && |es| == 2 * n + 1
  {
    hide Select, EntryRow, IndexRow, HasPair;
    WellFormedKinds(d, es, k, p, n);
    WellFormedContiguous(d, es, k, p, n, true);
    WellFormedContiguous(d, es, k, p, n, false);
  }

  lemma PairInRows(d: Digests, es: seq<Entity>, p: string, i: nat, j: nat, x: nat)
    requires ValidTable(d, es) && i < |es| && j < |es| && x < NextOf(es)
    requires EntryRow(es[i], p, x) && IndexRow(d, es[j], p, x)
    ensures StateOf(d, es).pairDigests[x] == d.digest(PairDocument(Digested(es[i]), Digested(es[j])))
  {
    hide EntryOk, IndexOk, MetadataOk, HasPair, Select, EntryKey, Stable, Digested;
    KindOfRow(d, es[i], p, x);
    KindOfRow(d, es[j], p, x);
    assert es[i] in es && es[j] in es;
    MemberByIndex(Entries(es), NextOf(es), es[i]);
    MemberByIndex(Indexes(es), NextOf(es), es[j]);
    StableIsDigested(es[i]);
    StableIsDigested(es[j]);
  }

  // ---------------------------------------------------------------------------
  // What a listing and an analysis accept

  /** Python's equality on property values: identity, but for numbers of one value. */
  lemma PythonEquality(v: Value, n: int, r: real, s: string)
    ensures PyEq(v, Int(n)) <==>
              v == Int(n) || v == Float(n as real) || (v == Bool(true) && n == 1) || (v == Bool(false) && n == 0)
    ensures PyEq(v, Float(r)) <==>
              || v == Float(r) || (v.Int? && v.number as real == r)
              || (v == Bool(true) && r == 1.0) || (v == Bool(false) && r == 0.0)
    ensures PyEq(v, Str(s)) <==> v == Str(s)
    ensures PyEq(v, Nested(s)) <==> v == Nested(s)
  {
  }

  /** The rows a listing takes: named keys, scalar properties outside the service's own, no key twice. */
  lemma ListableIff(rows: seq<Entity>)
    ensures Listable(rows) <==>
              && (forall i :: 0 <= i < |rows| ==> HasText(rows[i], PartitionKey) && HasText(rows[i], RowKey))
              && (forall i, f :: 0 <= i < |rows| && f in rows[i] && rows[i][f].Nested? ==> f.Server?)
              && forall i, j :: 0 <= i < j < |rows| ==>
                   || rows[i][PartitionKey] != rows[j][PartitionKey]
                   || rows[i][RowKey] != rows[j][RowKey]
  {
  }

  /** `e` is the row without the properties the service maintains. */
  ghost predicate Trimmed(e: Entity, row: Entity) {
    (forall f :: f in e <==> f in row && !f.Server?) && (forall f :: f in e ==> e[f] == row[f])
  }

  lemma StripIsTrimmed(e: Entity, row: Entity)
    ensures Trimmed(e, row) <==> Strip(row) == e
  {
  }

  /** A listing holds each stored row so trimmed, and nothing else. */
  lemma ListedIff(rows: seq<Entity>, e: Entity)
    requires Listable(rows)
    ensures e in Listing(rows) <==> exists i :: 0 <= i < |rows| && Trimmed(e, rows[i])
    ensures |Listing(rows)| == |rows|
  {
    hide Listing, Strip, Trimmed, Listable;
    ListingIsCanonical(rows);
    forall i | 0 <= i < |rows|
      ensures Trimmed(e, rows[i]) <==> StripAll(rows)[i] == e
    {
      StripIsTrimmed(e, rows[i]);
    }
  }

  /** A listing is in code-point order of partitions, and within a partition of row keys. */
  lemma ListingInKeyOrder(rows: seq<Entity>, i: nat, j: nat)
    requires Listable(rows) && i < j < |Listing(rows)|
    ensures var a, b := Listing(rows)[i], Listing(rows)[j];
            && HasText(a, PartitionKey) && HasText(b, PartitionKey) && HasText(a, RowKey) && HasText(b, RowKey)
            && LexLeq(a[PartitionKey].text, b[PartitionKey].text)
            && (a[PartitionKey] == b[PartitionKey] ==> a[RowKey] != b[RowKey] && LexLeq(a[RowKey].text, b[RowKey].text))
  {
    hide Listing, LexLeq;
    ListingIsCanonical(rows);
    assert ByKey()(Listing(rows)[i], Listing(rows)[j]);
    LexReflexive(Listing(rows)[i][PartitionKey].text);
  }

  lemma LexReflexive(s: string)
    ensures LexLeq(s, s)
  {
    LexTotal(s, s);
  }

  /** Python calls the row equal to the source row under its key. */
  predicate Repeats(src: seq<Entity>, e: Entity)
    requires Keyed(e)
  {
    exists s :: s in src && (IsEntry(s) || IsIndex(s)) && Keyed(s) && KeyOf(s) == KeyOf(e) && Same(e, s)
  }

  /** A destination row repeats the source row under its key. */
  lemma CopiedIff(src: seq<Entity>, e: Entity)
    requires DistinctKeys(DataRows(src))
    ensures Copied(DataRows(src), e) <==>
              && (IsEntry(e) || IsIndex(e)) && Keyed(e) && LogIndex in e && e[LogIndex].Int? && e[LogIndex].number >= 0
              && Repeats(src, e)
  {
    hide Same, IsEntry, IsIndex, FindKey, Select;
    if Keyed(e) {
      FindKeyFinds(DataRows(src), KeyOf(e));
      if Repeats(src, e) {
        var s :| s in src && (IsEntry(s) || IsIndex(s)) && Keyed(s) && KeyOf(s) == KeyOf(e) && Same(e, s);
        assert s in DataRows(src);
        FindKeyUnique(DataRows(src), s);
      }
    }
  }

  /**
   What the analysis accepts, said of the rows: a valid source without repeated keys; a destination
   with one metadata row whose mark is not beyond the source's, no key twice, and otherwise only
   rows equal to the source row under their key; and the rows under the mark, with the metadata
   row, valid and digested as the source's beginning.
   */
  lemma AcceptableIff(d: Digests, src: seq<Entity>, dst: seq<Entity>)
    ensures Acceptable(d, src, dst) <==>
              && ValidTable(d, src) && DistinctKeys(DataRows(src)) && DistinctKeys(dst)
              && |Metadata(dst)| == 1
              && NextIndex in Metadata(dst)[0] && Metadata(dst)[0][NextIndex].Int?
              && 0 <= Metadata(dst)[0][NextIndex].number <= StateOf(d, src).nextIndex
              && (forall e: Entity :: e in dst && !IsMetadata(e) ==>
                    && (IsEntry(e) || IsIndex(e)) && Keyed(e)
                    && LogIndex in e && e[LogIndex].Int? && e[LogIndex].number >= 0
                    && Repeats(src, e))
              && ValidTable(d, Committed(dst))
              && StateOf(d, Committed(dst)).metadataDigest == StateOf(d, src).metadataDigest
              && StateOf(d, Committed(dst)).pairDigests <= StateOf(d, src).pairDigests
  {
    hide Same, IsEntry, IsIndex, IsMetadata, FindKey, Select, Committed, ValidTable, DistinctKeys, Copied;
    if DistinctKeys(DataRows(src)) {
      assert AllCopied(DataRows(src), dst) <==> forall e :: e in dst && !IsMetadata(e) ==> Copied(DataRows(src), e);
      forall e: Entity
        ensures Copied(DataRows(src), e) <==>
                  && (IsEntry(e) || IsIndex(e)) && Keyed(e)
                  && LogIndex in e && e[LogIndex].Int? && e[LogIndex].number >= 0
                  && Repeats(src, e)
      {
        CopiedIff(src, e);
      }
    }
  }

  lemma CommittedInRows(dst: seq<Entity>, e: Entity)
    ensures e in Committed(dst) <==>
              && e in dst
              && (IsMetadata(e)
                  || ((IsEntry(e) || IsIndex(e))
                      && LogIndex in e && e[LogIndex].Int? && e[LogIndex].number < NextOf(dst)))
  {
  }
}
