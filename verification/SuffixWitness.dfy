/**
 The smallest case in which a finished copy is refused: one entry/index pair, the entry already
 staged with True where the source has 1.
 */
module SuffixWitness {
  import opened Common
  import opened Decimals
  import opened Ordering
  import opened TableEntities
  import opened TableState
  import opened SuffixWriter
  import opened SuffixProtocol
  import opened SuffixRuns
  import opened SuffixTheorems
  import opened SuffixConvergence

  const ENTRY: Entity := map[
    PartitionKey := Str("p"), RowKey := Str(EntryKey(0)), Kind := Str("entry"), LogIndex := Int(0),
    EventJson := Str("{}"), EventHash := Str("h"), LeafHash := Str("l"), SchemaVersion := Int(1)]

  function IndexRow(d: Digests): Entity {
    map[PartitionKey := Str("p"), RowKey := Str("event-" + d.sha256("e")), Kind := Str("event_index"),
        LogIndex := Int(0), EventId := Str("e")]
  }

  function MetadataRow(next: int): Entity {
    map[PartitionKey := Str("p"), RowKey := Str("meta"), Kind := Str("metadata"), SchemaVersion := Int(1),
        LogId := Str("ets-live-primary"), NextIndex := Int(next)]
  }

  function Source(d: Digests): seq<Entity> {
    [ENTRY, IndexRow(d), MetadataRow(1)]
  }

  const STAGED_ENTRY: Entity := ENTRY[SchemaVersion := Bool(true)]

  const DESTINATION: seq<Entity> := [STAGED_ENTRY, MetadataRow(0)]

  lemma SelectThree(a: Entity, b: Entity, c: Entity, p: Entity -> bool)
    ensures Select([a, b, c], p) == (if p(a) then [a] else []) + (if p(b) then [b] else []) + (if p(c) then [c] else [])
    ensures Select([a, b], p) == (if p(a) then [a] else []) + (if p(b) then [b] else [])
    ensures Select([a], p) == if p(a) then [a] else []
  {
    assert [] + [a] == [a] && [a] + [b] == [a, b] && [a, b] + [c] == [a, b, c];
    SelectSnoc([], a, p);
    SelectSnoc([a], b, p);
    SelectSnoc([a, b], c, p);
  }

  lemma RowKinds(d: Digests)
    ensures IsEntry(ENTRY) && !IsIndex(ENTRY) && !IsMetadata(ENTRY)
    ensures IsEntry(STAGED_ENTRY) && !IsIndex(STAGED_ENTRY) && !IsMetadata(STAGED_ENTRY)
    ensures IsIndex(IndexRow(d)) && !IsEntry(IndexRow(d)) && !IsMetadata(IndexRow(d))
    ensures forall n :: IsMetadata(MetadataRow(n)) && !IsEntry(MetadataRow(n)) && !IsIndex(MetadataRow(n))
  {
    KindsExclude(ENTRY);
    KindsExclude(STAGED_ENTRY);
    KindsExclude(IndexRow(d));
    forall n
      ensures IsMetadata(MetadataRow(n)) && !IsEntry(MetadataRow(n)) && !IsIndex(MetadataRow(n))
    {
      KindsExclude(MetadataRow(n));
    }
  }

  /** The selections of a list of an entry, an index row and a metadata row. */
  lemma SelectKinds(e: Entity, x: Entity, m: Entity)
    requires IsEntry(e) && !IsIndex(e) && !IsMetadata(e)
    requires IsIndex(x) && !IsEntry(x) && !IsMetadata(x)
    requires IsMetadata(m) && !IsEntry(m) && !IsIndex(m)
    ensures Metadata([e, x, m]) == [m] && Entries([e, x, m]) == [e] && Indexes([e, x, m]) == [x]
      && DataRows([e, x, m]) == [e, x]
  {
    hide Select, IsEntry, IsIndex, IsMetadata;
    assert Metadata([e, x, m]) == [m] by {
      SelectThree(e, x, m, IsMetadata);
    }
    assert Entries([e, x, m]) == [e] by {
      SelectThree(e, x, m, IsEntry);
    }
    assert Indexes([e, x, m]) == [x] by {
      SelectThree(e, x, m, IsIndex);
    }
    SelectThree(e, x, m, IsData);
  }

  lemma SourceSelections(d: Digests)
    ensures Metadata(Source(d)) == [MetadataRow(1)] && Entries(Source(d)) == [ENTRY]
      && Indexes(Source(d)) == [IndexRow(d)]
    ensures DataRows(Source(d)) == [ENTRY, IndexRow(d)]
  {
    hide Select, IsEntry, IsIndex, IsMetadata;
    RowKinds(d);
    SelectKinds(ENTRY, IndexRow(d), MetadataRow(1));
  }

  lemma SourceIsValid(d: Digests)
    ensures ValidTable(d, Source(d)) && NextOf(Source(d)) == 1
  {
    SourceSelections(d);
    hide Select, EntryKey;
    assert EntryOk(ENTRY) && IndexOk(d, IndexRow(d)) && MetadataOk(MetadataRow(1));
    assert Contiguous([ENTRY], 1) && Contiguous([IndexRow(d)], 1);
  }

  lemma RowKeys(d: Digests)
    ensures Keyed(ENTRY) && KeyOf(ENTRY) == ("p", EntryKey(0))
    ensures Keyed(STAGED_ENTRY) && KeyOf(STAGED_ENTRY) == ("p", EntryKey(0))
    ensures Keyed(IndexRow(d)) && KeyOf(IndexRow(d)) == ("p", "event-" + d.sha256("e"))
    ensures forall n :: Keyed(MetadataRow(n)) && KeyOf(MetadataRow(n)) == ("p", "meta")
  {
  }

  lemma KeysAscend(rest: string, more: string)
    ensures LexLeq("entry-" + rest, "event-" + more) && "entry-" + rest != "event-" + more
    ensures LexLeq("entry-" + rest, "meta") && "entry-" + rest != "meta"
    ensures LexLeq("event-" + more, "meta") && "event-" + more != "meta"
  {
    var a, b, c := "entry-" + rest, "event-" + more, "meta";
    assert a[0] == 'e' && b[0] == 'e' && c[0] == 'm';
    assert a[1] == 'n' && b[1] == 'v';
    assert a[1..][0] == 'n' && b[1..][0] == 'v';
    assert LexLeq(a[1..], b[1..]);
  }

  lemma EntryKeyForm()
    ensures EntryKey(0) == "entry-" + Padded(0, 20)
  {
  }

  lemma SourceIsSnapshot(d: Digests)
    ensures Snapshot(Source(d)) && DistinctKeys([ENTRY, IndexRow(d)])
  {
    RowKeys(d);
    EntryKeyForm();
    KeysAscend(Padded(0, 20), d.sha256("e"));
    assert Canonical(Source(d)) by {
      hide ENTRY, IndexRow, MetadataRow, LexLeq, EntryKey, Padded;
    }
    Unserviced(d);
  }

  lemma PlainRow(e: Entity)
    requires Keyed(e) && forall f :: f in e ==> !f.Server? && !e[f].Nested?
    ensures Storable(e) && Strip(e) == e
  {
    assert Strip(e).Keys == e.Keys;
  }

  lemma PlainEntries()
    ensures Storable(ENTRY) && Strip(ENTRY) == ENTRY && Storable(STAGED_ENTRY) && Strip(STAGED_ENTRY) == STAGED_ENTRY
  {
    hide EntryKey, Storable, Strip, Keyed;
    RowKeys(Digests(s => s, _ => ""));
    PlainRow(ENTRY);
    PlainRow(STAGED_ENTRY);
  }

  lemma PlainOthers(d: Digests, n: int)
    ensures Storable(IndexRow(d)) && Strip(IndexRow(d)) == IndexRow(d)
    ensures Storable(MetadataRow(n)) && Strip(MetadataRow(n)) == MetadataRow(n)
  {
    hide Storable, Strip, Keyed;
    RowKeys(d);
    PlainRow(IndexRow(d));
    PlainRow(MetadataRow(n));
  }

  lemma Unserviced(d: Digests)
    ensures forall e :: e in Source(d) || e in DESTINATION ==> Storable(e) && Strip(e) == e
  {
    hide Storable, Strip, ENTRY, STAGED_ENTRY, IndexRow, MetadataRow;
    PlainEntries();
    PlainOthers(d, 0);
    PlainOthers(d, 1);
  }

  lemma DestinationListing(d: Digests)
    ensures Listable(DESTINATION) && Listing(DESTINATION) == DESTINATION
  {
    RowKeys(d);
    EntryKeyForm();
    KeysAscend(Padded(0, 20), "");
    Unserviced(d);
    assert Canonical(DESTINATION) by {
      hide ENTRY, MetadataRow, LexLeq, EntryKey, Padded;
    }
    assert StripAll(DESTINATION) == DESTINATION;
    assert Listable(DESTINATION) by {
      hide Storable;
    }
    ListingIsCanonical(DESTINATION);
    CanonicalEqual(Listing(DESTINATION), DESTINATION);
  }

  lemma SelectTwo(a: Entity, b: Entity, p: Entity -> bool)
    ensures !p(a) && p(b) ==> Select([a, b], p) == [b]
    ensures p(a) && !p(b) ==> Select([a, b], p) == [a]
    ensures !p(a) && !p(b) ==> Select([a, b], p) == []
    ensures p(a) ==> Select([a], p) == [a]
    ensures !p(a) ==> Select([a], p) == []
  {
    SelectThree(a, b, b, p);
  }

  lemma SelectPair(e: Entity, m: Entity)
    requires IsEntry(e) && !IsMetadata(e) && IsMetadata(m) && !IsEntry(m) && !IsIndex(m)
    requires !Below(e, 0)
    ensures Metadata([e, m]) == [m] && DataRows([e, m]) == [e] && Select([e, m], IsLow(0)) == []
    ensures Metadata([m]) == [m] && Entries([m]) == [] && Indexes([m]) == []
  {
    hide Select, IsEntry, IsIndex, IsMetadata, Below;
    SelectTwo(e, m, IsMetadata);
    SelectTwo(e, m, IsData);
    SelectTwo(e, m, IsLow(0));
    SelectTwo(m, m, IsMetadata);
    SelectTwo(m, m, IsEntry);
    SelectTwo(m, m, IsIndex);
  }

  lemma DestinationSelections(d: Digests)
    ensures Metadata(DESTINATION) == [MetadataRow(0)] && NextOf(DESTINATION) == 0
    ensures DataRows(DESTINATION) == [STAGED_ENTRY] && Committed(DESTINATION) == [MetadataRow(0)]
    ensures Metadata([MetadataRow(0)]) == [MetadataRow(0)] && Entries([MetadataRow(0)]) == []
      && Indexes([MetadataRow(0)]) == []
  {
    hide Select, IsEntry, IsIndex, IsMetadata, EntryKey;
    RowKinds(d);
    assert !Below(STAGED_ENTRY, 0);
    SelectPair(STAGED_ENTRY, MetadataRow(0));
    assert NextOf(DESTINATION) == 0;
  }

  lemma StagedIsCopied(d: Digests)
    ensures Copied([ENTRY, IndexRow(d)], STAGED_ENTRY)
      && FindKey([ENTRY, IndexRow(d)], KeyOf(STAGED_ENTRY)) == Some(ENTRY)
    ensures Stable(STAGED_ENTRY) != Stable(ENTRY)
  {
    RowKeys(d);
    RowKinds(d);
    SourceIsSnapshot(d);
    FindKeyUnique([ENTRY, IndexRow(d)], ENTRY);
    TrueForOne(ENTRY, SchemaVersion);
  }

  lemma EmptyPrefixIsValid(d: Digests)
    ensures ValidTable(d, [MetadataRow(0)]) && StateOf(d, [MetadataRow(0)]).pairDigests == []
  {
    hide Select, IsEntry, IsIndex, IsMetadata, STAGED_ENTRY, EntryOk, IndexOk;
    DestinationSelections(d);
    assert MetadataOk(MetadataRow(0));
    assert Contiguous([], 0);
  }

  lemma MetadataDigestsAgree(d: Digests)
    ensures ValidTable(d, [MetadataRow(0)]) && ValidTable(d, Source(d))
    ensures StateOf(d, [MetadataRow(0)]).metadataDigest == StateOf(d, Source(d)).metadataDigest
  {
    assert MetadataIdentity(MetadataRow(0)) == MetadataIdentity(MetadataRow(1));
    hide Select, ValidTable, STAGED_ENTRY, MetadataRow, MetadataIdentity;
    EmptyPrefixIsValid(d);
    SourceIsValid(d);
    SourceSelections(d);
    DestinationSelections(d);
  }

  /** The analysis accepts this destination, and its staged row does not encode as the source's. */
  lemma AcceptedButNotAlike(d: Digests)
    ensures Snapshot(Source(d)) && Answers(DESTINATION, d, Source(d))
    ensures NextOf(Listing(DESTINATION)) < NextOf(Source(d))
    ensures !AllEncodedAlike(Source(d), Listing(DESTINATION))
  {
    SourceIsSnapshot(d);
    SourceIsValid(d);
    SourceSelections(d);
    DestinationListing(d);
    DestinationSelections(d);
    StagedIsCopied(d);
    EmptyPrefixIsValid(d);
    MetadataDigestsAgree(d);
    RowKinds(d);
    hide Select, ValidTable, StateOf, Copied, FindKey, Stable, Committed, Listing, Canonical, ENTRY, STAGED_ENTRY,
         IndexRow, IsMetadata;
    assert DistinctKeys(DESTINATION);
    assert Integer(MetadataRow(0), NextIndex);
    assert AllCopied(DataRows(Source(d)), DESTINATION);
    assert STAGED_ENTRY in DataRows(DESTINATION);
  }

  /** The digests see the difference between the source's pair and the staged one. */
  predicate SeesTheDifference(d: Digests) {
    d.digest(PairDocument(Stable(ENTRY), Stable(IndexRow(d)))) !=
    d.digest(PairDocument(Stable(STAGED_ENTRY), Stable(IndexRow(d))))
  }

  lemma MetadataIsTold(d: Digests)
    ensures TellsMetadataApart(d, Source(d), DESTINATION)
  {
    assert MetadataIdentity(MetadataRow(0)) == MetadataIdentity(MetadataRow(1));
    hide Select, MetadataRow, MetadataIdentity;
    SourceSelections(d);
    DestinationSelections(d);
  }

  lemma PairsAreTold(d: Digests)
    requires SeesTheDifference(d)
    ensures TellsPairsApart(d, Source(d), DESTINATION)
  {
    hide Select, Stable, ENTRY, STAGED_ENTRY, IndexRow, MetadataRow, IsEntry, IsIndex, IsMetadata;
    RowKinds(d);
    var all := Source(d) + DESTINATION;
    var x := Stable(IndexRow(d));
    forall e | e in Entries(all)
      ensures e in {ENTRY, STAGED_ENTRY}
    {
    }
    forall i | i in Indexes(all)
      ensures i == IndexRow(d)
    {
    }
    assert PairDocuments(all) <= {PairDocument(Stable(ENTRY), x), PairDocument(Stable(STAGED_ENTRY), x)};
  }

  lemma OneStaged()
    ensures Staged(DESTINATION) == [STAGED_ENTRY]
  {
    hide Select, IsEntry, IsIndex, IsMetadata, ENTRY;
    var d := Digests(s => s, _ => "");
    RowKinds(d);
    DestinationSelections(d);
    assert IsHigh(0)(STAGED_ENTRY) && !IsHigh(0)(MetadataRow(0));
    SelectTwo(STAGED_ENTRY, MetadataRow(0), IsHigh(0));
  }

  lemma OneMissing(d: Digests)
    ensures |Missing(Source(d), DESTINATION)| == 1
  {
    hide Acceptable, Missing, Listing, Listable, NextOf, Staged, DataRows, Metadata, Committed, Source, Snapshot,
         AllEncodedAlike, ValidTable, DESTINATION, STAGED_ENTRY, ENTRY;
    AcceptedButNotAlike(d);
    DestinationListing(d);
    DestinationSelections(d);
    SourceIsValid(d);
    StagedPlusMissing(d, Source(d), DESTINATION);
    OneStaged();
  }

  /** So the copy finishes, and every later run refuses it. */
  lemma FinishedThenRefused(d: Digests, budget: nat, again: nat)
    requires SeesTheDifference(d) && budget >= 2
    ensures var a := RunOnce(d, Source(d), Evidence(1, 3), DESTINATION, budget);
            a.outcome == Finished && RunOnce(d, Source(d), Evidence(1, 3), a.rows, again).outcome == Refused
  {
    hide Snapshot, Answers, NextOf, AllEncodedAlike, RunOnce, Missing, Listing, SeesTheDifference, TellsMetadataApart,
         TellsPairsApart, IndexRow, MetadataRow, ENTRY, STAGED_ENTRY;
    AcceptedButNotAlike(d);
    DestinationListing(d);
    SourceIsValid(d);
    assert AgreesWith(Source(d), Evidence(1, 3));
    MetadataIsTold(d);
    PairsAreTold(d);
    OneMissing(d);
    UninterruptedRun(d, Source(d), Evidence(1, 3), DESTINATION, budget);
    RerunAfterFinish(d, Source(d), Evidence(1, 3), DESTINATION, budget, again);
  }

  /** Digests that look at one property of an entry. */
  const SAMPLE := Digests(
    s => s,
    (doc: Document) =>
      if doc.MetadataDocument? then "metadata"
      else if SchemaVersion in doc.entry && doc.entry[SchemaVersion].Bool? then "true" else "one")

  /** No assumption is left: with these digests the copy finishes and is then refused. */
  lemma RefusalHappens(budget: nat, again: nat)
    requires budget >= 2
    ensures var a := RunOnce(SAMPLE, Source(SAMPLE), Evidence(1, 3), DESTINATION, budget);
            a.outcome == Finished && RunOnce(SAMPLE, Source(SAMPLE), Evidence(1, 3), a.rows, again).outcome == Refused
  {
    hide RunOnce, Source, DESTINATION;
    assert SeesTheDifference(SAMPLE) by {
      assert Stable(ENTRY)[SchemaVersion] == Int(1) && Stable(STAGED_ENTRY)[SchemaVersion] == Bool(true);
    }
    FinishedThenRefused(SAMPLE, budget, again);
  }
}
