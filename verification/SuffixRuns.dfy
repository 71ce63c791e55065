/**
 Runs of the suffix writer against the stored rows. A run may be cut off after any number of
 writes; `budget` is how many writes it gets to make.
 */
module SuffixRuns {
  import opened Common
  import opened TableEntities
  import opened TableState
  import opened SuffixWriter
  import opened SuffixProtocol

  /** What the restore manifest says of the snapshot. */
  datatype Evidence = Evidence(next: int, count: int)

  datatype Outcome = Refused | Interrupted | Rejected | Finished

  datatype Attempt = Attempt(rows: seq<Entity>, inserted: seq<Entity>, advanced: bool, outcome: Outcome)

  function PositionOf(rows: seq<Entity>, key: Key): (p: Option<nat>)
    ensures p.Some? ==> p.value < |rows| && Keyed(rows[p.value]) && KeyOf(rows[p.value]) == key
    ensures p.None? ==> forall i :: 0 <= i < |rows| && Keyed(rows[i]) ==> KeyOf(rows[i]) != key
  {
    if rows == [] then None
    else
      var n := |rows| - 1;
      if Keyed(rows[n]) && KeyOf(rows[n]) == key then Some(n) else PositionOf(rows[..n], key)
  }

  /** Insert, or replace the row with the same key. */
  function Upsert(rows: seq<Entity>, e: Entity): seq<Entity>
    requires Keyed(e)
  {
    match PositionOf(rows, KeyOf(e))
    case Some(i) => rows[i := e]
    case None => rows + [e]
  }

  predicate Answers(rows: seq<Entity>, d: Digests, src: seq<Entity>) {
    Listable(rows) && Acceptable(d, src, Listing(rows))
  }

  predicate AgreesWith(src: seq<Entity>, ev: Evidence) {
    NextOf(src) == ev.next && |src| == ev.count
  }

  /** The last check of a run: the stored rows are the source, and the manifest describes them. */
  predicate Confirmed(d: Digests, src: seq<Entity>, ev: Evidence, rows: seq<Entity>) {
    Listable(rows) && SameList(Listing(rows), src) && ValidTable(d, Listing(rows)) && AgreesWith(Listing(rows), ev)
  }

  function Conclude(d: Digests, src: seq<Entity>, ev: Evidence, rows: seq<Entity>, inserted: seq<Entity>,
      advanced: bool): Attempt {
    Attempt(rows, inserted, advanced, if Confirmed(d, src, ev, rows) then Finished else Rejected)
  }

  /** What is stored, and how the run ends, when the writes run out after `budget` of them. */
  function RunOnce(d: Digests, src: seq<Entity>, ev: Evidence, rows: seq<Entity>, budget: nat): Attempt {
    if !Answers(rows, d, src) || !AgreesWith(src, ev) then Attempt(rows, [], false, Refused)
    else
      var missing := Missing(src, Listing(rows));
      if budget < |missing| then Attempt(rows + missing[..budget], missing[..budget], false, Interrupted)
      else
        var staged := rows + missing;
        if !Answers(staged, d, src) || Missing(src, Listing(staged)) != []
          then Attempt(staged, missing, false, Rejected)
        else if NextOf(Listing(staged)) == NextOf(src) then Conclude(d, src, ev, staged, missing, false)
        else if budget == |missing| then Attempt(staged, missing, false, Interrupted)
        else if !Keyed(Metadata(src)[0]) then Attempt(staged, missing, false, Rejected)
        else Conclude(d, src, ev, Upsert(staged, Metadata(src)[0]), missing, true)
  }

  // ---------------------------------------------------------------------------
  // The table and the write loop

  class EvidenceTable {
    var rows: seq<Entity>

    constructor (rows: seq<Entity>)
      ensures this.rows == rows
    {
      this.rows := rows;
    }

    /** Fails when a row with the key exists. */
    method Insert(e: Entity) returns (ok: bool)
      requires Keyed(e)
      modifies this
      ensures ok <==> PositionOf(old(rows), KeyOf(e)).None?
      ensures rows == if ok then old(rows) + [e] else old(rows)
    {
      ok := PositionOf(rows, KeyOf(e)).None?;
      if ok {
        rows := rows + [e];
      }
    }

    method Replace(e: Entity)
      requires Keyed(e)
      modifies this
      ensures rows == Upsert(old(rows), e)
    {
      rows := Upsert(rows, e);
    }

    method Query() returns (r: Result<seq<Entity>, MigrationError>)
      ensures r == if Listable(rows) then Ok(Listing(rows)) else Err(MigrationControlError)
    {
      if !Listable(rows) {
        return Err(MigrationControlError);
      }
      return Ok(Listing(rows));
    }
  }

  /** Insert the rows in order until done, refused, or out of writes. */
  method InsertRows(table: EvidenceTable, rows: seq<Entity>, budget: nat) returns (ok: bool, written: nat)
    requires forall i :: 0 <= i < |rows| ==> Keyed(rows[i])
    modifies table
    ensures written <= |rows| && table.rows == old(table.rows) + rows[..written]
    ensures ok ==> written == if budget < |rows| then budget else |rows|
    ensures !ok ==> written < |rows| && PositionOf(old(table.rows) + rows[..written], KeyOf(rows[written])).Some?
  {
    hide PositionOf;
    written := 0;
    while written < |rows| && written < budget
      invariant written <= |rows| && written <= budget
      invariant table.rows == old(table.rows) + rows[..written]
    {
      ok := table.Insert(rows[written]);
      if !ok {
        return;
      }
      assert old(table.rows) + rows[..written] + [rows[written]] == old(table.rows) + rows[..written + 1];
      written := written + 1;
    }
    ok := true;
  }

  /** No insert of a run can hit an existing key. */
  lemma InsertsAreFresh(d: Digests, src: seq<Entity>, rows: seq<Entity>, n: nat)
    requires Snapshot(src) && Answers(rows, d, src) && n < |Missing(src, Listing(rows))|
    ensures var missing := Missing(src, Listing(rows));
            Keyed(missing[n]) && PositionOf(rows + missing[..n], KeyOf(missing[n])).None?
  {
    hide Listing, Missing, Listable, Canonical, Committed, CopiesSource, PrefixDigestsAgree, ValidTable,
         DistinctKeys, PositionOf;
    var missing := Missing(src, Listing(rows));
    var stored := rows + missing[..n];
    InsertMany(d, src, rows, n);
    assert missing[n] == missing[n..][0];
    assert missing[n] in Missing(src, Listing(stored));
    InsertListed(d, src, stored, missing[n]);
    NoPosition(stored, missing[n]);
  }

  lemma NoPosition(rows: seq<Entity>, e: Entity)
    requires Listable(rows) && Keyed(e) && forall f :: f in Listing(rows) ==> Keyed(f) && KeyOf(f) != KeyOf(e)
    ensures PositionOf(rows, KeyOf(e)).None?
  {
    var p := PositionOf(rows, KeyOf(e));
    if p.Some? {
      ListingKeys(rows, p.value);
    }
  }

  method ApplyResumableSuffix(d: Digests, src: seq<Entity>, ev: Evidence, table: EvidenceTable, budget: nat)
    returns (inserted: seq<Entity>, advanced: bool, outcome: Outcome)
    requires Snapshot(src)
    modifies table
    ensures Attempt(table.rows, inserted, advanced, outcome) == RunOnce(d, src, ev, old(table.rows), budget)
    ensures ev.next != NextOf(src) || ev.count != |src| || !Answers(old(table.rows), d, src) ==>
              table.rows == old(table.rows) && inserted == [] && !advanced && outcome == Refused
  {
    hide Acceptable, Listing, Missing, Listable, Canonical, Upsert, ValidTable, SameList;
    ghost var before := table.rows;
    inserted, advanced := [], false;
    var plan := Analyze(d, src, table);
    if plan.Err? || plan.value.sourceNext != ev.next || plan.value.sourceCount != ev.count {
      return inserted, advanced, Refused;
    }
    var missing := plan.value.missing;
    MissingKeyed(d, src, Listing(before));
    var ok, written := InsertRows(table, missing, budget);
    inserted := missing[..written];
    if !ok {
      InsertsAreFresh(d, src, before, written);
      return inserted, advanced, Rejected;
    }
    if written < |missing| {
      return inserted, advanced, Interrupted;
    }
    assert missing[..written] == missing;
    var staged := Analyze(d, src, table);
    if staged.Err? || |staged.value.missing| != 0 {
      return inserted, advanced, Rejected;
    }
    if staged.value.destinationNext != staged.value.sourceNext {
      if budget == |missing| {
        return inserted, advanced, Interrupted;
      }
      var metadata := Metadata(src)[0];
      if !Keyed(metadata) {
        return inserted, advanced, Rejected;
      }
      table.Replace(metadata);
      advanced := true;
    }
    outcome := Confirm(d, src, ev, table);
  }

  /** Query the table and analyse the answer. */
  method Analyze(d: Digests, src: seq<Entity>, table: EvidenceTable) returns (r: Result<Plan, MigrationError>)
    ensures r.Ok? <==> Answers(table.rows, d, src)
    ensures r.Ok? ==> r.value == PlanOf(src, Listing(table.rows)) && |Metadata(src)| == 1
  {
    hide Listing, Listable, Missing;
    var dst := table.Query();
    if dst.Err? {
      return Err(dst.error);
    }
    r := AnalyzeDestination(d, src, dst.value);
  }

  method Confirm(d: Digests, src: seq<Entity>, ev: Evidence, table: EvidenceTable) returns (outcome: Outcome)
    ensures outcome == if Confirmed(d, src, ev, table.rows) then Finished else Rejected
  {
    hide Listing, Listable, SameList;
    var final := table.Query();
    if final.Err? || !SameList(final.value, src) {
      return Rejected;
    }
    var state := ValidatedState(d, final.value);
    if state.Err? || state.value.nextIndex != ev.next || state.value.entityCount != ev.count {
      return Rejected;
    }
    return Finished;
  }

  lemma MissingKeyed(d: Digests, src: seq<Entity>, dst: seq<Entity>)
    requires Acceptable(d, src, dst)
    ensures forall i :: 0 <= i < |Missing(src, dst)| ==> Keyed(Missing(src, dst)[i])
  {
    hide Missing, Acceptable;
    MissingDistinct(d, src, dst);
  }

  // ---------------------------------------------------------------------------
  // Replacing the metadata row

  lemma ListableReplace(rows: seq<Entity>, i: nat, e: Entity)
    requires Listable(rows) && i < |rows| && Storable(e) && KeyOf(e) == KeyOf(rows[i])
    ensures Listable(rows[i := e])
  {
    var updated := rows[i := e];
    forall a | 0 <= a < |updated|
      ensures Storable(updated[a]) && KeyOf(updated[a]) == KeyOf(rows[a])
    {
      assert updated[a] == if a == i then e else rows[a];
    }
  }

  lemma ListingMember(rows: seq<Entity>, f: Entity)
    requires Listable(rows)
    ensures f in Listing(rows) <==> exists a :: 0 <= a < |rows| && Strip(rows[a]) == f
  {
    ListingIsCanonical(rows);
    if f in Listing(rows) {
      assert f in StripAll(rows);
      var a :| 0 <= a < |StripAll(rows)| && StripAll(rows)[a] == f;
      assert Strip(rows[a]) == f;
    }
    if exists a :: 0 <= a < |rows| && Strip(rows[a]) == f {
      var a :| 0 <= a < |rows| && Strip(rows[a]) == f;
      ListingKeys(rows, a);
    }
  }

  lemma ListingReplace(rows: seq<Entity>, i: nat, e: Entity, f: Entity)
    requires Listable(rows) && i < |rows| && Storable(e) && Strip(e) == e && KeyOf(e) == KeyOf(rows[i])
    ensures Listable(rows[i := e])
    ensures f in Listing(rows[i := e]) <==> f == e || (f in Listing(rows) && Keyed(f) && KeyOf(f) != KeyOf(e))
  {
    hide Listing;
    var updated := rows[i := e];
    ListableReplace(rows, i, e);
    ListingMember(rows, f);
    ListingMember(updated, f);
    if f in Listing(updated) {
      var a :| 0 <= a < |updated| && Strip(updated[a]) == f;
      if a != i {
        assert updated[a] == rows[a];
        ListingKeys(rows, a);
        assert KeyOf(rows[a]) != KeyOf(rows[i]);
      }
    }
    if f == e {
      assert Strip(updated[i]) == f;
    } else if f in Listing(rows) && Keyed(f) && KeyOf(f) != KeyOf(e) {
      var a :| 0 <= a < |rows| && Strip(rows[a]) == f;
      ListingKeys(rows, a);
      assert a != i && updated[a] == rows[a];
    }
  }

  /** The listing after the metadata row has been replaced. */
  ghost predicate Replaced(dst: seq<Entity>, fin: seq<Entity>, m: Entity) {
    && Canonical(dst) && Canonical(fin) && Keyed(m)
    && forall f :: f in fin <==> f == m || (f in dst && Keyed(f) && KeyOf(f) != KeyOf(m))
  }

  /** The source's metadata row takes the place of the destination's. */
  lemma MetadataKeysAgree(d: Digests, src: seq<Entity>, dst: seq<Entity>)
    requires TellsMetadataApart(d, src, dst) && Acceptable(d, src, dst)
    ensures Keyed(Metadata(src)[0]) && Keyed(Metadata(dst)[0]) && KeyOf(Metadata(src)[0]) == KeyOf(Metadata(dst)[0])
  {
    CommittedMetadata(d, dst);
    var a, b := Metadata(src)[0], Metadata(dst)[0];
    assert a in Metadata(src) && b in Metadata(dst);
    assert MetadataDocument(MetadataIdentity(a)) in MetadataDocuments(src);
    assert MetadataDocument(MetadataIdentity(b)) in MetadataDocuments(dst);
    assert MetadataDocument(MetadataIdentity(a)) == MetadataDocument(MetadataIdentity(b));
    assert MetadataIdentity(a)[PartitionKey] == MetadataIdentity(b)[PartitionKey];
  }

  lemma UpsertReplaces(rows: seq<Entity>, m: Entity, current: Entity)
    requires Listable(rows) && Storable(m) && Strip(m) == m
    requires current in Listing(rows) && Keyed(current) && KeyOf(current) == KeyOf(m)
    ensures Listable(Upsert(rows, m)) && Replaced(Listing(rows), Listing(Upsert(rows, m)), m)
  {
    hide Listing, PositionOf;
    ListingMember(rows, current);
    var a :| 0 <= a < |rows| && Strip(rows[a]) == current;
    ListingKeys(rows, a);
    var p := PositionOf(rows, KeyOf(m));
    assert p.Some?;
    forall f
      ensures f in Listing(Upsert(rows, m)) <==> f == m || (f in Listing(rows) && Keyed(f) && KeyOf(f) != KeyOf(m))
    {
      ListingReplace(rows, p.value, m, f);
    }
    ListableReplace(rows, p.value, m);
    ListingIsCanonical(rows);
    ListingIsCanonical(Upsert(rows, m));
  }

  lemma UpsertListing(d: Digests, src: seq<Entity>, rows: seq<Entity>)
    requires TellsMetadataApart(d, src, Listing(rows)) && Snapshot(src) && Answers(rows, d, src)
    ensures |Metadata(src)| == 1 && Keyed(Metadata(src)[0])
    ensures var m := Metadata(src)[0];
            Listable(Upsert(rows, m)) && Replaced(Listing(rows), Listing(Upsert(rows, m)), m)
  {
    hide Listing, PositionOf, Acceptable, Replaced, Upsert, Listable, Canonical;
    var dst := Listing(rows);
    OneOfEach(d, src, dst);
    MetadataKeysAgree(d, src, dst);
    UpsertReplaces(rows, Metadata(src)[0], Metadata(dst)[0]);
  }

  lemma OneOfEach(d: Digests, src: seq<Entity>, dst: seq<Entity>)
    requires Acceptable(d, src, dst)
    ensures |Metadata(src)| == 1 && |Metadata(dst)| == 1 && Metadata(src)[0] in src && Metadata(dst)[0] in dst
    ensures IsMetadata(Metadata(src)[0])
  {
    assert Metadata(src)[0] in Metadata(src) && Metadata(dst)[0] in Metadata(dst);
  }

  lemma ReplacedMetadata(dst: seq<Entity>, fin: seq<Entity>, m: Entity)
    requires Replaced(dst, fin, m) && IsMetadata(m)
    requires |Metadata(dst)| == 1 && Keyed(Metadata(dst)[0]) && KeyOf(Metadata(dst)[0]) == KeyOf(m)
    ensures Metadata(fin) == [m]
    ensures forall f :: f in DataRows(fin) ==> f in DataRows(dst)
  {
    SelectCanonical(fin, IsMetadata);
    forall f | f in Metadata(fin)
      ensures f == m
    {
    }
    assert m in Metadata(fin);
    CanonicalEqual(Metadata(fin), [m]);
    KindsExclude(m);
  }

  lemma ReplacedKeepsData(dst: seq<Entity>, fin: seq<Entity>, m: Entity, f: Entity)
    requires Replaced(dst, fin, m) && |Metadata(dst)| == 1 && Keyed(Metadata(dst)[0])
      && KeyOf(Metadata(dst)[0]) == KeyOf(m)
    requires DistinctKeys(dst) && f in DataRows(dst)
    ensures f in DataRows(fin)
  {
    KindsExclude(f);
    var current := Metadata(dst)[0];
    assert current in Metadata(dst) && current in dst;
    var i :| 0 <= i < |dst| && dst[i] == f;
    var j :| 0 <= j < |dst| && dst[j] == current;
    assert i != j;
    assert KeyOf(f) != KeyOf(m);
  }
}
