/** Counting, the read-only planner, and what any number of runs achieves together. */
module SuffixConvergence {
  import opened Common
  import opened TableEntities
  import opened TableState
  import opened SuffixWriter
  import opened SuffixProtocol
  import opened SuffixRuns
  import opened SuffixTheorems

  // ---------------------------------------------------------------------------
  // Running again after completion

  lemma CompletedIsWhole(d: Digests, src: seq<Entity>, rows: seq<Entity>)
    requires SourceOk(d, src) && Completed(src, rows)
    ensures NothingAbove(Listing(rows)) && CopiesSource(src, Listing(rows))
    ensures ValidTable(d, Listing(rows)) && ValidTable(d, Committed(Listing(rows)))
    ensures Metadata(Committed(Listing(rows))) == Metadata(src)
  {
    hide Listing, Listable, FindKey, Committed;
    var dst := Listing(rows);
    forall e | e in dst && IsData(e)
      ensures Below(e, NextOf(dst))
    {
      LowRowIsCopied(src, dst, e);
      OriginalFacts(d, src, e);
    }
    ListingIsCanonical(rows);
    CopiedHaveIndexes(src, dst);
    SameIsValid(d, dst, src);
    WholeIsValid(d, DataRows(src), dst);
    WholeSelections(DataRows(src), dst);
  }

  /**
   A run after completion is accepted exactly when every row encodes as its source row does.
   Rows that Python calls equal but that hold True for 1 or 1.0 for 1 in a compared field make it refuse.
   */
  lemma RerunAcceptedIff(d: Digests, src: seq<Entity>, rows: seq<Entity>)
    requires TellsPairsApart(d, src, Listing(rows)) && SourceOk(d, src) && Completed(src, rows)
    ensures Answers(rows, d, src) <==> EncodedAlike(src, Listing(rows))
  {
    hide Listing, Committed, ValidTable, FindKey, SameList, EncodedAlike, FullyCopied, NothingAbove;
    var dst := Listing(rows);
    CompletedIsWhole(d, src, rows);
    if EncodedAlike(src, dst) {
      AlikeMeansSameDigests(d, src, dst);
    }
    if Answers(rows, d, src) {
      SameDigestsMeanAlike(d, src, dst);
    }
  }

  // ---------------------------------------------------------------------------
  // Counting

  function KeySet(rows: seq<Entity>): set<Key> {
    set i | 0 <= i < |rows| && Keyed(rows[i]) :: KeyOf(rows[i])
  }

  lemma KeySetMember(rows: seq<Entity>, key: Key)
    ensures key in KeySet(rows) <==> exists e :: e in rows && Keyed(e) && KeyOf(e) == key
  {
    if key in KeySet(rows) {
      var i :| 0 <= i < |rows| && Keyed(rows[i]) && KeyOf(rows[i]) == key;
      assert rows[i] in rows;
    }
  }

  lemma NoKeys(rows: seq<Entity>)
    requires rows == []
    ensures KeySet(rows) == {}
  {
  }

  lemma {:induction false} KeySetSize(rows: seq<Entity>)
    requires DistinctKeys(rows)
    ensures |KeySet(rows)| == |rows|
  {
    hide KeySet;
    if rows == [] {
      assert KeySet(rows) == {} by {
        NoKeys(rows);
      }
    } else {
      var front, last := rows[..|rows| - 1], rows[|rows| - 1];
      KeySetSize(front);
      assert rows == front + [last];
      assert KeySet(rows) == KeySet(front) + {KeyOf(last)} by {
        forall k
          ensures k in KeySet(rows) <==> k in KeySet(front) + {KeyOf(last)}
        {
          KeySetMember(rows, k);
          KeySetMember(front, k);
        }
      }
      KeySetMember(front, KeyOf(last));
    }
  }

  lemma MissingKeys(d: Digests, src: seq<Entity>, dst: seq<Entity>)
    requires Acceptable(d, src, dst)
    ensures KeySet(Missing(src, dst)) == KeySet(DataRows(src)) - KeySet(DataRows(dst))
    ensures KeySet(DataRows(dst)) <= KeySet(DataRows(src))
  {
    hide Missing, FindKey, ValidTable, PrefixDigestsAgree, DataRows, Committed;
    MissingRows(src, dst);
    forall k
      ensures k in KeySet(Missing(src, dst)) <==> k in KeySet(DataRows(src)) - KeySet(DataRows(dst))
      ensures k in KeySet(DataRows(dst)) ==> k in KeySet(DataRows(src))
    {
      KeySetMember(Missing(src, dst), k);
      KeySetMember(DataRows(src), k);
      KeySetMember(DataRows(dst), k);
      FindKeyFinds(DataRows(dst), k);
      if k in KeySet(DataRows(dst)) {
        var c :| c in DataRows(dst) && Keyed(c) && KeyOf(c) == k;
        LowRowIsCopied(src, dst, c);
        FindKeyFinds(DataRows(src), k);
      }
      if k in KeySet(DataRows(src)) && k !in KeySet(DataRows(dst)) {
        var s :| s in DataRows(src) && Keyed(s) && KeyOf(s) == k;
        if s !in Missing(src, dst) {
          NothingMissingCovers(d, src, dst, s);
        }
      }
    }
  }

  lemma SourceSize(d: Digests, src: seq<Entity>)
    requires ValidTable(d, src)
    ensures |DataRows(src)| == 2 * NextOf(src)
  {
    KindCounts(src);
    forall e | e in src
      ensures IsMetadata(e) != IsData(e)
    {
      KindsExclude(e);
    }
    SelectPartition(src, IsMetadata, IsData);
  }

  lemma DestinationSize(d: Digests, src: seq<Entity>, dst: seq<Entity>)
    requires CopiesSource(src, dst) && ValidTable(d, Committed(dst))
    ensures |DataRows(dst)| == 2 * NextOf(dst) + |Staged(dst)|
  {
    CommittedMetadata(d, dst);
    var low, high := IsLow(NextOf(dst)), IsHigh(NextOf(dst));
    SelectPartition(DataRows(dst), low, high);
    SelectSelect(dst, IsData, low);
    SelectSelect(dst, IsData, high);
  }

  /** Staged and missing rows together are the two rows per index between the marks. */
  lemma StagedPlusMissing(d: Digests, src: seq<Entity>, dst: seq<Entity>)
    requires Acceptable(d, src, dst)
    ensures |Staged(dst)| + |Missing(src, dst)| == 2 * (NextOf(src) - NextOf(dst))
  {
    hide Missing, ValidTable, PrefixDigestsAgree, DataRows, Committed, KeySet, Staged, FindKey;
    MissingKeys(d, src, dst);
    MissingDistinct(d, src, dst);
    DataRowsDistinct(dst);
    KeySetSize(Missing(src, dst));
    KeySetSize(DataRows(src));
    KeySetSize(DataRows(dst));
    SourceSize(d, src);
    DestinationSize(d, src, dst);
  }

  lemma DataRowsDistinct(dst: seq<Entity>)
    requires DistinctKeys(dst)
    ensures DistinctKeys(DataRows(dst))
  {
    SelectDistinct(dst, IsData);
  }

  // ---------------------------------------------------------------------------
  // The read-only planner

  datatype PrefixPlan = PrefixPlan(
    sourceNext: int, sourceCount: nat, destinationNext: int, destinationCount: nat,
    missingEvents: int, missingEntities: int)

  predicate ExactPrefix(d: Digests, src: seq<Entity>, dst: seq<Entity>) {
    ValidTable(d, src) && ValidTable(d, dst) && NextOf(dst) <= NextOf(src) && PrefixDigestsAgree(d, src, dst)
  }

  method PrefixState(d: Digests, src: seq<Entity>, dst: seq<Entity>) returns (r: Result<PrefixPlan, MigrationError>)
    ensures r.Ok? <==> ExactPrefix(d, src, dst)
    ensures r.Ok? ==> r.value == PrefixPlan(NextOf(src), |src|, NextOf(dst), |dst|,
                                            NextOf(src) - NextOf(dst), 2 * (NextOf(src) - NextOf(dst)))
  {
    var source := ValidatedState(d, src);
    if source.Err? {
      return Err(source.error);
    }
    var destination := ValidatedState(d, dst);
    if destination.Err? {
      return Err(destination.error);
    }
    var s, t := source.value, destination.value;
    if t.nextIndex > s.nextIndex || t.metadataDigest != s.metadataDigest || !(t.pairDigests <= s.pairDigests) {
      return Err(MigrationControlError);
    }
    var events := s.nextIndex - t.nextIndex;
    return Ok(PrefixPlan(s.nextIndex, s.entityCount, t.nextIndex, t.entityCount, events, events * 2));
  }

  /** With nothing staged the planner accepts what the writer accepts and announces as many rows. */
  lemma PlannerAgrees(d: Digests, src: seq<Entity>, dst: seq<Entity>)
    requires Acceptable(d, src, dst) && Staged(dst) == []
    ensures ExactPrefix(d, src, dst)
    ensures |Missing(src, dst)| == 2 * (NextOf(src) - NextOf(dst))
  {
    hide Missing, Committed, ValidTable, FindKey;
    StagedPlusMissing(d, src, dst);
    NothingStaged(dst);
    WholeIsValid(d, DataRows(src), dst);
  }

  lemma NothingStaged(dst: seq<Entity>)
    requires Staged(dst) == []
    ensures NothingAbove(dst)
  {
    forall e | e in dst && IsData(e)
      ensures Below(e, NextOf(dst))
    {
      assert e in Staged(dst) <==> !Below(e, NextOf(dst));
    }
  }

  // ---------------------------------------------------------------------------
  // When the finished copy is refused

  /** The service holds a row that Python calls equal to the source's but that encodes differently. */
  lemma TrueForOne(e: Entity, f: Field)
    requires f in e && e[f] == Int(1) && !f.Other? && !f.Server?
    ensures var c := e[f := Bool(true)]; Same(c, e) && Stable(c) != Stable(e)
  {
    var c := e[f := Bool(true)];
    assert PyEq(Bool(true), Int(1));
    assert f in Stable(c) && Stable(c)[f] == Bool(true) && Stable(e)[f] == Int(1);
  }

  /** Every data row of the destination encodes, in the compared fields, as its source row does. */
  predicate AllEncodedAlike(src: seq<Entity>, dst: seq<Entity>) {
    forall c :: c in DataRows(dst) ==> Copied(DataRows(src), c) && Stable(c) == Stable(Original(src, c))
  }

  lemma ListingAppend(rows: seq<Entity>, more: seq<Entity>, f: Entity)
    requires Listable(rows) && Listable(rows + more) && forall e :: e in more ==> Strip(e) == e
    ensures f in Listing(rows + more) <==> f in Listing(rows) || f in more
  {
    hide Listing, Listable;
    var all := rows + more;
    ListingMember(rows, f);
    ListingMember(all, f);
    if f in Listing(all) {
      var a :| 0 <= a < |all| && Strip(all[a]) == f;
      if a < |rows| {
        assert all[a] == rows[a];
      } else {
        assert all[a] == more[a - |rows|] && all[a] in more;
      }
    }
    if f in Listing(rows) {
      var a :| 0 <= a < |rows| && Strip(rows[a]) == f;
      assert all[a] == rows[a];
    }
    if f in more {
      var a :| 0 <= a < |more| && more[a] == f;
      assert all[|rows| + a] == f;
    }
  }

  /** The data rows of a finished copy are those found at the start and the source rows inserted. */
  lemma FinishedData(d: Digests, src: seq<Entity>, rows: seq<Entity>, f: Entity)
    requires TellsMetadataApart(d, src, Listing(rows))
    requires Snapshot(src) && Answers(rows, d, src)
    ensures |Metadata(src)| == 1 && Keyed(Metadata(src)[0])
    ensures var missing := Missing(src, Listing(rows));
            f in DataRows(Listing(Upsert(rows + missing, Metadata(src)[0]))) <==>
            (f in DataRows(Listing(rows)) || f in missing)
  {
    hide Missing, Listing, Listable, Upsert, ValidTable, PrefixDigestsAgree, FindKey, Committed, Canonical, AllCopied;
    var missing := Missing(src, Listing(rows));
    var staged := rows + missing;
    var dst := Listing(staged);
    StagedRun(d, src, rows);
    OneOfEach(d, src, dst);
    MetadataKeysAgree(d, src, dst);
    UpsertListing(d, src, staged);
    var m := Metadata(src)[0];
    var fin := Listing(Upsert(staged, m));
    ReplacedMetadata(dst, fin, m);
    forall e | e in missing
      ensures Strip(e) == e && IsData(e)
    {
      MissingIsStorable(d, src, Listing(rows), e);
      MissingInSource(src, Listing(rows));
    }
    ListingAppend(rows, missing, f);
    if f in DataRows(dst) {
      ReplacedKeepsData(dst, fin, m, f);
    }
  }

  lemma FinishedIsAlikeIff(d: Digests, src: seq<Entity>, rows: seq<Entity>)
    requires TellsMetadataApart(d, src, Listing(rows))
    requires Snapshot(src) && Answers(rows, d, src)
    requires |Metadata(src)| == 1 && Keyed(Metadata(src)[0])
    ensures var missing := Missing(src, Listing(rows));
            AllEncodedAlike(src, Listing(Upsert(rows + missing, Metadata(src)[0]))) <==>
              AllEncodedAlike(src, Listing(rows))
  {
    hide Missing, Listing, Listable, Upsert, ValidTable, PrefixDigestsAgree, FindKey, Committed, Canonical,
         AllCopied, DataRows, Stable;
    var missing := Missing(src, Listing(rows));
    var fin := Listing(Upsert(rows + missing, Metadata(src)[0]));
    forall f
      ensures f in DataRows(fin) <==> f in DataRows(Listing(rows)) || f in missing
    {
      FinishedData(d, src, rows, f);
    }
    forall f | f in missing
      ensures Copied(DataRows(src), f) && Stable(f) == Stable(Original(src, f))
    {
      MissingInSource(src, Listing(rows));
      SourceRowIsCopied(d, src, f);
      FindKeyUnique(DataRows(src), f);
    }
  }

  lemma WholeAlike(src: seq<Entity>, dst: seq<Entity>)
    requires NothingAbove(dst)
    ensures EncodedAlike(src, dst) <==> AllEncodedAlike(src, dst)
  {
    assert forall c :: c in Select(dst, IsLow(NextOf(dst))) <==> c in DataRows(dst);
  }

  /** Pairs drawn from fewer rows are told apart as well. */
  lemma FewerPairs(d: Digests, src: seq<Entity>, dst: seq<Entity>, fin: seq<Entity>)
    requires TellsPairsApart(d, src, dst) && forall e :: e in DataRows(fin) ==> e in src || e in dst
    ensures TellsPairsApart(d, src, fin)
  {
    hide Select, IsEntry, IsIndex, Stable;
    forall e | e in src + fin && IsData(e)
      ensures e in src + dst
    {
      assert e in fin ==> e in DataRows(fin);
    }
    assert PairDocuments(src + fin) <= PairDocuments(src + dst);
  }

  /** The run moved the mark: a further run is accepted exactly when every row found at the start encodes alike. */
  lemma RerunAfterAdvance(d: Digests, src: seq<Entity>, ev: Evidence, rows: seq<Entity>, budget: nat, again: nat)
    requires TellsMetadataApart(d, src, Listing(rows)) && TellsPairsApart(d, src, Listing(rows))
    requires Snapshot(src) && Answers(rows, d, src) && AgreesWith(src, ev)
    requires RunOnce(d, src, ev, rows, budget).advanced
    ensures var a := RunOnce(d, src, ev, rows, budget);
            RunOnce(d, src, ev, a.rows, again) ==
            Attempt(a.rows, [], false, if AllEncodedAlike(src, Listing(rows)) then Finished else Refused)
  {
    hide Missing, Listing, Listable, Upsert, ValidTable, FindKey, Committed, Canonical, AllCopied, DataRows,
         Stable, Metadata, NextOf, EncodedAlike, AllEncodedAlike, Resumable, Confirmed, DistinctKeys,
         PrefixDigestsAgree, TellsPairsApart, SameList, FullyCopied;
    RunOutcome(d, src, ev, rows, budget);
    var a := RunOnce(d, src, ev, rows, budget);
    StagedRun(d, src, rows);
    AdvanceCompletes(d, src, rows + Missing(src, Listing(rows)));
    assert a.rows == Upsert(rows + Missing(src, Listing(rows)), Metadata(src)[0]);
    FinishedPairs(d, src, rows);
    CompletedRunWritesNothing(d, src, ev, a.rows, again);
    SourceIsOk(d, src, Listing(rows));
    RerunAcceptedIff(d, src, a.rows);
    CompletedIsWhole(d, src, a.rows);
    WholeAlike(src, Listing(a.rows));
    FinishedIsAlikeIff(d, src, rows);
  }

  lemma FinishedPairs(d: Digests, src: seq<Entity>, rows: seq<Entity>)
    requires TellsMetadataApart(d, src, Listing(rows)) && TellsPairsApart(d, src, Listing(rows))
    requires Snapshot(src) && Answers(rows, d, src)
    requires |Metadata(src)| == 1 && Keyed(Metadata(src)[0])
    ensures TellsPairsApart(d, src, Listing(Upsert(rows + Missing(src, Listing(rows)), Metadata(src)[0])))
  {
    hide Missing, Listing, Upsert, Answers, DataRows, TellsPairsApart, TellsMetadataApart;
    var fin := Listing(Upsert(rows + Missing(src, Listing(rows)), Metadata(src)[0]));
    forall e | e in DataRows(fin)
      ensures e in src || e in Listing(rows)
    {
      FinishedData(d, src, rows, e);
      MissingInSource(src, Listing(rows));
      if e in Missing(src, Listing(rows)) {
        DataIsListed(src, e);
      } else {
        DataIsListed(Listing(rows), e);
      }
    }
    FewerPairs(d, src, Listing(rows), fin);
  }

  /** With the marks equal at the start nothing was staged, and what was accepted encodes alike. */
  lemma EqualMarksAlike(d: Digests, src: seq<Entity>, dst: seq<Entity>)
    requires TellsPairsApart(d, src, dst) && Acceptable(d, src, dst) && NextOf(dst) == NextOf(src)
    ensures Missing(src, dst) == [] && AllEncodedAlike(src, dst)
  {
    hide Missing, ValidTable, Committed, FindKey, Staged, EncodedAlike, AllEncodedAlike, TellsPairsApart, NextOf,
         DistinctKeys, AllCopied;
    StagedPlusMissing(d, src, dst);
    NothingStaged(dst);
    SameDigestsMeanAlike(d, src, dst);
    WholeAlike(src, dst);
  }

  /**
   A finished copy is accepted again exactly when every row found in the destination at the start
   already encoded as its source row: an accepted staged row with True for 1 blocks every later run.
   Accepted or refused, the further run writes nothing.
   */
  lemma RerunAfterFinish(d: Digests, src: seq<Entity>, ev: Evidence, rows: seq<Entity>, budget: nat, again: nat)
    requires TellsMetadataApart(d, src, Listing(rows)) && TellsPairsApart(d, src, Listing(rows))
    requires Snapshot(src) && RunOnce(d, src, ev, rows, budget).outcome == Finished
    ensures var a := RunOnce(d, src, ev, rows, budget);
            RunOnce(d, src, ev, a.rows, again) ==
            Attempt(a.rows, [], false, if AllEncodedAlike(src, Listing(rows)) then Finished else Refused)
  {
    hide Missing, Listing, Listable, Upsert, Acceptable, Canonical, Metadata, NextOf, AllEncodedAlike,
         TellsPairsApart, TellsMetadataApart, SameList, ValidTable;
    var a := RunOnce(d, src, ev, rows, budget);
    if a.advanced {
      RerunAfterAdvance(d, src, ev, rows, budget, again);
    } else {
      StagedRun(d, src, rows);
      EqualMarksAlike(d, src, Listing(rows));
      assert rows + [] == rows;
      CompletedRunWritesNothing(d, src, ev, rows, again);
    }
  }

  // ---------------------------------------------------------------------------
  // Any number of runs

  /** What is stored after a list of runs, every row inserted by them in order, and how often the mark moved. */
  datatype Tally = Tally(rows: seq<Entity>, inserted: seq<Entity>, advances: nat)

  function RunAll(d: Digests, src: seq<Entity>, ev: Evidence, rows: seq<Entity>, budgets: seq<nat>): Tally {
    if budgets == [] then Tally(rows, [], 0)
    else
      var t := RunAll(d, src, ev, rows, budgets[..|budgets| - 1]);
      var a := RunOnce(d, src, ev, t.rows, budgets[|budgets| - 1]);
      Tally(a.rows, t.inserted + a.inserted, t.advances + if a.advanced then 1 else 0)
  }

  /** `all` is split without overlap or repetition into what was inserted and what is left. */
  ghost predicate Accounted(all: seq<Entity>, done: seq<Entity>, left: seq<Entity>) {
    && DistinctKeys(done)
    && (forall f :: f in all <==> f in done || f in left)
    && (forall f :: f in done ==> f !in left)
  }

  /** The rows committed at the start are still stored, unaltered. */
  ghost predicate Kept(before: seq<Entity>, rows: seq<Entity>) {
    forall e :: e in Committed(before) && IsData(e) ==> e in Listing(rows)
  }

  ghost predicate Ongoing(d: Digests, src: seq<Entity>, before: seq<Entity>, t: Tally) {
    && t.advances == 0
    && Answers(t.rows, d, src)
    && Metadata(Listing(t.rows)) == Metadata(before)
    && Committed(Listing(t.rows)) == Committed(before)
    && Accounted(Missing(src, before), t.inserted, Missing(src, Listing(t.rows)))
  }

  ghost predicate Over(src: seq<Entity>, before: seq<Entity>, t: Tally) {
    t.advances == 1 && Completed(src, t.rows) && Kept(before, t.rows) && Accounted(Missing(src, before), t.inserted, [])
  }

  lemma DistinctAppend(source: seq<Entity>, done: seq<Entity>, more: seq<Entity>)
    requires DistinctKeys(source) && DistinctKeys(done) && DistinctKeys(more)
    requires (forall e :: e in done ==> e in source && e !in more) && (forall e :: e in more ==> e in source)
    ensures DistinctKeys(done + more)
  {
    hide FindKey;
    forall i, j | 0 <= i < |done| && 0 <= j < |more|
      ensures KeyOf(done[i]) != KeyOf(more[j])
    {
      assert done[i] in done && more[j] in more;
      FindKeyUnique(source, done[i]);
      FindKeyUnique(source, more[j]);
    }
  }

  lemma DistinctSplit(s: seq<Entity>, n: nat)
    requires DistinctKeys(s) && n <= |s|
    ensures DistinctKeys(s[..n])
    ensures forall f :: f in s <==> f in s[..n] || f in s[n..]
    ensures forall f :: f in s[..n] ==> f !in s[n..]
  {
    assert s == s[..n] + s[n..];
    forall f | f in s[..n]
      ensures f !in s[n..]
    {
      var i :| 0 <= i < n && s[i] == f;
      assert forall j :: n <= j < |s| ==> KeyOf(s[j]) != KeyOf(s[i]);
    }
  }

  lemma AccountedStep(source: seq<Entity>, all: seq<Entity>, done: seq<Entity>, left: seq<Entity>, n: nat,
      left': seq<Entity>)
    requires DistinctKeys(source) && DistinctKeys(left) && (forall e :: e in all ==> e in source)
    requires Accounted(all, done, left) && n <= |left| && forall f :: f in left' <==> f in left[n..]
    ensures Accounted(all, done + left[..n], left')
  {
    hide DistinctKeys;
    DistinctSplit(left, n);
    DistinctAppend(source, done, left[..n]);
  }

  lemma AdvanceKeeps(d: Digests, src: seq<Entity>, rows: seq<Entity>)
    requires TellsMetadataApart(d, src, Listing(rows))
    requires Snapshot(src) && Answers(rows, d, src)
    ensures |Metadata(src)| == 1 && Keyed(Metadata(src)[0])
    ensures Kept(Listing(rows), Upsert(rows, Metadata(src)[0]))
  {
    hide Listing, Upsert, ValidTable, PrefixDigestsAgree, FindKey, Listable, DataRows;
    var dst := Listing(rows);
    OneOfEach(d, src, dst);
    MetadataKeysAgree(d, src, dst);
    UpsertListing(d, src, rows);
    var m := Metadata(src)[0];
    var fin := Listing(Upsert(rows, m));
    forall e | e in Committed(dst) && IsData(e)
      ensures e in fin
    {
      KindsExclude(e);
      CommittedDataIsLow(dst, e);
      LowIsData(dst, e);
      ReplacedKeepsData(dst, fin, m, e);
      DataIsListed(fin, e);
    }
  }

  lemma DataIsListed(dst: seq<Entity>, e: Entity)
    requires e in DataRows(dst)
    ensures e in dst
  {
  }

  lemma MissingInSource(src: seq<Entity>, dst: seq<Entity>)
    ensures forall e :: e in Missing(src, dst) ==> e in DataRows(src)
  {
    MissingRows(src, dst);
  }

  /** A run that is cut off, or that stops short of the mark, continues the account. */
  lemma OngoingStep(d: Digests, src: seq<Entity>, ev: Evidence, before: seq<Entity>, t: Tally, budget: nat)
    requires TellsMetadataApart(d, src, before)
    requires Snapshot(src) && AgreesWith(src, ev) && Ongoing(d, src, before, t)
    requires !RunOnce(d, src, ev, t.rows, budget).advanced
    ensures var a := RunOnce(d, src, ev, t.rows, budget);
            Ongoing(d, src, before, Tally(a.rows, t.inserted + a.inserted, 0))
  {
    hide Missing, Listing, Canonical, ValidTable, PrefixDigestsAgree, Listable, Metadata, Committed, RunOnce,
         CopiesSource, Completed;
    var left := Missing(src, Listing(t.rows));
    var a := RunOnce(d, src, ev, t.rows, budget);
    RunOutcome(d, src, ev, t.rows, budget);
    MissingDistinct(d, src, Listing(t.rows));
    MissingInSource(src, before);
    var n := if budget < |left| then budget else |left|;
    AccountedStep(DataRows(src), Missing(src, before), t.inserted, left, n, Missing(src, Listing(a.rows)));
  }

  lemma AdvancingStep(d: Digests, src: seq<Entity>, ev: Evidence, before: seq<Entity>, t: Tally, budget: nat)
    requires TellsMetadataApart(d, src, before)
    requires Snapshot(src) && AgreesWith(src, ev) && Ongoing(d, src, before, t)
    requires RunOnce(d, src, ev, t.rows, budget).advanced
    ensures var a := RunOnce(d, src, ev, t.rows, budget);
            Over(src, before, Tally(a.rows, t.inserted + a.inserted, 1))
  {
    hide Missing, Listing, Canonical, ValidTable, PrefixDigestsAgree, Listable, Metadata, CopiesSource, Completed,
         Upsert, Resumable, DistinctKeys, Committed;
    var left := Missing(src, Listing(t.rows));
    var a := RunOnce(d, src, ev, t.rows, budget);
    RunOutcome(d, src, ev, t.rows, budget);
    MissingDistinct(d, src, Listing(t.rows));
    MissingInSource(src, before);
    assert left[..|left|] == left && left[|left|..] == [];
    AccountedStep(DataRows(src), Missing(src, before), t.inserted, left, |left|, []);
    StagedRun(d, src, t.rows);
    assert Committed(Listing(t.rows + left)) == Committed(before) by {
      StagedCommitted(d, src, t.rows);
    }
    AdvanceKeeps(d, src, t.rows + left);
  }

  lemma StagedCommitted(d: Digests, src: seq<Entity>, rows: seq<Entity>)
    requires Snapshot(src) && Answers(rows, d, src)
    ensures Committed(Listing(rows + Missing(src, Listing(rows)))) == Committed(Listing(rows))
  {
    hide Missing, Listing, Canonical, Acceptable, Listable, Committed;
    StagedRun(d, src, rows);
  }

  function Total(budgets: seq<nat>): nat {
    if budgets == [] then 0 else Total(budgets[..|budgets| - 1]) + budgets[|budgets| - 1]
  }

  function Least(a: nat, b: nat): nat {
    if a < b then a else b
  }

  lemma AccountedSize(all: seq<Entity>, done: seq<Entity>, left: seq<Entity>)
    requires DistinctKeys(all) && DistinctKeys(left) && Accounted(all, done, left)
    ensures |done| + |left| == |all|
  {
    hide KeySet;
    KeySetSize(all);
    KeySetSize(done);
    KeySetSize(left);
    forall k
      ensures k in KeySet(all) <==> k in KeySet(done) + KeySet(left)
      ensures k !in KeySet(done) * KeySet(left)
    {
      KeySetMember(all, k);
      KeySetMember(done, k);
      KeySetMember(left, k);
      if k in KeySet(done) && k in KeySet(left) {
        var e :| e in done && Keyed(e) && KeyOf(e) == k;
        var f :| f in left && Keyed(f) && KeyOf(f) == k;
        FindKeyUnique(all, e);
        FindKeyUnique(all, f);
      }
    }
    assert KeySet(all) == KeySet(done) + KeySet(left) && KeySet(done) * KeySet(left) == {};
  }

  /** What the runs so far have left to do. */
  lemma OngoingLeft(d: Digests, src: seq<Entity>, before: seq<Entity>, t: Tally)
    requires Acceptable(d, src, before) && Ongoing(d, src, before, t)
    ensures |t.inserted| + |Missing(src, Listing(t.rows))| == |Missing(src, before)|
    ensures NextOf(Listing(t.rows)) == NextOf(before)
  {
    hide Missing, Listing, Listable, Acceptable, Metadata, Committed, Accounted;
    MissingDistinct(d, src, before);
    MissingDistinct(d, src, Listing(t.rows));
    AccountedSize(Missing(src, before), t.inserted, Missing(src, Listing(t.rows)));
  }

  lemma EqualMarksNothingMissing(d: Digests, src: seq<Entity>, dst: seq<Entity>)
    requires Acceptable(d, src, dst)
    ensures NextOf(dst) <= NextOf(src)
    ensures NextOf(dst) == NextOf(src) ==> Missing(src, dst) == []
  {
    hide Missing, ValidTable, Committed, Staged;
    StagedPlusMissing(d, src, dst);
  }

  /**
   How a run ends, for every destination, manifest and number of writes. It is refused, before any
   write, exactly when the manifest disagrees with the source or the analysis refuses the listing.
   */
  lemma EveryOutcome(d: Digests, src: seq<Entity>, ev: Evidence, rows: seq<Entity>, budget: nat)
    requires TellsMetadataApart(d, src, Listing(rows)) && Snapshot(src)
    ensures var a := RunOnce(d, src, ev, rows, budget);
            var dst := Listing(rows);
            if ev.next != NextOf(src) || ev.count != |src| || !Listable(rows) || !Acceptable(d, src, dst)
            then a == Attempt(rows, [], false, Refused)
            else
              && |Metadata(dst)| == |Metadata(src)| == 1
              && a.outcome == (if NextOf(dst) == NextOf(src)
                               then if Same(Metadata(dst)[0], Metadata(src)[0]) then Finished else Rejected
                               else if budget > |Missing(src, dst)| then Finished else Interrupted)
  {
    hide Missing, Listing, Canonical, Acceptable, Resumable, Listable, Metadata, NextOf, Upsert, Same, Confirmed,
         Completed, TellsMetadataApart;
    if ev.next == NextOf(src) && ev.count == |src| && Answers(rows, d, src) {
      OneOfEach(d, src, Listing(rows));
      EqualMarksNothingMissing(d, src, Listing(rows));
      if budget > |Missing(src, Listing(rows))| {
        UninterruptedRun(d, src, ev, rows, budget);
      } else {
        StagedRun(d, src, rows);
        if NextOf(Listing(rows)) == NextOf(src) && budget == |Missing(src, Listing(rows))| {
          EqualMarks(d, src, ev, rows + Missing(src, Listing(rows)));
        }
      }
    }
  }

  /** The writes made over all runs reach past the last insert, and the mark was behind. */
  predicate Reaches(src: seq<Entity>, dst: seq<Entity>, budgets: seq<nat>) {
    NextOf(dst) < NextOf(src) && Total(budgets) > |Missing(src, dst)|
  }

  /** Where a list of runs stands. */
  ghost predicate Progress(d: Digests, src: seq<Entity>, rows: seq<Entity>, budgets: seq<nat>, t: Tally) {
    if Reaches(src, Listing(rows), budgets) then Over(src, Listing(rows), t)
    else
      && Ongoing(d, src, Listing(rows), t)
      && t.rows == rows + t.inserted
      && |t.inserted| == Least(Total(budgets), |Missing(src, Listing(rows))|)
  }

  lemma OverStep(d: Digests, src: seq<Entity>, ev: Evidence, before: seq<Entity>, t: Tally, budget: nat)
    requires Snapshot(src) && AgreesWith(src, ev) && Over(src, before, t)
    ensures var a := RunOnce(d, src, ev, t.rows, budget);
            Tally(a.rows, t.inserted + a.inserted, t.advances + if a.advanced then 1 else 0) == t
  {
    hide Missing, Listing, Canonical, Listable, Metadata, Committed, RunOnce, SameList, FullyCopied;
    CompletedRunWritesNothing(d, src, ev, t.rows, budget);
    assert t.inserted + [] == t.inserted;
  }

  lemma ProgressStep(d: Digests, src: seq<Entity>, ev: Evidence, rows: seq<Entity>, budgets: seq<nat>, t: Tally)
    requires TellsMetadataApart(d, src, Listing(rows)) && budgets != []
    requires Snapshot(src) && Answers(rows, d, src) && AgreesWith(src, ev)
    requires Progress(d, src, rows, budgets[..|budgets| - 1], t)
    requires !Reaches(src, Listing(rows), budgets[..|budgets| - 1])
    ensures var a := RunOnce(d, src, ev, t.rows, budgets[|budgets| - 1]);
            Progress(d, src, rows, budgets, Tally(a.rows, t.inserted + a.inserted, if a.advanced then 1 else 0))
  {
    hide Missing, Listing, Canonical, Acceptable, Listable, Metadata, Committed, RunOnce, Completed, NextOf,
         TellsMetadataApart, Accounted, Resumable, Over;
    var dst, budget := Listing(rows), budgets[|budgets| - 1];
    var a := RunOnce(d, src, ev, t.rows, budget);
    OngoingLeft(d, src, dst, t);
    EqualMarksNothingMissing(d, src, dst);
    OngoingOutcome(d, src, ev, dst, t, budget);
    if a.advanced {
      AdvancingStep(d, src, ev, dst, t, budget);
    } else {
      OngoingStep(d, src, ev, dst, t, budget);
    }
  }

  lemma OngoingOutcome(d: Digests, src: seq<Entity>, ev: Evidence, before: seq<Entity>, t: Tally, budget: nat)
    requires TellsMetadataApart(d, src, before)
    requires Snapshot(src) && AgreesWith(src, ev) && Ongoing(d, src, before, t)
    ensures var a := RunOnce(d, src, ev, t.rows, budget);
            var left := Missing(src, Listing(t.rows));
            && |a.inserted| == Least(budget, |left|)
            && (a.advanced <==> NextOf(Listing(t.rows)) < NextOf(src) && budget > |left|)
            && (!a.advanced ==> a.rows == t.rows + a.inserted)
  {
    hide Missing, Listing, Canonical, Acceptable, Listable, Metadata, Committed, RunOnce, Completed, NextOf,
         Accounted, Resumable;
    RunOutcome(d, src, ev, t.rows, budget);
  }

  /**
   However many runs are made and wherever each is cut off: no missing row is inserted twice, the
   mark moves at most once, and until it does every run starts from an acceptable destination with
   the committed rows as they were and only the inserted rows added. The mark has moved exactly when
   it was behind and the runs together got more writes than there were missing rows; then the copy
   is complete and every row that was missing has been inserted exactly once.
   */
  lemma {:induction false} RunsConverge(d: Digests, src: seq<Entity>, ev: Evidence, rows: seq<Entity>,
      budgets: seq<nat>)
    requires TellsMetadataApart(d, src, Listing(rows))
    requires Snapshot(src) && Answers(rows, d, src) && AgreesWith(src, ev)
    ensures Progress(d, src, rows, budgets, RunAll(d, src, ev, rows, budgets))
  {
    hide Missing, Listing, Canonical, Acceptable, Listable, Metadata, Committed, RunOnce, NextOf, Over,
         TellsMetadataApart, Accounted;
    if budgets == [] {
      NothingInserted(Missing(src, Listing(rows)));
      assert rows + [] == rows;
    } else {
      var front, budget := budgets[..|budgets| - 1], budgets[|budgets| - 1];
      RunsConverge(d, src, ev, rows, front);
      var t := RunAll(d, src, ev, rows, front);
      if Reaches(src, Listing(rows), front) {
        OverStep(d, src, ev, Listing(rows), t, budget);
      } else {
        ProgressStep(d, src, ev, rows, budgets, t);
      }
    }
  }

  lemma CompletedIsEqual(src: seq<Entity>, rows: seq<Entity>)
    requires Completed(src, rows)
    ensures Listable(rows) && SameList(Listing(rows), src)
  {
  }

  /**
   The stored rows end up equal to the source exactly when the mark was behind and the runs got more
   writes than there were missing rows, or the marks agreed and the metadata rows are equal.
   */
  lemma CopyIsEqualIff(d: Digests, src: seq<Entity>, ev: Evidence, rows: seq<Entity>, budgets: seq<nat>)
    requires TellsMetadataApart(d, src, Listing(rows))
    requires Snapshot(src) && Answers(rows, d, src) && AgreesWith(src, ev)
    ensures |Metadata(Listing(rows))| == |Metadata(src)| == 1
    ensures var stored := RunAll(d, src, ev, rows, budgets).rows;
            Listable(stored) && SameList(Listing(stored), src) <==>
            if NextOf(Listing(rows)) < NextOf(src) then Total(budgets) > |Missing(src, Listing(rows))|
            else Same(Metadata(Listing(rows))[0], Metadata(src)[0])
  {
    hide Missing, Listing, Canonical, Acceptable, Listable, Metadata, Committed, RunAll, NextOf, Completed, SameList,
         TellsMetadataApart, Accounted, Same;
    var t := RunAll(d, src, ev, rows, budgets);
    RunsConverge(d, src, ev, rows, budgets);
    OneOfEach(d, src, Listing(rows));
    EqualMarksNothingMissing(d, src, Listing(rows));
    if Reaches(src, Listing(rows), budgets) {
      CompletedIsEqual(src, t.rows);
    } else {
      OngoingLeft(d, src, Listing(rows), t);
      if SameList(Listing(t.rows), src) {
        EqualHasEqualMark(d, src, Listing(t.rows));
      }
      if NextOf(Listing(rows)) == NextOf(src) {
        EqualMarks(d, src, ev, t.rows);
      }
    }
  }

  lemma NothingInserted(all: seq<Entity>)
    ensures Accounted(all, [], all)
  {
  }

  lemma SourceIsOk(d: Digests, src: seq<Entity>, dst: seq<Entity>)
    requires Acceptable(d, src, dst)
    ensures SourceOk(d, src)
  {
  }
}
