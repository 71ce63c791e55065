/** The laws of the resumable copy: it resumes, it converges, and its digest check is exactly this strict. */
module SuffixTheorems {
  import opened TableEntities
  import opened TableState
  import opened SuffixWriter
  import opened SuffixProtocol
  import opened SuffixRuns

  // ---------------------------------------------------------------------------
  // Completion

  /** The stored rows are the source snapshot, row for row, under the source's own metadata. */
  ghost predicate Completed(src: seq<Entity>, rows: seq<Entity>) {
    && Listable(rows)
    && Metadata(Listing(rows)) == Metadata(src)
    && FullyCopied(src, Listing(rows))
    && SameList(Listing(rows), src)
  }

  lemma NothingMissingIsFull(d: Digests, src: seq<Entity>, dst: seq<Entity>)
    requires Acceptable(d, src, dst) && Missing(src, dst) == []
    ensures FullyCopied(src, dst)
  {
    hide Missing, ValidTable, PrefixDigestsAgree, DataRows, FindKey;
    forall s | s in DataRows(src)
      ensures Keyed(s) && FindKey(DataRows(dst), KeyOf(s)).Some?
    {
      NothingMissingCovers(d, src, dst, s);
    }
  }

  lemma ReplacedIsFull(src: seq<Entity>, dst: seq<Entity>, fin: seq<Entity>, m: Entity)
    requires FullyCopied(src, dst) && Replaced(dst, fin, m) && IsMetadata(m)
    requires |Metadata(dst)| == 1 && Keyed(Metadata(dst)[0]) && KeyOf(Metadata(dst)[0]) == KeyOf(m) && DistinctKeys(dst)
    ensures FullyCopied(src, fin)
  {
    hide FindKey, Metadata, DataRows, Copied;
    forall i | 0 <= i < |fin| && !IsMetadata(fin[i])
      ensures Copied(DataRows(src), fin[i])
    {
      assert fin[i] in fin && fin[i] in dst;
      var j :| 0 <= j < |dst| && dst[j] == fin[i];
      assert Copied(DataRows(src), dst[j]);
    }
    forall s | s in DataRows(src)
      ensures Keyed(s) && FindKey(DataRows(fin), KeyOf(s)).Some?
    {
      FindKeyFinds(DataRows(dst), KeyOf(s));
      FindKeyFinds(DataRows(fin), KeyOf(s));
      ReplacedKeepsData(dst, fin, m, FindKey(DataRows(dst), KeyOf(s)).value);
    }
  }

  /** Advancing the mark once nothing is missing completes the copy. */
  lemma AdvanceCompletes(d: Digests, src: seq<Entity>, rows: seq<Entity>)
    requires TellsMetadataApart(d, src, Listing(rows))
    requires Snapshot(src) && Answers(rows, d, src) && Missing(src, Listing(rows)) == []
    ensures |Metadata(src)| == 1 && Keyed(Metadata(src)[0]) && Completed(src, Upsert(rows, Metadata(src)[0]))
  {
    hide Missing, Listing, Upsert, ValidTable, PrefixDigestsAgree, FindKey, SameList, Listable;
    var dst := Listing(rows);
    OneOfEach(d, src, dst);
    MetadataKeysAgree(d, src, dst);
    UpsertListing(d, src, rows);
    var m := Metadata(src)[0];
    var fin := Listing(Upsert(rows, m));
    ReplacedMetadata(dst, fin, m);
    assert Metadata(src) == [m];
    NothingMissingIsFull(d, src, dst);
    ReplacedIsFull(src, dst, fin, m);
    SameIsEquivalence(m, m, m);
    FullCopyIsSame(d, src, fin);
  }

  lemma CopiedHaveIndexes(src: seq<Entity>, dst: seq<Entity>)
    requires AllCopied(DataRows(src), dst)
    ensures forall e :: e in dst && IsData(e) ==> Integer(e, LogIndex)
  {
    forall e | e in dst && IsData(e)
      ensures Integer(e, LogIndex)
    {
      LowRowIsCopied(src, dst, e);
    }
  }

  lemma CompletedIsConfirmed(d: Digests, src: seq<Entity>, ev: Evidence, rows: seq<Entity>)
    requires SourceOk(d, src) && Completed(src, rows) && AgreesWith(src, ev)
    ensures Confirmed(d, src, ev, rows)
  {
    hide Listing, Listable, FindKey;
    CopiedHaveIndexes(src, Listing(rows));
    SameIsValid(d, Listing(rows), src);
  }

  /** When both marks already agree, the run ends well exactly when the metadata rows are equal. */
  lemma EqualMarks(d: Digests, src: seq<Entity>, ev: Evidence, rows: seq<Entity>)
    requires Snapshot(src) && Answers(rows, d, src) && Missing(src, Listing(rows)) == [] && AgreesWith(src, ev)
    requires NextOf(Listing(rows)) == NextOf(src)
    ensures |Metadata(Listing(rows))| == |Metadata(src)| == 1
    ensures Confirmed(d, src, ev, rows) <==> Same(Metadata(Listing(rows))[0], Metadata(src)[0])
  {
    hide Listing, Missing, FindKey, Same;
    var dst := Listing(rows);
    ListingIsCanonical(rows);
    OneOfEach(d, src, dst);
    if SameList(dst, src) {
      SameListMetadata(dst, src);
    }
    if Same(Metadata(dst)[0], Metadata(src)[0]) {
      NothingMissingIsFull(d, src, dst);
      FullCopyIsSame(d, src, dst);
      CommittedMetadata(d, dst);
      CopiedHaveIndexes(src, dst);
      SameIsValid(d, dst, src);
    }
  }

  // ---------------------------------------------------------------------------
  // One run

  lemma FirstIsMember<T>(s: seq<T>)
    ensures s != [] ==> s[0] in s
  {
  }

  lemma NoMembers<T(!new)>(s: seq<T>)
    requires forall x :: x !in s
    ensures s == []
  {
    FirstIsMember(s);
  }

  lemma ResumableWithoutRest(d: Digests, src: seq<Entity>, before: seq<Entity>, rows: seq<Entity>)
    requires Resumable(d, src, before, rows, [])
    ensures Answers(rows, d, src) && Missing(src, Listing(rows)) == [] && Metadata(Listing(rows)) == Metadata(before)
    ensures NextOf(Listing(rows)) == NextOf(before)
  {
    hide Missing, Acceptable, Listing, Listable, Metadata;
    NoMembers(Missing(src, Listing(rows)));
  }

  /** After the inserts: everything staged, the mark where it was. */
  lemma StagedRun(d: Digests, src: seq<Entity>, rows: seq<Entity>)
    requires Snapshot(src) && Answers(rows, d, src)
    ensures var missing := Missing(src, Listing(rows));
            var staged := rows + missing;
            && Answers(staged, d, src) && Missing(src, Listing(staged)) == []
            && Metadata(Listing(staged)) == Metadata(Listing(rows)) && NextOf(Listing(staged)) == NextOf(Listing(rows))
            && Resumable(d, src, Listing(rows), staged, [])
  {
    hide Missing, Listing, Canonical, ValidTable, CopiesSource, PrefixDigestsAgree, Resumable, Listable, Metadata,
         NextOf;
    var missing := Missing(src, Listing(rows));
    InsertMany(d, src, rows, |missing|);
    assert missing[..|missing|] == missing && missing[|missing|..] == [];
    ResumableWithoutRest(d, src, Listing(rows), rows + missing);
  }

  /**
   One run from an acceptable destination. Cut off early, it leaves a destination that is acceptable
   again, with the committed rows and the mark untouched and exactly the remaining rows missing.
   The mark moves only after every insert, and then the copy is complete.
   */
  lemma RunOutcome(d: Digests, src: seq<Entity>, ev: Evidence, rows: seq<Entity>, budget: nat)
    requires TellsMetadataApart(d, src, Listing(rows))
    requires Snapshot(src) && Answers(rows, d, src) && AgreesWith(src, ev)
    ensures var dst := Listing(rows);
            var missing := Missing(src, dst);
            var a := RunOnce(d, src, ev, rows, budget);
            var n := if budget < |missing| then budget else |missing|;
            && a.inserted == missing[..n]
            && (a.advanced <==> NextOf(dst) < NextOf(src) && budget > |missing|)
            && (!a.advanced ==> a.rows == rows + missing[..n] && Resumable(d, src, dst, a.rows, missing[n..]))
            && (a.advanced ==> Completed(src, a.rows) && a.outcome == Finished)
  {
    hide Missing, Listing, Canonical, ValidTable, PrefixDigestsAgree, Resumable, Listable, Metadata, NextOf,
         Upsert, AllCopied, DistinctKeys, SameList;
    var dst := Listing(rows);
    var missing := Missing(src, dst);
    var n := if budget < |missing| then budget else |missing|;
    InsertMany(d, src, rows, n);
    if budget >= |missing| {
      assert missing[..n] == missing && missing[n..] == [];
      StagedRun(d, src, rows);
      if NextOf(dst) < NextOf(src) && budget > |missing| {
        AdvanceCompletes(d, src, rows + missing);
        CompletedIsConfirmed(d, src, ev, Upsert(rows + missing, Metadata(src)[0]));
      }
    }
  }

  /** An uninterrupted run finishes, unless the marks agreed and the metadata rows differ otherwise. */
  lemma UninterruptedRun(d: Digests, src: seq<Entity>, ev: Evidence, rows: seq<Entity>, budget: nat)
    requires TellsMetadataApart(d, src, Listing(rows))
    requires Snapshot(src) && Answers(rows, d, src) && AgreesWith(src, ev)
    requires budget > |Missing(src, Listing(rows))|
    ensures |Metadata(Listing(rows))| == |Metadata(src)| == 1
    ensures RunOnce(d, src, ev, rows, budget).outcome == Finished <==>
              NextOf(Listing(rows)) < NextOf(src) || Same(Metadata(Listing(rows))[0], Metadata(src)[0])
    ensures RunOnce(d, src, ev, rows, budget).outcome in {Finished, Rejected}
  {
    hide Missing, Listing, Canonical, ValidTable, PrefixDigestsAgree, Resumable, Listable, Metadata, NextOf,
         Upsert, AllCopied, DistinctKeys, SameList, Same, Confirmed;
    RunOutcome(d, src, ev, rows, budget);
    OneOfEach(d, src, Listing(rows));
    StagedRun(d, src, rows);
    if NextOf(Listing(rows)) == NextOf(src) {
      EqualMarks(d, src, ev, rows + Missing(src, Listing(rows)));
    }
  }

  // ---------------------------------------------------------------------------
  // Running again after completion

  lemma EqualHasKey(src: seq<Entity>, dst: seq<Entity>, s: Entity)
    requires SameList(dst, src) && s in DataRows(src) && Keyed(s)
    ensures FindKey(DataRows(dst), KeyOf(s)).Some?
  {
    hide FindKey, Select;
    var i :| 0 <= i < |src| && src[i] == s;
    assert Same(dst[i], s) && dst[i] in dst;
    FindKeyFinds(DataRows(dst), KeyOf(s));
  }

  lemma EqualHasNothingMissing(src: seq<Entity>, dst: seq<Entity>)
    requires SameList(dst, src)
    ensures Missing(src, dst) == []
  {
    hide Missing, FindKey, SameList, DataRows;
    MissingRows(src, dst);
    forall s | s in DataRows(src) && Keyed(s)
      ensures FindKey(DataRows(dst), KeyOf(s)).Some?
    {
      EqualHasKey(src, dst, s);
    }
    NoMembers(Missing(src, dst));
  }

  lemma EqualHasEqualMark(d: Digests, src: seq<Entity>, dst: seq<Entity>)
    requires Acceptable(d, src, dst) && SameList(dst, src)
    ensures |Metadata(dst)| == |Metadata(src)| == 1 && Same(Metadata(dst)[0], Metadata(src)[0])
    ensures NextOf(dst) == NextOf(src)
  {
    hide AllCopied, Committed, Same;
    OneOfEach(d, src, dst);
    SameListMetadata(dst, src);
    SameMark(Metadata(dst)[0], Metadata(src)[0]);
  }

  lemma SameMark(a: Entity, b: Entity)
    requires Same(a, b) && Integer(a, NextIndex) && Integer(b, NextIndex)
    ensures a[NextIndex] == b[NextIndex]
  {
    assert PyEq(a[NextIndex], b[NextIndex]);
    SameNumber(a[NextIndex], b[NextIndex]);
  }

  /** A run on a copy equal to the source writes nothing, whatever it concludes. */
  lemma CompletedRunWritesNothing(d: Digests, src: seq<Entity>, ev: Evidence, rows: seq<Entity>, budget: nat)
    requires Snapshot(src) && AgreesWith(src, ev) && Listable(rows) && SameList(Listing(rows), src)
    ensures RunOnce(d, src, ev, rows, budget) ==
            Attempt(rows, [], false, if Answers(rows, d, src) then Finished else Refused)
  {
    hide Listing, Listable, Acceptable, Missing, Same, SameList, Confirmed, Canonical;
    if Answers(rows, d, src) {
      EqualHasNothingMissing(src, Listing(rows));
      EqualHasEqualMark(d, src, Listing(rows));
      EqualMarks(d, src, ev, rows);
      assert rows + [] == rows;
    }
  }

  // ---------------------------------------------------------------------------
  // The digest comparison

  /** Every committed row encodes, in the compared fields, as its source row does. */
  predicate EncodedAlike(src: seq<Entity>, dst: seq<Entity>) {
    forall c :: c in Select(dst, IsLow(NextOf(dst))) ==>
      Copied(DataRows(src), c) && Stable(c) == Stable(Original(src, c))
  }

  lemma OriginalByIndex(d: Digests, src: seq<Entity>, c: Entity)
    requires SourceOk(d, src) && Copied(DataRows(src), c)
    ensures Integer(c, LogIndex) && 0 <= Index(c) < NextOf(src)
    ensures IsEntry(c) ==> Original(src, c) == ByIndexOf(Entries(src), Index(c))
    ensures IsIndex(c) ==> Original(src, c) == ByIndexOf(Indexes(src), Index(c))
  {
    OriginalFacts(d, src, c);
    var o := Original(src, c);
    if IsEntry(c) {
      assert o in Entries(src);
      MemberByIndex(Entries(src), NextOf(src), o);
    }
    if IsIndex(c) {
      assert o in Indexes(src);
      MemberByIndex(Indexes(src), NextOf(src), o);
    }
  }

  /** The k-th digests on both sides, in terms of the committed rows and their originals. */
  lemma PairAt(d: Digests, src: seq<Entity>, dst: seq<Entity>, k: nat) returns (e: Entity, i: Entity)
    requires SourceOk(d, src) && CopiesSource(src, dst) && ValidTable(d, Committed(dst)) && k < NextOf(dst)
    ensures e in Select(dst, IsLow(NextOf(dst))) && Copied(DataRows(src), e) && IsEntry(e) && Index(e) == k
    ensures i in Select(dst, IsLow(NextOf(dst))) && Copied(DataRows(src), i) && IsIndex(i) && Index(i) == k
    ensures k < StateOf(d, Committed(dst)).nextIndex && k < StateOf(d, src).nextIndex
    ensures StateOf(d, Committed(dst)).pairDigests[k] == d.digest(PairDocument(Stable(e), Stable(i)))
    ensures StateOf(d, src).pairDigests[k] == d.digest(PairDocument(Stable(Original(src, e)), Stable(Original(src, i))))
  {
    hide Committed, Select, Stable, FindKey;
    CommittedMetadata(d, dst);
    e := LowRowOfKind(d, dst, true, k);
    i := LowRowOfKind(d, dst, false, k);
    LowIsData(dst, e);
    LowIsData(dst, i);
    LowRowIsCopied(src, dst, e);
    LowRowIsCopied(src, dst, i);
    OriginalByIndex(d, src, e);
    OriginalByIndex(d, src, i);
  }

  lemma LowIsData(dst: seq<Entity>, c: Entity)
    requires c in Select(dst, IsLow(NextOf(dst)))
    ensures c in DataRows(dst) && IsData(c)
  {
  }

  /** A committed row is the one its digest position speaks of. */
  lemma LowRowPosition(d: Digests, src: seq<Entity>, dst: seq<Entity>, c: Entity, e: Entity)
    requires CopiesSource(src, dst) && ValidTable(d, Committed(dst))
    requires c in Select(dst, IsLow(NextOf(dst))) && e in Select(dst, IsLow(NextOf(dst)))
    requires IsEntry(c) == IsEntry(e) && Integer(c, LogIndex) && Integer(e, LogIndex) && Index(c) == Index(e)
    ensures c == e
  {
    LowIsData(dst, c);
    LowIsData(dst, e);
    var committed := Committed(dst);
    if IsEntry(c) {
      assert c in Entries(committed) && e in Entries(committed);
      MemberByIndex(Entries(committed), NextOf(committed), c);
      MemberByIndex(Entries(committed), NextOf(committed), e);
    } else {
      assert c in Indexes(committed) && e in Indexes(committed);
      MemberByIndex(Indexes(committed), NextOf(committed), c);
      MemberByIndex(Indexes(committed), NextOf(committed), e);
    }
  }

  lemma AlikeMeansSameDigests(d: Digests, src: seq<Entity>, dst: seq<Entity>)
    requires SourceOk(d, src) && CopiesSource(src, dst) && ValidTable(d, Committed(dst)) && EncodedAlike(src, dst)
    ensures StateOf(d, Committed(dst)).pairDigests <= StateOf(d, src).pairDigests
  {
    hide Committed, Stable, ValidTable, Select;
    CommittedMetadata(d, dst);
    var a, b := StateOf(d, Committed(dst)).pairDigests, StateOf(d, src).pairDigests;
    forall k | 0 <= k < |a|
      ensures k < |b| && a[k] == b[k]
    {
      var e, i := PairAt(d, src, dst, k);
    }
  }

  lemma SameDigestsMeanAlike(d: Digests, src: seq<Entity>, dst: seq<Entity>)
    requires TellsPairsApart(d, src, dst)
    requires SourceOk(d, src) && CopiesSource(src, dst) && ValidTable(d, Committed(dst))
    requires StateOf(d, Committed(dst)).pairDigests <= StateOf(d, src).pairDigests
    ensures EncodedAlike(src, dst)
  {
    hide Committed, Stable, ValidTable, Select, SourceOk;
    forall c | c in Select(dst, IsLow(NextOf(dst)))
      ensures Copied(DataRows(src), c) && Stable(c) == Stable(Original(src, c))
    {
      LowRowAlike(d, src, dst, c);
    }
  }

  /** One digest means one pair. */
  lemma PairsTold(d: Digests, src: seq<Entity>, dst: seq<Entity>, e: Entity, i: Entity, o: Entity, x: Entity)
    requires TellsPairsApart(d, src, dst)
    requires e in dst && IsEntry(e) && i in dst && IsIndex(i) && o in src && IsEntry(o) && x in src && IsIndex(x)
    requires d.digest(PairDocument(Stable(e), Stable(i))) == d.digest(PairDocument(Stable(o), Stable(x)))
    ensures Stable(e) == Stable(o) && Stable(i) == Stable(x)
  {
    hide Stable, Select, IsEntry, IsIndex;
    var all := src + dst;
    assert e in Entries(all) && i in Indexes(all) && o in Entries(all) && x in Indexes(all);
    assert PairDocument(Stable(e), Stable(i)) in PairDocuments(all);
    assert PairDocument(Stable(o), Stable(x)) in PairDocuments(all);
  }

  lemma LowRowAlike(d: Digests, src: seq<Entity>, dst: seq<Entity>, c: Entity)
    requires TellsPairsApart(d, src, dst)
    requires SourceOk(d, src) && CopiesSource(src, dst) && ValidTable(d, Committed(dst))
    requires StateOf(d, Committed(dst)).pairDigests <= StateOf(d, src).pairDigests
    requires c in Select(dst, IsLow(NextOf(dst)))
    ensures Copied(DataRows(src), c) && Stable(c) == Stable(Original(src, c))
  {
    hide Committed, Stable, ValidTable, SourceOk, FindKey, Select, AllCopied, DistinctKeys;
    LowIsData(dst, c);
    LowRowIsCopied(src, dst, c);
    KindsExclude(c);
    var e, i := PairAt(d, src, dst, Index(c));
    LowIsData(dst, e);
    LowIsData(dst, i);
    OriginalFacts(d, src, e);
    OriginalFacts(d, src, i);
    PairsTold(d, src, dst, e, i, Original(src, e), Original(src, i));
    KindsExclude(i);
    LowRowPosition(d, src, dst, c, if IsEntry(c) then e else i);
  }

  /** The JSON text of a value is fixed by what Python's equality sees of it, unless it is a boolean or a float. */
  predicate Exact(v: Value) {
    !v.Bool? && !v.Float?
  }

  lemma ExactRowsEncodeAlike(a: Entity, b: Entity)
    requires Same(a, b)
    requires forall f :: f in a && !f.Other? && !f.Server? ==> Exact(a[f]) && Exact(b[f])
    ensures Stable(a) == Stable(b)
  {
    forall f | f in Stable(a)
      ensures f in Stable(b) && Stable(a)[f] == Stable(b)[f]
    {
      assert PyEq(a[f], b[f]);
      if a[f].Int? && b[f].Int? {
        SameNumber(a[f], b[f]);
      }
    }
  }

  // ---------------------------------------------------------------------------
  // A destination with nothing staged

  predicate NothingAbove(dst: seq<Entity>) {
    forall e :: e in dst && IsData(e) ==> Below(e, NextOf(dst))
  }

  lemma WholeSelections(source: seq<Entity>, dst: seq<Entity>)
    requires AllCopied(source, dst) && NothingAbove(dst)
    ensures Metadata(Committed(dst)) == Metadata(dst)
    ensures Entries(Committed(dst)) == Entries(dst) && Indexes(Committed(dst)) == Indexes(dst)
    ensures |Committed(dst)| == |dst|
  {
    var low := Select(dst, IsLow(NextOf(dst)));
    forall e | e in dst
      ensures IsMetadata(e) != IsLow(NextOf(dst))(e) && (IsMetadata(e) ==> !IsEntry(e) && !IsIndex(e))
    {
      var i :| 0 <= i < |dst| && dst[i] == e;
      KindsExclude(e);
      assert IsMetadata(dst[i]) || Copied(source, dst[i]);
    }
    SelectPartition(dst, IsMetadata, IsLow(NextOf(dst)));
    WholeSelection(dst, Metadata(dst), low, IsMetadata);
    WholeSelection(dst, Metadata(dst), low, IsEntry);
    WholeSelection(dst, Metadata(dst), low, IsIndex);
  }

  lemma WholeSelection(dst: seq<Entity>, m: seq<Entity>, low: seq<Entity>, p: Entity -> bool)
    requires m == Select(dst, IsMetadata) && low == Select(dst, IsLow(NextOf(dst)))
    requires (forall e :: e in dst ==> IsMetadata(e) != IsLow(NextOf(dst))(e))
    requires || (forall e :: e in dst && p(e) ==> IsMetadata(e))
             || (forall e :: e in dst && p(e) ==> IsLow(NextOf(dst))(e))
    ensures Select(m + low, p) == Select(dst, p)
  {
    hide Select, Below, IsEntry, IsIndex, IsMetadata;
    SelectAppend(m, low, p);
    if forall e :: e in dst && p(e) ==> IsMetadata(e) {
      SelectSelect(dst, IsMetadata, p);
      SelectNone(low, p);
    } else {
      SelectSelect(dst, IsLow(NextOf(dst)), p);
      SelectNone(m, p);
    }
  }

  lemma WholeMembers(source: seq<Entity>, dst: seq<Entity>)
    requires AllCopied(source, dst) && NothingAbove(dst)
    ensures SameMembers(Committed(dst), dst)
  {
    forall e | e in dst
      ensures e in Committed(dst)
    {
      RowIsMetadataOrData(source, dst, e);
    }
  }

  /** With nothing staged, validating the committed rows is validating the table. */
  lemma WholeIsValid(d: Digests, source: seq<Entity>, dst: seq<Entity>)
    requires AllCopied(source, dst) && NothingAbove(dst)
    ensures ValidTable(d, Committed(dst)) <==> ValidTable(d, dst)
    ensures ValidTable(d, dst) ==> StateOf(d, Committed(dst)) == StateOf(d, dst)
  {
    WholeSelections(source, dst);
    WholeMembers(source, dst);
    if ValidTable(d, Committed(dst)) {
      SamePartition(d, Committed(dst), dst);
    }
    if ValidTable(d, dst) {
      SamePartition(d, dst, Committed(dst));
    }
    if ValidTable(d, dst) {
      assert StateOf(d, Committed(dst)).pairDigests == StateOf(d, dst).pairDigests;
    }
  }

  lemma SamePartition(d: Digests, xs: seq<Entity>, ys: seq<Entity>)
    requires SameMembers(xs, ys) && |xs| == |ys| && ValidTable(d, xs)
      && Metadata(xs) == Metadata(ys) && Entries(xs) == Entries(ys) && Indexes(xs) == Indexes(ys)
    ensures ValidTable(d, ys)
  {
    forall i | 0 <= i < |ys|
      ensures Holds(ys[i], PartitionKey, Metadata(ys)[0][PartitionKey])
    {
      assert ys[i] in xs;
      var j :| 0 <= j < |xs| && xs[j] == ys[i];
    }
  }
}
