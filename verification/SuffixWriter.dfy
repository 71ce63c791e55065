/**
 The resumable suffix writer: analyse the destination against the protected source, insert the
 missing rows, analyse again, and only then advance the metadata high-water mark.
 */
module SuffixWriter {
  import opened Common
  import opened Ordering
  import opened TableEntities
  import opened TableState

  predicate IsData(e: Entity) { IsEntry(e) || IsIndex(e) }

  /** The rows other than metadata. */
  function DataRows(es: seq<Entity>): seq<Entity> { Select(es, IsData) }

  function FindKey(rows: seq<Entity>, key: Key): Option<Entity> {
    if rows == [] then None
    else
      var last := rows[|rows| - 1];
      if Keyed(last) && KeyOf(last) == key then Some(last) else FindKey(rows[..|rows| - 1], key)
  }

  lemma {:induction false} FindKeyFinds(rows: seq<Entity>, key: Key)
    ensures FindKey(rows, key).Some? ==>
              FindKey(rows, key).value in rows && Keyed(FindKey(rows, key).value)
                && KeyOf(FindKey(rows, key).value) == key
    ensures FindKey(rows, key).None? ==> forall e :: e in rows && Keyed(e) ==> KeyOf(e) != key
  {
    if rows != [] {
      FindKeyFinds(rows[..|rows| - 1], key);
      assert rows == rows[..|rows| - 1] + [rows[|rows| - 1]];
    }
  }

  lemma FindKeyUnique(rows: seq<Entity>, e: Entity)
    requires DistinctKeys(rows) && e in rows
    ensures Keyed(e) && FindKey(rows, KeyOf(e)) == Some(e)
  {
    var i :| 0 <= i < |rows| && rows[i] == e;
    FindKeyFinds(rows, KeyOf(e));
    var f := FindKey(rows, KeyOf(e)).value;
    var j :| 0 <= j < |rows| && rows[j] == f;
    assert i == j;
  }

  // ---------------------------------------------------------------------------
  // What the analysis accepts

  /** The row's log index counts as committed under the high-water mark. */
  predicate Below(e: Entity, next: int) {
    Integer(e, LogIndex) && Index(e) < next
  }

  /** A destination data row that repeats a source row. */
  predicate Copied(source: seq<Entity>, e: Entity) {
    && IsData(e) && Keyed(e)
    && FindKey(source, KeyOf(e)).Some?
    && Same(e, FindKey(source, KeyOf(e)).value)
    && Integer(e, LogIndex) && Index(e) >= 0
  }

  function IsLow(next: int): Entity -> bool {
    (e: Entity) => IsData(e) && Below(e, next)
  }

  function IsHigh(next: int): Entity -> bool {
    (e: Entity) => IsData(e) && !Below(e, next)
  }

  /** The metadata row and the data rows under its high-water mark. */
  function Committed(dst: seq<Entity>): seq<Entity> {
    Metadata(dst) + Select(dst, IsLow(NextOf(dst)))
  }

  function Staged(dst: seq<Entity>): seq<Entity> {
    Select(dst, IsHigh(NextOf(dst)))
  }

  predicate AllCopied(source: seq<Entity>, dst: seq<Entity>) {
    forall i :: 0 <= i < |dst| && !IsMetadata(dst[i]) ==> Copied(source, dst[i])
  }

  /** The protected source passed validation and has no repeated keys. */
  predicate SourceOk(d: Digests, src: seq<Entity>) {
    ValidTable(d, src) && DistinctKeys(DataRows(src))
  }

  /** The destination repeats source rows only, under a mark not beyond the source's. */
  predicate CopiesSource(src: seq<Entity>, dst: seq<Entity>) {
    && |Metadata(dst)| == 1
    && Integer(Metadata(dst)[0], NextIndex)
    && 0 <= NextOf(dst) <= NextOf(src)
    && DistinctKeys(dst)
    && AllCopied(DataRows(src), dst)
  }

  predicate PrefixDigestsAgree(d: Digests, src: seq<Entity>, committed: seq<Entity>)
    requires ValidTable(d, src) && ValidTable(d, committed)
  {
    && StateOf(d, committed).metadataDigest == StateOf(d, src).metadataDigest
    && StateOf(d, committed).pairDigests <= StateOf(d, src).pairDigests
  }

  predicate Acceptable(d: Digests, src: seq<Entity>, dst: seq<Entity>) {
    && SourceOk(d, src)
    && CopiesSource(src, dst)
    && ValidTable(d, Committed(dst))
    && PrefixDigestsAgree(d, src, Committed(dst))
  }

  // ---------------------------------------------------------------------------
  // The plan

  function Order(e: Entity): int {
    if IsEntry(e) then 0 else 1
  }

  /** By log index, entries before index rows, then by row key. */
  predicate RowLeq(a: Entity, b: Entity) {
    var i, j := if Integer(a, LogIndex) then Index(a) else 0, if Integer(b, LogIndex) then Index(b) else 0;
    var s, t := if Keyed(a) then KeyOf(a).1 else "", if Keyed(b) then KeyOf(b).1 else "";
    if i != j then i < j
    else if Order(a) != Order(b) then Order(a) < Order(b)
    else LexLeq(s, t)
  }

  function ByRow(): (Entity, Entity) -> bool {
    (a: Entity, b: Entity) => RowLeq(a, b)
  }

  lemma ByRowIsOrder()
    ensures TotalPreorder(ByRow())
  {
    var leq := ByRow();
    forall a, b
      ensures leq(a, b) || leq(b, a)
    {
      LexTotal(if Keyed(a) then KeyOf(a).1 else "", if Keyed(b) then KeyOf(b).1 else "");
    }
    forall a, b, c | leq(a, b) && leq(b, c)
      ensures leq(a, c)
    {
      var s := if Keyed(a) then KeyOf(a).1 else "";
      var t := if Keyed(b) then KeyOf(b).1 else "";
      var u := if Keyed(c) then KeyOf(c).1 else "";
      if LexLeq(s, t) && LexLeq(t, u) {
        LexTransitive(s, t, u);
      }
    }
  }

  predicate Absent(dst: seq<Entity>, e: Entity) {
    !Below(e, NextOf(dst)) && Keyed(e) && FindKey(DataRows(dst), KeyOf(e)).None?
  }

  function Missing(src: seq<Entity>, dst: seq<Entity>): seq<Entity> {
    SortBy(ByRow(), Select(DataRows(src), (e: Entity) => Absent(dst, e)))
  }

  datatype Plan = Plan(
    sourceNext: int, destinationNext: int, sourceCount: nat, destinationCount: nat,
    stagedCount: nat, missing: seq<Entity>)

  function PlanOf(src: seq<Entity>, dst: seq<Entity>): Plan {
    Plan(NextOf(src), NextOf(dst), |src|, |dst|, |Staged(dst)|, Missing(src, dst))
  }

  lemma KindsExclude(e: Entity)
    ensures IsMetadata(e) ==> !IsEntry(e) && !IsIndex(e)
    ensures IsEntry(e) ==> !IsIndex(e)
  {
    assert |"metadata"| == 8 && |"entry"| == 5 && |"event_index"| == 11;
  }

  lemma {:induction false} OneMetadataRow(es: seq<Entity>, i: nat, j: nat)
    requires |Metadata(es)| <= 1 && i < j < |es|
    ensures !IsMetadata(es[i]) || !IsMetadata(es[j])
  {
    var front := es[..|es| - 1];
    if j < |es| - 1 {
      OneMetadataRow(front, i, j);
    } else if IsMetadata(es[j]) {
      assert Metadata(front) == [];
      assert es[i] == front[i] && es[i] in front;
    }
  }

  /** The keys seen so far are those of the metadata row and of the data rows passed, all different. */
  ghost predicate Seen(dst: seq<Entity>, m: Entity, n: nat, seen: set<Key>)
    requires n <= |dst| && Keyed(m)
  {
    && (forall i :: 0 <= i < n && !IsMetadata(dst[i]) ==>
          Keyed(dst[i]) && KeyOf(dst[i]) in seen && KeyOf(dst[i]) != KeyOf(m))
    && (forall i, j :: 0 <= i < j < n && !IsMetadata(dst[i]) && !IsMetadata(dst[j]) ==> KeyOf(dst[i]) != KeyOf(dst[j]))
    && (forall k :: k in seen ==>
          k == KeyOf(m) || exists i :: 0 <= i < n && !IsMetadata(dst[i]) && Keyed(dst[i]) && KeyOf(dst[i]) == k)
    && KeyOf(m) in seen
  }

  lemma SeenAll(dst: seq<Entity>, m: Entity, seen: set<Key>)
    requires |Metadata(dst)| == 1 && m == Metadata(dst)[0] && Keyed(m) && Seen(dst, m, |dst|, seen)
    ensures DistinctKeys(dst)
  {
    forall i | 0 <= i < |dst|
      ensures Keyed(dst[i]) && (IsMetadata(dst[i]) ==> dst[i] == m)
    {
      if IsMetadata(dst[i]) {
        assert dst[i] in Metadata(dst);
      }
    }
    forall i, j | 0 <= i < j < |dst|
      ensures KeyOf(dst[i]) != KeyOf(dst[j])
    {
      OneMetadataRow(dst, i, j);
    }
  }

  lemma SeenTwice(dst: seq<Entity>, m: Entity, n: nat, seen: set<Key>)
    requires |Metadata(dst)| == 1 && m == Metadata(dst)[0] && Keyed(m) && n < |dst| && Seen(dst, m, n, seen)
    requires !IsMetadata(dst[n]) && Keyed(dst[n]) && KeyOf(dst[n]) in seen
    ensures !DistinctKeys(dst)
  {
    if KeyOf(dst[n]) == KeyOf(m) {
      assert m in dst;
      var i :| 0 <= i < |dst| && dst[i] == m;
      assert IsMetadata(m);
    }
  }

  lemma SeenNext(dst: seq<Entity>, m: Entity, n: nat, seen: set<Key>)
    requires Keyed(m) && n < |dst| && Seen(dst, m, n, seen)
    ensures IsMetadata(dst[n]) ==> Seen(dst, m, n + 1, seen)
    ensures !IsMetadata(dst[n]) && Keyed(dst[n]) && KeyOf(dst[n]) !in seen ==>
      Seen(dst, m, n + 1, seen + {KeyOf(dst[n])})
  {
  }

  method KeysAreDistinct(dst: seq<Entity>) returns (ok: bool)
    requires |Metadata(dst)| == 1
    ensures ok <==> DistinctKeys(dst)
  {
    var m := Metadata(dst)[0];
    assert m in dst;
    if !Keyed(m) {
      return false;
    }
    var seen := {KeyOf(m)};
    for i := 0 to |dst|
      invariant Seen(dst, m, i, seen)
    {
      SeenNext(dst, m, i, seen);
      if !IsMetadata(dst[i]) {
        if !Keyed(dst[i]) {
          return false;
        }
        if KeyOf(dst[i]) in seen {
          SeenTwice(dst, m, i, seen);
          return false;
        }
        seen := seen + {KeyOf(dst[i])};
      }
    }
    SeenAll(dst, m, seen);
    return true;
  }

  lemma CopiedSnoc(source: seq<Entity>, es: seq<Entity>, e: Entity)
    ensures AllCopied(source, es + [e]) <==> AllCopied(source, es) && (IsMetadata(e) || Copied(source, e))
  {
    var longer := es + [e];
    assert longer[|es|] == e;
    assert forall i :: 0 <= i < |es| ==> longer[i] == es[i];
  }

  lemma ClassifySnoc(dst: seq<Entity>, n: nat, next: int)
    requires n < |dst|
    ensures dst[..n + 1] == dst[..n] + [dst[n]]
    ensures Select(dst[..n + 1], IsLow(next)) ==
              Select(dst[..n], IsLow(next)) + if IsData(dst[n]) && Below(dst[n], next) then [dst[n]] else []
    ensures Select(dst[..n + 1], IsHigh(next)) ==
              Select(dst[..n], IsHigh(next)) + if IsData(dst[n]) && !Below(dst[n], next) then [dst[n]] else []
    ensures IsMetadata(dst[n]) ==> !IsData(dst[n])
  {
    assert dst[..n + 1] == dst[..n] + [dst[n]];
    SelectSnoc(dst[..n], dst[n], IsLow(next));
    SelectSnoc(dst[..n], dst[n], IsHigh(next));
    KindsExclude(dst[n]);
  }

  /** The loop of the analysis: sort the destination's rows into committed and staged ones. */
  method Classify(source: seq<Entity>, dst: seq<Entity>, next: int)
    returns (ok: bool, low: seq<Entity>, high: seq<Entity>)
    ensures ok <==> AllCopied(source, dst)
    ensures ok ==> low == Select(dst, IsLow(next)) && high == Select(dst, IsHigh(next))
  {
    low, high := [], [];
    for i := 0 to |dst|
      invariant AllCopied(source, dst[..i])
      invariant low == Select(dst[..i], IsLow(next))
      invariant high == Select(dst[..i], IsHigh(next))
    {
      ClassifySnoc(dst, i, next);
      CopiedSnoc(source, dst[..i], dst[i]);
      if !IsMetadata(dst[i]) {
        if !Copied(source, dst[i]) {
          assert !AllCopied(source, dst);
          return false, low, high;
        }
        if Index(dst[i]) < next {
          low := low + [dst[i]];
        } else {
          high := high + [dst[i]];
        }
      }
    }
    assert dst[..|dst|] == dst;
    ok := true;
  }

  /** The destination side of the analysis, up to validation of the committed rows. */
  method CompareRows(src: seq<Entity>, sourceNext: int, dst: seq<Entity>)
    returns (ok: bool, committed: seq<Entity>, staged: seq<Entity>)
    requires sourceNext == NextOf(src)
    ensures ok <==> CopiesSource(src, dst)
    ensures ok ==> committed == Committed(dst) && staged == Staged(dst)
  {
    committed, staged := [], [];
    var metadata := Metadata(dst);
    if |metadata| != 1 || !Integer(metadata[0], NextIndex) {
      return false, committed, staged;
    }
    var next := metadata[0][NextIndex].number;
    if next < 0 || next > sourceNext {
      return false, committed, staged;
    }
    ok := KeysAreDistinct(dst);
    if ok {
      var low;
      ok, low, staged := Classify(DataRows(src), dst, next);
      committed := metadata + low;
    }
  }

  method AnalyzeDestination(d: Digests, src: seq<Entity>, dst: seq<Entity>) returns (r: Result<Plan, MigrationError>)
    ensures r.Ok? <==> Acceptable(d, src, dst)
    ensures r.Ok? ==> r.value == PlanOf(src, dst)
    ensures r.Ok? ==>
              && r.value.sourceNext == NextOf(src) && r.value.sourceCount == |src|
              && r.value.destinationNext == NextOf(dst) && r.value.destinationCount == |dst|
              && r.value.stagedCount == |Staged(dst)| && r.value.missing == Missing(src, dst)
  {
    hide Missing, Committed, CopiesSource, Staged;
    var source := ValidatedState(d, src);
    if source.Err? || !DistinctKeys(DataRows(src)) {
      return Err(MigrationControlError);
    }
    var ok, committed, staged := CompareRows(src, source.value.nextIndex, dst);
    if !ok {
      return Err(MigrationControlError);
    }
    var state := ValidatedState(d, committed);
    if state.Err? {
      return Err(MigrationControlError);
    }
    if state.value.metadataDigest != source.value.metadataDigest
      || !(state.value.pairDigests <= source.value.pairDigests) {
      return Err(MigrationControlError);
    }
    return Ok(Plan(source.value.nextIndex, NextOf(dst), |src|, |dst|, |staged|, Missing(src, dst)));
  }
}
