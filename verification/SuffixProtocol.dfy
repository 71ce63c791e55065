/** What the suffix writer guarantees over interrupted and repeated runs. */
module SuffixProtocol {
  import opened Ordering
  import opened TableEntities
  import opened TableState
  import opened SuffixWriter

  // ---------------------------------------------------------------------------
  // Canonical lists with the same rows

  lemma MembersMatch(xs: seq<Entity>, ys: seq<Entity>)
    requires forall e :: e in xs ==> e in ys
    ensures forall i :: 0 <= i < |xs| ==> Matches(ys, xs[i])
  {
    forall i | 0 <= i < |xs|
      ensures Matches(ys, xs[i])
    {
      assert xs[i] in ys;
      var j :| 0 <= j < |ys| && ys[j] == xs[i];
      SameIsEquivalence(ys[j], ys[j], ys[j]);
    }
  }

  lemma KeyFixesRow(rows: seq<Entity>, e: Entity, i: nat)
    requires DistinctKeys(rows) && e in rows && i < |rows| && Keyed(e) && KeyOf(e) == KeyOf(rows[i])
    ensures e == rows[i]
  {
    var j :| 0 <= j < |rows| && rows[j] == e;
    assert j == i;
  }

  lemma CanonicalEqual(xs: seq<Entity>, ys: seq<Entity>)
    requires Canonical(xs) && Canonical(ys) && SameMembers(xs, ys)
    ensures xs == ys
  {
    MembersMatch(xs, ys);
    MembersMatch(ys, xs);
    CanonicalIsUnique(xs, ys);
    forall i | 0 <= i < |xs|
      ensures xs[i] == ys[i]
    {
      SameKeys(xs[i], ys[i]);
      KeyFixesRow(ys, xs[i], i);
    }
  }

  lemma SelectCanonical(xs: seq<Entity>, p: Entity -> bool)
    requires Canonical(xs)
    ensures Canonical(Select(xs, p))
  {
    SelectDistinct(xs, p);
    SelectSorted(xs, p);
  }

  /** Adding a row a selection does not want leaves the selection alone. */
  lemma SelectIgnores(xs: seq<Entity>, ys: seq<Entity>, e: Entity, p: Entity -> bool)
    requires Canonical(xs) && Canonical(ys) && SameMembers(ys, xs + [e]) && !p(e)
    ensures Select(ys, p) == Select(xs, p)
  {
    SelectCanonical(xs, p);
    SelectCanonical(ys, p);
    CanonicalEqual(Select(ys, p), Select(xs, p));
  }

  // ---------------------------------------------------------------------------
  // Source facts

  /** The protected snapshot, as the workspace loader hands it over. */
  ghost predicate Snapshot(src: seq<Entity>) {
    Canonical(src) && forall e :: e in src ==> Storable(e) && Strip(e) == e
  }

  lemma SourceRowFacts(d: Digests, src: seq<Entity>, e: Entity)
    requires ValidTable(d, src) && e in DataRows(src)
    ensures Keyed(e) && Integer(e, LogIndex) && 0 <= Index(e) < NextOf(src)
    ensures KeyOf(e).1 != "meta" && Holds(e, PartitionKey, Metadata(src)[0][PartitionKey])
    ensures IsEntry(e) ==> EntryOk(e)
    ensures IsIndex(e) ==> IndexOk(d, e)
  {
    var i :| 0 <= i < |src| && src[i] == e;
    if IsEntry(e) {
      assert e in Entries(src);
      var k :| 0 <= k < |Entries(src)| && Entries(src)[k] == e;
      assert |EntryKey(Index(e))| >= 6;
    } else {
      assert e in Indexes(src);
      var k :| 0 <= k < |Indexes(src)| && Indexes(src)[k] == e;
      assert |"event-" + d.sha256(e[EventId].text)| >= 6;
    }
  }

  // ---------------------------------------------------------------------------
  // One insert

  lemma MissingRows(src: seq<Entity>, dst: seq<Entity>)
    ensures forall e :: e in Missing(src, dst) <==> e in DataRows(src) && Absent(dst, e)
    ensures SortedBy(ByRow(), Missing(src, dst))
    ensures DistinctKeys(DataRows(src)) ==> DistinctKeys(Missing(src, dst))
  {
    var absent := (e: Entity) => Absent(dst, e);
    var chosen := Select(DataRows(src), absent);
    SortByMembers(ByRow(), chosen);
    ByRowIsOrder();
    SortByIsSorted(ByRow(), chosen);
    if DistinctKeys(DataRows(src)) {
      SelectDistinct(DataRows(src), absent);
      DistinctIsPermutationInvariant(chosen, Missing(src, dst));
    }
  }

  lemma CommittedMetadata(d: Digests, dst: seq<Entity>)
    requires |Metadata(dst)| == 1 && ValidTable(d, Committed(dst))
    ensures MetadataOk(Metadata(dst)[0]) && NextOf(Committed(dst)) == NextOf(dst)
    ensures Metadata(Committed(dst)) == Metadata(dst)
  {
    var m := Metadata(dst)[0];
    var committed := Committed(dst);
    var inner := Metadata(committed);
    assert m in committed && m in Metadata(dst) && IsMetadata(m);
    assert m in inner;
    assert inner == [m];
  }

  lemma RowIsMetadataOrData(source: seq<Entity>, dst: seq<Entity>, f: Entity)
    requires AllCopied(source, dst) && f in dst
    ensures f in Metadata(dst) || f in DataRows(dst)
  {
    var i :| 0 <= i < |dst| && dst[i] == f;
    assert IsMetadata(dst[i]) || Copied(source, dst[i]);
  }

  lemma KeyIsFree(source: seq<Entity>, dst: seq<Entity>, key: Key, f: Entity)
    requires AllCopied(source, dst) && DistinctKeys(dst) && f in dst
    requires |Metadata(dst)| == 1 && Holds(Metadata(dst)[0], RowKey, Str("meta"))
    requires key.1 != "meta" && FindKey(DataRows(dst), key).None?
    ensures Keyed(f) && KeyOf(f) != key
  {
    FindKeyFinds(DataRows(dst), key);
    RowIsMetadataOrData(source, dst, f);
    if f in Metadata(dst) {
      assert f == Metadata(dst)[0];
    }
  }

  /** A missing row's key is not taken by any row of the destination. */
  lemma MissingIsFresh(d: Digests, src: seq<Entity>, dst: seq<Entity>, e: Entity, f: Entity)
    requires Acceptable(d, src, dst) && e in Missing(src, dst) && f in dst
    ensures Keyed(e) && Keyed(f) && KeyOf(f) != KeyOf(e)
  {
    MissingRows(src, dst);
    SourceRowFacts(d, src, e);
    CommittedMetadata(d, dst);
    KeyIsFree(DataRows(src), dst, KeyOf(e), f);
  }

  lemma SourceRowIsCopied(d: Digests, src: seq<Entity>, e: Entity)
    requires SourceOk(d, src) && e in DataRows(src)
    ensures Copied(DataRows(src), e)
  {
    SourceRowFacts(d, src, e);
    FindKeyUnique(DataRows(src), e);
    SameIsEquivalence(e, e, e);
  }

  /** The listing after one insert. */
  ghost predicate Grown(dst: seq<Entity>, dst': seq<Entity>, e: Entity) {
    Canonical(dst) && Canonical(dst') && SameMembers(dst', dst + [e])
  }

  lemma InsertKeepsCommitted(d: Digests, src: seq<Entity>, dst: seq<Entity>, dst': seq<Entity>, e: Entity)
    requires Acceptable(d, src, dst) && e in Missing(src, dst) && Grown(dst, dst', e)
    ensures Metadata(dst') == Metadata(dst) && NextOf(dst') == NextOf(dst) && Committed(dst') == Committed(dst)
  {
    MissingRows(src, dst);
    KindsExclude(e);
    SelectIgnores(dst, dst', e, IsMetadata);
    SelectIgnores(dst, dst', e, IsLow(NextOf(dst)));
  }

  lemma GrownIsCopied(source: seq<Entity>, dst: seq<Entity>, dst': seq<Entity>, e: Entity)
    requires AllCopied(source, dst) && Copied(source, e) && SameMembers(dst', dst + [e])
    ensures AllCopied(source, dst')
  {
    forall i | 0 <= i < |dst'| && !IsMetadata(dst'[i])
      ensures Copied(source, dst'[i])
    {
      assert dst'[i] in dst + [e];
      if dst'[i] != e {
        assert dst'[i] in dst;
        var j :| 0 <= j < |dst| && dst[j] == dst'[i];
        assert Copied(source, dst[j]);
      }
    }
  }

  lemma InsertKeepsAcceptable(d: Digests, src: seq<Entity>, dst: seq<Entity>, dst': seq<Entity>, e: Entity)
    requires Acceptable(d, src, dst) && e in Missing(src, dst) && Grown(dst, dst', e)
    ensures Acceptable(d, src, dst')
  {
    InsertKeepsCommitted(d, src, dst, dst', e);
    MissingRows(src, dst);
    SourceRowIsCopied(d, src, e);
    GrownIsCopied(DataRows(src), dst, dst', e);
    assert CopiesSource(src, dst');
  }

  lemma FindAfterInsert(dst: seq<Entity>, dst': seq<Entity>, e: Entity, key: Key)
    requires SameMembers(dst', dst + [e]) && IsData(e) && Keyed(e)
    ensures FindKey(DataRows(dst'), key).None? <==> FindKey(DataRows(dst), key).None? && KeyOf(e) != key
  {
    assert forall g :: g in DataRows(dst') <==> g in DataRows(dst) || g == e by {
      forall g
        ensures g in DataRows(dst') <==> g in DataRows(dst) || g == e
      {
        assert g in dst' <==> g in dst + [e];
      }
    }
    FindKeyFinds(DataRows(dst), key);
    FindKeyFinds(DataRows(dst'), key);
  }

  lemma AbsentAfterInsert(source: seq<Entity>, dst: seq<Entity>, dst': seq<Entity>, e: Entity, f: Entity)
    requires DistinctKeys(source) && e in source && f in source && IsData(e)
    requires SameMembers(dst', dst + [e]) && NextOf(dst') == NextOf(dst)
    ensures Absent(dst', f) <==> Absent(dst, f) && f != e
  {
    FindKeyUnique(source, f);
    FindKeyUnique(source, e);
    FindAfterInsert(dst, dst', e, KeyOf(f));
  }

  lemma InsertShrinksMissing(d: Digests, src: seq<Entity>, dst: seq<Entity>, dst': seq<Entity>, e: Entity)
    requires Acceptable(d, src, dst) && e in Missing(src, dst) && Grown(dst, dst', e)
    ensures forall f :: f in Missing(src, dst') <==> f in Missing(src, dst) && f != e
  {
    InsertKeepsCommitted(d, src, dst, dst', e);
    MissingRows(src, dst);
    MissingRows(src, dst');
    forall f
      ensures f in Missing(src, dst') <==> f in Missing(src, dst) && f != e
    {
      if f in DataRows(src) {
        AbsentAfterInsert(DataRows(src), dst, dst', e, f);
      }
    }
  }

  // ---------------------------------------------------------------------------
  // Inserts into the stored rows

  lemma ListingKeys(rows: seq<Entity>, i: nat)
    requires Listable(rows) && i < |rows|
    ensures Strip(rows[i]) in Listing(rows) && Keyed(Strip(rows[i])) && KeyOf(Strip(rows[i])) == KeyOf(rows[i])
  {
    ListingIsCanonical(rows);
    assert StripAll(rows)[i] in StripAll(rows);
  }

  lemma ListableInsert(rows: seq<Entity>, e: Entity)
    requires Listable(rows) && Storable(e)
    requires forall f :: f in Listing(rows) ==> Keyed(f) && KeyOf(f) != KeyOf(e)
    ensures Listable(rows + [e])
  {
    var longer := rows + [e];
    forall i | 0 <= i < |longer|
      ensures Storable(longer[i]) && (i < |rows| ==> KeyOf(longer[i]) != KeyOf(e))
    {
      if i < |rows| {
        ListingKeys(rows, i);
      }
    }
    forall i, j | 0 <= i < j < |longer|
      ensures KeyOf(longer[i]) != KeyOf(longer[j])
    {
      assert longer[i] == rows[i] && (j < |rows| ==> longer[j] == rows[j]);
    }
  }

  lemma ListingInsert(rows: seq<Entity>, e: Entity)
    requires Listable(rows) && Storable(e) && Strip(e) == e
    requires forall f :: f in Listing(rows) ==> Keyed(f) && KeyOf(f) != KeyOf(e)
    ensures Listable(rows + [e]) && Grown(Listing(rows), Listing(rows + [e]), e)
  {
    ListableInsert(rows, e);
    ListingIsCanonical(rows);
    ListingIsCanonical(rows + [e]);
    assert StripAll(rows + [e]) == StripAll(rows) + [e];
    AppendMembers(StripAll(rows), Listing(rows), e, Listing(rows + [e]));
  }

  lemma AppendMembers(xs: seq<Entity>, ys: seq<Entity>, e: Entity, zs: seq<Entity>)
    requires SameMembers(ys, xs) && SameMembers(zs, xs + [e])
    ensures SameMembers(zs, ys + [e])
  {
  }

  lemma TailMembers(rows: seq<Entity>)
    requires DistinctKeys(rows) && rows != []
    ensures forall f :: f in rows[1..] <==> f in rows && f != rows[0]
  {
    forall f
      ensures f in rows[1..] <==> f in rows && f != rows[0]
    {
      if f in rows[1..] {
        var i :| 0 < i < |rows| && rows[i] == f;
        assert KeyOf(rows[0]) != KeyOf(rows[i]);
      }
    }
  }

  lemma MissingIsStorable(d: Digests, src: seq<Entity>, dst: seq<Entity>, e: Entity)
    requires Snapshot(src) && e in Missing(src, dst)
    ensures Storable(e) && Strip(e) == e
  {
    MissingRows(src, dst);
    assert e in src;
  }

  /** The committed rows and the high-water mark are as they were, and only `rest` is left to insert. */
  ghost predicate Resumable(d: Digests, src: seq<Entity>, before: seq<Entity>, rows: seq<Entity>, rest: seq<Entity>) {
    && Listable(rows)
    && Acceptable(d, src, Listing(rows))
    && Metadata(Listing(rows)) == Metadata(before)
    && Committed(Listing(rows)) == Committed(before)
    && forall f :: f in Missing(src, Listing(rows)) <==> f in rest
  }

  /** One insert, seen through listings before and after. */
  lemma InsertListed(d: Digests, src: seq<Entity>, rows: seq<Entity>, e: Entity)
    requires Snapshot(src) && Listable(rows) && Acceptable(d, src, Listing(rows))
      && e in Missing(src, Listing(rows))
    ensures Keyed(e) && forall f :: f in Listing(rows) ==> Keyed(f) && KeyOf(f) != KeyOf(e)
    ensures Listable(rows + [e]) && Grown(Listing(rows), Listing(rows + [e]), e)
  {
    var dst := Listing(rows);
    MissingIsStorable(d, src, dst, e);
    forall f | f in dst
      ensures Keyed(f) && KeyOf(f) != KeyOf(e)
    {
      MissingIsFresh(d, src, dst, e, f);
    }
    ListingInsert(rows, e);
  }

  lemma InsertOne(d: Digests, src: seq<Entity>, before: seq<Entity>, rows: seq<Entity>, rest: seq<Entity>)
    requires Snapshot(src) && Resumable(d, src, before, rows, rest) && rest != [] && DistinctKeys(rest)
    ensures Resumable(d, src, before, rows + [rest[0]], rest[1..])
  {
    var e := rest[0];
    var dst, dst' := Listing(rows), Listing(rows + [e]);
    assert e in Missing(src, dst);
    InsertListed(d, src, rows, e);
    InsertKeepsCommitted(d, src, dst, dst', e);
    InsertKeepsAcceptable(d, src, dst, dst', e);
    InsertShrinksMissing(d, src, dst, dst', e);
    TailMembers(rest);
  }

  lemma MissingDistinct(d: Digests, src: seq<Entity>, dst: seq<Entity>)
    requires Acceptable(d, src, dst)
    ensures DistinctKeys(Missing(src, dst))
  {
    MissingRows(src, dst);
  }

  lemma {:induction false} InsertSome(d: Digests, src: seq<Entity>, before: seq<Entity>, rows: seq<Entity>,
      rest: seq<Entity>, n: nat)
    requires Snapshot(src) && Resumable(d, src, before, rows, rest) && DistinctKeys(rest) && n <= |rest|
    ensures Resumable(d, src, before, rows + rest[..n], rest[n..])
    decreases n
  {
    hide *;
    if n == 0 {
      assert rows + rest[..0] == rows && rest[0..] == rest;
    } else {
      var rows', rest' := rows + [rest[0]], rest[1..];
      assert rows' + rest'[..n - 1] == rows + rest[..n] && rest'[n - 1..] == rest[n..];
      InsertOne(d, src, before, rows, rest);
      DistinctTail(rest);
      InsertSome(d, src, before, rows', rest', n - 1);
    }
  }

  lemma DistinctTail(rows: seq<Entity>)
    requires DistinctKeys(rows) && rows != []
    ensures DistinctKeys(rows[1..])
  {
  }

  /** Stopping after any number of inserts leaves a destination from which the rest can be inserted. */
  lemma InsertMany(d: Digests, src: seq<Entity>, rows: seq<Entity>, n: nat)
    requires Snapshot(src) && Listable(rows) && Acceptable(d, src, Listing(rows))
    requires n <= |Missing(src, Listing(rows))|
    ensures var missing := Missing(src, Listing(rows));
            Resumable(d, src, Listing(rows), rows + missing[..n], missing[n..])
  {
    hide Missing, Committed, Listing;
    var missing := Missing(src, Listing(rows));
    MissingDistinct(d, src, Listing(rows));
    InsertSome(d, src, Listing(rows), rows, missing, n);
  }

  // ---------------------------------------------------------------------------
  // Rows and their counterparts in the source

  lemma SameNumber(v: Value, w: Value)
    requires PyEq(v, w) && v.Int? && w.Int?
    ensures v == w
  {
    assert (v.number as real) == (w.number as real);
  }

  /** A row equal to a source row has its kind and its log index. */
  lemma SameKindAndIndex(a: Entity, b: Entity)
    requires Same(a, b)
    ensures IsMetadata(a) == IsMetadata(b) && IsEntry(a) == IsEntry(b) && IsIndex(a) == IsIndex(b)
    ensures Integer(a, LogIndex) && Integer(b, LogIndex) ==> Index(a) == Index(b)
  {
    if Kind in a {
      assert PyEq(a[Kind], b[Kind]);
    }
    if Integer(a, LogIndex) && Integer(b, LogIndex) {
      assert PyEq(a[LogIndex], b[LogIndex]);
      SameNumber(a[LogIndex], b[LogIndex]);
    }
  }

  /** The source row with a given key. */
  function Original(src: seq<Entity>, e: Entity): Entity
    requires Copied(DataRows(src), e)
  {
    FindKey(DataRows(src), KeyOf(e)).value
  }

  lemma OriginalFacts(d: Digests, src: seq<Entity>, e: Entity)
    requires SourceOk(d, src) && Copied(DataRows(src), e)
    ensures var o := Original(src, e);
            && o in DataRows(src) && Same(e, o) && Keyed(o) && KeyOf(o) == KeyOf(e)
            && IsEntry(o) == IsEntry(e) && IsIndex(o) == IsIndex(e)
            && Integer(o, LogIndex) && Index(o) == Index(e) < NextOf(src)
  {
    FindKeyFinds(DataRows(src), KeyOf(e));
    var o := Original(src, e);
    SourceRowFacts(d, src, o);
    SameKindAndIndex(e, o);
  }

  lemma MemberByIndex(rows: seq<Entity>, next: int, e: Entity)
    requires Contiguous(rows, next) && e in rows
    ensures Integer(e, LogIndex) && 0 <= Index(e) < next && Index(e) in ByIndex(rows) && ByIndex(rows)[Index(e)] == e
  {
    var i :| 0 <= i < |rows| && rows[i] == e;
    ByIndexAt(rows, i);
  }

  /** The plan in its own terms: by log index, and within one index the entry before its index row. */
  lemma MissingInLogOrder(d: Digests, src: seq<Entity>, dst: seq<Entity>)
    requires Acceptable(d, src, dst)
    ensures forall e: Entity :: e in Missing(src, dst) <==>
              && e in src && (IsEntry(e) || IsIndex(e)) && Keyed(e)
              && Integer(e, LogIndex) && e[LogIndex].number >= NextOf(dst)
              && forall f :: f in dst && (IsEntry(f) || IsIndex(f)) && Keyed(f) ==> KeyOf(f) != KeyOf(e)
    ensures forall i, j :: 0 <= i < j < |Missing(src, dst)| ==>
              var a, b := Missing(src, dst)[i], Missing(src, dst)[j];
              && Integer(a, LogIndex) && Integer(b, LogIndex)
              && (a[LogIndex].number < b[LogIndex].number
                  || (a[LogIndex].number == b[LogIndex].number && IsEntry(a) && IsIndex(b)))
  {
    hide Missing, FindKey, ValidTable, PrefixDigestsAgree, Committed, CopiesSource;
    MissingRows(src, dst);
    MissingDistinct(d, src, dst);
    forall e: Entity
      ensures e in Missing(src, dst) <==>
                && e in src && (IsEntry(e) || IsIndex(e)) && Keyed(e)
                && Integer(e, LogIndex) && e[LogIndex].number >= NextOf(dst)
                && forall f :: f in dst && (IsEntry(f) || IsIndex(f)) && Keyed(f) ==> KeyOf(f) != KeyOf(e)
    {
      if e in DataRows(src) {
        SourceRowFacts(d, src, e);
        FindKeyFinds(DataRows(dst), KeyOf(e));
      }
    }
    var missing := Missing(src, dst);
    forall i, j | 0 <= i < j < |missing|
      ensures var a, b := missing[i], missing[j];
              && Integer(a, LogIndex) && Integer(b, LogIndex)
              && (a[LogIndex].number < b[LogIndex].number
                  || (a[LogIndex].number == b[LogIndex].number && IsEntry(a) && IsIndex(b)))
    {
      assert missing[i] in missing && missing[j] in missing;
      assert RowLeq(missing[i], missing[j]);
      RowsInOrder(d, src, missing[i], missing[j]);
    }
  }

  lemma RowsInOrder(d: Digests, src: seq<Entity>, a: Entity, b: Entity)
    requires SourceOk(d, src) && a in DataRows(src) && b in DataRows(src)
    requires Keyed(a) && Keyed(b) && KeyOf(a) != KeyOf(b) && RowLeq(a, b)
    ensures Integer(a, LogIndex) && Integer(b, LogIndex)
    ensures || a[LogIndex].number < b[LogIndex].number
            || (a[LogIndex].number == b[LogIndex].number && IsEntry(a) && IsIndex(b))
  {
    SourceRowFacts(d, src, a);
    SourceRowFacts(d, src, b);
    KindsExclude(a);
    KindsExclude(b);
    if Index(a) == Index(b) {
      if IsEntry(a) == IsEntry(b) {
        SourceIndexUnique(d, src, a, b);
      }
    }
  }

  /** Source rows of one kind are told apart by their log index. */
  lemma SourceIndexUnique(d: Digests, src: seq<Entity>, a: Entity, b: Entity)
    requires ValidTable(d, src) && a in DataRows(src) && b in DataRows(src) && IsEntry(a) == IsEntry(b)
    requires Integer(a, LogIndex) && Integer(b, LogIndex) && Index(a) == Index(b)
    ensures a == b
  {
    if IsEntry(a) {
      assert a in Entries(src) && b in Entries(src);
      MemberByIndex(Entries(src), NextOf(src), a);
      MemberByIndex(Entries(src), NextOf(src), b);
    } else {
      assert a in Indexes(src) && b in Indexes(src);
      MemberByIndex(Indexes(src), NextOf(src), a);
      MemberByIndex(Indexes(src), NextOf(src), b);
    }
  }

  lemma CommittedDataIsLow(dst: seq<Entity>, c: Entity)
    requires c in Committed(dst) && !IsMetadata(c)
    ensures c in Select(dst, IsLow(NextOf(dst)))
  {
    assert c in Metadata(dst) ==> IsMetadata(c);
  }

  /** Under the mark, the destination holds a row of each kind for every log index. */
  lemma LowRowOfKind(d: Digests, dst: seq<Entity>, entry: bool, k: nat) returns (c: Entity)
    requires |Metadata(dst)| == 1 && ValidTable(d, Committed(dst)) && k < NextOf(dst)
    ensures c in Select(dst, IsLow(NextOf(dst))) && Integer(c, LogIndex) && Index(c) == k && IsEntry(c) == entry
    ensures c == if entry then ByIndexOf(Entries(Committed(dst)), k) else ByIndexOf(Indexes(Committed(dst)), k)
  {
    hide Committed, Select, EntryOk, IndexOk, MetadataOk, EntryKey;
    CommittedMetadata(d, dst);
    var rows := if entry then Entries(Committed(dst)) else Indexes(Committed(dst));
    ContiguousCovers(rows, NextOf(dst), k);
    ByIndexKeys(rows, k);
    c := ByIndex(rows)[k];
    KindsExclude(c);
    CommittedDataIsLow(dst, c);
  }

  function ByIndexOf(rows: seq<Entity>, k: int): Entity {
    if Indexed(rows) && k in ByIndex(rows) then ByIndex(rows)[k] else map[]
  }

  lemma LowRowIsCopied(src: seq<Entity>, dst: seq<Entity>, c: Entity)
    requires AllCopied(DataRows(src), dst) && c in DataRows(dst)
    ensures Copied(DataRows(src), c) && c in dst
  {
    var i :| 0 <= i < |dst| && dst[i] == c;
    KindsExclude(c);
    assert Copied(DataRows(src), dst[i]);
  }

  /** Every source row under the destination's mark is present in the destination. */
  lemma CommittedCovers(d: Digests, src: seq<Entity>, dst: seq<Entity>, s: Entity)
    requires SourceOk(d, src) && CopiesSource(src, dst) && ValidTable(d, Committed(dst))
    requires s in DataRows(src) && Below(s, NextOf(dst))
    ensures Keyed(s) && FindKey(DataRows(dst), KeyOf(s)).Some?
  {
    SourceRowFacts(d, src, s);
    var c := LowRowOfKind(d, dst, IsEntry(s), Index(s));
    assert c in DataRows(dst);
    LowRowIsCopied(src, dst, c);
    OriginalFacts(d, src, c);
    SourceIndexUnique(d, src, s, Original(src, c));
    FindKeyFinds(DataRows(dst), KeyOf(s));
  }

  /** With nothing missing, every source row has its copy. */
  lemma NothingMissingCovers(d: Digests, src: seq<Entity>, dst: seq<Entity>, s: Entity)
    requires Acceptable(d, src, dst) && s in DataRows(src) && s !in Missing(src, dst)
    ensures Keyed(s) && FindKey(DataRows(dst), KeyOf(s)).Some?
  {
    SourceRowFacts(d, src, s);
    MissingRows(src, dst);
    if Below(s, NextOf(dst)) {
      CommittedCovers(d, src, dst, s);
    }
  }

  // ---------------------------------------------------------------------------
  // A finished copy

  lemma {:induction false} KindCounts(es: seq<Entity>)
    ensures |Metadata(es)| + |Entries(es)| + |Indexes(es)| <= |es|
    ensures |Metadata(es)| + |Entries(es)| + |Indexes(es)| == |es| ==>
              forall e :: e in es ==> IsMetadata(e) || IsData(e)
  {
    if es != [] {
      KindCounts(es[..|es| - 1]);
      KindsExclude(es[|es| - 1]);
      assert es == es[..|es| - 1] + [es[|es| - 1]];
    }
  }

  lemma CopyOfSource(d: Digests, src: seq<Entity>, dst: seq<Entity>, s: Entity)
    requires SourceOk(d, src) && AllCopied(DataRows(src), dst) && s in DataRows(src) && Keyed(s)
    requires FindKey(DataRows(dst), KeyOf(s)).Some?
    ensures FindKey(DataRows(dst), KeyOf(s)).value in dst && Same(FindKey(DataRows(dst), KeyOf(s)).value, s)
  {
    var c := FindKey(DataRows(dst), KeyOf(s)).value;
    FindKeyFinds(DataRows(dst), KeyOf(s));
    LowRowIsCopied(src, dst, c);
    OriginalFacts(d, src, c);
    FindKeyUnique(DataRows(src), s);
  }

  ghost predicate FullyCopied(src: seq<Entity>, dst: seq<Entity>) {
    && AllCopied(DataRows(src), dst)
    && forall s :: s in DataRows(src) ==> Keyed(s) && FindKey(DataRows(dst), KeyOf(s)).Some?
  }

  lemma DestinationMatches(d: Digests, src: seq<Entity>, dst: seq<Entity>, i: nat)
    requires SourceOk(d, src) && FullyCopied(src, dst) && i < |dst|
    requires |Metadata(dst)| == 1 && Same(Metadata(dst)[0], Metadata(src)[0])
    ensures Matches(src, dst[i])
  {
    var e := dst[i];
    var o: Entity;
    if IsMetadata(e) {
      assert e in Metadata(dst) && e == Metadata(dst)[0];
      o := Metadata(src)[0];
      assert o in Metadata(src);
    } else {
      assert Copied(DataRows(src), e);
      OriginalFacts(d, src, e);
      o := Original(src, e);
    }
    assert o in src;
    var j :| 0 <= j < |src| && src[j] == o;
    SameIsEquivalence(e, src[j], src[j]);
  }

  lemma SourceMatches(d: Digests, src: seq<Entity>, dst: seq<Entity>, j: nat)
    requires SourceOk(d, src) && FullyCopied(src, dst) && j < |src|
    requires |Metadata(dst)| == 1 && Same(Metadata(dst)[0], Metadata(src)[0])
    ensures Matches(dst, src[j])
  {
    var s := src[j];
    KindCounts(src);
    var c: Entity;
    if IsMetadata(s) {
      assert s in Metadata(src) && s == Metadata(src)[0];
      c := Metadata(dst)[0];
      assert c in Metadata(dst);
    } else {
      assert s in DataRows(src);
      CopyOfSource(d, src, dst, s);
      c := FindKey(DataRows(dst), KeyOf(s)).value;
    }
    var i :| 0 <= i < |dst| && dst[i] == c;
  }

  /** All rows copied and equal metadata make the canonical lists equal. */
  lemma FullCopyIsSame(d: Digests, src: seq<Entity>, dst: seq<Entity>)
    requires SourceOk(d, src) && Canonical(src) && Canonical(dst) && FullyCopied(src, dst)
    requires |Metadata(dst)| == 1 && Same(Metadata(dst)[0], Metadata(src)[0])
    ensures SameList(dst, src)
  {
    forall i | 0 <= i < |dst|
      ensures Matches(src, dst[i])
    {
      DestinationMatches(d, src, dst, i);
    }
    forall j | 0 <= j < |src|
      ensures Matches(dst, src[j])
    {
      SourceMatches(d, src, dst, j);
    }
    CanonicalIsUnique(dst, src);
  }

  /** Equal lists have equal metadata rows. */
  lemma SameListMetadata(xs: seq<Entity>, ys: seq<Entity>)
    requires SameList(xs, ys)
    ensures SameList(Metadata(xs), Metadata(ys)) && SameList(Entries(xs), Entries(ys))
      && SameList(Indexes(xs), Indexes(ys))
  {
    forall i | 0 <= i < |xs|
      ensures IsMetadata(xs[i]) == IsMetadata(ys[i]) && IsEntry(xs[i]) == IsEntry(ys[i])
        && IsIndex(xs[i]) == IsIndex(ys[i])
    {
      SameKindAndIndex(xs[i], ys[i]);
    }
    SelectSame(xs, ys, IsMetadata);
    SelectSame(xs, ys, IsEntry);
    SelectSame(xs, ys, IsIndex);
  }

  lemma SameText(a: Entity, b: Entity, f: Field)
    requires Same(a, b)
    ensures Text(b, f) ==> Text(a, f) && a[f] == b[f]
    ensures forall t :: Holds(b, f, Str(t)) ==> Holds(a, f, Str(t))
  {
    if f in a {
      assert PyEq(a[f], b[f]);
    }
  }

  lemma SameEntryOk(a: Entity, b: Entity)
    requires Same(a, b) && EntryOk(b) && Integer(a, LogIndex)
    ensures EntryOk(a) && Index(a) == Index(b)
  {
    SameKindAndIndex(a, b);
    SameText(a, b, RowKey);
    SameText(a, b, EventJson);
    SameText(a, b, EventHash);
    SameText(a, b, LeafHash);
  }

  lemma SameIndexOk(d: Digests, a: Entity, b: Entity)
    requires Same(a, b) && IndexOk(d, b) && Integer(a, LogIndex)
    ensures IndexOk(d, a) && Index(a) == Index(b)
  {
    SameKindAndIndex(a, b);
    SameText(a, b, RowKey);
    SameText(a, b, EventId);
  }

  lemma SameContiguous(xs: seq<Entity>, ys: seq<Entity>, next: int)
    requires SameList(xs, ys) && Indexed(xs) && Contiguous(ys, next)
    ensures Contiguous(xs, next)
  {
    forall i | 0 <= i < |xs|
      ensures Index(xs[i]) == Index(ys[i])
    {
      SameKindAndIndex(xs[i], ys[i]);
    }
  }

  /** A table equal to a valid one, with integer log indexes and sound metadata, is valid. */
  lemma SameIsValid(d: Digests, xs: seq<Entity>, ys: seq<Entity>)
    requires SameList(xs, ys) && ValidTable(d, ys) && NextOf(xs) == NextOf(ys)
    requires forall e :: e in xs && IsData(e) ==> Integer(e, LogIndex)
    requires |Metadata(xs)| == 1 && MetadataOk(Metadata(xs)[0])
    ensures ValidTable(d, xs)
  {
    SameListMetadata(xs, ys);
    var partition := Metadata(ys)[0][PartitionKey];
    SameText(Metadata(xs)[0], Metadata(ys)[0], PartitionKey);
    forall i | 0 <= i < |xs|
      ensures Holds(xs[i], PartitionKey, partition)
    {
      SameText(xs[i], ys[i], PartitionKey);
      assert Holds(ys[i], PartitionKey, Str(partition.text));
    }
    forall i | 0 <= i < |Entries(xs)|
      ensures EntryOk(Entries(xs)[i])
    {
      assert Entries(xs)[i] in Entries(xs);
      SameEntryOk(Entries(xs)[i], Entries(ys)[i]);
    }
    forall i | 0 <= i < |Indexes(xs)|
      ensures IndexOk(d, Indexes(xs)[i])
    {
      assert Indexes(xs)[i] in Indexes(xs);
      SameIndexOk(d, Indexes(xs)[i], Indexes(ys)[i]);
    }
    SameContiguous(Entries(xs), Entries(ys), NextOf(ys));
    SameContiguous(Indexes(xs), Indexes(ys), NextOf(ys));
  }
}
