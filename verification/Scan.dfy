/** Paging through a point-in-time snapshot with search_after. */
module Scan {
  import opened Options
  import opened SearchQueries

  const ES_MAX_PAGE_SIZE := 10_000

  // ----- the order of the snapshot -----

  /** A sort entry: a field name, possibly signed, or a single-key dictionary. */
  datatype SortKey = Name(key: string) | Entry(field: string, descending: bool)

  const SHARD_DOC: string := "_shard_doc"

  function Stripped(key: string): string {
    if key != "" && (key[0] == '-' || key[0] == '+') then Stripped(key[1..]) else key
  }

  function FieldOf(k: SortKey): string {
    if k.Entry? then k.field else Stripped(k.key)
  }

  predicate Descending(k: SortKey) {
    if k.Entry? then k.descending else k.key != "" && k.key[0] == '-'
  }

  function ScanSortKeys(sort: seq<SortKey>): seq<SortKey> {
    if sort == [] then [Name("_doc"), Name(SHARD_DOC)]
    else if exists i :: 0 <= i < |sort| && FieldOf(sort[i]) == SHARD_DOC then sort
    else sort + [Name(SHARD_DOC)]
  }

  /** A hit: the values it sorts by, and its position in its shard, which no other hit shares. */
  datatype Hit = Hit(id: nat, values: map<string, int>, shardDoc: int)

  function SortValue(h: Hit, k: SortKey): int {
    var f := FieldOf(k);
    var v := if f == SHARD_DOC then h.shardDoc else if f in h.values then h.values[f] else 0;
    if Descending(k) then -v else v
  }

  /** The sort values Elasticsearch returns with a hit and takes back as search_after. */
  function SortValues(h: Hit, keys: seq<SortKey>): (vs: seq<int>)
    ensures |vs| == |keys|
    ensures forall i :: 0 <= i < |keys| ==> vs[i] == SortValue(h, keys[i])
  {
    seq(|keys|, i requires 0 <= i < |keys| => SortValue(h, keys[i]))
  }

  predicate Less(a: seq<int>, b: seq<int>)
    requires |a| == |b|
  {
    a != [] && (a[0] < b[0] || (a[0] == b[0] && Less(a[1..], b[1..])))
  }

  lemma {:induction false} LessIsTotal(a: seq<int>, b: seq<int>)
    requires |a| == |b|
    ensures a == b || Less(a, b) || Less(b, a)
    ensures !(Less(a, b) && (a == b || Less(b, a)))
  {
    if a != [] {
      LessIsTotal(a[1..], b[1..]);
      assert a == [a[0]] + a[1..] && b == [b[0]] + b[1..];
    }
  }

  /** The snapshot in query order: no hit sorts before an earlier one, and shard positions are distinct. */
  ghost predicate Ordered(snapshot: seq<Hit>, keys: seq<SortKey>) {
    && (forall i, j :: 0 <= i < j < |snapshot| ==> !Less(SortValues(snapshot[j], keys), SortValues(snapshot[i], keys)))
    && (forall i, j :: 0 <= i < j < |snapshot| ==> snapshot[i].shardDoc != snapshot[j].shardDoc)
  }

  ghost predicate Strict(snapshot: seq<Hit>, keys: seq<SortKey>) {
    forall i, j :: 0 <= i < j < |snapshot| ==> Less(SortValues(snapshot[i], keys), SortValues(snapshot[j], keys))
  }

  lemma TiebreakerIsPlain()
    ensures FieldOf(Name(SHARD_DOC)) == SHARD_DOC
  {
    assert SHARD_DOC[0] == '_';
  }

  lemma HasTiebreaker(sort: seq<SortKey>) returns (t: nat)
    ensures t < |ScanSortKeys(sort)| && FieldOf(ScanSortKeys(sort)[t]) == SHARD_DOC
  {
    var keys := ScanSortKeys(sort);
    TiebreakerIsPlain();
    if sort != [] && exists i :: 0 <= i < |sort| && FieldOf(sort[i]) == SHARD_DOC {
      t :| 0 <= t < |sort| && FieldOf(sort[t]) == SHARD_DOC;
    } else {
      t := |keys| - 1;
      assert keys[t] == Name(SHARD_DOC);
    }
  }

  /** Hits at different shard positions differ in their tiebreaker. */
  lemma TiebreakerDiffers(a: Hit, b: Hit, keys: seq<SortKey>, t: nat)
    requires t < |keys| && FieldOf(keys[t]) == SHARD_DOC && a.shardDoc != b.shardDoc
    ensures SortValues(a, keys) != SortValues(b, keys)
  {
    assert SortValues(a, keys)[t] != SortValues(b, keys)[t];
  }

  /** The appended tiebreaker makes the order total, so no two hits share a search_after position. */
  lemma TiebreakerMakesStrict(snapshot: seq<Hit>, sort: seq<SortKey>)
    requires Ordered(snapshot, ScanSortKeys(sort))
    ensures Strict(snapshot, ScanSortKeys(sort))
  {
    var keys := ScanSortKeys(sort);
    var t := HasTiebreaker(sort);
    forall i, j | 0 <= i < j < |snapshot|
      ensures Less(SortValues(snapshot[i], keys), SortValues(snapshot[j], keys))
    {
      TiebreakerDiffers(snapshot[i], snapshot[j], keys, t);
      LessIsTotal(SortValues(snapshot[i], keys), SortValues(snapshot[j], keys));
    }
  }

  /** The keys asked for come first and unchanged; the tiebreaker is added unless it was asked for. */
  lemma AskedKeysComeFirst(sort: seq<SortKey>)
    ensures sort <= ScanSortKeys(sort) && |ScanSortKeys(sort)| > 0
    ensures sort != [] ==> ScanSortKeys(sort) == sort || ScanSortKeys(sort) == sort + [Name("_shard_doc")]
    ensures sort != [] && ScanSortKeys(sort) == sort ==>
      exists i :: 0 <= i < |sort| && FieldOf(sort[i]) == "_shard_doc"
    ensures sort == [] ==> ScanSortKeys(sort) == [Name("_doc"), Name("_shard_doc")]
  {
  }

  lemma {:induction false} PrefixLess(a: seq<int>, b: seq<int>, n: nat)
    requires |a| == |b| && n <= |a| && Less(a[..n], b[..n])
    ensures Less(a, b)
  {
    if a[0] == b[0] {
      assert a[..n][1..] == a[1..][..n - 1] && b[..n][1..] == b[1..][..n - 1];
      PrefixLess(a[1..], b[1..], n - 1);
    }
  }

  /** So the hits come in the order asked for, ties in whatever order. */
  lemma ScanRespectsSort(snapshot: seq<Hit>, sort: seq<SortKey>)
    requires Ordered(snapshot, ScanSortKeys(sort))
    ensures forall i, j :: 0 <= i < j < |snapshot| ==>
      !Less(SortValues(snapshot[j], sort), SortValues(snapshot[i], sort))
  {
    var keys := ScanSortKeys(sort);
    AskedKeysComeFirst(sort);
    forall i, j | 0 <= i < j < |snapshot|
      ensures !Less(SortValues(snapshot[j], sort), SortValues(snapshot[i], sort))
    {
      var a, b := SortValues(snapshot[i], keys), SortValues(snapshot[j], keys);
      assert a[..|sort|] == SortValues(snapshot[i], sort) && b[..|sort|] == SortValues(snapshot[j], sort);
      if Less(SortValues(snapshot[j], sort), SortValues(snapshot[i], sort)) {
        PrefixLess(b, a, |sort|);
      }
    }
  }

  /** The spellings of a sort key: the field, signed or not, or a dictionary entry. */
  predicate Asks(key: SortKey, field: string, down: bool) {
    || key == Entry(field, down)
    || (down && key == Name("-" + field))
    || (!down && (key == Name(field) || key == Name("+" + field)))
  }

  /** A scan sorted by a field goes up or down it as asked, in every spelling. */
  lemma FirstKeyOrders(snapshot: seq<Hit>, key: SortKey, field: string, down: bool, i: nat, j: nat)
    requires field != "" && field[0] != '-' && field[0] != '+' && field != SHARD_DOC && Asks(key, field, down)
    requires Ordered(snapshot, ScanSortKeys([key])) && i < j < |snapshot|
    requires field in snapshot[i].values && field in snapshot[j].values
    ensures if down then snapshot[j].values[field] <= snapshot[i].values[field]
            else snapshot[i].values[field] <= snapshot[j].values[field]
  {
    ScanRespectsSort(snapshot, [key]);
    SignedField(key, field, down);
    var a, b := SortValues(snapshot[i], [key]), SortValues(snapshot[j], [key]);
    assert a[0] == SortValue(snapshot[i], key) && b[0] == SortValue(snapshot[j], key);
    assert !Less(b, a);
  }

  lemma SignedField(key: SortKey, field: string, down: bool)
    requires field != "" && field[0] != '-' && field[0] != '+' && Asks(key, field, down)
    ensures FieldOf(key) == field && Descending(key) == down
  {
    assert ("-" + field)[0] == '-' && ("-" + field)[1..] == field;
    assert ("+" + field)[0] == '+' && ("+" + field)[1..] == field;
    assert Stripped(field) == field && Stripped("-" + field) == field && Stripped("+" + field) == field;
  }

  // ----- one request -----

  /** The hits that sort strictly after a position. */
  function AfterPosition(snapshot: seq<Hit>, keys: seq<SortKey>, after: seq<int>): seq<Hit>
    requires |after| == |keys|
  {
    if snapshot == [] then []
    else
      var first := if Less(after, SortValues(snapshot[0], keys)) then [snapshot[0]] else [];
      first + AfterPosition(snapshot[1..], keys, after)
  }

  /** What is still to come: everything, or what follows the last sort values. */
  function Remaining(snapshot: seq<Hit>, keys: seq<SortKey>, after: Option<seq<int>>): seq<Hit>
    requires after.Some? ==> |after.value| == |keys|
  {
    if after.None? then snapshot else AfterPosition(snapshot, keys, after.value)
  }

  function Take(rest: seq<Hit>, size: nat): seq<Hit> {
    if |rest| <= size then rest else rest[..size]
  }

  function Execute(snapshot: seq<Hit>, keys: seq<SortKey>, after: Option<seq<int>>, size: nat): seq<Hit>
    requires after.Some? ==> |after.value| == |keys|
  {
    Take(Remaining(snapshot, keys, after), size)
  }

  lemma {:induction false} AllAfter(snapshot: seq<Hit>, keys: seq<SortKey>, after: seq<int>)
    requires |after| == |keys|
    requires forall i :: 0 <= i < |snapshot| ==> Less(after, SortValues(snapshot[i], keys))
    ensures AfterPosition(snapshot, keys, after) == snapshot
  {
    if snapshot != [] {
      AllAfter(snapshot[1..], keys, after);
    }
  }

  /** Asking for what follows the k-th hit gives exactly the rest of the snapshot. */
  lemma {:induction false} AfterIsRest(snapshot: seq<Hit>, keys: seq<SortKey>, k: nat)
    requires Strict(snapshot, keys) && k < |snapshot|
    ensures AfterPosition(snapshot, keys, SortValues(snapshot[k], keys)) == snapshot[k + 1..]
  {
    var after := SortValues(snapshot[k], keys);
    LessIsTotal(after, SortValues(snapshot[0], keys));
    if k == 0 {
      AllAfter(snapshot[1..], keys, after);
    } else {
      AfterIsRest(snapshot[1..], keys, k - 1);
      assert snapshot[1..][k - 1] == snapshot[k] && snapshot[1..][k - 1 + 1..] == snapshot[k + 1..];
    }
  }

  // ----- the loop -----

  datatype Page = Page(hits: seq<Hit>, total: nat, number: nat)

  function Flat(pages: seq<Page>): seq<Hit> {
    if pages == [] then [] else Flat(pages[..|pages| - 1]) + pages[|pages| - 1].hits
  }

  function Wanted(n: nat, limit: Option<int>): int {
    if limit.Some? && limit.value < n then limit.value else n
  }

  predicate Rejected(pageSize: int, limit: Option<int>) {
    !(1 <= pageSize <= ES_MAX_PAGE_SIZE) || (limit.Some? && limit.value < 1)
  }

  /** Numbered from one, none empty, none over-full, all but the last full, each with the snapshot's total. */
  predicate WellPaged(pages: seq<Page>, pageSize: int, total: nat) {
    && (forall k :: 0 <= k < |pages| ==> Numbered(pages[k], k + 1, total, pageSize))
    && (forall k :: 0 <= k < |pages| - 1 ==> |pages[k].hits| == pageSize)
  }

  /** Continuing after any hit gives exactly the hits that follow it. */
  ghost predicate Resumes(snapshot: seq<Hit>, keys: seq<SortKey>) {
    forall k {:trigger Following(snapshot, keys, k)} :: 0 <= k < |snapshot| ==>
      Following(snapshot, keys, k) == snapshot[k + 1..]
  }

  /** What a search after the k-th hit returns. */
  function Following(snapshot: seq<Hit>, keys: seq<SortKey>, k: nat): seq<Hit>
    requires k < |snapshot|
  {
    AfterPosition(snapshot, keys, SortValues(snapshot[k], keys))
  }

  method ScanPages(snapshot: seq<Hit>, sort: seq<SortKey>, pageSize: int, limit: Option<int>)
    returns (pages: seq<Page>, rejected: bool)
    requires Ordered(snapshot, ScanSortKeys(sort))
    ensures rejected <==> pageSize < 1 || 10_000 < pageSize || (limit.Some? && limit.value < 1)
    ensures !rejected ==> Scanned(snapshot, pageSize, limit, pages)
  {
    if Rejected(pageSize, limit) {
      return [], true;
    }
    var keys := ScanSortKeys(sort);
    TiebreakerMakesStrict(snapshot, sort);
    forall k | 0 <= k < |snapshot|
      ensures Following(snapshot, keys, k) == snapshot[k + 1..]
    {
      AfterIsRest(snapshot, keys, k);
    }
    pages := ScanLoop(snapshot, keys, pageSize, limit);
    rejected := false;
  }

  /** A finished scan: well-paged, and together the first hits of the snapshot up to the limit. */
  ghost predicate Scanned(snapshot: seq<Hit>, pageSize: int, limit: Option<int>, pages: seq<Page>) {
    Emits(snapshot, pageSize, pages, Wanted(|snapshot|, limit))
  }

  predicate Below(emitted: int, limit: Option<int>) {
    limit.Some? ==> emitted < limit.value
  }

  method ScanLoop(snapshot: seq<Hit>, keys: seq<SortKey>, pageSize: int, limit: Option<int>) returns (pages: seq<Page>)
    requires Resumes(snapshot, keys) && !Rejected(pageSize, limit)
    ensures Scanned(snapshot, pageSize, limit, pages)
  {
    pages := [];
    var emitted, done := 0, false;
    var after: Option<seq<int>> := None;
    while !done
      invariant done ==> Scanned(snapshot, pageSize, limit, pages)
      invariant !done ==> Progress(snapshot, keys, pageSize, pages, emitted, after) && Below(emitted, limit)
      decreases !done, |snapshot| - emitted
    {
      var size := Size(pageSize, limit, emitted);
      var hits := Request(snapshot, keys, after, size, emitted);
      pages, done := NextPage(snapshot, pageSize, limit, pages, emitted, size, hits);
      if !done {
        LastHit(snapshot, emitted, hits);
        emitted := emitted + |hits|;
        after := Some(SortValues(hits[|hits| - 1], keys));
      }
    }
  }

  /** What a round does with its hits: yield a page, and see whether the limit or the snapshot is exhausted. */
  method NextPage(snapshot: seq<Hit>, pageSize: int, limit: Option<int>, before: seq<Page>, emitted: int, size: int,
                  hits: seq<Hit>)
    returns (pages: seq<Page>, done: bool)
    requires !Rejected(pageSize, limit) && Below(emitted, limit) && size == Size(pageSize, limit, emitted)
    requires Emits(snapshot, pageSize, before, emitted) && AllFull(before, pageSize)
    requires |hits| == if emitted + size <= |snapshot| then size else |snapshot| - emitted
    requires snapshot[..emitted] + hits == snapshot[..emitted + |hits|]
    ensures done ==> Scanned(snapshot, pageSize, limit, pages)
    ensures !done ==> hits != [] && Below(emitted + |hits|, limit)
    ensures !done ==> Emits(snapshot, pageSize, pages, emitted + |hits|) && AllFull(pages, pageSize)
  {
    if hits == [] {
      Exhausted(|snapshot|, emitted, 0, size, pageSize, limit);
      return before, true;
    }
    pages := before + [Page(hits, |snapshot|, |before| + 1)];
    Advance(snapshot, pageSize, before, emitted, hits, pages);
    done := (limit.Some? && emitted + |hits| >= limit.value) || |hits| < size;
    if done {
      Exhausted(|snapshot|, emitted, |hits|, size, pageSize, limit);
    }
  }

  function Size(pageSize: int, limit: Option<int>, emitted: int): int {
    if limit.Some? && limit.value - emitted < pageSize then limit.value - emitted else pageSize
  }

  /** The loop stops where the snapshot or the limit ends. */
  lemma Exhausted(n: nat, emitted: nat, got: nat, size: int, pageSize: int, limit: Option<int>)
    requires emitted <= n && pageSize >= 1 && (limit.Some? ==> emitted < limit.value)
    requires size == Size(pageSize, limit, emitted)
    requires got == if emitted + size <= n then size else n - emitted
    requires got < size || (limit.Some? && emitted + got >= limit.value)
    ensures emitted + got == Wanted(n, limit)
  {
  }

  /** Well-paged so far, together the first `emitted` hits. */
  ghost predicate Emits(snapshot: seq<Hit>, pageSize: int, pages: seq<Page>, emitted: int) {
    0 <= emitted <= |snapshot| && WellPaged(pages, pageSize, |snapshot|) && Flat(pages) == snapshot[..emitted]
  }

  /** Between two requests: every page so far full, and the next request starts where they end. */
  ghost predicate Progress(snapshot: seq<Hit>, keys: seq<SortKey>, pageSize: int, pages: seq<Page>, emitted: int,
                           after: Option<seq<int>>) {
    Emits(snapshot, pageSize, pages, emitted) && AllFull(pages, pageSize)
    && after == StartAt(snapshot, keys, emitted)
  }

  /** Adding a page of the hits that follow. */
  lemma Advance(snapshot: seq<Hit>, pageSize: int, before: seq<Page>, emitted: int, hits: seq<Hit>, pages: seq<Page>)
    requires Emits(snapshot, pageSize, before, emitted) && AllFull(before, pageSize)
    requires 0 < |hits| <= pageSize && emitted + |hits| <= |snapshot|
    requires snapshot[..emitted] + hits == snapshot[..emitted + |hits|]
    requires pages == before + [Page(hits, |snapshot|, |before| + 1)]
    ensures Emits(snapshot, pageSize, pages, emitted + |hits|)
    ensures |hits| == pageSize ==> AllFull(pages, pageSize)
  {
    AppendHits(before, Page(hits, |snapshot|, |before| + 1));
    AppendPage(before, Page(hits, |snapshot|, |before| + 1), pageSize, |snapshot|);
  }

  predicate AllFull(pages: seq<Page>, pageSize: int) {
    forall k :: 0 <= k < |pages| ==> |pages[k].hits| == pageSize
  }

  /** Where the request after the first `emitted` hits has to start. */
  function StartAt(snapshot: seq<Hit>, keys: seq<SortKey>, emitted: nat): Option<seq<int>>
    requires emitted <= |snapshot|
  {
    if emitted == 0 then None else Some(SortValues(snapshot[emitted - 1], keys))
  }

  lemma LastHit(snapshot: seq<Hit>, emitted: nat, hits: seq<Hit>)
    requires hits != [] && emitted + |hits| <= |snapshot| && snapshot[..emitted] + hits == snapshot[..emitted + |hits|]
    ensures snapshot[emitted + |hits| - 1] == hits[|hits| - 1]
  {
    assert hits[|hits| - 1] == (snapshot[..emitted] + hits)[emitted + |hits| - 1];
  }

  lemma RemainingIsRest(snapshot: seq<Hit>, keys: seq<SortKey>, emitted: nat)
    requires Resumes(snapshot, keys) && emitted <= |snapshot|
    ensures Remaining(snapshot, keys, StartAt(snapshot, keys, emitted)) == snapshot[emitted..]
  {
    if emitted > 0 {
      assert Following(snapshot, keys, emitted - 1) == snapshot[emitted - 1 + 1..];
    }
  }

  lemma TakeIsSlice(snapshot: seq<Hit>, emitted: nat, size: nat)
    requires emitted <= |snapshot|
    ensures var hits := Take(snapshot[emitted..], size);
            && |hits| == (if emitted + size <= |snapshot| then size else |snapshot| - emitted)
            && snapshot[..emitted] + hits == snapshot[..emitted + |hits|]
  {
  }

  /** One round trip; `emitted` is where the caller has got to. */
  method Request(snapshot: seq<Hit>, keys: seq<SortKey>, after: Option<seq<int>>, size: int, ghost emitted: nat)
    returns (hits: seq<Hit>)
    requires Resumes(snapshot, keys) && emitted <= |snapshot| && after == StartAt(snapshot, keys, emitted) && size >= 1
    ensures |hits| == if emitted + size <= |snapshot| then size else |snapshot| - emitted
    ensures snapshot[..emitted] + hits == snapshot[..emitted + |hits|]
  {
    hits := Execute(snapshot, keys, after, size);
    RemainingIsRest(snapshot, keys, emitted);
    TakeIsSlice(snapshot, emitted, size);
  }

  lemma AppendHits(pages: seq<Page>, p: Page)
    ensures Flat(pages + [p]) == Flat(pages) + p.hits
  {
    assert (pages + [p])[..|pages|] == pages;
  }

  predicate Numbered(p: Page, number: nat, total: nat, pageSize: int) {
    p.number == number && p.total == total && 0 < |p.hits| <= pageSize
  }

  lemma AppendPage(pages: seq<Page>, p: Page, pageSize: int, total: nat)
    requires WellPaged(pages, pageSize, total) && AllFull(pages, pageSize) && Numbered(p, |pages| + 1, total, pageSize)
    ensures WellPaged(pages + [p], pageSize, total)
    ensures |p.hits| == pageSize ==> AllFull(pages + [p], pageSize)
  {
    var more := pages + [p];
    assert forall k :: 0 <= k < |pages| ==> more[k] == pages[k];
    assert more[|pages|] == p;
  }

  // ----- the total -----

  predicate UniqueIds(docs: set<Document>) {
    forall d, e :: d in docs && e in docs && d.id == e.id ==> d == e
  }

  function HitIds(snapshot: seq<Hit>): set<nat> {
    set i | 0 <= i < |snapshot| :: snapshot[i].id
  }

  function DocumentIds(docs: set<Document>): set<nat> {
    set d | d in docs :: d.id
  }

  /** The snapshot holds one hit for each matching document. */
  ghost predicate SnapshotOf(snapshot: seq<Hit>, found: set<Document>) {
    && (forall i, j :: 0 <= i < j < |snapshot| ==> snapshot[i].id != snapshot[j].id)
    && HitIds(snapshot) == DocumentIds(found)
  }

  lemma {:induction false} HitIdsSize(snapshot: seq<Hit>)
    requires forall i, j :: 0 <= i < j < |snapshot| ==> snapshot[i].id != snapshot[j].id
    ensures |HitIds(snapshot)| == |snapshot|
  {
    if snapshot != [] {
      var n := |snapshot| - 1;
      HitIdsSize(snapshot[..n]);
      assert HitIds(snapshot) == HitIds(snapshot[..n]) + {snapshot[n].id};
    }
  }

  lemma {:induction false} DocumentIdsSize(docs: set<Document>)
    requires UniqueIds(docs)
    ensures |DocumentIds(docs)| == |docs|
  {
    if docs != {} {
      var d :| d in docs;
      DocumentIdsSize(docs - {d});
      assert DocumentIds(docs) == DocumentIds(docs - {d}) + {d.id};
    }
  }

  /** How many hits the pages hold together. */
  function Emitted(pages: seq<Page>): nat {
    if pages == [] then 0 else Emitted(pages[..|pages| - 1]) + |pages[|pages| - 1].hits|
  }

  lemma {:induction false} EmittedIsFlat(pages: seq<Page>)
    ensures Emitted(pages) == |Flat(pages)|
  {
    if pages != [] {
      EmittedIsFlat(pages[..|pages| - 1]);
    }
  }

  /**
    The pages of a scan without a limit hold, and each of them announces, as many hits as the
    non-scoring count of the same query returns, whether the scan itself scores or not.
   */
  lemma ScanTotalIsCount(lucene: Lucene, docs: set<Document>, query: string, fields: seq<string>, filters: seq<Clause>,
                         score: bool, snapshot: seq<Hit>, pages: seq<Page>, pageSize: int)
    requires UniqueIds(docs)
    requires SnapshotOf(snapshot, Hits(lucene, docs, ComposeQuery(query, fields, filters, score)))
    requires Scanned(snapshot, pageSize, None, pages)
    ensures Emitted(pages) == |Hits(lucene, docs, ComposeQuery(query, fields, filters, false))|
    ensures forall k :: 0 <= k < |pages| ==>
      pages[k].total == |Hits(lucene, docs, ComposeQuery(query, fields, filters, false))|
  {
    ScoringKeepsHits(lucene, docs, query, fields, filters);
    HitIdsSize(snapshot);
    DocumentIdsSize(Hits(lucene, docs, ComposeQuery(query, fields, filters, score)));
    EmittedIsFlat(pages);
  }

  /** Without a tiebreaker, paging by one from the first of two equal keys never shows the second. */
  lemma TiesAreLost()
    ensures exists snapshot: seq<Hit>, keys: seq<SortKey> :: Ordered(snapshot, keys) && LosesSecond(snapshot, keys)
  {
    var a, b := Hit(1, map["year" := 2000], 1), Hit(2, map["year" := 2000], 2);
    var snapshot, keys := [a, b], [Name("year")];
    assert FieldOf(keys[0]) == "year";
    var v := SortValues(a, keys);
    assert v == SortValues(b, keys) == [2000];
    assert !Less(v, v);
    assert snapshot[1..] == [b] && [b][1..] == [];
    assert AfterPosition([b], keys, v) == [];
    assert AfterPosition(snapshot, keys, v) == [];
    assert LosesSecond(snapshot, keys);
  }

  predicate LosesSecond(snapshot: seq<Hit>, keys: seq<SortKey>) {
    |snapshot| == 2 && Execute(snapshot, keys, Some(SortValues(snapshot[0], keys)), 1) == []
  }
}
