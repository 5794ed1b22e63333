/** Cross-tabulating two axes over the references a search matches. */
module CrossFacets {
  import opened SearchQueries
  import opened Facets

  /** An axis: a facet's field, restricted to `scope` when that is given and not empty, and a bucket limit. */
  datatype Axis = Axis(facet: FacetType, scope: seq<string>, size: nat)

  function PresenceClause(axis: Axis): Clause {
    if axis.scope != [] then Terms(FieldOf(axis.facet), axis.scope) else Exists(FieldOf(axis.facet))
  }

  /** The values a document has on an axis. */
  function OnAxis(axis: Axis, d: Document): set<string> {
    var all := TermsOf(d, FieldOf(axis.facet));
    if axis.scope == [] then all else set v | v in all && v in axis.scope
  }

  lemma PresenceMeans(lucene: Lucene, axis: Axis, d: Document)
    ensures Matches(lucene, PresenceClause(axis), d) <==> OnAxis(axis, d) != {}
  {
    if Matches(lucene, PresenceClause(axis), d) && axis.scope != [] {
      var v :| v in axis.scope && v in TermsOf(d, FieldOf(axis.facet));
      assert v in OnAxis(axis, d);
    }
    if OnAxis(axis, d) != {} {
      var v :| v in OnAxis(axis, d);
    }
  }

  // ----- the aggregation -----

  /** The in_map filter: a value on both axes. */
  function InMap(lucene: Lucene, docs: set<Document>, q: SearchQuery, x: Axis, y: Axis): set<Document> {
    set d | d in Found(lucene, docs, q, []) && Matches(lucene, Bool([], [PresenceClause(x), PresenceClause(y)]), d)
  }

  lemma InMapMeans(lucene: Lucene, docs: set<Document>, q: SearchQuery, x: Axis, y: Axis, d: Document)
    ensures d in InMap(lucene, docs, q, x, y) <==>
      d in Found(lucene, docs, q, []) && OnAxis(x, d) != {} && OnAxis(y, d) != {}
  {
    var both := [PresenceClause(x), PresenceClause(y)];
    assert both[0] == PresenceClause(x) && both[1] == PresenceClause(y);
    PresenceMeans(lucene, x, d);
    PresenceMeans(lucene, y, d);
    assert Matches(lucene, Bool([], both), d) <==> Matches(lucene, both[0], d) && Matches(lucene, both[1], d);
  }

  /** The documents of the bucket of `a` on the first axis and, inside it, of `b` on the second. */
  function CellDocs(mapped: set<Document>, x: Axis, y: Axis, a: string, b: string): set<Document> {
    set d | d in mapped && a in OnAxis(x, d) && b in OnAxis(y, d)
  }

  /** The first-axis buckets of the nested terms aggregation, before any limit. */
  function AxisValues(docs: set<Document>, axis: Axis): set<string> {
    set d, v | d in docs && v in OnAxis(axis, d) :: v
  }

  datatype Cell = Cell(a: string, b: string, count: nat)

  ghost predicate Listed(cells: seq<Cell>, a: string, b: string) {
    exists k :: 0 <= k < |cells| && cells[k].a == a && cells[k].b == b
  }

  ghost predicate Counted(mapped: set<Document>, x: Axis, y: Axis, cells: seq<Cell>) {
    forall k :: 0 <= k < |cells| ==> cells[k].count == |CellDocs(mapped, x, y, cells[k].a, cells[k].b)|
  }

  function RowDocs(mapped: set<Document>, x: Axis, a: string): set<Document> {
    set d | d in mapped && a in OnAxis(x, d)
  }

  function Count(docs: set<Document>, axis: Axis, v: string): nat {
    |RowDocs(docs, axis, v)|
  }

  function Quota(docs: set<Document>, axis: Axis): nat {
    if |AxisValues(docs, axis)| <= axis.size then |AxisValues(docs, axis)| else axis.size
  }

  /**
    What a terms aggregation returns: as many values as its size allows, none with a smaller count
    than one left out. Which of equally frequent values are kept is left open.
   */
  ghost predicate Returned(docs: set<Document>, axis: Axis, buckets: set<string>) {
    && buckets <= AxisValues(docs, axis) && |buckets| == Quota(docs, axis)
    && forall v, w :: v in buckets && w in AxisValues(docs, axis) - buckets ==>
         Count(docs, axis, w) <= Count(docs, axis, v)
  }

  predicate SameCell(c: Cell, d: Cell) {
    c.a == d.a && c.b == d.b
  }

  predicate NoCellTwice(cells: seq<Cell>) {
    forall i, j :: 0 <= i < j < |cells| ==> !SameCell(cells[i], cells[j])
  }

  ghost predicate Buckets(mapped: set<Document>, x: Axis, y: Axis, rows: set<string>, cols: map<string, set<string>>) {
    && Returned(mapped, x, rows) && cols.Keys == rows
    && forall a :: a in rows ==> Returned(RowDocs(mapped, x, a), y, cols[a])
  }

  /** The nested response, flattened: one cell per inner bucket of each outer bucket, with its exact count. */
  ghost predicate Response(mapped: set<Document>, x: Axis, y: Axis, rows: set<string>,
                           cols: map<string, set<string>>, cells: seq<Cell>) {
    && Buckets(mapped, x, y, rows, cols) && NoCellTwice(cells) && Counted(mapped, x, y, cells)
    && (forall a, b :: Listed(cells, a, b) <==> a in rows && b in cols[a])
  }

  /** No bucket is cut off by the size limit of either axis. */
  ghost predicate Untruncated(mapped: set<Document>, x: Axis, y: Axis) {
    |AxisValues(mapped, x)| <= x.size && |AxisValues(mapped, y)| <= y.size
  }

  lemma SubsetSize<T>(a: set<T>, b: set<T>)
    requires a <= b
    ensures |a| <= |b| && (|a| == |b| ==> a == b)
  {
    assert b == a + (b - a);
  }

  /** A scheme axis asks for as many buckets as the scheme has members, so it is never cut off. */
  lemma {:induction false} SchemeAxisIsUntruncated(docs: set<Document>, axis: Axis)
    requires axis.scope != [] && axis.size >= |set v | v in axis.scope|
    ensures |AxisValues(docs, axis)| <= axis.size
  {
    SubsetSize(AxisValues(docs, axis), set v | v in axis.scope);
  }

  /** Untruncated, the response lists every non-empty cell. */
  lemma ResponseIsComplete(mapped: set<Document>, x: Axis, y: Axis, rows: set<string>, cols: map<string, set<string>>,
                           cells: seq<Cell>, a: string, b: string)
    requires Response(mapped, x, y, rows, cols, cells) && Untruncated(mapped, x, y)
      && CellDocs(mapped, x, y, a, b) != {}
    ensures Listed(cells, a, b)
  {
    var d :| d in CellDocs(mapped, x, y, a, b);
    SubsetSize(rows, AxisValues(mapped, x));
    assert a in AxisValues(mapped, x);
    var inner := AxisValues(RowDocs(mapped, x, a), y);
    assert b in inner;
    SubsetSize(inner, AxisValues(mapped, y));
    SubsetSize(cols[a], inner);
  }

  // ----- what the numbers mean -----

  function Sum(cells: seq<Cell>): nat {
    if cells == [] then 0 else Sum(cells[..|cells| - 1]) + cells[|cells| - 1].count
  }

  ghost function Covered(mapped: set<Document>, x: Axis, y: Axis, cells: seq<Cell>): set<Document> {
    if cells == [] then {}
    else
      var last := cells[|cells| - 1];
      Covered(mapped, x, y, cells[..|cells| - 1]) + CellDocs(mapped, x, y, last.a, last.b)
  }

  lemma {:induction false} CoveredAtMostSum(mapped: set<Document>, x: Axis, y: Axis, cells: seq<Cell>)
    requires Counted(mapped, x, y, cells)
    ensures |Covered(mapped, x, y, cells)| <= Sum(cells)
  {
    if cells != [] {
      CoveredAtMostSum(mapped, x, y, cells[..|cells| - 1]);
    }
  }

  lemma {:induction false} CoveredHolds(mapped: set<Document>, x: Axis, y: Axis, cells: seq<Cell>, k: nat)
    requires k < |cells|
    ensures CellDocs(mapped, x, y, cells[k].a, cells[k].b) <= Covered(mapped, x, y, cells)
  {
    if k < |cells| - 1 {
      CoveredHolds(mapped, x, y, cells[..|cells| - 1], k);
    }
  }

  /** The document is counted in some cell. */
  ghost predicate Shows(x: Axis, y: Axis, cells: seq<Cell>, d: Document) {
    exists k :: 0 <= k < |cells| && cells[k].a in OnAxis(x, d) && cells[k].b in OnAxis(y, d)
  }

  /** If every mapped document is in some cell, the cells sum to at least the mapped total. */
  lemma ShownAreSummed(mapped: set<Document>, x: Axis, y: Axis, cells: seq<Cell>)
    requires Counted(mapped, x, y, cells) && forall d :: d in mapped ==> Shows(x, y, cells, d)
    ensures |mapped| <= Sum(cells)
  {
    forall d | d in mapped
      ensures d in Covered(mapped, x, y, cells)
    {
      assert Shows(x, y, cells, d);
      var k :| 0 <= k < |cells| && cells[k].a in OnAxis(x, d) && cells[k].b in OnAxis(y, d);
      CoveredHolds(mapped, x, y, cells, k);
    }
    CoveredAtMostSum(mapped, x, y, cells);
    SubsetSize(mapped, Covered(mapped, x, y, cells));
  }

  lemma UntruncatedShows(mapped: set<Document>, x: Axis, y: Axis, rows: set<string>, cols: map<string, set<string>>,
                         cells: seq<Cell>, d: Document)
    requires Response(mapped, x, y, rows, cols, cells) && Untruncated(mapped, x, y)
    requires d in mapped && OnAxis(x, d) != {} && OnAxis(y, d) != {}
    ensures Shows(x, y, cells, d)
  {
    var a :| a in OnAxis(x, d);
    var b :| b in OnAxis(y, d);
    assert d in CellDocs(mapped, x, y, a, b);
    ResponseIsComplete(mapped, x, y, rows, cols, cells, a, b);
  }

  /** Cells may sum to more than the mapped total, because a reference can carry several values, never to less. */
  lemma CellsSumToAtLeastMapped(lucene: Lucene, docs: set<Document>, q: SearchQuery, x: Axis, y: Axis,
                                rows: set<string>, cols: map<string, set<string>>, cells: seq<Cell>)
    requires Response(InMap(lucene, docs, q, x, y), x, y, rows, cols, cells)
    requires Untruncated(InMap(lucene, docs, q, x, y), x, y)
    ensures |InMap(lucene, docs, q, x, y)| <= Sum(cells)
    ensures |InMap(lucene, docs, q, x, y)| <= |Found(lucene, docs, q, [])|
  {
    var mapped := InMap(lucene, docs, q, x, y);
    forall d | d in mapped
      ensures Shows(x, y, cells, d)
    {
      InMapMeans(lucene, docs, q, x, y, d);
      UntruncatedShows(mapped, x, y, rows, cols, cells, d);
    }
    ShownAreSummed(mapped, x, y, cells);
    SubsetSize(mapped, Found(lucene, docs, q, []));
  }

  // ----- when buckets are cut off -----

  function Present(docs: set<Document>, axis: Axis, wanted: set<string>): set<string> {
    wanted * AxisValues(docs, axis)
  }

  /** The other values that are at least as frequent as every wanted one. */
  function Rivals(docs: set<Document>, axis: Axis, wanted: set<string>): set<string> {
    set v | v in AxisValues(docs, axis) - wanted
            && forall w :: w in Present(docs, axis, wanted) ==> Count(docs, axis, w) <= Count(docs, axis, v)
  }

  /** The buckets may all miss the wanted values: none occurs, or enough rivals push them out. */
  predicate CanMiss(docs: set<Document>, axis: Axis, wanted: set<string>) {
    || Present(docs, axis, wanted) == {}
    || (axis.size < |AxisValues(docs, axis)| && axis.size <= |Rivals(docs, axis, wanted)|)
  }

  ghost predicate Foremost(docs: set<Document>, axis: Axis, from: set<string>, v: string) {
    v in from && forall w :: w in from ==> Count(docs, axis, w) <= Count(docs, axis, v)
  }

  lemma {:induction false} ForemostExists(docs: set<Document>, axis: Axis, from: set<string>)
    requires from != {}
    ensures exists v :: Foremost(docs, axis, from, v)
  {
    var v :| v in from;
    if from == {v} {
      assert Foremost(docs, axis, from, v);
    } else {
      var rest := from - {v};
      assert from == rest + {v};
      ForemostExists(docs, axis, rest);
      var u :| Foremost(docs, axis, rest, u);
      assert Foremost(docs, axis, from, if Count(docs, axis, u) <= Count(docs, axis, v) then v else u);
    }
  }

  ghost predicate Leads(docs: set<Document>, axis: Axis, from: set<string>, picked: set<string>) {
    forall v, w :: v in picked && w in from - picked ==> Count(docs, axis, w) <= Count(docs, axis, v)
  }

  /** The n most frequent of some values. */
  ghost function PickTop(docs: set<Document>, axis: Axis, from: set<string>, n: nat): (picked: set<string>)
    requires n <= |from|
    ensures picked <= from && |picked| == n && Leads(docs, axis, from, picked)
  {
    if n == 0 then {}
    else
      ForemostExists(docs, axis, from);
      var v :| Foremost(docs, axis, from, v);
      var rest := PickTop(docs, axis, from - {v}, n - 1);
      assert forall w :: w in from - ({v} + rest) ==> w in (from - {v}) - rest;
      {v} + rest
  }

  lemma RivalsAreReturned(docs: set<Document>, axis: Axis, wanted: set<string>, buckets: set<string>)
    requires axis.size < |AxisValues(docs, axis)| && |buckets| == axis.size && Present(docs, axis, wanted) != {}
    requires buckets <= Rivals(docs, axis, wanted) && Leads(docs, axis, Rivals(docs, axis, wanted), buckets)
    ensures Returned(docs, axis, buckets)
  {
    forall v, w | v in buckets && w in AxisValues(docs, axis) - buckets
      ensures Count(docs, axis, w) <= Count(docs, axis, v)
    {
      if w !in Rivals(docs, axis, wanted) && w !in wanted {
        var u :| u in Present(docs, axis, wanted) && Count(docs, axis, w) < Count(docs, axis, u);
      }
    }
  }

  /** Buckets an aggregation may return that avoid the wanted values wherever they can. */
  ghost function Avoiding(docs: set<Document>, axis: Axis, wanted: set<string>): (buckets: set<string>)
    ensures Returned(docs, axis, buckets)
    ensures CanMiss(docs, axis, wanted) ==> buckets !! wanted
  {
    if Present(docs, axis, wanted) != {} && CanMiss(docs, axis, wanted) then
      var buckets := PickTop(docs, axis, Rivals(docs, axis, wanted), axis.size);
      RivalsAreReturned(docs, axis, wanted, buckets);
      buckets
    else
      PickTop(docs, axis, AxisValues(docs, axis), Quota(docs, axis))
  }

  lemma HitUnlessMissed(docs: set<Document>, axis: Axis, wanted: set<string>, buckets: set<string>)
    requires Returned(docs, axis, buckets) && !CanMiss(docs, axis, wanted)
    ensures exists v :: v in buckets && v in wanted
  {
    if buckets !! wanted {
      var w :| w in Present(docs, axis, wanted);
      SubsetSize(buckets, AxisValues(docs, axis));
      assert w in AxisValues(docs, axis) - buckets;
      assert buckets <= Rivals(docs, axis, wanted);
      SubsetSize(buckets, Rivals(docs, axis, wanted));
    }
  }

  /** The document's values on the first axis whose row, if returned, is bound to hold the document. */
  function SureRows(mapped: set<Document>, x: Axis, y: Axis, d: Document): set<string> {
    set a | a in OnAxis(x, d) && !CanMiss(RowDocs(mapped, x, a), y, OnAxis(y, d))
  }

  /** The cells of a nested response with exact counts, in some order. */
  ghost function Listing(mapped: set<Document>, x: Axis, y: Axis, pairs: set<(string, string)>): (cells: seq<Cell>)
    ensures Counted(mapped, x, y, cells) && NoCellTwice(cells)
    ensures forall a, b :: Listed(cells, a, b) <==> (a, b) in pairs
  {
    if pairs == {} then []
    else
      var p :| p in pairs;
      var rest := Listing(mapped, x, y, pairs - {p});
      var cells := rest + [Cell(p.0, p.1, |CellDocs(mapped, x, y, p.0, p.1)|)];
      ListedAppend(rest, cells[|rest|]);
      NoCellTwiceAppend(rest, cells[|rest|]);
      cells
  }

  lemma ListedAppend(rest: seq<Cell>, c: Cell)
    ensures forall a, b :: Listed(rest + [c], a, b) <==> Listed(rest, a, b) || (a == c.a && b == c.b)
  {
    var cells := rest + [c];
    assert cells[|rest|] == c;
    forall a, b | Listed(rest, a, b)
      ensures Listed(cells, a, b)
    {
      var k :| 0 <= k < |rest| && rest[k].a == a && rest[k].b == b;
      assert cells[k] == rest[k];
    }
  }

  lemma NoCellTwiceAppend(rest: seq<Cell>, c: Cell)
    requires NoCellTwice(rest)
    ensures !Listed(rest, c.a, c.b) ==> NoCellTwice(rest + [c])
  {
  }

  /** The response that avoids a document wherever truncation lets it. */
  ghost function AvoidingCols(mapped: set<Document>, x: Axis, y: Axis, rows: set<string>, d: Document)
    : map<string, set<string>> {
    map a | a in rows :: Avoiding(RowDocs(mapped, x, a), y, if a in OnAxis(x, d) then OnAxis(y, d) else {})
  }

  /** Whatever buckets are returned, there is a response that lists them. */
  lemma Flattened(mapped: set<Document>, x: Axis, y: Axis, rows: set<string>, cols: map<string, set<string>>)
    returns (cells: seq<Cell>)
    requires Buckets(mapped, x, y, rows, cols)
    ensures Response(mapped, x, y, rows, cols, cells)
  {
    var pairs := set a, b | a in rows && b in cols[a] :: (a, b);
    cells := Listing(mapped, x, y, pairs);
    forall a, b
      ensures Listed(cells, a, b) <==> a in rows && b in cols[a]
    {
      assert (a, b) in pairs <==> a in rows && b in cols[a];
    }
  }

  lemma AvoidedCol(mapped: set<Document>, x: Axis, y: Axis, rows: set<string>, d: Document, a: string, b: string)
    requires a in rows && a !in SureRows(mapped, x, y, d)
    ensures b in AvoidingCols(mapped, x, y, rows, d)[a] ==> !(a in OnAxis(x, d) && b in OnAxis(y, d))
  {
    if a in OnAxis(x, d) {
      assert CanMiss(RowDocs(mapped, x, a), y, OnAxis(y, d));
    }
  }

  lemma MissingResponse(mapped: set<Document>, x: Axis, y: Axis, d: Document)
    returns (rows: set<string>, cols: map<string, set<string>>, cells: seq<Cell>)
    requires CanMiss(mapped, x, SureRows(mapped, x, y, d))
    ensures Response(mapped, x, y, rows, cols, cells) && !Shows(x, y, cells, d)
  {
    rows := Avoiding(mapped, x, SureRows(mapped, x, y, d));
    cols := AvoidingCols(mapped, x, y, rows, d);
    cells := Flattened(mapped, x, y, rows, cols);
    forall k | 0 <= k < |cells|
      ensures !(cells[k].a in OnAxis(x, d) && cells[k].b in OnAxis(y, d))
    {
      assert Listed(cells, cells[k].a, cells[k].b);
      AvoidedCol(mapped, x, y, rows, d, cells[k].a, cells[k].b);
    }
  }

  lemma SureIsShown(mapped: set<Document>, x: Axis, y: Axis, d: Document,
                    rows: set<string>, cols: map<string, set<string>>, cells: seq<Cell>)
    requires Response(mapped, x, y, rows, cols, cells) && !CanMiss(mapped, x, SureRows(mapped, x, y, d))
    ensures Shows(x, y, cells, d)
  {
    HitUnlessMissed(mapped, x, SureRows(mapped, x, y, d), rows);
    var a :| a in rows && a in SureRows(mapped, x, y, d);
    HitUnlessMissed(RowDocs(mapped, x, a), y, OnAxis(y, d), cols[a]);
    var b :| b in cols[a] && b in OnAxis(y, d);
    assert Listed(cells, a, b);
  }

  ghost predicate AlwaysShown(mapped: set<Document>, x: Axis, y: Axis, d: Document) {
    forall rows, cols, cells :: Response(mapped, x, y, rows, cols, cells) ==> Shows(x, y, cells, d)
  }

  /**
    With any bucket limits, and whichever way equal counts are ordered, a document is in the matrix if
    and only if the rows bound to hold it cannot all be pushed out by rows at least as frequent.
   */
  lemma ShownExactly(mapped: set<Document>, x: Axis, y: Axis, d: Document)
    ensures AlwaysShown(mapped, x, y, d) <==> !CanMiss(mapped, x, SureRows(mapped, x, y, d))
  {
    if CanMiss(mapped, x, SureRows(mapped, x, y, d)) {
      var rows, cols, cells := MissingResponse(mapped, x, y, d);
    } else {
      forall rows, cols, cells | Response(mapped, x, y, rows, cols, cells)
        ensures Shows(x, y, cells, d)
      {
        SureIsShown(mapped, x, y, d, rows, cols, cells);
      }
    }
  }

  // ----- when the sum falls short -----

  ghost predicate SingleValued(mapped: set<Document>, axis: Axis) {
    forall d, v, w :: d in mapped && v in OnAxis(axis, d) && w in OnAxis(axis, d) ==> v == w
  }

  lemma InOneCellOnly(mapped: set<Document>, x: Axis, y: Axis, cells: seq<Cell>, c: Cell, d: Document)
    requires SingleValued(mapped, x) && SingleValued(mapped, y) && !Listed(cells, c.a, c.b)
    requires d in Covered(mapped, x, y, cells)
    ensures d !in CellDocs(mapped, x, y, c.a, c.b)
  {
    var k := CoveringCell(mapped, x, y, cells, d);
    assert Listed(cells, cells[k].a, cells[k].b);
  }

  lemma CellsAreApart(mapped: set<Document>, x: Axis, y: Axis, cells: seq<Cell>, c: Cell)
    requires SingleValued(mapped, x) && SingleValued(mapped, y) && !Listed(cells, c.a, c.b)
    ensures Covered(mapped, x, y, cells) !! CellDocs(mapped, x, y, c.a, c.b)
  {
    forall d | d in Covered(mapped, x, y, cells)
      ensures d !in CellDocs(mapped, x, y, c.a, c.b)
    {
      InOneCellOnly(mapped, x, y, cells, c, d);
    }
  }

  lemma {:induction false} CoveringCell(mapped: set<Document>, x: Axis, y: Axis, cells: seq<Cell>, d: Document)
    returns (k: nat)
    requires d in Covered(mapped, x, y, cells)
    ensures k < |cells| && d in CellDocs(mapped, x, y, cells[k].a, cells[k].b)
  {
    var n := |cells| - 1;
    if d in CellDocs(mapped, x, y, cells[n].a, cells[n].b) {
      k := n;
    } else {
      k := CoveringCell(mapped, x, y, cells[..n], d);
    }
  }

  lemma {:induction false} SumIsCovered(mapped: set<Document>, x: Axis, y: Axis, cells: seq<Cell>)
    requires SingleValued(mapped, x) && SingleValued(mapped, y) && NoCellTwice(cells) && Counted(mapped, x, y, cells)
    ensures Sum(cells) == |Covered(mapped, x, y, cells)|
  {
    if cells != [] {
      var n := |cells| - 1;
      SumIsCovered(mapped, x, y, cells[..n]);
      CellsAreApart(mapped, x, y, cells[..n], cells[n]);
    }
  }

  lemma CoveredIsShown(mapped: set<Document>, x: Axis, y: Axis, cells: seq<Cell>, d: Document)
    ensures d in Covered(mapped, x, y, cells) <==> d in mapped && Shows(x, y, cells, d)
  {
    if d in Covered(mapped, x, y, cells) {
      var k := CoveringCell(mapped, x, y, cells, d);
    }
    if d in mapped && Shows(x, y, cells, d) {
      var k :| 0 <= k < |cells| && cells[k].a in OnAxis(x, d) && cells[k].b in OnAxis(y, d);
      CoveredHolds(mapped, x, y, cells, k);
    }
  }

  /**
    Where every reference has one value per axis, the cells sum to at least the mapped total if and only
    if every mapped reference is in some cell.
   */
  lemma SumSufficesExactly(mapped: set<Document>, x: Axis, y: Axis, rows: set<string>, cols: map<string, set<string>>,
                           cells: seq<Cell>)
    requires Response(mapped, x, y, rows, cols, cells) && SingleValued(mapped, x) && SingleValued(mapped, y)
    ensures |mapped| <= Sum(cells) <==> forall d :: d in mapped ==> Shows(x, y, cells, d)
  {
    SumIsCovered(mapped, x, y, cells);
    AllCoveredExactly(mapped, x, y, cells);
    SubsetSize(Covered(mapped, x, y, cells), mapped);
  }

  lemma AllCoveredExactly(mapped: set<Document>, x: Axis, y: Axis, cells: seq<Cell>)
    ensures Covered(mapped, x, y, cells) <= mapped
    ensures Covered(mapped, x, y, cells) == mapped <==> forall d :: d in mapped ==> Shows(x, y, cells, d)
  {
    forall d
      ensures d in Covered(mapped, x, y, cells) <==> d in mapped && Shows(x, y, cells, d)
    {
      CoveredIsShown(mapped, x, y, cells, d);
    }
  }

  /** In every response the cells sum to at least the mapped total. */
  ghost predicate SumAlwaysSuffices(mapped: set<Document>, x: Axis, y: Axis) {
    forall rows, cols, cells :: Response(mapped, x, y, rows, cols, cells) ==> |mapped| <= Sum(cells)
  }

  ghost predicate AllSure(mapped: set<Document>, x: Axis, y: Axis) {
    forall d :: d in mapped ==> !CanMiss(mapped, x, SureRows(mapped, x, y, d))
  }

  /** If no mapped reference can be missed, the cells of every response sum to at least the mapped total. */
  lemma SureSumSuffices(mapped: set<Document>, x: Axis, y: Axis)
    requires AllSure(mapped, x, y)
    ensures SumAlwaysSuffices(mapped, x, y)
  {
    forall rows, cols, cells | Response(mapped, x, y, rows, cols, cells)
      ensures |mapped| <= Sum(cells)
    {
      forall d | d in mapped
        ensures Shows(x, y, cells, d)
      {
        SureIsShown(mapped, x, y, d, rows, cols, cells);
      }
      ShownAreSummed(mapped, x, y, cells);
    }
  }

  /** And only then, where every reference has one value per axis. */
  lemma SumAlwaysSufficesExactly(mapped: set<Document>, x: Axis, y: Axis)
    requires SingleValued(mapped, x) && SingleValued(mapped, y)
    ensures SumAlwaysSuffices(mapped, x, y) <==> AllSure(mapped, x, y)
  {
    if AllSure(mapped, x, y) {
      SureSumSuffices(mapped, x, y);
    } else {
      var d :| d in mapped && CanMiss(mapped, x, SureRows(mapped, x, y, d));
      var rows, cols, cells := MissingResponse(mapped, x, y, d);
      SumSufficesExactly(mapped, x, y, rows, cols, cells);
    }
  }

  /** The country axis as the search service sizes it, and the axis of a scheme with one concept. */
  const COUNTRY_AXIS: Axis := Axis(Countries, [], 256)
  const SCHEME_AXIS: Axis := Axis(Concepts, ["c"], 1)

  /** Distinct, non-empty codes in any number; the index does not check them against the ISO list. */
  function Code(i: nat): string {
    seq(i + 1, _ => 'X')
  }

  function Place(i: nat): Document {
    Document(i, map["linked_data_countries" := {Code(i)}, "linked_data_concepts" := {"c"}], map[])
  }

  function Places(n: nat): set<Document> {
    set i | 0 <= i < n :: Place(i)
  }

  lemma PlaceValues(i: nat)
    ensures OnAxis(COUNTRY_AXIS, Place(i)) == {Code(i)} && OnAxis(SCHEME_AXIS, Place(i)) == {"c"}
    ensures |Code(i)| == i + 1
  {
  }

  lemma {:induction false} PlacesSize(n: nat)
    ensures |Places(n)| == n
  {
    if n > 0 {
      PlacesSize(n - 1);
      assert Places(n) == Places(n - 1) + {Place(n - 1)};
      assert forall d :: d in Places(n - 1) ==> d.id < n - 1;
    }
  }

  function Codes(n: nat): set<string> {
    set i | 0 <= i < n :: Code(i)
  }

  lemma {:induction false} CodesSize(n: nat)
    ensures |Codes(n)| == n
  {
    if n > 0 {
      CodesSize(n - 1);
      assert Codes(n) == Codes(n - 1) + {Code(n - 1)};
      assert forall v :: v in Codes(n - 1) ==> |v| < n;
    }
  }

  lemma PlacesOnAxis(n: nat)
    ensures AxisValues(Places(n), COUNTRY_AXIS) == Codes(n)
    ensures SingleValued(Places(n), COUNTRY_AXIS) && SingleValued(Places(n), SCHEME_AXIS)
  {
    forall i | 0 <= i < n
      ensures OnAxis(COUNTRY_AXIS, Place(i)) == {Code(i)} && OnAxis(SCHEME_AXIS, Place(i)) == {"c"}
      ensures Place(i) in Places(n)
    {
      PlaceValues(i);
    }
    forall v | v in Codes(n)
      ensures v in AxisValues(Places(n), COUNTRY_AXIS)
    {
      var i :| 0 <= i < n && v == Code(i);
      assert Place(i) in Places(n) && v in OnAxis(COUNTRY_AXIS, Place(i));
    }
  }

  /**
    257 country codes on an axis of 256: no response holds a reference for every code, so the cells of
    every response sum to less than the mapped total.
   */
  lemma TruncatedSumIsSmaller(rows: set<string>, cols: map<string, set<string>>, cells: seq<Cell>)
    requires Response(Places(257), COUNTRY_AXIS, SCHEME_AXIS, rows, cols, cells)
    ensures Sum(cells) < |Places(257)|
  {
    PlacesOnAxis(257);
    CodesSize(257);
    assert |rows| < |Codes(257)|;
    var i := LeftOut(257, rows);
    PlaceValues(i);
    assert Place(i) in Places(257);
    if Shows(COUNTRY_AXIS, SCHEME_AXIS, cells, Place(i)) {
      var k :| 0 <= k < |cells| && cells[k].a in OnAxis(COUNTRY_AXIS, Place(i))
               && cells[k].b in OnAxis(SCHEME_AXIS, Place(i));
      assert Listed(cells, cells[k].a, cells[k].b);
    }
    SumSufficesExactly(Places(257), COUNTRY_AXIS, SCHEME_AXIS, rows, cols, cells);
  }

  lemma LeftOut(n: nat, rows: set<string>) returns (i: nat)
    requires rows <= Codes(n) && |rows| < |Codes(n)|
    ensures i < n && Code(i) !in rows
  {
    assert rows != Codes(n);
    var v :| v in Codes(n) && v !in rows;
    i :| 0 <= i < n && v == Code(i);
  }

  /** And there always is a response. */
  lemma ResponseExists(mapped: set<Document>, x: Axis, y: Axis)
    returns (rows: set<string>, cols: map<string, set<string>>, cells: seq<Cell>)
    ensures Response(mapped, x, y, rows, cols, cells)
  {
    rows := Avoiding(mapped, x, {});
    cols := map a | a in rows :: Avoiding(RowDocs(mapped, x, a), y, {});
    cells := Flattened(mapped, x, y, rows, cols);
  }

  /** A cell is a strict intersection: the search with both values added as filters. */
  lemma CellIsIntersection(lucene: Lucene, docs: set<Document>, q: SearchQuery, x: Axis, y: Axis, a: string, b: string)
    requires (x.scope == [] || a in x.scope) && (y.scope == [] || b in y.scope)
    ensures CellDocs(InMap(lucene, docs, q, x, y), x, y, a, b)
         == Found(lucene, docs, Adding(Adding(q, x.facet, a), y.facet, b), [])
  {
    forall d | d in docs
      ensures d in CellDocs(InMap(lucene, docs, q, x, y), x, y, a, b)
         <==> d in Found(lucene, docs, Adding(Adding(q, x.facet, a), y.facet, b), [])
    {
      IntersectionMember(lucene, docs, q, x, y, a, b, d);
    }
  }

  lemma AxisValueMeans(axis: Axis, v: string, d: Document)
    requires axis.scope == [] || v in axis.scope
    ensures v in OnAxis(axis, d) <==> v in TermsOf(d, FieldOf(axis.facet))
  {
  }

  lemma IntersectionMember(lucene: Lucene, docs: set<Document>, q: SearchQuery, x: Axis, y: Axis, a: string,
                           b: string, d: Document)
    requires (x.scope == [] || a in x.scope) && (y.scope == [] || b in y.scope) && d in docs
    ensures d in CellDocs(InMap(lucene, docs, q, x, y), x, y, a, b)
       <==> d in Found(lucene, docs, Adding(Adding(q, x.facet, a), y.facet, b), [])
  {
    InMapMeans(lucene, docs, q, x, y, d);
    AxisValueMeans(x, a, d);
    AxisValueMeans(y, b, d);
    AddedMember(lucene, docs, q, x.facet, a, d);
    AddedMember(lucene, docs, Adding(q, x.facet, a), y.facet, b, d);
  }

  lemma AddedMember(lucene: Lucene, docs: set<Document>, q: SearchQuery, f: FacetType, v: string, d: Document)
    requires d in docs
    ensures d in Found(lucene, docs, Adding(q, f, v), []) <==>
      d in Found(lucene, docs, q, []) && v in TermsOf(d, FieldOf(f))
  {
    QueryMeans(lucene, q, f, [], d);
    QueryMeans(lucene, Adding(q, f, v), f, [], d);
    AddingSatisfies(q, f, v, d);
    SameElsewhere(lucene, q, Adding(q, f, v), f, d);
  }
}
