/** Facet counts: what the aggregations return, against what the same search would match. */
module Facets {
  import opened Options
  import opened SearchQueries

  datatype FacetType = Concepts | Countries | Regions

  function FieldOf(f: FacetType): string {
    match f
    case Concepts => "linked_data_concepts"
    case Countries => "linked_data_countries"
    case Regions => "linked_data_country_wb_regions"
  }

  datatype AnnotationFilter = AnnotationFilter(scheme: string, annotation: Option<string>, score: Option<real>)
  datatype YearRange = YearRange(start: Option<real>, end: Option<real>)

  /** Each filter is an OR-set of values; the filters of one facet are ANDed. */
  datatype SearchQuery = SearchQuery(
    text: string,
    annotations: seq<AnnotationFilter>,
    years: Option<YearRange>,
    filters: map<FacetType, seq<seq<string>>>)

  const DEFAULT_FIELDS: seq<string> := ["title", "abstract"]

  function FiltersOf(q: SearchQuery, f: FacetType): seq<seq<string>> {
    if f in q.filters then q.filters[f] else []
  }

  function Underscored(scheme: string): string {
    if scheme == "" then "" else [if scheme[0] == ':' then '_' else scheme[0]] + Underscored(scheme[1..])
  }

  function AnnotationClause(a: AnnotationFilter): Clause {
    var labelled := a.annotation.Some? && a.annotation.value != "";
    if a.score.Some? then
      Range(Underscored(a.scheme) + (if labelled then "_" + a.annotation.value else ""), a.score, None)
    else if !labelled then Prefix("annotations", a.scheme + "/")
    else Terms("annotations", [a.scheme + "/" + a.annotation.value])
  }

  function YearClauses(y: Option<YearRange>): seq<Clause> {
    if y.None? || (y.value.start.None? && y.value.end.None?) then []
    else [Range("publication_year", y.value.start, y.value.end)]
  }

  function FacetClauses(q: SearchQuery, f: FacetType): (cs: seq<Clause>)
    ensures |cs| == |FiltersOf(q, f)|
    ensures forall i :: 0 <= i < |cs| ==> cs[i] == Terms(FieldOf(f), FiltersOf(q, f)[i])
  {
    seq(|FiltersOf(q, f)|, i requires 0 <= i < |FiltersOf(q, f)| => Terms(FieldOf(f), FiltersOf(q, f)[i]))
  }

  function AnnotationClauses(q: SearchQuery): seq<Clause> {
    seq(|q.annotations|, i requires 0 <= i < |q.annotations| => AnnotationClause(q.annotations[i]))
  }

  function Unless(excluded: bool, cs: seq<Clause>): seq<Clause> {
    if excluded then [] else cs
  }

  function FilterClauses(q: SearchQuery, exclude: Option<FacetType>): seq<Clause> {
    YearClauses(q.years) + AnnotationClauses(q)
    + Unless(exclude == Some(Concepts), FacetClauses(q, Concepts))
    + Unless(exclude == Some(Countries), FacetClauses(q, Countries))
    + Unless(exclude == Some(Regions), FacetClauses(q, Regions))
  }

  // ----- what a search matches -----

  predicate Has(d: Document, field: string, term: string) {
    field in d.keywords && term in d.keywords[field]
  }

  /** The document is tagged with a concept, a country or a World Bank region. */
  predicate Tagged(d: Document, f: FacetType, v: string) {
    match f
    case Concepts => Has(d, "linked_data_concepts", v)
    case Countries => Has(d, "linked_data_countries", v)
    case Regions => Has(d, "linked_data_country_wb_regions", v)
  }

  lemma FieldHoldsTags(d: Document, f: FacetType, v: string)
    ensures v in TermsOf(d, FieldOf(f)) <==> Tagged(d, f, v)
  {
  }

  predicate Carries(d: Document, f: FacetType, values: seq<string>) {
    exists v :: v in values && Tagged(d, f, v)
  }

  predicate Labelled(a: AnnotationFilter) {
    a.annotation.Some? && a.annotation.value != ""
  }

  /** The scheme with every ':' written as '_', then '_' and the label if there is one. */
  predicate IsScoreField(a: AnnotationFilter, name: string) {
    && |a.scheme| <= |name|
    && (forall i :: 0 <= i < |a.scheme| ==> name[i] == if a.scheme[i] == ':' then '_' else a.scheme[i])
    && name[|a.scheme|..] == if Labelled(a) then "_" + a.annotation.value else ""
  }

  predicate ScoresAtLeast(d: Document, name: string, score: real) {
    name in d.numbers && score <= d.numbers[name]
  }

  predicate AnnotatedUnder(d: Document, scheme: string, v: string) {
    Has(d, "annotations", v) && scheme + "/" <= v
  }

  /** What an annotation filter asks of a document: a score, a label, or any label of the scheme. */
  ghost predicate AnnotationHolds(a: AnnotationFilter, d: Document) {
    if a.score.Some? then exists name :: IsScoreField(a, name) && ScoresAtLeast(d, name, a.score.value)
    else if Labelled(a) then Has(d, "annotations", a.scheme + "/" + a.annotation.value)
    else exists v :: AnnotatedUnder(d, a.scheme, v)
  }

  /** A year not before the start and not after the end, where these are given; with neither, any document. */
  predicate YearHolds(y: Option<YearRange>, d: Document) {
    y.Some? && (y.value.start.Some? || y.value.end.Some?) ==>
      && "publication_year" in d.numbers
      && (y.value.start.Some? ==> y.value.start.value <= d.numbers["publication_year"])
      && (y.value.end.Some? ==> d.numbers["publication_year"] <= y.value.end.value)
  }

  lemma {:induction false} UnderscoredMeans(scheme: string)
    ensures |Underscored(scheme)| == |scheme|
    ensures forall i :: 0 <= i < |scheme| ==> Underscored(scheme)[i] == if scheme[i] == ':' then '_' else scheme[i]
  {
    if scheme != "" {
      UnderscoredMeans(scheme[1..]);
    }
  }

  lemma ScoreFieldIsOne(a: AnnotationFilter, name: string)
    ensures IsScoreField(a, name) <==>
      name == Underscored(a.scheme) + (if Labelled(a) then "_" + a.annotation.value else "")
  {
    UnderscoredMeans(a.scheme);
    var base := Underscored(a.scheme);
    if IsScoreField(a, name) {
      assert name[..|a.scheme|] == base;
      assert name == name[..|a.scheme|] + name[|a.scheme|..];
    }
  }

  /** The clause built for an annotation filter matches exactly the documents the filter asks for. */
  lemma AnnotationClauseMeans(lucene: Lucene, a: AnnotationFilter, d: Document)
    ensures Matches(lucene, AnnotationClause(a), d) <==> AnnotationHolds(a, d)
  {
    if a.score.Some? {
      var name := Underscored(a.scheme) + (if Labelled(a) then "_" + a.annotation.value else "");
      ScoreFieldIsOne(a, name);
      assert Matches(lucene, AnnotationClause(a), d) <==> ScoresAtLeast(d, name, a.score.value);
      forall other
        ensures IsScoreField(a, other) ==> other == name
      {
        ScoreFieldIsOne(a, other);
      }
    } else if Labelled(a) {
      var term := a.scheme + "/" + a.annotation.value;
      assert term in [term];
      assert forall v :: v in [term] ==> v == term;
    } else {
      assert forall v :: v in TermsOf(d, "annotations") <==> Has(d, "annotations", v);
      assert Matches(lucene, AnnotationClause(a), d) <==>
        exists v :: v in TermsOf(d, "annotations") && a.scheme + "/" <= v;
      forall v
        ensures v in TermsOf(d, "annotations") && a.scheme + "/" <= v <==> AnnotatedUnder(d, a.scheme, v)
      {
      }
    }
  }

  ghost predicate AnnotationsHold(q: SearchQuery, d: Document) {
    forall i :: 0 <= i < |q.annotations| ==> AnnotationHolds(q.annotations[i], d)
  }

  lemma AnnotationClausesMean(lucene: Lucene, q: SearchQuery, d: Document)
    ensures MatchesAll(lucene, AnnotationClauses(q), d) <==> AnnotationsHold(q, d)
  {
    forall i | 0 <= i < |q.annotations|
      ensures Matches(lucene, AnnotationClauses(q)[i], d) <==> AnnotationHolds(q.annotations[i], d)
    {
      AnnotationClauseMeans(lucene, q.annotations[i], d);
    }
  }

  lemma YearClausesMean(lucene: Lucene, y: Option<YearRange>, d: Document)
    ensures MatchesAll(lucene, YearClauses(y), d) <==> YearHolds(y, d)
  {
    if y.Some? && (y.value.start.Some? || y.value.end.Some?) {
      assert YearClauses(y)[0] == Range("publication_year", y.value.start, y.value.end);
    }
  }

  /** Every filter of the facet holds: at least one of its values is on the document. */
  predicate Satisfies(d: Document, f: FacetType, filters: seq<seq<string>>) {
    forall i :: 0 <= i < |filters| ==> Carries(d, f, filters[i])
  }

  ghost predicate SatisfiesOthers(d: Document, f: FacetType, q: SearchQuery) {
    forall g :: g != f ==> Satisfies(d, g, FiltersOf(q, g))
  }

  /** The text matches in title or abstract, and the year and annotation filters hold. */
  ghost predicate Base(lucene: Lucene, q: SearchQuery, d: Document) {
    lucene(q.text, ["title", "abstract"], d) && YearHolds(q.years, d) && AnnotationsHold(q, d)
  }

  lemma TermsMean(lucene: Lucene, f: FacetType, values: seq<string>, d: Document)
    ensures Matches(lucene, Terms(FieldOf(f), values), d) <==> Carries(d, f, values)
  {
    forall v
      ensures v in TermsOf(d, FieldOf(f)) <==> Tagged(d, f, v)
    {
      FieldHoldsTags(d, f, v);
    }
  }

  lemma FacetClausesMean(lucene: Lucene, q: SearchQuery, f: FacetType, d: Document)
    ensures MatchesAll(lucene, FacetClauses(q, f), d) <==> Satisfies(d, f, FiltersOf(q, f))
  {
    var cs, filters := FacetClauses(q, f), FiltersOf(q, f);
    forall i | 0 <= i < |cs|
      ensures Matches(lucene, cs[i], d) <==> Carries(d, f, filters[i])
    {
      TermsMean(lucene, f, filters[i], d);
    }
  }

  ghost predicate ClausesHold(q: SearchQuery, exclude: Option<FacetType>, d: Document) {
    && YearHolds(q.years, d) && AnnotationsHold(q, d)
    && (exclude != Some(Concepts) ==> Satisfies(d, Concepts, FiltersOf(q, Concepts)))
    && (exclude != Some(Countries) ==> Satisfies(d, Countries, FiltersOf(q, Countries)))
    && (exclude != Some(Regions) ==> Satisfies(d, Regions, FiltersOf(q, Regions)))
  }

  lemma FilterClausesMean(lucene: Lucene, q: SearchQuery, exclude: Option<FacetType>, d: Document)
    ensures MatchesAll(lucene, FilterClauses(q, exclude), d) <==> ClausesHold(q, exclude, d)
  {
    var a, b := YearClauses(q.years), AnnotationClauses(q);
    var c := Unless(exclude == Some(Concepts), FacetClauses(q, Concepts));
    var e := Unless(exclude == Some(Countries), FacetClauses(q, Countries));
    var g := Unless(exclude == Some(Regions), FacetClauses(q, Regions));
    MatchesAllAppend(lucene, a, b, d);
    MatchesAllAppend(lucene, a + b, c, d);
    MatchesAllAppend(lucene, a + b + c, e, d);
    MatchesAllAppend(lucene, a + b + c + e, g, d);
    YearClausesMean(lucene, q.years, d);
    AnnotationClausesMean(lucene, q, d);
    FacetClausesMean(lucene, q, Concepts, d);
    FacetClausesMean(lucene, q, Countries, d);
    FacetClausesMean(lucene, q, Regions, d);
  }

  function Built(q: SearchQuery, exclude: Option<FacetType>, extra: seq<Clause>): Clause {
    ComposeQuery(q.text, DEFAULT_FIELDS, FilterClauses(q, exclude) + extra, true)
  }

  /** The query as built, facet f's own filters left out or kept. */
  lemma QueryMeans(lucene: Lucene, q: SearchQuery, f: FacetType, extra: seq<Clause>, d: Document)
    ensures Matches(lucene, Built(q, Some(f), extra), d) <==>
      Base(lucene, q, d) && MatchesAll(lucene, extra, d) && SatisfiesOthers(d, f, q)
    ensures Matches(lucene, Built(q, None, extra), d) <==>
      Base(lucene, q, d) && MatchesAll(lucene, extra, d) && SatisfiesOthers(d, f, q) && Satisfies(d, f, FiltersOf(q, f))
  {
    forall exclude: Option<FacetType>
      ensures Matches(lucene, Built(q, exclude, extra), d) <==>
        lucene(q.text, DEFAULT_FIELDS, d) && MatchesAll(lucene, extra, d) && ClausesHold(q, exclude, d)
    {
      ComposedMatches(lucene, q.text, DEFAULT_FIELDS, FilterClauses(q, exclude) + extra, true, d);
      MatchesAllAppend(lucene, FilterClauses(q, exclude), extra, d);
      FilterClausesMean(lucene, q, exclude, d);
    }
  }

  /** A search for one value of one facet finds the documents tagged with it. */
  lemma FacetSearchFinds(lucene: Lucene, q: SearchQuery, f: FacetType, v: string, d: Document)
    requires q.filters == map[f := [[v]]]
    ensures Matches(lucene, Built(q, None, []), d) <==> Base(lucene, q, d) && Tagged(d, f, v)
  {
    QueryMeans(lucene, q, f, [], d);
    OneValue(d, f, v);
    FieldHoldsTags(d, f, v);
    assert FiltersOf(q, f)[0] == [v];
  }

  /** The documents a search with extra clauses matches. */
  function Found(lucene: Lucene, docs: set<Document>, q: SearchQuery, extra: seq<Clause>): set<Document> {
    Hits(lucene, docs, Built(q, None, extra))
  }

  // ----- sibling-aware aggregation -----

  /** A selection inside a sibling set; None means every value of the field is a sibling. */
  datatype SiblingGroup = SiblingGroup(selected: seq<string>, siblings: Option<set<string>>)

  function GroupClauses(f: FacetType, groups: seq<SiblingGroup>): (cs: seq<Clause>)
    ensures |cs| == |groups| && forall i :: 0 <= i < |cs| ==> cs[i] == Terms(FieldOf(f), groups[i].selected)
  {
    seq(|groups|, i requires 0 <= i < |groups| => Terms(FieldOf(f), groups[i].selected))
  }

  /** The documents the aggregation search sees: the facet's own filter is left out. */
  function Scope(lucene: Lucene, docs: set<Document>, q: SearchQuery, f: FacetType, extra: seq<Clause>): set<Document> {
    Hits(lucene, docs, Built(q, Some(f), extra))
  }

  function OtherClauses(cs: seq<Clause>, i: nat): seq<Clause>
    requires i < |cs|
  {
    cs[..i] + cs[i + 1..]
  }

  /** The filter wrapped around one group's terms. */
  function GroupFilter(f: FacetType, groups: seq<SiblingGroup>, i: nat): Clause
    requires i < |groups|
  {
    var others := OtherClauses(GroupClauses(f, groups), i);
    if others == [] then MatchAll else Bool([], others)
  }

  /** Documents in a bucket: inside the scope and the filter, carrying the value. */
  function Bucket(lucene: Lucene, scope: set<Document>, filter: Clause, f: FacetType, v: string): set<Document> {
    set d | d in scope && Matches(lucene, filter, d) && v in TermsOf(d, FieldOf(f))
  }

  ghost predicate Mirrors(groups: seq<SiblingGroup>, filters: seq<seq<string>>) {
    |groups| == |filters| && forall i :: 0 <= i < |groups| ==> groups[i].selected == filters[i]
  }

  function Replacing(q: SearchQuery, f: FacetType, i: nat, v: string): SearchQuery
    requires i < |FiltersOf(q, f)|
  {
    q.(filters := q.filters[f := FiltersOf(q, f)[i := [v]]])
  }

  function Adding(q: SearchQuery, f: FacetType, v: string): SearchQuery {
    q.(filters := q.filters[f := FiltersOf(q, f) + [[v]]])
  }

  lemma OthersMean(lucene: Lucene, f: FacetType, groups: seq<SiblingGroup>, i: nat, d: Document)
    requires i < |groups|
    ensures Matches(lucene, GroupFilter(f, groups, i), d) <==>
      forall j :: 0 <= j < |groups| && j != i ==> Carries(d, f, groups[j].selected)
  {
    var cs := GroupClauses(f, groups);
    var others := OtherClauses(cs, i);
    MatchesAllAppend(lucene, cs[..i], cs[i + 1..], d);
    forall j | 0 <= j < |groups|
      ensures Matches(lucene, cs[j], d) <==> Carries(d, f, groups[j].selected)
    {
      TermsMean(lucene, f, groups[j].selected, d);
    }
    assert forall j :: 0 <= j < i ==> cs[..i][j] == cs[j];
    assert forall j :: i < j < |cs| ==> cs[i + 1..][j - i - 1] == cs[j];
    assert Matches(lucene, GroupFilter(f, groups, i), d) <==> MatchesAll(lucene, others, d);
  }

  lemma OneValue(d: Document, f: FacetType, v: string)
    ensures Carries(d, f, [v]) <==> v in TermsOf(d, FieldOf(f))
  {
    assert v in [v];
    FieldHoldsTags(d, f, v);
  }

  lemma GroupedMember(lucene: Lucene, q: SearchQuery, f: FacetType, groups: seq<SiblingGroup>, i: nat, v: string,
                      extra: seq<Clause>, d: Document)
    requires Mirrors(groups, FiltersOf(q, f)) && i < |groups|
    ensures Matches(lucene, Built(q, Some(f), extra), d) && Matches(lucene, GroupFilter(f, groups, i), d)
      && v in TermsOf(d, FieldOf(f))
      <==> Matches(lucene, Built(Replacing(q, f, i, v), None, extra), d)
  {
    QueryMeans(lucene, q, f, extra, d);
    QueryMeans(lucene, Replacing(q, f, i, v), f, extra, d);
    OthersMean(lucene, f, groups, i, d);
    ReplacingSatisfies(q, f, i, v, d);
    SameElsewhere(lucene, q, Replacing(q, f, i, v), f, d);
  }

  lemma ReplacingSatisfies(q: SearchQuery, f: FacetType, i: nat, v: string, d: Document)
    requires i < |FiltersOf(q, f)|
    ensures Satisfies(d, f, FiltersOf(Replacing(q, f, i, v), f)) <==>
      v in TermsOf(d, FieldOf(f)) && forall j :: 0 <= j < |FiltersOf(q, f)| && j != i ==>
        Carries(d, f, FiltersOf(q, f)[j])
  {
    OneValue(d, f, v);
    var before, after := FiltersOf(q, f), FiltersOf(Replacing(q, f, i, v), f);
    assert |after| == |before| && after[i] == [v] && forall j :: 0 <= j < |before| && j != i ==> after[j] == before[j];
    if Satisfies(d, f, after) {
      assert Carries(d, f, after[i]);
      assert forall j :: 0 <= j < |before| && j != i ==> Carries(d, f, after[j]);
    }
  }

  lemma AddingSatisfies(q: SearchQuery, f: FacetType, v: string, d: Document)
    ensures Satisfies(d, f, FiltersOf(Adding(q, f, v), f)) <==>
      v in TermsOf(d, FieldOf(f)) && forall j :: 0 <= j < |FiltersOf(q, f)| ==> Carries(d, f, FiltersOf(q, f)[j])
  {
    OneValue(d, f, v);
    var before, after := FiltersOf(q, f), FiltersOf(Adding(q, f, v), f);
    assert |after| == |before| + 1 && after[|before|] == [v] && forall j :: 0 <= j < |before| ==> after[j] == before[j];
  }

  /** Changing one facet's filters changes nothing else about the search. */
  lemma SameElsewhere(lucene: Lucene, q: SearchQuery, q': SearchQuery, f: FacetType, d: Document)
    requires q' == q.(filters := q.filters[f := FiltersOf(q', f)])
    ensures Base(lucene, q', d) <==> Base(lucene, q, d)
    ensures SatisfiesOthers(d, f, q') <==> SatisfiesOthers(d, f, q)
  {
    assert AnnotationClauses(q') == AnnotationClauses(q);
    assert forall g :: g != f ==> FiltersOf(q', g) == FiltersOf(q, g);
  }

  /** A grouped value counts the matches of the same search with its group's selection replaced by the value. */
  lemma GroupedCountMeans(lucene: Lucene, docs: set<Document>, q: SearchQuery, f: FacetType, groups: seq<SiblingGroup>,
                          i: nat, v: string, extra: seq<Clause>)
    requires Mirrors(groups, FiltersOf(q, f)) && i < |groups|
    ensures Bucket(lucene, Scope(lucene, docs, q, f, extra), GroupFilter(f, groups, i), f, v)
         == Found(lucene, docs, Replacing(q, f, i, v), extra)
  {
    forall d | d in docs
      ensures d in Bucket(lucene, Scope(lucene, docs, q, f, extra), GroupFilter(f, groups, i), f, v)
         <==> d in Found(lucene, docs, Replacing(q, f, i, v), extra)
    {
      GroupedMember(lucene, q, f, groups, i, v, extra, d);
    }
  }

  lemma AllMean(lucene: Lucene, f: FacetType, groups: seq<SiblingGroup>, d: Document)
    ensures Matches(lucene, Bool([], GroupClauses(f, groups)), d) <==>
      forall j :: 0 <= j < |groups| ==> Carries(d, f, groups[j].selected)
  {
    var cs := GroupClauses(f, groups);
    forall j | 0 <= j < |groups|
      ensures Matches(lucene, cs[j], d) <==> Carries(d, f, groups[j].selected)
    {
      TermsMean(lucene, f, groups[j].selected, d);
    }
  }

  lemma UnselectedMember(lucene: Lucene, q: SearchQuery, f: FacetType, groups: seq<SiblingGroup>, v: string,
                         extra: seq<Clause>, d: Document)
    requires Mirrors(groups, FiltersOf(q, f))
    ensures Matches(lucene, Built(q, Some(f), extra), d) && Matches(lucene, Bool([], GroupClauses(f, groups)), d)
      && v in TermsOf(d, FieldOf(f))
      <==> Matches(lucene, Built(Adding(q, f, v), None, extra), d)
  {
    QueryMeans(lucene, q, f, extra, d);
    QueryMeans(lucene, Adding(q, f, v), f, extra, d);
    AllMean(lucene, f, groups, d);
    AddingSatisfies(q, f, v, d);
    SameElsewhere(lucene, q, Adding(q, f, v), f, d);
  }

  /** An unselected value counts the matches with the value added as one more filter. */
  lemma UnselectedCountMeans(lucene: Lucene, docs: set<Document>, q: SearchQuery, f: FacetType,
                             groups: seq<SiblingGroup>, v: string, extra: seq<Clause>)
    requires Mirrors(groups, FiltersOf(q, f))
    ensures Bucket(lucene, Scope(lucene, docs, q, f, extra), Bool([], GroupClauses(f, groups)), f, v)
         == Found(lucene, docs, Adding(q, f, v), extra)
  {
    forall d | d in docs
      ensures d in Bucket(lucene, Scope(lucene, docs, q, f, extra), Bool([], GroupClauses(f, groups)), f, v)
         <==> d in Found(lucene, docs, Adding(q, f, v), extra)
    {
      UnselectedMember(lucene, q, f, groups, v, extra, d);
    }
  }

  // ----- which values are reported -----

  function Domain(docs: set<Document>, f: FacetType): set<string> {
    set d, v | d in docs && v in TermsOf(d, FieldOf(f)) :: v
  }

  /** A group's terms aggregation keeps zero counts: the field's values, restricted to the siblings if listed. */
  function GroupValues(docs: set<Document>, f: FacetType, g: SiblingGroup): set<string> {
    if g.siblings.None? then Domain(docs, f) else g.siblings.value * Domain(docs, f)
  }

  function AllSiblings(groups: seq<SiblingGroup>): set<string> {
    set i, v | 0 <= i < |groups| && groups[i].siblings.Some? && v in groups[i].siblings.value :: v
  }

  /** Values outside every sibling set that some document of the fully filtered scope carries. */
  function UnselectedValues(lucene: Lucene, docs: set<Document>, q: SearchQuery, f: FacetType,
                            groups: seq<SiblingGroup>, extra: seq<Clause>): set<string> {
    set v | v in Domain(docs, f) && v !in AllSiblings(groups)
            && Bucket(lucene, Scope(lucene, docs, q, f, extra), Bool([], GroupClauses(f, groups)), f, v) != {}
  }

  ghost predicate Enumerated(groups: seq<SiblingGroup>) {
    forall i :: 0 <= i < |groups| ==> groups[i].siblings.Some?
  }

  ghost predicate DisjointSiblings(groups: seq<SiblingGroup>) {
    && Enumerated(groups)
    && forall i, j :: 0 <= i < j < |groups| ==> groups[i].siblings.value !! groups[j].siblings.value
  }

  /** With disjoint sibling sets every reported value comes from exactly one aggregation. */
  lemma NoValueTwice(lucene: Lucene, docs: set<Document>, q: SearchQuery, f: FacetType, groups: seq<SiblingGroup>,
                     extra: seq<Clause>)
    requires DisjointSiblings(groups)
    ensures forall i, j :: 0 <= i < j < |groups| ==> GroupValues(docs, f, groups[i]) !! GroupValues(docs, f, groups[j])
    ensures forall i :: 0 <= i < |groups| ==>
      GroupValues(docs, f, groups[i]) !! UnselectedValues(lucene, docs, q, f, groups, extra)
  {
    forall i, v | 0 <= i < |groups| && v in GroupValues(docs, f, groups[i])
      ensures v in AllSiblings(groups)
    {
      assert groups[i].siblings.Some? && v in groups[i].siblings.value;
    }
  }

  /** A value is reported by a group or, when every group lists its siblings, among the unselected ones. */
  ghost predicate Reported(lucene: Lucene, docs: set<Document>, q: SearchQuery, f: FacetType, groups: seq<SiblingGroup>,
                           extra: seq<Clause>, v: string) {
    || (exists i :: 0 <= i < |groups| && v in GroupValues(docs, f, groups[i]))
    || (Enumerated(groups) && v in UnselectedValues(lucene, docs, q, f, groups, extra))
  }

  /** Every value on a matching document is reported, with listed siblings, universal groups or a mixture. */
  lemma EveryMatchingValueIsReported(lucene: Lucene, docs: set<Document>, q: SearchQuery, f: FacetType,
                                     groups: seq<SiblingGroup>, extra: seq<Clause>, d: Document, v: string)
    requires Mirrors(groups, FiltersOf(q, f))
    requires d in Found(lucene, docs, q, extra) && v in TermsOf(d, FieldOf(f))
    ensures Reported(lucene, docs, q, f, groups, extra, v)
  {
    assert v in Domain(docs, f);
    if !Enumerated(groups) {
      var i :| 0 <= i < |groups| && groups[i].siblings.None?;
      assert v in GroupValues(docs, f, groups[i]);
    } else if v in AllSiblings(groups) {
      var i :| 0 <= i < |groups| && groups[i].siblings.Some? && v in groups[i].siblings.value;
      assert v in GroupValues(docs, f, groups[i]);
    } else {
      UnselectedIsReported(lucene, docs, q, f, groups, extra, d, v);
    }
  }

  lemma UnselectedIsReported(lucene: Lucene, docs: set<Document>, q: SearchQuery, f: FacetType,
                             groups: seq<SiblingGroup>, extra: seq<Clause>, d: Document, v: string)
    requires Mirrors(groups, FiltersOf(q, f)) && v !in AllSiblings(groups)
    requires d in Found(lucene, docs, q, extra) && v in TermsOf(d, FieldOf(f))
    ensures v in UnselectedValues(lucene, docs, q, f, groups, extra)
  {
    QueryMeans(lucene, q, f, extra, d);
    AllMean(lucene, f, groups, d);
    assert forall j :: 0 <= j < |groups| ==> Carries(d, f, FiltersOf(q, f)[j]);
    assert d in Bucket(lucene, Scope(lucene, docs, q, f, extra), Bool([], GroupClauses(f, groups)), f, v);
    assert v in Domain(docs, f);
  }

  /** Countries and regions: one group at most, whose siblings are all values, so nothing is unselected. */
  method UniversalGroups(filters: seq<seq<string>>) returns (groups: Option<seq<SiblingGroup>>)
    ensures groups.None? <==> |filters| > 1
    ensures groups.Some? ==> Mirrors(groups.value, filters)
    ensures groups.Some? ==> (Enumerated(groups.value) <==> filters == [])
  {
    if |filters| > 1 {
      return None;
    }
    var built := seq(|filters|, i requires 0 <= i < |filters| => SiblingGroup(filters[i], None));
    assert filters != [] ==> built[0].siblings.None?;
    return Some(built);
  }

  // ----- resolving concept filters into groups -----

  /** All listed concepts are known and belong to one and the same scheme membership. */
  predicate OneScheme(peers: map<string, set<string>>, uris: seq<string>) {
    && uris != [] && (forall k :: 0 <= k < |uris| ==> uris[k] in peers)
    && forall k :: 0 <= k < |uris| ==> peers[uris[k]] == peers[uris[0]]
  }

  ghost predicate Resolvable(peers: map<string, set<string>>, filters: seq<seq<string>>) {
    && (forall i :: 0 <= i < |filters| ==> OneScheme(peers, filters[i]))
    && forall i, j :: 0 <= i < j < |filters| ==> peers[filters[i][0]] !! peers[filters[j][0]]
  }

  /** One group per filter, in filter order; any filter that mixes schemes, or two that overlap, is refused. */
  method ResolveGroups(peers: map<string, set<string>>, filters: seq<seq<string>>)
    returns (groups: Option<seq<SiblingGroup>>)
    ensures groups.Some? <==> Resolvable(peers, filters)
    ensures groups.Some? ==> Mirrors(groups.value, filters) && DisjointSiblings(groups.value)
    ensures groups.Some? ==> forall i, k :: 0 <= i < |filters| && 0 <= k < |filters[i]| ==>
      groups.value[i].siblings == Some(peers[filters[i][k]])
  {
    var built: seq<SiblingGroup> := [];
    for i := 0 to |filters|
      invariant |built| == i
      invariant forall k :: 0 <= k < i ==>
        OneScheme(peers, filters[k]) && built[k] == SiblingGroup(filters[k], Some(peers[filters[k][0]]))
    {
      if !OneScheme(peers, filters[i]) {
        return None;
      }
      built := built + [SiblingGroup(filters[i], Some(peers[filters[i][0]]))];
    }
    for i := 0 to |built|
      invariant forall a, b :: 0 <= a < i && a < b < |filters| ==> peers[filters[a][0]] !! peers[filters[b][0]]
    {
      for j := i + 1 to |built|
        invariant forall b :: i < b < j ==> peers[filters[i][0]] !! peers[filters[b][0]]
      {
        if !(built[i].siblings.value !! built[j].siblings.value) {
          return None;
        }
      }
    }
    return Some(built);
  }
}
