/** The query clauses the reference search builds, and what they mean for one indexed document. */
module SearchQueries {
  import opened Options

  /** An indexed document: keyword fields hold sets of terms, numeric fields a number. */
  datatype Document = Document(id: nat, keywords: map<string, set<string>>, numbers: map<string, real>)

  datatype Clause =
    | QueryString(query: string, fields: seq<string>)
    | Terms(field: string, values: seq<string>)
    | Exists(field: string)
    | Prefix(field: string, prefix: string)
    | Range(field: string, gte: Option<real>, lte: Option<real>)
    | MatchAll
    | Bool(must: seq<Clause>, filter: seq<Clause>)

  /** How Lucene reads a query string is taken as given. */
  type Lucene = (string, seq<string>, Document) -> bool

  function TermsOf(d: Document, field: string): set<string> {
    if field in d.keywords then d.keywords[field] else {}
  }

  predicate Matches(lucene: Lucene, c: Clause, d: Document) {
    match c
    case QueryString(q, fields) => lucene(q, fields, d)
    case Terms(field, values) => exists v :: v in values && v in TermsOf(d, field)
    case Exists(field) => TermsOf(d, field) != {}
    case Prefix(field, prefix) => exists v :: v in TermsOf(d, field) && prefix <= v
    case Range(field, gte, lte) =>
      && field in d.numbers
      && (gte.Some? ==> gte.value <= d.numbers[field]) && (lte.Some? ==> d.numbers[field] <= lte.value)
    case MatchAll => true
    case Bool(must, filter) =>
      (forall i :: 0 <= i < |must| ==> Matches(lucene, must[i], d))
        && (forall i :: 0 <= i < |filter| ==> Matches(lucene, filter[i], d))
  }

  predicate MatchesAll(lucene: Lucene, cs: seq<Clause>, d: Document) {
    forall i :: 0 <= i < |cs| ==> Matches(lucene, cs[i], d)
  }

  lemma MatchesAllAppend(lucene: Lucene, a: seq<Clause>, b: seq<Clause>, d: Document)
    ensures MatchesAll(lucene, a + b, d) <==> MatchesAll(lucene, a, d) && MatchesAll(lucene, b, d)
  {
    assert forall i :: 0 <= i < |a| ==> (a + b)[i] == a[i];
    assert forall i :: 0 <= i < |b| ==> (a + b)[|a| + i] == b[i];
  }

  /** The top-level query: scoring puts the query string under must, non-scoring puts everything under filter. */
  function ComposeQuery(query: string, fields: seq<string>, filters: seq<Clause>, score: bool): Clause {
    var main := QueryString(query, fields);
    if !score then Bool([], [main] + filters)
    else if filters == [] then main
    else Bool([main], filters)
  }

  /** Scoring or not, the same documents match: the query string and every filter. */
  lemma ComposedMatches(lucene: Lucene, query: string, fields: seq<string>, filters: seq<Clause>, score: bool,
                        d: Document)
    ensures Matches(lucene, ComposeQuery(query, fields, filters, score), d) <==>
      lucene(query, fields, d) && MatchesAll(lucene, filters, d)
  {
    var main := QueryString(query, fields);
    MatchesAllAppend(lucene, [main], filters, d);
    assert MatchesAll(lucene, [main], d) <==> Matches(lucene, main, d) by {
      assert [main][0] == main;
    }
    assert Matches(lucene, Bool([], [main] + filters), d) <==> MatchesAll(lucene, [main] + filters, d);
  }

  function Hits(lucene: Lucene, docs: set<Document>, c: Clause): set<Document> {
    set d | d in docs && Matches(lucene, c, d)
  }

  lemma ScoringKeepsHits(lucene: Lucene, docs: set<Document>, query: string, fields: seq<string>, filters: seq<Clause>)
    ensures Hits(lucene, docs, ComposeQuery(query, fields, filters, true)) ==
            Hits(lucene, docs, ComposeQuery(query, fields, filters, false))
  {
    forall d | d in docs
      ensures Matches(lucene, ComposeQuery(query, fields, filters, true), d) <==>
              Matches(lucene, ComposeQuery(query, fields, filters, false), d)
    {
      ComposedMatches(lucene, query, fields, filters, true, d);
      ComposedMatches(lucene, query, fields, filters, false, d);
    }
  }
}
