/**
  Concept-scheme membership over a SKOS vocabulary (W3C SKOS Reference, sections 4 and 8): a declared
  concept belongs to the schemes it names, an undeclared one to the schemes of its broader ancestors,
  found by a depth-first search that shares one mutable set of visited concepts.
 */
module Skos {

  /** Only URI nodes take part; blank nodes and literals are skipped. */
  datatype Node = Uri(name: string) | Anonymous(tag: nat)
  datatype Property = InScheme | TopConceptOf | HasTopConcept | Broader
  datatype Triple = Triple(subject: Node, property: Property, target: Node)

  type Uris = map<string, set<string>>

  /** `a` declares membership of `b`, in any of the three spellings. */
  predicate Declares(graph: set<Triple>, a: string, b: string) {
    || Triple(Uri(a), InScheme, Uri(b)) in graph
    || Triple(Uri(a), TopConceptOf, Uri(b)) in graph
    || Triple(Uri(b), HasTopConcept, Uri(a)) in graph
  }

  predicate HasParent(graph: set<Triple>, a: string, b: string) {
    Triple(Uri(a), Broader, Uri(b)) in graph
  }

  /** The entry `dict.setdefault(key, set()).add(value)` leaves behind. */
  function Added(m: Uris, key: string, value: string): (r: Uris)
    ensures forall k, v :: Holds(r, k, v) <==> Holds(m, k, v) || (k == key && v == value)
    ensures (forall k :: k in m ==> m[k] != {}) ==> forall k :: k in r ==> r[k] != {}
  {
    m[key := (if key in m then m[key] else {}) + {value}]
  }

  predicate Holds(m: Uris, k: string, v: string) {
    k in m && v in m[k]
  }

  method BuildMaps(graph: set<Triple>) returns (explicit: Uris, parents: Uris)
    ensures forall a, b :: Holds(explicit, a, b) <==> Declares(graph, a, b)
    ensures forall a, b :: Holds(parents, a, b) <==> HasParent(graph, a, b)
    ensures forall a :: a in explicit ==> explicit[a] != {}
  {
    explicit, parents := map[], map[];
    var left, done: set<Triple> := graph, {};
    while left != {}
      invariant left + done == graph
      invariant forall a, b :: Holds(explicit, a, b) <==> Declares(done, a, b)
      invariant forall a, b :: Holds(parents, a, b) <==> HasParent(done, a, b)
      invariant forall a :: a in explicit ==> explicit[a] != {}
      decreases left
    {
      var t :| t in left;
      left, done := left - {t}, done + {t};
      if t.subject.Uri? && t.target.Uri? {
        match t.property
        case Broader => parents := Added(parents, t.subject.name, t.target.name);
        case HasTopConcept => explicit := Added(explicit, t.target.name, t.subject.name);
        case _ => explicit := Added(explicit, t.subject.name, t.target.name);
      }
    }
    assert done == graph;
  }

  // ----- what membership means -----

  /** A broader path through undeclared concepts to one that declares the scheme. */
  ghost predicate Inherits(explicit: Uris, parents: Uris, scheme: string, path: seq<string>)
    decreases |path|
  {
    && path != []
    && if |path| == 1 then Holds(explicit, path[0], scheme)
       else path[0] !in explicit && Holds(parents, path[0], path[1]) && Inherits(explicit, parents, scheme, path[1..])
  }

  ghost predicate PathFrom(explicit: Uris, parents: Uris, concept: string, scheme: string, path: seq<string>) {
    Inherits(explicit, parents, scheme, path) && path[0] == concept
  }

  ghost predicate Belongs(explicit: Uris, parents: Uris, concept: string, scheme: string) {
    exists path :: PathFrom(explicit, parents, concept, scheme, path)
  }

  lemma DeclaredBelongs(explicit: Uris, parents: Uris, concept: string, scheme: string)
    requires Holds(explicit, concept, scheme)
    ensures Belongs(explicit, parents, concept, scheme)
  {
    assert PathFrom(explicit, parents, concept, scheme, [concept]);
  }

  lemma InheritedBelongs(explicit: Uris, parents: Uris, concept: string, parent: string, scheme: string)
    requires concept !in explicit && Holds(parents, concept, parent) && Belongs(explicit, parents, parent, scheme)
    ensures Belongs(explicit, parents, concept, scheme)
  {
    var path :| PathFrom(explicit, parents, parent, scheme, path);
    assert ([concept] + path)[1..] == path;
    assert PathFrom(explicit, parents, concept, scheme, [concept] + path);
  }

  // ----- the search -----

  /** The parents of a visited concept are accounted for: declared ones in `schemes`, the rest visited. */
  ghost predicate Settled(explicit: Uris, parents: Uris, seen: set<string>, schemes: set<string>, v: string) {
    forall p :: Holds(parents, v, p) ==> if p in explicit then explicit[p] <= schemes else p in seen
  }

  /** If everything visited is settled, no path out of it can reach a scheme that was not collected. */
  lemma {:induction false} SettledReachesAll(explicit: Uris, parents: Uris, seen: set<string>, schemes: set<string>,
                                             scheme: string, path: seq<string>)
    requires forall v :: v in seen ==> Settled(explicit, parents, seen, schemes, v)
    requires Inherits(explicit, parents, scheme, path) && path[0] in seen && path[0] !in explicit
    ensures scheme in schemes
    decreases |path|
  {
    assert Settled(explicit, parents, seen, schemes, path[0]);
    if path[1] !in explicit {
      SettledReachesAll(explicit, parents, seen, schemes, scheme, path[1..]);
    }
  }

  /** One top-level lookup: the visited set is shared by all the nested calls. */
  class SchemeSearch {
    const explicit: Uris
    const parents: Uris
    var seen: set<string>

    constructor (explicit: Uris, parents: Uris)
      ensures this.explicit == explicit && this.parents == parents && seen == {}
    {
      this.explicit, this.parents, this.seen := explicit, parents, {};
    }

    /**
      A nested call may find its concept visited and return nothing; what it owes its caller is that
      everything newly visited is settled by what it returned.
     */
    method SchemesFor(concept: string) returns (schemes: set<string>)
      modifies this
      ensures old(seen) <= seen && seen !! explicit.Keys - old(seen)
      ensures if concept in explicit then schemes == explicit[concept] && seen == old(seen) else concept in seen
      ensures forall v :: v in seen && v !in old(seen) ==> Settled(explicit, parents, seen, schemes, v)
      ensures forall s :: s in schemes ==> Belongs(explicit, parents, concept, s)
      decreases parents.Keys - seen
    {
      if concept in explicit {
        forall s | s in explicit[concept] ensures Belongs(explicit, parents, concept, s) {
          DeclaredBelongs(explicit, parents, concept, s);
        }
        return explicit[concept];
      }
      if concept in seen {
        return {};
      }
      seen := seen + {concept};
      var inherited: set<string> := {};
      var todo := if concept in parents then parents[concept] else {};
      while todo != {}
        invariant todo <= (if concept in parents then parents[concept] else {})
        invariant old(seen) + {concept} <= seen && seen !! explicit.Keys - old(seen)
        invariant forall v :: v in seen && v !in old(seen) && v != concept ==>
          Settled(explicit, parents, seen, inherited, v)
        invariant forall p :: Holds(parents, concept, p) && p !in todo ==>
          if p in explicit then explicit[p] <= inherited else p in seen
        invariant forall s :: s in inherited ==> Belongs(explicit, parents, concept, s)
        decreases todo
      {
        var parent :| parent in todo;
        assert Holds(parents, concept, parent);
        var more := SchemesFor(parent);
        forall s | s in more ensures Belongs(explicit, parents, concept, s) {
          InheritedBelongs(explicit, parents, concept, parent, s);
        }
        inherited := inherited + more;
        todo := todo - {parent};
      }
      schemes := inherited;
    }
  }

  /** A fresh search answers exactly, whatever the order in which parents are visited. */
  method SchemesOf(explicit: Uris, parents: Uris, concept: string) returns (schemes: set<string>)
    ensures forall s :: s in schemes <==> Belongs(explicit, parents, concept, s)
  {
    var search := new SchemeSearch(explicit, parents);
    schemes := search.SchemesFor(concept);
    forall s | Belongs(explicit, parents, concept, s)
      ensures s in schemes
    {
      var path :| PathFrom(explicit, parents, concept, s, path);
      if concept !in explicit {
        SettledReachesAll(explicit, parents, search.seen, schemes, s, path);
      }
    }
  }

  method SchemeMembers(explicit: Uris, parents: Uris) returns (members: Uris)
    ensures forall s, c :: Holds(members, s, c) <==> Belongs(explicit, parents, c, s)
    ensures forall s :: s in members ==> members[s] != {}
  {
    members := map[];
    var left, done: set<string> := explicit.Keys + parents.Keys, {};
    while left != {}
      invariant left + done == explicit.Keys + parents.Keys
      invariant forall s, c :: Holds(members, s, c) <==> c in done && Belongs(explicit, parents, c, s)
      invariant forall s :: s in members ==> members[s] != {}
      decreases left
    {
      var concept :| concept in left;
      left := left - {concept};
      var schemes := SchemesOf(explicit, parents, concept);
      ghost var before := members;
      ghost var added: set<string> := {};
      while schemes != {}
        invariant forall s :: s in schemes || s in added <==> Belongs(explicit, parents, concept, s)
        invariant forall s, c :: Holds(members, s, c) <==> Holds(before, s, c) || (s in added && c == concept)
        invariant forall s :: s in members ==> members[s] != {}
        decreases schemes
      {
        var scheme :| scheme in schemes;
        schemes := schemes - {scheme};
        added := added + {scheme};
        members := Added(members, scheme, concept);
      }
      done := done + {concept};
    }
    forall c, s | Belongs(explicit, parents, c, s)
      ensures c in done
    {
      var path :| PathFrom(explicit, parents, c, s, path);
    }
  }

  // ----- siblings -----

  ghost predicate ShareScheme(members: Uris, c: string, d: string) {
    exists s :: Holds(members, s, c) && Holds(members, s, d)
  }

  ghost predicate ShareAmong(members: Uris, schemes: set<string>, c: string, d: string) {
    exists s :: s in schemes && Holds(members, s, c) && Holds(members, s, d)
  }

  method Siblings(members: Uris) returns (siblings: Uris)
    ensures forall c, d :: Holds(siblings, c, d) <==> ShareScheme(members, c, d)
  {
    siblings := map[];
    var left, done: set<string> := members.Keys, {};
    while left != {}
      invariant left + done == members.Keys
      invariant forall c, d :: Holds(siblings, c, d) <==> ShareAmong(members, done, c, d)
      decreases left
    {
      var scheme :| scheme in left;
      left := left - {scheme};
      ghost var before := siblings;
      var todo, visited: set<string> := members[scheme], {};
      while todo != {}
        invariant todo + visited == members[scheme]
        invariant forall c, d :: Holds(siblings, c, d) <==>
          Holds(before, c, d) || (c in visited && d in members[scheme])
        decreases todo
      {
        var concept :| concept in todo;
        todo, visited := todo - {concept}, visited + {concept};
        siblings := siblings[concept := (if concept in siblings then siblings[concept] else {}) + members[scheme]];
      }
      forall c, d
        ensures ShareAmong(members, done + {scheme}, c, d) <==>
          ShareAmong(members, done, c, d) || (c in members[scheme] && d in members[scheme])
      {
        if c in members[scheme] && d in members[scheme] {
          assert Holds(members, scheme, c) && Holds(members, scheme, d);
        }
      }
      done := done + {scheme};
    }
    assert forall s, c :: Holds(members, s, c) ==> s in done;
  }

  /** From the graph to the sibling map: reflexive on members, symmetric, and exactly scheme sharing. */
  method ConceptSchemeMembers(graph: set<Triple>) returns (siblings: Uris, ghost explicit: Uris, ghost parents: Uris)
    ensures forall a, b :: Holds(explicit, a, b) <==> Declares(graph, a, b)
    ensures forall a, b :: Holds(parents, a, b) <==> HasParent(graph, a, b)
    ensures forall c, s :: Belongs(explicit, parents, c, s) ==> Holds(siblings, c, c)
    ensures forall c, d :: Holds(siblings, c, d) <==> Holds(siblings, d, c)
    ensures forall c, d :: Holds(siblings, c, d) <==> Peers(explicit, parents, c, d)
  {
    var e, p := BuildMaps(graph);
    explicit, parents := e, p;
    var members := SchemeMembers(e, p);
    siblings := Siblings(members);
    forall c, s | Belongs(explicit, parents, c, s)
      ensures Holds(siblings, c, c)
    {
      assert Holds(members, s, c);
    }
    forall c, d
      ensures ShareScheme(members, c, d) <==> Peers(explicit, parents, c, d)
      ensures ShareScheme(members, c, d) <==> ShareScheme(members, d, c)
    {
      if Peers(explicit, parents, c, d) {
        var s :| Belongs(explicit, parents, c, s) && Belongs(explicit, parents, d, s);
        assert Holds(members, s, c) && Holds(members, s, d);
      }
    }
  }

  ghost predicate Peers(explicit: Uris, parents: Uris, c: string, d: string) {
    exists s :: Belongs(explicit, parents, c, s) && Belongs(explicit, parents, d, s)
  }
}
