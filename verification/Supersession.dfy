/**
  Enhancement supersession chains: two nullable columns, a foreign key, two checks and a unique index.
  The chain query sorts by (has a predecessor, id); this module shows when that is the link order.
 */
module Supersession {
  import opened Options

  datatype Enhancement = Enhancement(supersedes: Option<nat>, root: Option<nat>)
  type Enhancements = map<nat, Enhancement>

  /** coalesce(root_id, id): rows written before the columns existed have neither value. */
  function EffectiveRoot(t: Enhancements, id: nat): nat
    requires id in t
  {
    if t[id].root.Some? then t[id].root.value else id
  }

  /** The two check constraints, on a row that is new enough to be checked. */
  predicate Checked(id: nat, e: Enhancement) {
    && e.root.Some?
    && (e.supersedes.None? <==> e.root.value == id)
    && (e.supersedes.Some? ==> e.supersedes.value < id || e.supersedes == e.root)
  }

  predicate Legacy(e: Enhancement) {
    e.supersedes.None? && e.root.None?
  }

  ghost predicate Constraints(t: Enhancements) {
    && (forall i :: i in t ==> Checked(i, t[i]) || Legacy(t[i]))
    && (forall i :: i in t && t[i].supersedes.Some? ==> t[i].supersedes.value in t)
    && (forall i, j :: i in t && j in t && t[i].supersedes.Some? && t[i].supersedes == t[j].supersedes ==> i == j)
  }

  ghost predicate AgreesAt(t: Enhancements, i: nat) {
    && i in t
    && (t[i].supersedes.Some? ==>
          t[i].supersedes.value in t && EffectiveRoot(t, i) == EffectiveRoot(t, t[i].supersedes.value))
  }

  /** What writers keep beyond the constraints: a successor carries its predecessor's effective root. */
  ghost predicate RootAgreement(t: Enhancements) {
    forall i :: i in t ==> AgreesAt(t, i)
  }

  // ----- the query -----

  /** The WHERE clause: the root row, or a successor row that names it. */
  function Members(t: Enhancements, id: nat): (m: set<nat>)
    ensures m <= t.Keys
  {
    if id !in t then {}
    else var r := EffectiveRoot(t, id);
      set i | i in t && (i == r || (t[i].root == Some(r) && t[i].supersedes.Some?))
  }

  /** ORDER BY supersedes IS NOT NULL, id. */
  predicate Before(t: Enhancements, i: nat, j: nat)
    requires i in t && j in t
  {
    if t[i].supersedes.None? == t[j].supersedes.None? then i < j else t[i].supersedes.None?
  }

  ghost predicate Answer(t: Enhancements, id: nat, chain: seq<nat>) {
    && (forall i :: i in chain <==> i in Members(t, id))
    && (forall k :: 0 <= k < |chain| ==> chain[k] in t)
    && (forall a, b :: 0 <= a < b < |chain| ==> Before(t, chain[a], chain[b]))
  }

  /** Root first, then each row superseding the one before it. */
  ghost predicate LinkOrder(t: Enhancements, chain: seq<nat>) {
    && chain != []
    && (forall k :: 0 <= k < |chain| ==> chain[k] in t)
    && t[chain[0]].supersedes.None?
    && (forall k :: 0 <= k < |chain| - 1 ==> t[chain[k + 1]].supersedes == Some(chain[k]))
  }

  predicate IsHead(t: Enhancements, i: nat) {
    i in t && forall j :: j in t ==> t[j].supersedes != Some(i)
  }

  // ----- acyclic: every class has a root -----

  /** A predecessor either has a smaller id or is itself a root, so walking back ends. */
  lemma {:induction false} RootIsARoot(t: Enhancements, id: nat)
    requires Constraints(t) && RootAgreement(t) && id in t
    ensures EffectiveRoot(t, id) in t && t[EffectiveRoot(t, id)].supersedes.None?
    ensures EffectiveRoot(t, EffectiveRoot(t, id)) == EffectiveRoot(t, id)
    decreases if t[id].supersedes.None? then 0 else id + 1
  {
    assert Checked(id, t[id]) || Legacy(t[id]);
    if t[id].supersedes.Some? {
      var p := t[id].supersedes.value;
      assert AgreesAt(t, id) && (Checked(p, t[p]) || Legacy(t[p]));
      RootIsARoot(t, p);
    }
  }

  lemma MembersAreTheClass(t: Enhancements, id: nat, i: nat)
    requires Constraints(t) && RootAgreement(t) && id in t && i in t
    ensures i in Members(t, id) <==> EffectiveRoot(t, i) == EffectiveRoot(t, id)
  {
    assert Checked(i, t[i]) || Legacy(t[i]);
    RootIsARoot(t, id);
  }

  /** Whichever member is asked, the query selects the same rows. */
  lemma SameFromEveryMember(t: Enhancements, id: nat, i: nat)
    requires Constraints(t) && RootAgreement(t) && id in t && i in Members(t, id)
    ensures Members(t, i) == Members(t, id) && id in Members(t, i)
  {
    MembersAreTheClass(t, id, i);
    MembersAreTheClass(t, id, id);
  }

  // ----- sorted is linked -----

  lemma RootComesFirst(t: Enhancements, id: nat, chain: seq<nat>)
    requires Constraints(t) && RootAgreement(t) && id in t && Answer(t, id, chain)
    ensures chain != [] && chain[0] == EffectiveRoot(t, id) && t[chain[0]].supersedes.None?
    ensures forall k :: 0 < k < |chain| ==> t[chain[k]].supersedes.Some?
  {
    var r := EffectiveRoot(t, id);
    RootIsARoot(t, id);
    assert r in Members(t, id) && r in chain;
    assert chain[0] in chain;
    forall k | 0 < k < |chain|
      ensures t[chain[k]].supersedes.Some?
    {
      assert chain[k] in chain && Before(t, chain[0], chain[k]);
    }
  }

  lemma PredecessorComesEarlier(t: Enhancements, id: nat, chain: seq<nat>, k: nat) returns (j: nat)
    requires Constraints(t) && RootAgreement(t) && id in t && Answer(t, id, chain) && 0 < k < |chain|
    ensures j < k && t[chain[k]].supersedes == Some(chain[j])
  {
    RootComesFirst(t, id, chain);
    var x := chain[k];
    var p := t[x].supersedes.value;
    assert x in chain && AgreesAt(t, x);
    MembersAreTheClass(t, id, x);
    MembersAreTheClass(t, id, p);
    assert p in chain;
    j :| 0 <= j < |chain| && chain[j] == p;
    assert Checked(x, t[x]);
    assert k < j ==> Before(t, x, p);
  }

  lemma {:induction false} SortedIsLinkedUpTo(t: Enhancements, id: nat, chain: seq<nat>, n: nat)
    requires Constraints(t) && RootAgreement(t) && id in t && Answer(t, id, chain) && n < |chain|
    ensures forall k :: 0 <= k < n ==> t[chain[k + 1]].supersedes == Some(chain[k])
  {
    if n > 0 {
      SortedIsLinkedUpTo(t, id, chain, n - 1);
      var j := PredecessorComesEarlier(t, id, chain, n);
      // were j < n - 1, chain[j] would have a successor earlier in the list, and successors are unique
      assert j < n - 1 ==> t[chain[j + 1]].supersedes == Some(chain[j]) && Before(t, chain[j + 1], chain[n]);
    }
  }

  /** Sorting by (has predecessor, id) lists the chain root first in link order, whatever the root's own id. */
  lemma SortedIsLinked(t: Enhancements, id: nat, chain: seq<nat>)
    requires Constraints(t) && RootAgreement(t) && id in t && Answer(t, id, chain)
    ensures LinkOrder(t, chain) && id in chain
  {
    RootComesFirst(t, id, chain);
    SortedIsLinkedUpTo(t, id, chain, |chain| - 1);
    MembersAreTheClass(t, id, id);
  }

  /** An empty answer, which the repository reports as not found, means the enhancement does not exist. */
  lemma NotFoundExactly(t: Enhancements, id: nat, chain: seq<nat>)
    requires Constraints(t) && RootAgreement(t) && Answer(t, id, chain)
    ensures chain == [] <==> id !in t
  {
    if chain != [] {
      assert chain[0] in chain;
    }
    if id in t {
      SortedIsLinked(t, id, chain);
    }
  }

  lemma LastIsHead(t: Enhancements, id: nat, chain: seq<nat>)
    requires Constraints(t) && RootAgreement(t) && id in t && Answer(t, id, chain) && LinkOrder(t, chain)
    ensures IsHead(t, chain[|chain| - 1])
  {
    forall j | j in t
      ensures t[j].supersedes != Some(chain[|chain| - 1])
    {
      SuccessorIsListed(t, id, chain, j);
    }
  }

  lemma EarlierIsNotHead(t: Enhancements, chain: seq<nat>, k: nat)
    requires LinkOrder(t, chain) && k < |chain| - 1
    ensures !IsHead(t, chain[k])
  {
    assert t[chain[k + 1]].supersedes == Some(chain[k]);
  }

  /** Exactly one member is a head, the last of the list: the head query neither fails nor finds two. */
  lemma OneHead(t: Enhancements, id: nat, chain: seq<nat>, k: nat)
    requires Constraints(t) && RootAgreement(t) && id in t && Answer(t, id, chain) && k < |chain|
    ensures IsHead(t, chain[k]) <==> k == |chain| - 1
  {
    SortedIsLinked(t, id, chain);
    if k == |chain| - 1 {
      LastIsHead(t, id, chain);
    } else {
      EarlierIsNotHead(t, chain, k);
    }
  }

  lemma SuccessorIsListed(t: Enhancements, id: nat, chain: seq<nat>, j: nat)
    requires Constraints(t) && RootAgreement(t) && id in t && Answer(t, id, chain) && j in t && LinkOrder(t, chain)
    ensures t[j].supersedes.Some? && t[j].supersedes.value in chain ==>
      exists k :: 0 <= k < |chain| - 1 && t[j].supersedes == Some(chain[k])
    ensures t[j].supersedes != Some(chain[|chain| - 1])
  {
    if t[j].supersedes.Some? && t[j].supersedes.value in chain {
      assert AgreesAt(t, j);
      MembersAreTheClass(t, id, t[j].supersedes.value);
      MembersAreTheClass(t, id, j);
      var m :| 0 <= m < |chain| && chain[m] == j;
      assert m > 0 && t[chain[m - 1 + 1]].supersedes == Some(chain[m - 1]);
      assert Before(t, chain[m - 1], chain[m]);
      assert m < |chain| - 1 ==> Before(t, chain[m - 1], chain[|chain| - 1]);
    }
  }

  // ----- the constraints alone are not enough -----

  lemma {:induction false} AnswerExists(t: Enhancements, all: set<nat>) returns (chain: seq<nat>)
    requires all <= t.Keys
    ensures forall i :: i in chain <==> i in all
    ensures forall k :: 0 <= k < |chain| ==> chain[k] in t
    ensures forall a, b :: 0 <= a < b < |chain| ==> Before(t, chain[a], chain[b])
  {
    if all == {} {
      chain := [];
    } else {
      var top := Topmost(t, all);
      var rest := AnswerExists(t, all - {top});
      chain := rest + [top];
      assert forall k :: 0 <= k < |rest| ==> rest[k] in all - {top};
    }
  }

  lemma {:induction false} Topmost(t: Enhancements, all: set<nat>) returns (top: nat)
    requires all != {} && all <= t.Keys
    ensures top in all && forall i :: i in all && i != top ==> Before(t, i, top)
  {
    var x :| x in all;
    if all == {x} {
      top := x;
    } else {
      assert all == (all - {x}) + {x};
      var y := Topmost(t, all - {x});
      top := if Before(t, x, y) then y else x;
    }
  }

  /**
    Under the database constraints, the sorted list is the link order for every row exactly when every
    successor carries its predecessor's effective root.
   */
  lemma LinkOrderExactly(t: Enhancements)
    requires Constraints(t)
    ensures RootAgreement(t) <==> forall id, chain :: id in t && Answer(t, id, chain) ==> LinkOrder(t, chain)
  {
    if RootAgreement(t) {
      forall id, chain | id in t && Answer(t, id, chain)
        ensures LinkOrder(t, chain)
      {
        SortedIsLinked(t, id, chain);
      }
    }
    if forall id, chain :: id in t && Answer(t, id, chain) ==> LinkOrder(t, chain) {
      forall i | i in t
        ensures AgreesAt(t, i)
      {
        if t[i].supersedes.Some? {
          var chain := AnswerExists(t, Members(t, i));
          assert Answer(t, i, chain) && LinkOrder(t, chain);
          LinkedAgrees(t, i, chain);
        }
      }
    }
  }

  lemma LinkedAgrees(t: Enhancements, i: nat, chain: seq<nat>)
    requires Constraints(t) && i in t && t[i].supersedes.Some? && Answer(t, i, chain) && LinkOrder(t, chain)
    ensures AgreesAt(t, i)
  {
    var r := EffectiveRoot(t, i);
    assert Checked(i, t[i]);
    assert i in Members(t, i) && chain[0] in chain && chain[0] in Members(t, i);
    assert chain[0] == r;
    var k :| 0 <= k < |chain| && chain[k] == i;
    assert t[chain[k - 1 + 1]].supersedes == Some(chain[k - 1]);
    var p := chain[k - 1];
    assert p in chain && (Checked(p, t[p]) || Legacy(t[p]));
  }

  /** Two roots and a row that supersedes one while naming the other: allowed by every constraint. */
  lemma ConstraintsAloneAreNotEnough()
    ensures exists t: Enhancements :: Constraints(t) && !RootAgreement(t)
  {
    var t: Enhancements := map[1 := Enhancement(None, Some(1)), 2 := Enhancement(None, Some(2)),
      3 := Enhancement(Some(1), Some(2))];
    assert !AgreesAt(t, 3);
    assert Constraints(t);
  }
}
