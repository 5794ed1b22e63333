/** Claiming a batch from the table, the one-row-per-reference adapter, and the retry-depth query. */
module Claims {
  import opened Options
  import opened PendingEnhancements
  import opened Leases

  datatype Picked = Picked(id: nat, reference: nat)

  predicate First(pes: seq<Picked>, i: nat)
    requires i < |pes|
  {
    forall j :: 0 <= j < i ==> pes[j].reference != pes[i].reference
  }

  ghost predicate FirstOf(pes: seq<Picked>, p: Picked) {
    exists i :: 0 <= i < |pes| && pes[i] == p && First(pes, i)
  }

  ghost predicate Covers(out: seq<Picked>, reference: nat) {
    exists k :: 0 <= k < |out| && out[k].reference == reference
  }

  predicate DistinctReferences(d: seq<Picked>) {
    forall a, b :: 0 <= a < b < |d| ==> d[a].reference != d[b].reference
  }

  function IndexOf(d: seq<Picked>, reference: nat): (k: nat)
    ensures k <= |d| && (k < |d| ==> d[k].reference == reference)
    ensures forall j :: 0 <= j < k ==> d[j].reference != reference
  {
    if d == [] || d[0].reference == reference then 0 else 1 + IndexOf(d[1..], reference)
  }

  /** Assignment to an insertion-ordered dictionary keyed by reference. */
  function Put(d: seq<Picked>, p: Picked): seq<Picked> {
    var k := IndexOf(d, p.reference);
    if k < |d| then d[k := p] else d + [p]
  }

  /** The dictionary comprehension over the reversed list: the first row of each reference is stored last. */
  function Dedup(pes: seq<Picked>): seq<Picked> {
    if pes == [] then [] else Put(Dedup(pes[1..]), pes[0])
  }

  lemma PutEffect(d: seq<Picked>, p: Picked)
    ensures var k, out := IndexOf(d, p.reference), Put(d, p);
            k < |out| && out[k] == p && |d| <= |out| <= |d| + 1
            && forall j :: 0 <= j < |out| && j != k ==> j < |d| && out[j] == d[j]
    ensures DistinctReferences(d) ==> DistinctReferences(Put(d, p))
  {
    var k, out := IndexOf(d, p.reference), Put(d, p);
    if DistinctReferences(d) && k < |d| {
      assert forall j :: 0 <= j < |d| && j != k ==> d[j].reference != p.reference;
    }
  }

  lemma {:induction false} DedupIsDistinct(pes: seq<Picked>)
    ensures DistinctReferences(Dedup(pes))
  {
    if pes != [] {
      DedupIsDistinct(pes[1..]);
      PutEffect(Dedup(pes[1..]), pes[0]);
    }
  }

  /** Every kept row is the earliest of its reference. */
  lemma {:induction false} DedupKeepsEarliest(pes: seq<Picked>, k: nat)
    requires k < |Dedup(pes)|
    ensures FirstOf(pes, Dedup(pes)[k])
  {
    var rest, d := pes[1..], Dedup(pes[1..]);
    PutEffect(d, pes[0]);
    if k == IndexOf(d, pes[0].reference) {
      assert First(pes, 0);
    } else {
      DedupKeepsEarliest(rest, k);
      var i :| 0 <= i < |rest| && rest[i] == d[k] && First(rest, i);
      DedupIsDistinct(rest);
      assert d[k].reference != pes[0].reference;
      assert pes[i + 1] == rest[i] && First(pes, i + 1);
    }
  }

  /** And every reference keeps a row. */
  lemma {:induction false} DedupCoversAll(pes: seq<Picked>, i: nat)
    requires i < |pes|
    ensures Covers(Dedup(pes), pes[i].reference)
  {
    var rest, d, out := pes[1..], Dedup(pes[1..]), Dedup(pes);
    PutEffect(d, pes[0]);
    var at := IndexOf(d, pes[0].reference);
    assert out[at] == pes[0];
    if i > 0 {
      DedupCoversAll(rest, i - 1);
      assert pes[i] == rest[i - 1];
      var k :| 0 <= k < |d| && d[k].reference == pes[i].reference;
      assert k != at ==> out[k] == d[k];
    }
  }

  method EarliestPerReference(pes: seq<Picked>) returns (out: seq<Picked>)
    ensures out == Dedup(pes)
  {
    out := [];
    var i := |pes|;
    while i > 0
      invariant 0 <= i <= |pes| && out == Dedup(pes[i..])
    {
      i := i - 1;
      assert pes[i..][1..] == pes[i + 1..];
      out := Put(out, pes[i]);
    }
    assert pes[0..] == pes;
  }

  // ----- claiming, one transaction at a time -----

  function Claimable(rows: Table, robot: nat): set<nat> {
    set i | i in rows && Available(rows[i], robot)
  }

  ghost predicate Oldest(rows: Table, all: set<nat>, i: nat) {
    i in all && all <= rows.Keys && forall j :: j in all ==> rows[i].createdAt <= rows[j].createdAt
  }

  lemma {:induction false} OldestExists(rows: Table, all: set<nat>)
    requires all != {} && all <= rows.Keys
    ensures exists i :: Oldest(rows, all, i)
  {
    var i :| i in all;
    if all == {i} {
      assert Oldest(rows, all, i);
    } else {
      var rest := all - {i};
      assert all == rest + {i};
      OldestExists(rows, rest);
      var o :| Oldest(rows, rest, o);
      assert Oldest(rows, all, if rows[i].createdAt <= rows[o].createdAt then i else o);
    }
  }

  function Ids(pes: seq<Picked>): set<nat> {
    set k | 0 <= k < |pes| :: pes[k].id
  }

  ghost predicate Describes(rows: Table, pes: seq<Picked>) {
    && (forall k :: 0 <= k < |pes| ==> pes[k].id in rows && pes[k].reference == rows[pes[k].id].reference)
    && (forall a, b :: 0 <= a < b < |pes| ==> pes[a].id != pes[b].id)
  }

  /** Dropping a later row for the same reference keeps exactly one row per picked reference. */
  lemma KeptIsOnePerReference(rows: Table, found: seq<Picked>, out: seq<Picked>)
    requires Describes(rows, found) && DistinctReferences(out)
    requires forall k :: 0 <= k < |out| ==> FirstOf(found, out[k])
    requires forall i :: 0 <= i < |found| ==> Covers(out, found[i].reference)
    ensures Ids(found) <= rows.Keys && OnePerReference(rows, Ids(found), Ids(out))
    ensures found != [] ==> Ids(out) != {}
  {
    forall i | i in Ids(found)
      ensures exists j :: j in Ids(out) && rows[j].reference == rows[i].reference
    {
      var k :| 0 <= k < |found| && found[k].id == i;
      var l :| 0 <= l < |out| && out[l].reference == found[k].reference;
      assert FirstOf(found, out[l]);
      assert out[l].id in Ids(out);
    }
    forall i | i in Ids(out)
      ensures i in Ids(found) && exists l :: 0 <= l < |out| && out[l].id == i && out[l].reference == rows[i].reference
    {
      var l :| 0 <= l < |out| && out[l].id == i;
      assert FirstOf(found, out[l]);
    }
    if found != [] {
      assert found[0].id in Ids(found);
    }
  }

  ghost predicate OldestFirst(rows: Table, all: set<nat>, found: seq<Picked>) {
    && all <= rows.Keys && Ids(found) <= all
    && forall k, j :: 0 <= k < |found| && j in all - Ids(found[..k]) ==>
      rows[found[k].id].createdAt <= rows[j].createdAt
  }

  lemma AppendOldest(rows: Table, all: set<nat>, found: seq<Picked>, i: nat)
    requires OldestFirst(rows, all, found) && Describes(rows, found) && Oldest(rows, all - Ids(found), i)
    ensures var found' := found + [Picked(i, rows[i].reference)];
            OldestFirst(rows, all, found') && Describes(rows, found') && Ids(found') == Ids(found) + {i}
  {
    var p := Picked(i, rows[i].reference);
    var found' := found + [p];
    forall k | 0 <= k < |found|
      ensures found'[k] == found[k] && found'[k].id in Ids(found) && found'[..k] == found[..k]
    {
    }
    assert found'[|found|] == p && found'[..|found|] == found;
    assert Ids(found') == Ids(found) + {i};
  }

  /** The claimable rows, oldest first, up to the limit. */
  method FindAvailable(rows: Table, robot: nat, limit: nat) returns (found: seq<Picked>)
    ensures Describes(rows, found) && OldestFirst(rows, Claimable(rows, robot), found) && |found| <= limit
    ensures |found| < limit ==> Ids(found) == Claimable(rows, robot)
  {
    found := [];
    var left := Claimable(rows, robot);
    while |found| < limit && left != {}
      invariant Describes(rows, found) && OldestFirst(rows, Claimable(rows, robot), found) && |found| <= limit
      invariant left == Claimable(rows, robot) - Ids(found)
      decreases left
    {
      OldestExists(rows, left);
      var i :| i in left && forall j :: j in left ==> rows[i].createdAt <= rows[j].createdAt;
      AppendOldest(rows, Claimable(rows, robot), found, i);
      found := found + [Picked(i, rows[i].reference)];
      left := left - {i};
    }
    assert forall i :: i in Claimable(rows, robot) ==> i in left || i in Ids(found);
  }

  /** Every kept row is at least as old as the picked rows it stands for. */
  ghost predicate KeepsOldest(rows: Table, picked: set<nat>, kept: set<nat>) {
    forall i, j :: i in kept && j in picked && i in rows && j in rows && rows[i].reference == rows[j].reference ==>
      rows[i].createdAt <= rows[j].createdAt
  }

  /** The picked rows are the oldest of all, and all of them unless the limit is reached. */
  ghost predicate PicksOldest(rows: Table, all: set<nat>, picked: set<nat>, limit: nat)
    requires all <= rows.Keys
  {
    && picked <= all && |picked| <= limit && (|picked| < limit ==> picked == all)
    && forall i, j :: i in picked && j in all - picked ==> rows[i].createdAt <= rows[j].createdAt
  }

  lemma FirstIsOldest(rows: Table, all: set<nat>, found: seq<Picked>, p: Picked, q: Picked)
    requires Describes(rows, found) && OldestFirst(rows, all, found)
    requires FirstOf(found, p) && q in found && p.reference == q.reference
    ensures p.id in rows && q.id in rows && rows[p.id].createdAt <= rows[q.id].createdAt
  {
    var a :| 0 <= a < |found| && found[a] == p && First(found, a);
    var b :| 0 <= b < |found| && found[b] == q;
    assert a <= b;
    assert found[b].id in Ids(found);
    assert found[b].id !in Ids(found[..a]);
  }

  lemma KeptAreOldest(rows: Table, all: set<nat>, found: seq<Picked>, out: seq<Picked>)
    requires Describes(rows, found) && OldestFirst(rows, all, found)
    requires forall k :: 0 <= k < |out| ==> FirstOf(found, out[k])
    ensures KeepsOldest(rows, Ids(found), Ids(out))
  {
    forall i, j | i in Ids(out) && j in Ids(found) && i in rows && j in rows && rows[i].reference == rows[j].reference
      ensures rows[i].createdAt <= rows[j].createdAt
    {
      var k :| 0 <= k < |out| && out[k].id == i;
      var l :| 0 <= l < |found| && found[l].id == j;
      assert FirstOf(found, out[k]);
      FirstIsOldest(rows, all, found, out[k], found[l]);
    }
  }

  lemma FoundAreOldest(rows: Table, all: set<nat>, found: seq<Picked>, limit: nat)
    requires OldestFirst(rows, all, found) && Describes(rows, found) && |found| <= limit
    requires |found| < limit ==> Ids(found) == all
    ensures PicksOldest(rows, all, Ids(found), limit)
  {
    PickedSize(found);
    forall i, j | i in Ids(found) && j in all - Ids(found)
      ensures rows[i].createdAt <= rows[j].createdAt
    {
      var k :| 0 <= k < |found| && found[k].id == i;
      assert j !in Ids(found[..k]);
    }
  }

  /** Select and deduplicate: what a claim will lease. */
  method Pick(rows: Table, robot: nat, limit: nat) returns (picked: set<nat>, kept: set<nat>)
    ensures PicksOldest(rows, Claimable(rows, robot), picked, limit)
    ensures OnePerReference(rows, picked, kept) && KeepsOldest(rows, picked, kept)
    ensures kept == {} <==> limit == 0 || Claimable(rows, robot) == {}
  {
    var found := FindAvailable(rows, robot, limit);
    FoundAreOldest(rows, Claimable(rows, robot), found, limit);
    var out := EarliestPerReference(found);
    DedupIsDistinct(found);
    forall k | 0 <= k < |out| ensures FirstOf(found, out[k]) { DedupKeepsEarliest(found, k); }
    forall i | 0 <= i < |found| ensures Covers(out, found[i].reference) { DedupCoversAll(found, i); }
    KeptIsOnePerReference(rows, found, out);
    KeptAreOldest(rows, Claimable(rows, robot), found, out);
    picked, kept := Ids(found), Ids(out);
  }

  predicate Taken(r: Row, low: nat, high: nat) {
    r.status.Processing? && r.batch.Some? && low <= r.batch.value < high
  }

  predicate ClaimedOrSame(a: Row, b: Row, robot: nat, low: nat, high: nat) {
    a == b || (Available(a, robot) && Taken(b, low, high) && SameWork(a, b))
  }

  /** The rows claimed since `start`, under batches low to high: leased, once each, no reference twice in a batch. */
  ghost predicate ClaimedSince(start: Table, rows: Table, robot: nat, low: nat, high: nat) {
    && rows.Keys == start.Keys && low <= high
    && (forall i :: i in rows ==> ClaimedOrSame(start[i], rows[i], robot, low, high))
    && DistinctTaken(start, rows, robot)
  }

  ghost predicate DistinctTaken(start: Table, rows: Table, robot: nat)
    requires rows.Keys == start.Keys
  {
    forall i, j | i in rows && j in rows && i != j && Available(start[i], robot) && Available(start[j], robot) ::
      SameBatch(rows[i], rows[j]) ==> rows[i].reference != rows[j].reference
  }

  lemma ClaimStaysDistinct(start: Table, rows: Table, robot: nat, low: nat, batch: nat, picked: set<nat>,
                           kept: set<nat>, expiry: int)
    requires ClaimedSince(start, rows, robot, low, batch)
    requires picked <= Claimable(rows, robot) && OnePerReference(rows, picked, kept)
    ensures DistinctTaken(start, rows + Leasing(rows, kept, batch, expiry), robot)
  {
    var leased := Leasing(rows, kept, batch, expiry);
    var after := rows + leased;
    forall i, j | i in after && j in after && i != j && Available(start[i], robot) && Available(start[j], robot)
                  && SameBatch(after[i], after[j])
      ensures after[i].reference != after[j].reference
    {
      assert ClaimedOrSame(start[i], rows[i], robot, low, batch) && ClaimedOrSame(start[j], rows[j], robot, low, batch);
      if i in kept && j in kept {
        assert after[i] == leased[i] && after[j] == leased[j];
      } else {
        assert i !in kept && j !in kept;
      }
    }
  }

  lemma ClaimAddsToIt(start: Table, rows: Table, robot: nat, low: nat, batch: nat, picked: set<nat>, kept: set<nat>,
                      expiry: int)
    requires ClaimedSince(start, rows, robot, low, batch)
    requires picked <= Claimable(rows, robot) && OnePerReference(rows, picked, kept)
    ensures ClaimedSince(start, rows + Leasing(rows, kept, batch, expiry), robot, low, batch + 1)
  {
    var after := rows + Leasing(rows, kept, batch, expiry);
    ClaimStaysDistinct(start, rows, robot, low, batch, picked, kept, expiry);
    forall i | i in after
      ensures ClaimedOrSame(start[i], after[i], robot, low, batch + 1)
    {
      assert ClaimedOrSame(start[i], rows[i], robot, low, batch);
    }
  }

  /** The pending-enhancement table as one process sees it while nobody else writes. */
  class PendingStore {
    var rows: Table
    var nextBatch: nat

    /** One claim: select, keep one row per reference, lease the kept rows under a new batch. */
    method Claim(robot: nat, limit: nat, expiry: int) returns (batch: Option<nat>, picked: set<nat>, kept: set<nat>)
      modifies this
      ensures PicksOldest(old(rows), Claimable(old(rows), robot), picked, limit)
      ensures OnePerReference(old(rows), picked, kept) && KeepsOldest(old(rows), picked, kept)
      ensures batch.None? <==> limit == 0 || Claimable(old(rows), robot) == {}
      ensures batch.None? ==> rows == old(rows) && nextBatch == old(nextBatch)
      ensures batch.Some? ==> kept != {} && batch == Some(old(nextBatch)) && nextBatch == old(nextBatch) + 1
      ensures batch.Some? ==> rows == old(rows) + Leasing(old(rows), kept, old(nextBatch), expiry)
    {
      picked, kept := Pick(rows, robot, limit);
      if kept == {} {
        batch := None;
      } else {
        batch := Some(nextBatch);
        rows := rows + Leasing(rows, kept, nextBatch, expiry);
        nextBatch := nextBatch + 1;
      }
    }

    /**
      Repeated claims take every claimable row: each round takes at least one, so there are at most as
      many rounds as rows, and what was not claimable is untouched.
     */
    method Drain(robot: nat, limit: nat, expiry: int) returns (rounds: nat)
      requires limit >= 1
      modifies this
      ensures Claimable(rows, robot) == {}
      ensures rounds <= |Claimable(old(rows), robot)|
      ensures ClaimedSince(old(rows), rows, robot, old(nextBatch), nextBatch)
    {
      rounds := 0;
      var more := true;
      ghost var start, low := rows, nextBatch;
      while more
        invariant ClaimedSince(start, rows, robot, low, nextBatch)
        invariant rounds + |Claimable(rows, robot)| <= |Claimable(start, robot)|
        invariant more || Claimable(rows, robot) == {}
        decreases more, |Claimable(rows, robot)|
      {
        ghost var before, n := rows, nextBatch;
        var batch, picked, kept := Claim(robot, limit, expiry);
        if batch.None? {
          more := false;
        } else {
          ClaimShrinks(before, robot, kept, n, expiry);
          ClaimAddsToIt(start, before, robot, low, n, picked, kept, expiry);
          rounds := rounds + 1;
        }
      }
    }
  }

  lemma ClaimShrinks(rows: Table, robot: nat, kept: set<nat>, batch: nat, expiry: int)
    requires kept <= Claimable(rows, robot) && kept != {}
    ensures Claimable(rows + Leasing(rows, kept, batch, expiry), robot) == Claimable(rows, robot) - kept
    ensures |Claimable(rows, robot) - kept| == |Claimable(rows, robot)| - |kept| && |kept| > 0
  {
    assert Claimable(rows, robot) == (Claimable(rows, robot) - kept) + kept;
  }

  lemma {:induction false} PickedSize(pes: seq<Picked>)
    requires forall a, b :: 0 <= a < b < |pes| ==> pes[a].id != pes[b].id
    ensures |Ids(pes)| == |pes|
  {
    if pes == [] {
      assert Ids(pes) == {};
    } else {
      var n := |pes| - 1;
      PickedSize(pes[..n]);
      assert Ids(pes) == Ids(pes[..n]) + {pes[n].id};
      assert pes[n].id !in Ids(pes[..n]);
    }
  }

  // ----- the recursive depth query -----

  /** `k` more retries lead from the link to an original row. */
  ghost predicate Remaining(rows: Table, link: Option<nat>, k: nat) {
    match link
    case None => k == 0
    case Some(p) => k > 0 && DepthIs(rows, p, k - 1)
  }

  /** `depth` hops have been made from the seed, and `k` more lead to its original. */
  ghost predicate HopsLeft(rows: Table, seed: nat, link: Option<nat>, depth: nat, limit: nat, k: nat) {
    depth + k <= limit && Remaining(rows, link, k) && DepthIs(rows, seed, depth + k)
  }

  ghost predicate OnTheWay(rows: Table, seed: nat, link: Option<nat>, depth: nat, limit: nat) {
    exists k: nat :: HopsLeft(rows, seed, link, depth, limit, k)
  }

  lemma StartOfWalk(rows: Table, seed: nat, limit: nat)
    requires seed in rows && HasDepth(rows, seed, limit)
    ensures OnTheWay(rows, seed, rows[seed].retryOf, 0, limit)
  {
    var n: nat :| n <= limit && DepthIs(rows, seed, n);
    assert HopsLeft(rows, seed, rows[seed].retryOf, 0, limit, n);
  }

  lemma OneMoreHop(rows: Table, seed: nat, p: nat, depth: nat, limit: nat)
    requires OnTheWay(rows, seed, Some(p), depth, limit)
    ensures p in rows && OnTheWay(rows, seed, rows[p].retryOf, depth + 1, limit)
  {
    var k: nat :| HopsLeft(rows, seed, Some(p), depth, limit, k);
    assert HopsLeft(rows, seed, rows[p].retryOf, depth + 1, limit, k - 1);
  }

  lemma NoMoreHops(rows: Table, seed: nat, depth: nat, limit: nat)
    requires OnTheWay(rows, seed, None, depth, limit)
    ensures DepthIs(rows, seed, depth)
  {
    var k: nat :| HopsLeft(rows, seed, None, depth, limit, k);
  }

  /** The recursive term of the query: each working row joined to the row its link names. */
  function Joined(rows: Table, working: map<nat, Option<nat>>): map<nat, Option<nat>> {
    map id | id in working && working[id].Some? && working[id].value in rows :: rows[working[id].value].retryOf
  }

  ghost predicate Walking(rows: Table, working: map<nat, Option<nat>>, depth: nat, limit: nat) {
    forall id :: id in working ==> OnTheWay(rows, id, working[id], depth, limit)
  }

  /** The base term: the asked-for rows, each with its own link. */
  function Seeds(rows: Table, ids: set<nat>): map<nat, Option<nat>> {
    map id | id in ids && id in rows :: rows[id].retryOf
  }

  lemma StartWalking(rows: Table, ids: set<nat>, limit: nat)
    requires BoundedDepth(rows, limit)
    ensures Walking(rows, Seeds(rows, ids), 0, limit)
  {
    forall id | id in Seeds(rows, ids)
      ensures OnTheWay(rows, id, Seeds(rows, ids)[id], 0, limit)
    {
      StartOfWalk(rows, id, limit);
    }
  }

  ghost predicate Settled(rows: Table, depths: map<nat, nat>, working: map<nat, Option<nat>>, limit: nat) {
    forall id :: id in depths && id !in working ==> depths[id] <= limit && DepthIs(rows, id, depths[id])
  }

  lemma Round(rows: Table, working: map<nat, Option<nat>>, depth: nat, limit: nat)
    requires Walking(rows, working, depth, limit)
    ensures working != map[] ==> depth <= limit
    ensures forall id :: id in working && id !in Joined(rows, working) ==> DepthIs(rows, id, depth)
    ensures Walking(rows, Joined(rows, working), depth + 1, limit)
  {
    forall id | id in working
      ensures depth <= limit
      ensures id !in Joined(rows, working) ==> DepthIs(rows, id, depth)
      ensures id in Joined(rows, working) ==> OnTheWay(rows, id, Joined(rows, working)[id], depth + 1, limit)
    {
      assert OnTheWay(rows, id, working[id], depth, limit);
      if working[id].Some? {
        OneMoreHop(rows, id, working[id].value, depth, limit);
      } else {
        NoMoreHops(rows, id, depth, limit);
      }
    }
    if working != map[] {
      var id :| id in working;
    }
  }

  ghost predicate AtDepth(depths: map<nat, nat>, working: map<nat, Option<nat>>, depth: nat) {
    working.Keys <= depths.Keys && forall id :: id in working ==> depths[id] == depth
  }

  function Deepened(depths: map<nat, nat>, joined: map<nat, Option<nat>>, depth: nat): map<nat, nat> {
    map id | id in depths :: if id in joined then depth else depths[id]
  }

  /** After a round the seeds still joined are one deeper, and the others have reached their original. */
  lemma RoundSettles(rows: Table, depths: map<nat, nat>, working: map<nat, Option<nat>>, depth: nat, limit: nat)
    requires Walking(rows, working, depth, limit) && AtDepth(depths, working, depth)
      && Settled(rows, depths, working, limit)
    ensures var joined := Joined(rows, working); var deeper := Deepened(depths, joined, depth + 1);
            AtDepth(deeper, joined, depth + 1) && Settled(rows, deeper, joined, limit)
  {
    var joined := Joined(rows, working);
    Round(rows, working, depth, limit);
    forall id | id in depths && id !in joined
      ensures depths[id] <= limit && DepthIs(rows, id, depths[id])
    {
      assert id in working ==> DepthIs(rows, id, depth);
    }
  }

  /**
    The recursive query: a working set of (seed, link) at a common depth, joined to the table round
    by round. Under the chain bound that every reachable table has, it ends and yields each seed's
    distance to its original row.
   */
  method RetryDepths(rows: Table, ids: set<nat>, ghost limit: nat) returns (depths: map<nat, nat>)
    requires BoundedDepth(rows, limit)
    ensures depths.Keys == ids * rows.Keys
    ensures forall id :: id in depths ==> depths[id] <= limit && DepthIs(rows, id, depths[id])
  {
    var working := Seeds(rows, ids);
    depths := map id | id in ids && id in rows :: 0;
    var depth := 0;
    StartWalking(rows, ids, limit);
    while working != map[]
      invariant depths.Keys == ids * rows.Keys
      invariant Walking(rows, working, depth, limit)
      invariant AtDepth(depths, working, depth) && Settled(rows, depths, working, limit)
      decreases limit + 1 - depth
    {
      Round(rows, working, depth, limit);
      RoundSettles(rows, depths, working, depth, limit);
      var joined := Joined(rows, working);
      depth := depth + 1;
      depths := Deepened(depths, joined, depth);
      working := joined;
    }
  }
}
