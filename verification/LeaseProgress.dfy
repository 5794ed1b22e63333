/** What can happen: no reachable state keeps a waiting row from being claimed, or a lease from running its course. */
module LeaseProgress {
  import opened Options
  import opened PendingEnhancements
  import opened Leases
  import opened LeaseInvariant
  import opened LeaseRuns
  import opened LeaseEffects

  /** Any step that is enabled can be taken. */
  lemma Take(h: Past, s: State, st: Step) returns (s': State)
    requires Continues(h, s) && Enabled(s, st)
    ensures Continues(h, s') && s' == Apply(s, st)
  {
    s' := Apply(s, st);
    Continue(h, s, st, s');
  }

  lemma BeginTx(h: Past, s: State, t: nat) returns (s': State)
    requires Continues(h, s) && t !in s.txs
    ensures Continues(h, s') && s' == SetTx(s, t, Idle)
  {
    s' := Take(h, s, Begin(t));
  }

  /** A transaction that has just begun holds nothing. */
  lemma FreeAfterBegin(s: State, t: nat, i: nat)
    requires t !in s.txs
    ensures Free(SetTx(s, t, Idle), i) <==> Free(s, i)
  {
    var s' := SetTx(s, t, Idle);
    if Free(s', i) {
      forall u | u in s.txs
        ensures i !in Locks(s.txs[u])
      {
        assert s'.txs[u] == s.txs[u];
      }
    }
  }

  lemma CommitTx(h: Past, s: State, t: nat) returns (s': State)
    requires Continues(h, s) && CanCommit(s, t)
    ensures Continues(h, s') && s'.rows == s.rows + Writes(s.txs[t]) && s'.txs == s.txs - {t}
  {
    s' := Take(h, s, Commit(t));
  }

  // ----- claiming -----

  /** One row per reference can be kept, a given one among them. */
  lemma {:induction false} Representatives(rows: Table, picked: set<nat>, id: nat) returns (kept: set<nat>)
    requires picked <= rows.Keys && id in picked
    ensures OnePerReference(rows, picked, kept) && id in kept
    decreases picked
  {
    if picked == {id} {
      kept := {id};
    } else {
      var i :| i in picked && i != id;
      var fewer := Representatives(rows, picked - {i}, id);
      kept := AddRepresentative(rows, picked, i, fewer);
    }
  }

  ghost predicate Stands(rows: Table, kept: set<nat>, reference: nat) {
    exists j :: j in kept && j in rows && rows[j].reference == reference
  }

  lemma EveryoneStands(rows: Table, picked: set<nat>, kept: set<nat>, k: nat)
    requires picked <= rows.Keys && OnePerReference(rows, picked, kept) && k in picked
    ensures Stands(rows, kept, rows[k].reference)
  {
  }

  lemma AddRepresentative(rows: Table, picked: set<nat>, i: nat, fewer: set<nat>) returns (kept: set<nat>)
    requires picked <= rows.Keys && i in picked && OnePerReference(rows, picked - {i}, fewer)
    ensures OnePerReference(rows, picked, kept) && fewer <= kept
  {
    kept := if Stands(rows, fewer, rows[i].reference) then fewer else fewer + {i};
    forall k | k in picked
      ensures exists j :: j in kept && rows[j].reference == rows[k].reference
    {
      if k != i {
        EveryoneStands(rows, picked - {i}, fewer, k);
        var j :| j in fewer && j in rows && rows[j].reference == rows[k].reference;
        assert j in kept;
      } else if kept == fewer {
        var j :| j in fewer && j in rows && rows[j].reference == rows[k].reference;
      } else {
        assert i in kept;
      }
    }
    NoTwoStand(rows, picked, i, fewer, kept);
  }

  lemma NoTwoStand(rows: Table, picked: set<nat>, i: nat, fewer: set<nat>, kept: set<nat>)
    requires picked <= rows.Keys && i in picked && OnePerReference(rows, picked - {i}, fewer)
    requires kept == if Stands(rows, fewer, rows[i].reference) then fewer else fewer + {i}
    ensures kept <= picked
    ensures forall a, b :: a in kept && b in kept && rows[a].reference == rows[b].reference ==> a == b
  {
    if kept != fewer {
      assert forall j :: j in fewer ==> rows[j].reference != rows[i].reference;
    }
  }

  lemma SelectAll(h: Past, s: State, t: nat, robot: nat) returns (s': State, picked: set<nat>)
    requires Continues(h, s) && t in s.txs && s.txs[t].Idle?
    ensures Continues(h, s') && s' == SetTx(s, t, Claiming(picked)) && picked == Unclaimed(s, robot)
  {
    picked := Unclaimed(s, robot);
    s' := Take(h, s, ClaimSelect(t, robot, |picked|, picked));
  }

  lemma LeaseKept(h: Past, s: State, t: nat, kept: set<nat>, batch: nat, expiry: int) returns (s': State)
    requires Continues(h, s) && CanClaimUpdate(s, t, kept, batch) && s.now < expiry
    ensures Continues(h, s') && t in s'.txs && s'.txs[t] == ClaimTx(s, t, kept, batch, expiry)
    ensures s'.rows == s.rows && s'.txs.Keys == s.txs.Keys
  {
    ContinuesKeepsInv(h, s);
    ClaimGuardPasses(s, t, kept, batch);
    s' := Take(h, s, ClaimUpdate(t, kept, batch, expiry));
  }

  /** Every waiting row that nobody holds can be claimed by its robot, under any new batch and until any later time. */
  lemma WaitingCanBeClaimed(h: Past, s: State, t: nat, robot: nat, id: nat, batch: nat, expiry: int) returns (s': State)
    requires Continues(h, s) && t !in s.txs && Claimable(s, robot, id) && batch !in s.batches && s.now < expiry
    ensures Continues(h, s') && InLease(s'.rows, id, batch) && s'.rows[id].expiresAt == expiry
  {
    var s1 := BeginTx(h, s, t);
    FreeAfterBegin(s, t, id);
    UnlockedAt(s1, id);
    var s2, picked := SelectAll(h, s1, t, robot);
    s' := ClaimPicked(h, s2, t, picked, id, batch, expiry);
  }

  lemma ClaimPicked(h: Past, s: State, t: nat, picked: set<nat>, id: nat, batch: nat, expiry: int) returns (s': State)
    requires Continues(h, s) && t in s.txs && s.txs[t] == Claiming(picked) && id in picked && picked <= s.rows.Keys
    requires batch !in s.batches && s.now < expiry
    ensures Continues(h, s') && InLease(s'.rows, id, batch) && s'.rows[id].expiresAt == expiry
  {
    var kept := Representatives(s.rows, picked, id);
    var s3 := LeaseKept(h, s, t, kept, batch, expiry);
    s' := CommitTx(h, s3, t);
    LeasedRow(s, t, kept, batch, expiry, id);
  }

  lemma LeasedRow(s: State, t: nat, kept: set<nat>, batch: nat, expiry: int, id: nat)
    requires CanClaimUpdate(s, t, kept, batch) && id in kept
    ensures var w := Writes(ClaimTx(s, t, kept, batch, expiry)); InLease(w, id, batch) && w[id].expiresAt == expiry
  {
  }

  // ----- renewing -----

  lemma RenewTxTaken(h: Past, s: State, t: nat, batch: nat, expiry: int) returns (s': State)
    requires Continues(h, s) && CanRenew(s, t, batch) && s.now < expiry
    ensures Continues(h, s') && s' == SetTx(s, t, RenewTx(s, batch, expiry))
  {
    s' := Take(h, s, Renew(t, batch, expiry));
  }

  ghost predicate AllFree(s: State, ids: set<nat>) {
    forall i :: i in ids ==> Free(s, i)
  }

  /** Rows that are free one by one are free together, also for a transaction that holds nothing yet. */
  lemma FreeTogether(s: State, s': State, t: nat, ids: set<nat>)
    requires t !in s.txs && AllFree(s, ids) && t in s'.txs && Locks(s'.txs[t]) == {}
    requires forall u :: u in s'.txs && u != t ==> u in s.txs && s'.txs[u] == s.txs[u]
    ensures Unlocked(s', ids)
  {
    forall u | u in s'.txs
      ensures ids !! Locks(s'.txs[u])
    {
      forall i | i in ids
        ensures i !in Locks(s'.txs[u])
      {
        assert Free(s, i);
      }
    }
  }

  /** Every committed batch whose leased rows nobody holds can be renewed, and all of them get the new expiry. */
  lemma LeaseCanBeRenewed(h: Past, s: State, t: nat, batch: nat, expiry: int, r: nat) returns (s': State)
    requires Continues(h, s) && t !in s.txs && s.now < expiry && r in s.rows && s.rows[r].batch == Some(batch)
    requires forall i :: InLease(s.rows, i, batch) ==> Free(s, i)
    ensures Continues(h, s') && s'.rows.Keys == s.rows.Keys
    ensures forall i :: i in s.rows ==> RenewedTo(s.rows[i], s'.rows[i], InLease(s.rows, i, batch), expiry)
  {
    var s1 := BeginTx(h, s, t);
    assert r in Members(s1.rows, batch);
    assert forall i :: i in Leased(s.rows, batch) ==> InLease(s.rows, i, batch);
    FreeTogether(s, s1, t, Leased(s.rows, batch));
    var s2 := RenewTxTaken(h, s1, t, batch, expiry);
    s' := CommitTx(h, s2, t);
    RenewWrites(s1, batch, expiry, s.rows);
  }

  // ----- moving on -----

  ghost predicate MayMove(s: State, ids: set<nat>, target: Status) {
    && ids <= s.rows.Keys && Settling(target) && (target.Importing? ==> WholeBatch(s.rows, ids)) && AllFree(s, ids)
    && forall i :: i in ids ==> CanTransition(s.rows[i].status, target)
  }

  lemma GuardTaken(h: Past, s: State, t: nat, ids: set<nat>, target: Status) returns (s': State)
    requires Continues(h, s) && CanGuard(s, t, ids, target) && GuardPasses(s.rows, ids, target)
    ensures Continues(h, s') && s' == SetTx(s, t, Guarding(ids, target))
  {
    s' := Take(h, s, Guard(t, ids, target));
  }

  lemma UpdateTaken(h: Past, s: State, t: nat) returns (s': State)
    requires Continues(h, s) && CanUpdate(s, t)
    ensures Continues(h, s') && s' == SetTx(s, t, UpdateTx(s, s.txs[t]))
  {
    s' := Take(h, s, Update(t));
  }

  /** Rows that nobody holds can be moved wherever the transition table leads; to IMPORTING as a whole batch. */
  lemma RowsCanMove(h: Past, s: State, t: nat, ids: set<nat>, target: Status) returns (s': State)
    requires Continues(h, s) && t !in s.txs && MayMove(s, ids, target)
    ensures Continues(h, s') && s'.rows.Keys == s.rows.Keys && s'.txs == s.txs
    ensures forall i :: i in s.rows ==> MovedTo(s.rows[i], s'.rows[i], i in ids, target)
  {
    var s1 := BeginTx(h, s, t);
    var s2 := GuardTaken(h, s1, t, ids, target);
    FreeTogether(s, s2, t, ids);
    s' := UpdateCommitted(h, s2, t);
  }

  lemma UpdateCommitted(h: Past, s: State, t: nat) returns (s': State)
    requires Continues(h, s) && CanUpdate(s, t) && s.txs[t].ids <= s.rows.Keys
    ensures Continues(h, s') && s'.rows.Keys == s.rows.Keys && s'.txs == s.txs - {t}
    ensures forall i :: i in s.rows ==> MovedTo(s.rows[i], s'.rows[i], i in s.txs[t].ids, s.txs[t].target)
  {
    var next := UpdateTaken(h, s, t);
    s' := CommitTx(h, next, t);
    UpdateWrites(s, s.txs[t], s.rows);
  }

  /** A whole batch in one status, with nobody holding any of its rows. */
  ghost predicate Together(s: State, ids: set<nat>, status: Status) {
    && ids <= s.rows.Keys && WholeBatch(s.rows, ids) && AllFree(s, ids)
    && forall i :: i in ids ==> s.rows[i].status == status
  }

  lemma BatchCanMove(h: Past, s: State, t: nat, ids: set<nat>, from: Status, target: Status) returns (s': State)
    requires Continues(h, s) && t !in s.txs && Together(s, ids, from)
    requires CanTransition(from, target) && !from.Pending? && !target.Expired?
    ensures Continues(h, s') && s'.txs == s.txs && Together(s', ids, target)
    ensures s'.rows.Keys == s.rows.Keys && forall i :: i in s.rows && i !in ids ==> s'.rows[i] == s.rows[i]
  {
    SettlingExactly(target);
    s' := RowsCanMove(h, s, t, ids, target);
    StayTogether(s, s', ids, from, target);
    assert forall i :: i in s.rows && i !in ids ==> MovedTo(s.rows[i], s'.rows[i], false, target);
  }

  lemma StayTogether(s: State, s': State, ids: set<nat>, from: Status, target: Status)
    requires Together(s, ids, from) && s'.rows.Keys == s.rows.Keys && s'.txs == s.txs
    requires forall i :: i in s.rows ==> MovedTo(s.rows[i], s'.rows[i], i in ids, target)
    ensures Together(s', ids, target)
  {
    var batch :| ids == Members(s.rows, batch);
    assert Members(s'.rows, batch) == ids;
    forall i | i in ids
      ensures Free(s', i) && s'.rows[i].status == target
    {
      assert Free(s, i) && MovedTo(s.rows[i], s'.rows[i], true, target);
    }
  }

  /** A leased batch that nobody holds can live every life that the table gives it, short of expiring. */
  lemma {:induction false} BatchCanLive(h: Past, s: State, t: nat, ids: set<nat>, life: seq<Status>)
      returns (s': State)
    requires Continues(h, s) && t !in s.txs && life != [] && Together(s, ids, life[0])
    requires Permitted(life) && Pending !in life && Expired !in life
    ensures Continues(h, s') && Together(s', ids, life[|life| - 1])
    ensures s'.rows.Keys == s.rows.Keys && forall i :: i in s.rows && i !in ids ==> s'.rows[i] == s.rows[i]
    decreases |life|
  {
    s' := s;
    if |life| > 1 {
      var next := BatchCanMove(h, s, t, ids, life[0], life[1]);
      s' := BatchCanLive(h, next, t, ids, life[1..]);
    }
  }

  // ----- expiring -----

  lemma {:induction false} AboveSet(ids: set<nat>) returns (above: nat)
    ensures forall i :: i in ids ==> i < above
  {
    if ids == {} {
      above := 0;
    } else {
      var i :| i in ids;
      var rest := AboveSet(ids - {i});
      above := if i < rest then rest else i + 1;
      assert forall j :: j in ids ==> j == i || j in ids - {i};
    }
  }

  function AllLocks(s: State): set<nat> {
    set t, i | t in s.txs && i in Locks(s.txs[t]) :: i
  }

  /** There are always new ids for the replacements. */
  lemma HeirsExist(s: State, marked: set<nat>) returns (heirs: map<nat, nat>)
    ensures forall p :: p in heirs <==> p in marked && Retriable(s.rows, p, s.maxRetries)
    ensures FreshIds(s, heirs.Values)
    ensures forall p, q :: p in heirs && q in heirs && heirs[p] == heirs[q] ==> p == q
  {
    var above := AboveSet(s.rows.Keys + AllLocks(s));
    ghost var retriable := set p | p in marked && Retriable(s.rows, p, s.maxRetries);
    heirs := map p | p in retriable :: above + p;
    forall i | i in heirs.Values
      ensures i !in s.rows && i !in AllLocks(s)
    {
      var p :| p in heirs && heirs[p] == i;
    }
    forall u | u in s.txs
      ensures heirs.Values !! Locks(s.txs[u])
    {
      assert forall i :: i in Locks(s.txs[u]) ==> i in AllLocks(s);
    }
  }

  lemma ExpireAll(h: Past, s: State, t: nat) returns (s': State, marked: set<nat>)
    requires Continues(h, s) && t in s.txs && s.txs[t].Idle?
    ensures Continues(h, s') && s' == SetTx(s, t, Expiring(marked)) && marked == Stale(s)
  {
    marked := Stale(s);
    s' := Take(h, s, Expire(t, |marked|, marked));
  }

  lemma ReplaceTaken(h: Past, s: State, t: nat, heirs: map<nat, nat>) returns (s': State)
    requires Continues(h, s) && CanReplace(s, t, heirs)
    ensures Continues(h, s') && s' == SetTx(s, t, ReplaceTx(s, s.txs[t].marked, heirs))
  {
    s' := Take(h, s, Replace(t, heirs));
  }

  ghost predicate HasReplacement(rows: Table, id: nat, was: Row, now: int) {
    exists r :: r in rows && IsReplacement(rows[r], id, was, now)
  }

  lemma ExpireMarked(h: Past, s: State, t: nat, marked: set<nat>, id: nat) returns (s': State)
    requires Continues(h, s) && t in s.txs && s.txs[t] == Expiring(marked) && marked <= s.rows.Keys && id in marked
    ensures Continues(h, s') && id in s'.rows && s'.rows[id].status.Expired?
    ensures Retriable(s.rows, id, s.maxRetries) ==> HasReplacement(s'.rows, id, s.rows[id], s.now)
  {
    var heirs := HeirsExist(s, marked);
    var s3 := ReplaceTaken(h, s, t, heirs);
    s' := CommitTx(h, s3, t);
    ReplaceWrites(s, t, heirs, s.rows);
    assert OldRowExpires(s.rows, s'.rows, marked, id);
    if Retriable(s.rows, id, s.maxRetries) {
      assert HeirAdded(s.rows, s'.rows, heirs, id, s.now);
    }
  }

  /** Every overdue row that nobody holds can be expired; it is replaced if it has retries left. */
  lemma OverdueCanExpire(h: Past, s: State, t: nat, id: nat) returns (s': State)
    requires Continues(h, s) && t !in s.txs && Overdue(s, id)
    ensures Continues(h, s') && id in s'.rows && s'.rows[id].status.Expired?
    ensures Retriable(s.rows, id, s.maxRetries) ==> HasReplacement(s'.rows, id, s.rows[id], s.now)
  {
    var s1 := BeginTx(h, s, t);
    FreeAfterBegin(s, t, id);
    UnlockedAt(s1, id);
    var s2, marked := ExpireAll(h, s1, t);
    s' := ExpireMarked(h, s2, t, marked, id);
  }

  /** A lease that nobody renews runs out, however long it was granted for. */
  lemma LeaseCanRunOut(h: Past, s: State, t: nat, id: nat, batch: nat) returns (s': State)
    requires Continues(h, s) && t !in s.txs && InLease(s.rows, id, batch) && Free(s, id)
    ensures Continues(h, s') && id in s'.rows && s'.rows[id].status.Expired?
    ensures Retriable(s.rows, id, s.maxRetries) ==> exists now :: HasReplacement(s'.rows, id, s.rows[id], now)
  {
    var elapsed: nat := if s.rows[id].expiresAt < s.now then 0 else s.rows[id].expiresAt - s.now + 1;
    var later := Take(h, s, Tick(elapsed));
    assert Overdue(later, id);
    s' := OverdueCanExpire(h, later, t, id);
    assert Retriable(s.rows, id, s.maxRetries) ==> HasReplacement(s'.rows, id, s.rows[id], later.now);
  }

  // ----- giving up -----

  /** An open transaction can always be given up; it then leaves no trace. */
  lemma CanGiveUp(h: Past, s: State, t: nat) returns (s': State)
    requires Continues(h, s) && t in s.txs
    ensures Continues(h, s') && s'.txs == s.txs - {t} && s'.rows == s.rows
  {
    s' := Take(h, s, Abort(t));
  }

  // ----- creating -----

  /** A row whose key is free and not being inserted by another can be created. */
  lemma OriginalCanBeCreated(h: Past, s: State, t: nat, id: nat, reference: nat, robot: nat, request: Option<nat>,
                             source: Option<nat>) returns (s': State)
    requires Continues(h, s) && t !in s.txs && FreshIds(s, {id}) && !KeyTaken(s.rows, request, reference)
    requires forall u :: u in s.txs ==> !KeyTaken(Writes(s.txs[u]), request, reference)
    ensures Continues(h, s') && id in s'.rows && IsNewOriginal(s'.rows[id], reference, robot, request, source, s.now)
    ensures forall i :: i in s.rows ==> i in s'.rows && s'.rows[i] == s.rows[i]
  {
    var s1 := BeginTx(h, s, t);
    NotBlocked(s, s1, t, request, reference);
    UnlockedAt(s, id);
    FreeAfterBegin(s, t, id);
    UnlockedAt(s1, id);
    s' := InsertAlone(h, s1, t, id, reference, robot, request, source);
  }

  lemma InsertAlone(h: Past, s: State, t: nat, id: nat, reference: nat, robot: nat, request: Option<nat>,
                    source: Option<nat>) returns (s': State)
    requires Continues(h, s) && CanInsert(s, t, id, reference, request) && s.txs[t].Idle?
    requires !KeyTaken(s.rows, request, reference)
    ensures Continues(h, s') && id in s'.rows && IsNewOriginal(s'.rows[id], reference, robot, request, source, s.now)
    ensures forall i :: i in s.rows ==> i in s'.rows && s'.rows[i] == s.rows[i]
  {
    var s2 := Take(h, s, Insert(t, id, reference, robot, request, source));
    InsertExactly(s, t, id, reference, robot, request, source);
    assert s2.txs[t].inserted - {id} == map[];
    s' := CommitTx(h, s2, t);
  }

  lemma NotBlocked(s: State, s1: State, t: nat, request: Option<nat>, reference: nat)
    requires t !in s.txs && s1 == SetTx(s, t, Idle)
    requires forall u :: u in s.txs ==> !KeyTaken(Writes(s.txs[u]), request, reference)
    ensures !InsertBlocked(s1, t, request, reference)
  {
    forall u | u in s1.txs && u != t
      ensures !Conflict(Writes(s1.txs[u]), request, reference)
    {
      TakenIsConflict(Writes(s.txs[u]), request, reference);
    }
  }
}
