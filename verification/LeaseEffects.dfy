/**
  What each transaction has done once it commits, said of the rows alone: claims, renewals, expiries,
  guarded updates and inserts, however long the commit waits and whatever happens in between.
 */
module LeaseEffects {
  import opened Options
  import opened PendingEnhancements
  import opened Leases
  import opened LeaseInvariant
  import opened LeaseRuns
  import opened LeaseGuards

  // ----- a transaction stands still between its own steps -----

  /** The last step of `t` before state k is the one at `a`. */
  ghost predicate LastStep(steps: seq<Step>, a: nat, k: nat, t: nat) {
    a < k <= |steps| && Touches(steps[a], t) && forall b :: a < b < k ==> !Touches(steps[b], t)
  }

  predicate SameAt(rows: Table, rows': Table, i: nat) {
    (i in rows' <==> i in rows) && (i in rows ==> rows'[i] == rows[i])
  }

  /** The transaction is unchanged, and so is every row it has locked. */
  ghost predicate Kept(s: State, s': State, t: nat) {
    && t in s.txs && t in s'.txs && s'.txs[t] == s.txs[t]
    && forall i :: i in Locks(s.txs[t]) ==> SameAt(s.rows, s'.rows, i)
  }

  lemma StepKeeps(s: State, st: Step, t: nat)
    requires Inv(s) && Enabled(s, st) && t in s.txs && !Touches(st, t)
    ensures Kept(s, Apply(s, st), t)
  {
    StepKeepsOthers(s, st, t);
    forall i | i in Locks(s.txs[t])
      ensures SameAt(s.rows, Apply(s, st).rows, i)
    {
      StepSparesLocks(s, st, t, i);
    }
  }

  lemma KeptTransitive(a: State, b: State, c: State, t: nat)
    requires Kept(a, b, t) && Kept(b, c, t)
    ensures Kept(a, c, t)
  {
    forall i | i in Locks(a.txs[t])
      ensures SameAt(a.rows, c.rows, i)
    {
      assert SameAt(a.rows, b.rows, i) && SameAt(b.rows, c.rows, i);
    }
  }

  lemma NextKeeps(states: seq<State>, steps: seq<Step>, k: nat, t: nat)
    requires Run(states, steps) && k < |steps| && t in states[k].txs && !Touches(steps[k], t)
    ensures Kept(states[k], states[k + 1], t)
  {
    RunKeepsInv(states, steps, k);
    StepKeeps(states[k], steps[k], t);
  }

  ghost predicate KeepsAt(states: seq<State>, steps: seq<Step>, m: nat, t: nat)
    requires m < |steps| && |states| == |steps| + 1
  {
    t in states[m].txs && !Touches(steps[m], t) ==> Kept(states[m], states[m + 1], t)
  }

  lemma {:induction false} HeldAlong(states: seq<State>, steps: seq<Step>, a: nat, k: nat, t: nat)
    requires |states| == |steps| + 1 && LastStep(steps, a, k, t) && t in states[a + 1].txs
    requires forall m :: 0 <= m < |steps| ==> KeepsAt(states, steps, m, t)
    ensures Kept(states[a + 1], states[k], t)
    decreases k
  {
    if k > a + 1 {
      HeldAlong(states, steps, a, k - 1, t);
      assert KeepsAt(states, steps, k - 1, t);
      KeptTransitive(states[a + 1], states[k - 1], states[k], t);
    }
  }

  /** From its last step on, a transaction and the rows it has locked stay as they are. */
  lemma TxIsHeld(states: seq<State>, steps: seq<Step>, a: nat, k: nat, t: nat)
    requires Run(states, steps) && LastStep(steps, a, k, t) && t in states[a + 1].txs
    ensures Kept(states[a + 1], states[k], t)
  {
    forall m | 0 <= m < |steps|
      ensures KeepsAt(states, steps, m, t)
    {
      if t in states[m].txs && !Touches(steps[m], t) {
        NextKeeps(states, steps, m, t);
      }
    }
    HeldAlong(states, steps, a, k, t);
  }

  ghost predicate OpenedBy(s: State, st: Step, s': State, t: nat) {
    t in s'.txs && !Touches(st, t) ==> t in s.txs
  }

  lemma {:induction false} FindLastStep(states: seq<State>, steps: seq<Step>, k: nat, t: nat) returns (a: nat)
    requires |states| == |steps| + 1 && k < |states| && t !in states[0].txs && t in states[k].txs
    requires forall b :: 0 <= b < |steps| ==> OpenedBy(states[b], steps[b], states[b + 1], t)
    ensures LastStep(steps, a, k, t) && t in states[a + 1].txs
  {
    assert OpenedBy(states[k - 1], steps[k - 1], states[k - 1 + 1], t);
    if Touches(steps[k - 1], t) {
      a := k - 1;
    } else {
      a := FindLastStep(states, steps, k - 1, t);
    }
  }

  /** Every open transaction has a last step. */
  lemma LastStepExists(states: seq<State>, steps: seq<Step>, k: nat, t: nat) returns (a: nat)
    requires Run(states, steps) && k < |states| && t in states[k].txs
    ensures LastStep(steps, a, k, t) && t in states[a + 1].txs
  {
    forall b | 0 <= b < |steps|
      ensures OpenedBy(states[b], steps[b], states[b + 1], t)
    {
      assert Enabled(states[b], steps[b]) && states[b + 1] == Apply(states[b], steps[b]);
      if !Touches(steps[b], t) {
        StepKeepsOthers(states[b], steps[b], t);
      }
    }
    a := FindLastStep(states, steps, k, t);
  }

  // ----- what the commit writes -----

  /** A transaction lets go of no row before it ends. */
  lemma LocksAreHeld(states: seq<State>, steps: seq<Step>, k: nat, t: nat)
    requires Run(states, steps) && k < |steps| && t in states[k].txs && t in states[k + 1].txs
    ensures Locks(states[k].txs[t]) <= Locks(states[k + 1].txs[t])
  {
    StepHoldsLocks(states[k], steps[k], t);
  }

  lemma StepHoldsLocks(s: State, st: Step, t: nat)
    requires Enabled(s, st) && t in s.txs && t in Apply(s, st).txs
    ensures Locks(s.txs[t]) <= Locks(Apply(s, st).txs[t])
  {
  }

  /** The step at `a` is what the commit at `c` makes durable. */
  ghost predicate Durable(steps: seq<Step>, a: nat, c: nat) {
    c < |steps| && steps[c].Commit? && LastStep(steps, a, c, steps[c].t)
  }

  lemma CommitOf(states: seq<State>, steps: seq<Step>, a: nat, c: nat)
    requires Run(states, steps) && Durable(steps, a, c) && steps[c].t in states[a + 1].txs
    ensures Kept(states[a + 1], states[c], steps[c].t)
    ensures states[c + 1].rows == states[c].rows + Writes(states[a + 1].txs[steps[c].t])
  {
    TxIsHeld(states, steps, a, c, steps[c].t);
    assert Enabled(states[c], steps[c]) && states[c + 1] == Apply(states[c], steps[c]);
  }

  predicate InLease(rows: Table, id: nat, batch: nat) {
    id in rows && rows[id].batch == Some(batch) && rows[id].status.Processing?
  }

  predicate RenewedTo(was: Row, now: Row, leased: bool, expiry: int) {
    now == if leased then was.(expiresAt := expiry) else was
  }

  predicate ClaimedTo(was: Row, now: Row, kept: bool, batch: nat, expiry: int) {
    now == if kept then was.(status := Processing, batch := Some(batch), expiresAt := expiry) else was
  }

  predicate MovedTo(was: Row, now: Row, asked: bool, target: Status) {
    now == if asked then was.(status := target) else was
  }

  /** A committed renewal gives every row that was leased under the batch the new expiry, and changes nothing else. */
  lemma RenewTakesEffect(states: seq<State>, steps: seq<Step>, a: nat, c: nat)
    requires Run(states, steps) && Durable(steps, a, c) && steps[a].Renew?
    ensures states[c + 1].rows.Keys == states[c].rows.Keys
    ensures forall id :: id in states[c].rows ==>
      RenewedTo(states[c].rows[id], states[c + 1].rows[id],
                InLease(states[a].rows, id, steps[a].batch), steps[a].expiry)
  {
    var s, st := states[a], steps[a];
    assert Enabled(s, st) && states[a + 1] == Apply(s, st);
    CommitOf(states, steps, a, c);
    RenewWrites(s, st.batch, st.expiry, states[c].rows);
  }

  lemma RenewWrites(s: State, batch: nat, expiry: int, rows: Table)
    requires forall i :: i in Locks(RenewTx(s, batch, expiry)) ==> SameAt(s.rows, rows, i)
    ensures (rows + Writes(RenewTx(s, batch, expiry))).Keys == rows.Keys
    ensures forall id :: id in rows ==>
      RenewedTo(rows[id], (rows + Writes(RenewTx(s, batch, expiry)))[id], InLease(s.rows, id, batch), expiry)
  {
    var tx := RenewTx(s, batch, expiry);
    assert forall id :: id in tx.written <==> InLease(s.rows, id, batch);
    assert forall id :: id in tx.written ==> SameAt(s.rows, rows, id);
  }

  /** A committed claim leases exactly the kept rows, under its batch and until its expiry. */
  lemma ClaimTakesEffect(states: seq<State>, steps: seq<Step>, a: nat, c: nat)
    requires Run(states, steps) && Durable(steps, a, c) && steps[a].ClaimUpdate?
    ensures states[c + 1].rows.Keys == states[c].rows.Keys
    ensures forall id :: id in states[c].rows ==>
      ClaimedTo(states[c].rows[id], states[c + 1].rows[id], id in steps[a].kept, steps[a].batch, steps[a].expiry)
  {
    var s, st := states[a], steps[a];
    RunKeepsInv(states, steps, a);
    assert Enabled(s, st) && states[a + 1] == Apply(s, st);
    ClaimGuardPasses(s, st.t, st.kept, st.batch);
    CommitOf(states, steps, a, c);
    ClaimWrites(s, st.t, st.kept, st.batch, st.expiry, states[c].rows);
  }

  lemma ClaimWrites(s: State, t: nat, kept: set<nat>, batch: nat, expiry: int, rows: Table)
    requires CanClaimUpdate(s, t, kept, batch)
    requires forall i :: i in Locks(ClaimTx(s, t, kept, batch, expiry)) ==> SameAt(s.rows, rows, i)
    ensures (rows + Writes(ClaimTx(s, t, kept, batch, expiry))).Keys == rows.Keys
    ensures forall id :: id in rows ==>
      ClaimedTo(rows[id], (rows + Writes(ClaimTx(s, t, kept, batch, expiry)))[id], id in kept, batch, expiry)
  {
    var tx := ClaimTx(s, t, kept, batch, expiry);
    assert forall id :: id in tx.written <==> id in kept;
    assert forall id :: id in kept ==> SameAt(s.rows, rows, id);
  }

  /** A committed update gives every row asked for its target, and changes nothing else. */
  lemma UpdateTakesEffect(states: seq<State>, steps: seq<Step>, a: nat, c: nat)
    requires Run(states, steps) && Durable(steps, a, c) && steps[a].Update?
    requires steps[a].t in states[a].txs && states[a].txs[steps[a].t].Guarding?
    ensures states[c + 1].rows.Keys == states[c].rows.Keys
    ensures forall id :: id in states[c].rows ==>
      MovedTo(states[c].rows[id], states[c + 1].rows[id], id in states[a].txs[steps[a].t].ids,
              states[a].txs[steps[a].t].target)
  {
    var s, st := states[a], steps[a];
    assert Enabled(s, st) && states[a + 1] == Apply(s, st);
    CommitOf(states, steps, a, c);
    UpdateWrites(s, s.txs[st.t], states[c].rows);
  }

  lemma UpdateWrites(s: State, tx: Tx, rows: Table)
    requires tx.Guarding? && tx.ids <= s.rows.Keys
    requires forall i :: i in Locks(UpdateTx(s, tx)) ==> SameAt(s.rows, rows, i)
    ensures (rows + Writes(UpdateTx(s, tx))).Keys == rows.Keys
    ensures forall id :: id in rows ==>
      MovedTo(rows[id], (rows + Writes(UpdateTx(s, tx)))[id], id in tx.ids, tx.target)
  {
    assert forall id :: id in UpdateTx(s, tx).written <==> id in tx.ids;
    assert forall id :: id in tx.ids ==> SameAt(s.rows, rows, id);
  }

  /** A replacement of row p: the same work, waiting to be claimed, linked to p, created now. */
  predicate IsReplacement(r: Row, p: nat, was: Row, now: int) {
    && r.reference == was.reference && r.robot == was.robot && r.request == was.request && r.source == was.source
    && r.status.Pending? && r.batch.None? && r.retryOf == Some(p) && r.createdAt == now
  }

  predicate OldRowExpires(before: Table, after: Table, marked: set<nat>, id: nat)
    requires id in before
  {
    id in after && after[id] == if id in marked then before[id].(status := Expired) else before[id]
  }

  predicate HeirAdded(before: Table, after: Table, heirs: map<nat, nat>, p: nat, now: int)
    requires p in heirs
  {
    && p in before && heirs[p] !in before
    && heirs[p] in after && IsReplacement(after[heirs[p]], p, before[p], now)
  }

  /** A committed expiry marks exactly its rows, and adds exactly one replacement for each that has retries left. */
  lemma ExpiryTakesEffect(states: seq<State>, steps: seq<Step>, a: nat, c: nat)
    requires Run(states, steps) && Durable(steps, a, c) && steps[a].Replace?
    requires steps[a].t in states[a].txs && states[a].txs[steps[a].t].Expiring?
    ensures forall id :: id in states[c].rows ==>
      OldRowExpires(states[c].rows, states[c + 1].rows, states[a].txs[steps[a].t].marked, id)
    ensures forall p :: p in steps[a].heirs ==>
      HeirAdded(states[c].rows, states[c + 1].rows, steps[a].heirs, p, states[a].now)
    ensures states[c + 1].rows.Keys == states[c].rows.Keys + steps[a].heirs.Values
    ensures forall p :: p in steps[a].heirs <==>
      p in states[a].txs[steps[a].t].marked && Retriable(states[a].rows, p, states[0].maxRetries)
  {
    var s, st := states[a], steps[a];
    RunKeepsInv(states, steps, a);
    assert Enabled(s, st) && states[a + 1] == Apply(s, st);
    CommitOf(states, steps, a, c);
    ReplaceWrites(s, st.t, st.heirs, states[c].rows);
  }

  lemma ReplaceWrites(s: State, t: nat, heirs: map<nat, nat>, rows: Table)
    requires CanReplace(s, t, heirs)
    requires forall i :: i in Locks(ReplaceTx(s, s.txs[t].marked, heirs)) ==> SameAt(s.rows, rows, i)
    ensures var after := rows + Writes(ReplaceTx(s, s.txs[t].marked, heirs));
            && (forall id :: id in rows ==> OldRowExpires(rows, after, s.txs[t].marked, id))
            && (forall p :: p in heirs ==> HeirAdded(rows, after, heirs, p, s.now))
            && after.Keys == rows.Keys + heirs.Values
  {
    var after := rows + Writes(ReplaceTx(s, s.txs[t].marked, heirs));
    forall p | p in heirs
      ensures HeirAdded(rows, after, heirs, p, s.now)
    {
      HeirAppears(s, t, heirs, rows, p);
    }
    forall id | id in rows
      ensures OldRowExpires(rows, after, s.txs[t].marked, id)
    {
      OldRowWritten(s, t, heirs, rows, id);
    }
    assert forall i :: i in s.txs[t].marked ==> SameAt(s.rows, rows, i);
  }

  lemma OldRowWritten(s: State, t: nat, heirs: map<nat, nat>, rows: Table, id: nat)
    requires CanReplace(s, t, heirs) && id in rows
    requires id in Locks(ReplaceTx(s, s.txs[t].marked, heirs)) ==> SameAt(s.rows, rows, id)
    ensures OldRowExpires(rows, rows + Writes(ReplaceTx(s, s.txs[t].marked, heirs)), s.txs[t].marked, id)
  {
    var marked := s.txs[t].marked;
    var w := ReplaceTx(s, marked, heirs).written;
    assert id in w <==> id in marked || id in heirs.Values;
    assert id in heirs.Values ==> id !in s.rows;
  }

  lemma HeirAppears(s: State, t: nat, heirs: map<nat, nat>, rows: Table, p: nat)
    requires CanReplace(s, t, heirs) && p in heirs
    requires forall i :: i in Locks(ReplaceTx(s, s.txs[t].marked, heirs)) ==> SameAt(s.rows, rows, i)
    ensures HeirAdded(rows, rows + Writes(ReplaceTx(s, s.txs[t].marked, heirs)), heirs, p, s.now)
  {
    HeirRowWritten(s, t, heirs, p);
    assert heirs[p] in heirs.Values;
    assert SameAt(s.rows, rows, p) && SameAt(s.rows, rows, heirs[p]);
  }

  lemma HeirRowWritten(s: State, t: nat, heirs: map<nat, nat>, p: nat)
    requires CanReplace(s, t, heirs) && p in heirs
    ensures p in s.rows && heirs[p] !in s.rows
    ensures var w := ReplaceTx(s, s.txs[t].marked, heirs).written;
            heirs[p] in w && IsReplacement(w[heirs[p]], p, s.rows[p], s.now)
  {
    assert heirs[p] in heirs.Values;
    var added := Replacements(s, heirs);
    var q :| q in heirs && heirs[q] == heirs[p] && added[heirs[p]] == Replacement(s.now, q, s.rows[q]);
    assert q == p;
  }

  // ----- what an expiry may mark, and what a claim may take -----

  /** No open transaction holds the row. */
  ghost predicate Free(s: State, i: nat) {
    forall t :: t in s.txs ==> i !in Locks(s.txs[t])
  }

  lemma UnlockedAt(s: State, i: nat)
    ensures Unlocked(s, {i}) <==> Free(s, i)
  {
    if Unlocked(s, {i}) {
      assert forall t :: t in s.txs ==> {i} !! Locks(s.txs[t]);
      assert i in {i};
    }
  }

  /** An expiry marks only rows whose lease has run out, the earliest first, and all of them below its limit. */
  lemma ExpiryMarks(s: State, t: nat, limit: nat, chosen: set<nat>)
    requires Enabled(s, Expire(t, limit, chosen))
    ensures Apply(s, Expire(t, limit, chosen)).txs[t] == Expiring(chosen) && |chosen| <= limit
    ensures forall i :: i in chosen ==> Overdue(s, i)
    ensures forall i, j :: i in chosen && Overdue(s, j) && j !in chosen ==> s.rows[i].expiresAt <= s.rows[j].expiresAt
    ensures |chosen| < limit ==> forall j :: Overdue(s, j) ==> j in chosen
  {
    forall j
      ensures Overdue(s, j) <==> j in Stale(s)
    {
      UnlockedAt(s, j);
    }
    forall i, j | i in chosen && Overdue(s, j) && j !in chosen
      ensures s.rows[i].expiresAt <= s.rows[j].expiresAt
    {
      assert j in Stale(s) - chosen;
    }
  }

  /** An unlocked row in PROCESSING whose expiry lies before the present. */
  ghost predicate Overdue(s: State, i: nat) {
    i in s.rows && s.rows[i].status == Processing && s.rows[i].expiresAt < s.now && Free(s, i)
  }

  /** A claim picks only waiting rows of its robot, the oldest first, and all of them unless the limit is reached. */
  lemma ClaimPicks(s: State, t: nat, robot: nat, limit: nat, chosen: set<nat>)
    requires Enabled(s, ClaimSelect(t, robot, limit, chosen))
    ensures Apply(s, ClaimSelect(t, robot, limit, chosen)).txs[t] == Claiming(chosen) && |chosen| <= limit
    ensures forall i :: i in chosen ==> Claimable(s, robot, i)
    ensures forall i, j :: i in chosen && Claimable(s, robot, j) && j !in chosen ==>
      s.rows[i].createdAt <= s.rows[j].createdAt
    ensures |chosen| < limit ==> forall j :: Claimable(s, robot, j) ==> j in chosen
  {
    forall j
      ensures Claimable(s, robot, j) <==> j in Unclaimed(s, robot)
    {
      UnlockedAt(s, j);
    }
    forall i, j | i in chosen && Claimable(s, robot, j) && j !in chosen
      ensures s.rows[i].createdAt <= s.rows[j].createdAt
    {
      assert j in Unclaimed(s, robot) - chosen;
    }
  }

  ghost predicate Claimable(s: State, robot: nat, i: nat) {
    i in s.rows && s.rows[i].robot == robot && s.rows[i].batch == None && s.rows[i].status == Pending && Free(s, i)
  }

  // ----- inserting originals -----

  /** An original of the same non-null request and reference is there. */
  ghost predicate KeyTaken(rows: Table, request: Option<nat>, reference: nat) {
    request != None && exists i :: i in rows && IsOriginal(rows[i], request, reference)
  }

  predicate IsOriginal(r: Row, request: Option<nat>, reference: nat) {
    r.retryOf == None && r.request == request && r.reference == reference
  }

  predicate IsNewOriginal(r: Row, reference: nat, robot: nat, request: Option<nat>, source: Option<nat>, now: int) {
    && r.reference == reference && r.robot == robot && r.request == request && r.source == source
    && r.status.Pending? && r.batch.None? && r.retryOf.None? && r.createdAt == now
  }

  /** An insert adds the row it was asked for if and only if neither the table nor its transaction has the key. */
  lemma InsertExactly(s: State, t: nat, id: nat, reference: nat, robot: nat, request: Option<nat>, source: Option<nat>)
    requires Enabled(s, Insert(t, id, reference, robot, request, source))
    ensures var s' := Apply(s, Insert(t, id, reference, robot, request, source));
            if KeyTaken(s.rows, request, reference) || KeyTaken(Writes(s.txs[t]), request, reference) then s' == s
            else && t in s'.txs && s'.txs[t].Inserting? && id in s'.txs[t].inserted
                 && IsNewOriginal(s'.txs[t].inserted[id], reference, robot, request, source, s.now)
                 && s'.txs[t].inserted - {id} == Writes(s.txs[t]) && s'.rows == s.rows
  {
    TakenIsConflict(s.rows, request, reference);
    TakenIsConflict(Writes(s.txs[t]), request, reference);
    assert id !in Locks(s.txs[t]);
  }

  lemma TakenIsConflict(rows: Table, request: Option<nat>, reference: nat)
    ensures KeyTaken(rows, request, reference) <==> Conflict(rows, request, reference)
  {
    assert forall i :: i in rows && request != None ==>
      (IsOriginal(rows[i], request, reference) <==> Clashes(rows[i], request, reference));
  }

  /** A row without a request never waits for another transaction's insert, and is always inserted. */
  lemma NullRequestIsNeverBlocked(s: State, t: nat, id: nat, reference: nat, robot: nat, source: Option<nat>)
    requires t in s.txs && (s.txs[t].Idle? || s.txs[t].Inserting?) && FreshIds(s, {id})
    ensures Enabled(s, Insert(t, id, reference, robot, None, source))
    ensures id in Writes(Apply(s, Insert(t, id, reference, robot, None, source)).txs[t])
  {
    assert Enabled(s, Insert(t, id, reference, robot, None, source));
    InsertExactly(s, t, id, reference, robot, None, source);
  }

  /** A transaction that has inserted rows adds exactly those. */
  lemma InsertTakesEffect(states: seq<State>, steps: seq<Step>, c: nat)
    requires Run(states, steps) && c < |steps| && steps[c].Commit?
    requires steps[c].t in states[c].txs && states[c].txs[steps[c].t].Inserting?
    ensures var added := states[c].txs[steps[c].t].inserted;
            && added.Keys !! states[c].rows.Keys
            && states[c + 1].rows.Keys == states[c].rows.Keys + added.Keys
            && (forall i :: i in states[c].rows ==> states[c + 1].rows[i] == states[c].rows[i])
            && (forall i :: i in added ==> states[c + 1].rows[i] == added[i])
  {
    RunKeepsInv(states, steps, c);
    assert TxOk(states[c].rows, states[c].maxRetries, states[c].txs[steps[c].t]);
    assert Enabled(states[c], steps[c]) && states[c + 1] == Apply(states[c], steps[c]);
  }
}
