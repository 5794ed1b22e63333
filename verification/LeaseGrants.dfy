/**
  How long a lease lasts: until the expiry that the last committed claim or renewal of its batch asked
  for, in every run.
 */
module LeaseGrants {
  import opened Options
  import opened PendingEnhancements
  import opened Leases
  import opened LeaseInvariant
  import opened LeaseRuns
  import opened LeaseTerms
  import opened LeaseBatches
  import opened LeaseExpired
  import opened LeaseEffects

  /** A claim under the batch, or a renewal of it. */
  predicate Grants(st: Step, batch: nat) {
    (st.Renew? || st.ClaimUpdate?) && st.batch == batch
  }

  ghost predicate Granted(steps: seq<Step>, a: nat, c: nat, batch: nat) {
    Durable(steps, a, c) && Grants(steps[a], batch)
  }

  /** The grant committed at `c` is the last one for the batch before state j. */
  ghost predicate LastGrant(steps: seq<Step>, a: nat, c: nat, j: nat, batch: nat) {
    && Granted(steps, a, c, batch) && c < j
    && forall a': nat, c': nat :: Granted(steps, a', c', batch) && c' < j ==> c' <= c
  }

  // ----- a lease changes by grants only -----

  /** Only these four steps leave a transaction with writes to rows that exist. */
  lemma WritingStep(s: State, st: Step)
    requires Enabled(s, st) && !st.Tick? && st.t in Apply(s, st).txs && Apply(s, st).txs[st.t].Writing?
    ensures st.ClaimUpdate? || st.Renew? || st.Replace? || st.Update?
  {
  }

  predicate RowChanges(before: Table, after: Table, id: nat) {
    id in after && (id in before ==> after[id] != before[id])
  }

  /** A row that changes, or appears, with a lease is written by a transaction that has writes. */
  lemma LeaseIsWritten(s: State, st: Step, id: nat, batch: nat)
    requires Inv(s) && Enabled(s, st)
    ensures RowChanges(s.rows, Apply(s, st).rows, id) && InLease(Apply(s, st).rows, id, batch) ==>
      st.Commit? && st.t in s.txs && s.txs[st.t].Writing? && id in s.rows
  {
    StepCommits(s, st);
    if RowChanges(s.rows, Apply(s, st).rows, id) && InLease(Apply(s, st).rows, id, batch) {
      CommitShape(s.rows, s.maxRetries, s.txs[st.t]);
      assert TxOk(s.rows, s.maxRetries, s.txs[st.t]);
    }
  }

  lemma RenewGrants(states: seq<State>, steps: seq<Step>, a: nat, c: nat, id: nat, batch: nat)
    requires Run(states, steps) && Durable(steps, a, c) && steps[a].Renew? && id in states[c].rows
    requires RowChanges(states[c].rows, states[c + 1].rows, id) && InLease(states[c + 1].rows, id, batch)
    ensures steps[a].batch == batch
  {
    RenewTakesEffect(states, steps, a, c);
    assert RenewedTo(states[c].rows[id], states[c + 1].rows[id],
                     InLease(states[a].rows, id, steps[a].batch), steps[a].expiry);
    RunMovesOn(states, steps, a, c);
    assert Later(states[a].rows[id], states[c].rows[id]);
  }

  lemma ClaimGrants(states: seq<State>, steps: seq<Step>, a: nat, c: nat, id: nat, batch: nat)
    requires Run(states, steps) && Durable(steps, a, c) && steps[a].ClaimUpdate? && id in states[c].rows
    requires RowChanges(states[c].rows, states[c + 1].rows, id) && InLease(states[c + 1].rows, id, batch)
    ensures steps[a].batch == batch
  {
    ClaimTakesEffect(states, steps, a, c);
    assert ClaimedTo(states[c].rows[id], states[c + 1].rows[id], id in steps[a].kept, steps[a].batch, steps[a].expiry);
  }

  lemma UpdateGrantsNothing(states: seq<State>, steps: seq<Step>, a: nat, c: nat, id: nat, batch: nat)
    requires Run(states, steps) && Durable(steps, a, c) && steps[a].Update? && id in states[c].rows
    ensures !(RowChanges(states[c].rows, states[c + 1].rows, id) && InLease(states[c + 1].rows, id, batch))
  {
    RunKeepsInv(states, steps, a);
    assert Enabled(states[a], steps[a]);
    TargetSettles(states[a], steps[a].t);
    UpdateTakesEffect(states, steps, a, c);
    assert MovedTo(states[c].rows[id], states[c + 1].rows[id], id in states[a].txs[steps[a].t].ids,
                   states[a].txs[steps[a].t].target);
  }

  lemma ExpiryGrantsNothing(states: seq<State>, steps: seq<Step>, a: nat, c: nat, id: nat, batch: nat)
    requires Run(states, steps) && Durable(steps, a, c) && steps[a].Replace? && id in states[c].rows
    ensures !(RowChanges(states[c].rows, states[c + 1].rows, id) && InLease(states[c + 1].rows, id, batch))
  {
    assert Enabled(states[a], steps[a]);
    ExpiryTakesEffect(states, steps, a, c);
    assert OldRowExpires(states[c].rows, states[c + 1].rows, states[a].txs[steps[a].t].marked, id);
  }

  /** Whatever changes the lease of a row is a grant for its batch. */
  lemma LeaseChangeIsGrant(states: seq<State>, steps: seq<Step>, c: nat, id: nat, batch: nat) returns (a: nat)
    requires Run(states, steps) && c < |steps|
    requires RowChanges(states[c].rows, states[c + 1].rows, id) && InLease(states[c + 1].rows, id, batch)
    ensures Granted(steps, a, c, batch)
  {
    RunKeepsInv(states, steps, c);
    assert Enabled(states[c], steps[c]) && states[c + 1] == Apply(states[c], steps[c]);
    LeaseIsWritten(states[c], steps[c], id, batch);
    a := WriterOf(states, steps, c);
    if steps[a].Renew? {
      RenewGrants(states, steps, a, c, id, batch);
    } else if steps[a].ClaimUpdate? {
      ClaimGrants(states, steps, a, c, id, batch);
    } else if steps[a].Update? {
      UpdateGrantsNothing(states, steps, a, c, id, batch);
    } else {
      ExpiryGrantsNothing(states, steps, a, c, id, batch);
    }
  }

  /** The step behind a commit of writes. */
  lemma WriterOf(states: seq<State>, steps: seq<Step>, c: nat) returns (a: nat)
    requires Run(states, steps) && c < |steps| && steps[c].Commit?
    requires steps[c].t in states[c].txs && states[c].txs[steps[c].t].Writing?
    ensures Durable(steps, a, c)
    ensures steps[a].ClaimUpdate? || steps[a].Renew? || steps[a].Replace? || steps[a].Update?
  {
    a := LastStepExists(states, steps, c, steps[c].t);
    TxIsHeld(states, steps, a, c, steps[c].t);
    assert Enabled(states[a], steps[a]) && states[a + 1] == Apply(states[a], steps[a]);
    WritingStep(states[a], steps[a]);
  }

  // ----- a grant reaches every row of its batch -----

  /** The rows of a batch enter the table together. */
  lemma {:induction false} BatchIsClosed(states: seq<State>, steps: seq<Step>, i: nat, j: nat, r: nat, q: nat)
    requires Run(states, steps) && i <= j < |states| && r in states[i].rows && states[i].rows[r].batch.Some?
    requires r in states[j].rows && q in states[j].rows && SameBatch(states[j].rows[r], states[j].rows[q])
    ensures q in states[i].rows && SameBatch(states[i].rows[r], states[i].rows[q])
    decreases j - i
  {
    if i < j {
      BatchSetOnce(states, steps, i, j - 1, r);
      NobodyJoinsAt(states, steps, j - 1, r, q);
      BatchIsClosed(states, steps, i, j - 1, r, q);
    }
  }

  lemma NobodyJoinsAt(states: seq<State>, steps: seq<Step>, k: nat, r: nat, q: nat)
    requires Run(states, steps) && k < |steps| && r in states[k].rows && states[k].rows[r].batch.Some?
    requires r in states[k + 1].rows && q in states[k + 1].rows
    requires SameBatch(states[k + 1].rows[r], states[k + 1].rows[q])
    ensures q in states[k].rows && SameBatch(states[k].rows[r], states[k].rows[q])
  {
    RunKeepsInv(states, steps, k);
    assert Enabled(states[k], steps[k]) && states[k + 1] == Apply(states[k], steps[k]);
    StepCommits(states[k], steps[k]);
    if states[k + 1].rows != states[k].rows {
      NobodyJoins(states[k].rows, states[k].maxRetries, states[k].txs[steps[k].t], r, q);
    }
  }

  lemma RenewReaches(states: seq<State>, steps: seq<Step>, a: nat, c: nat, id: nat)
    requires Run(states, steps) && Durable(steps, a, c) && steps[a].Renew?
    requires InLease(states[c].rows, id, steps[a].batch)
    ensures InLease(states[a].rows, id, steps[a].batch)
  {
    assert Enabled(states[a], steps[a]);
    var r :| r in Members(states[a].rows, steps[a].batch);
    BatchSetOnce(states, steps, a, c, r);
    BatchIsClosed(states, steps, a, c, r, id);
    RunKeepsInv(states, steps, a);
    RunMovesOn(states, steps, a, c);
    assert Later(states[a].rows[id], states[c].rows[id]);
  }

  lemma RenewGivesExpiry(states: seq<State>, steps: seq<Step>, a: nat, c: nat, id: nat)
    requires Run(states, steps) && Durable(steps, a, c) && steps[a].Renew?
    requires InLease(states[c + 1].rows, id, steps[a].batch)
    ensures states[c + 1].rows[id].expiresAt == steps[a].expiry
  {
    RenewTakesEffect(states, steps, a, c);
    assert id in states[c].rows;
    assert RenewedTo(states[c].rows[id], states[c + 1].rows[id],
                     InLease(states[a].rows, id, steps[a].batch), steps[a].expiry);
    assert InLease(states[c].rows, id, steps[a].batch);
    RenewReaches(states, steps, a, c, id);
  }

  lemma ClaimGivesExpiry(states: seq<State>, steps: seq<Step>, a: nat, c: nat, id: nat)
    requires Run(states, steps) && Durable(steps, a, c) && steps[a].ClaimUpdate?
    requires InLease(states[c + 1].rows, id, steps[a].batch)
    ensures states[c + 1].rows[id].expiresAt == steps[a].expiry
  {
    ClaimTakesEffect(states, steps, a, c);
    assert ClaimedTo(states[c].rows[id], states[c + 1].rows[id], id in steps[a].kept, steps[a].batch, steps[a].expiry);
    ClaimBatchIsNew(states, steps, a, c, id);
  }

  lemma ClaimBatchIsNew(states: seq<State>, steps: seq<Step>, a: nat, c: nat, id: nat)
    requires Run(states, steps) && Durable(steps, a, c) && steps[a].ClaimUpdate? && id in states[c].rows
    ensures states[c].rows[id].batch != Some(steps[a].batch)
  {
    var s, st := states[a], steps[a];
    RunKeepsInv(states, steps, a);
    RunKeepsInv(states, steps, c);
    assert Enabled(s, st) && states[a + 1] == Apply(s, st);
    ClaimGuardPasses(s, st.t, st.kept, st.batch);
    TxIsHeld(states, steps, a, c, st.t);
    WritingBatchIsNew(states[c], st.t, id);
  }

  lemma WritingBatchIsNew(s: State, t: nat, id: nat)
    requires Inv(s) && t in s.txs && s.txs[t].Writing? && s.txs[t].batch.Some? && id in s.rows
    ensures s.rows[id].batch != s.txs[t].batch
  {
    assert TxOk(s.rows, s.maxRetries, s.txs[t]);
  }

  lemma GrantGivesExpiry(states: seq<State>, steps: seq<Step>, a: nat, c: nat, id: nat, batch: nat)
    requires Run(states, steps) && Granted(steps, a, c, batch) && InLease(states[c + 1].rows, id, batch)
    ensures states[c + 1].rows[id].expiresAt == steps[a].expiry
  {
    if steps[a].Renew? {
      RenewGivesExpiry(states, steps, a, c, id);
    } else {
      ClaimGivesExpiry(states, steps, a, c, id);
    }
  }

  // ----- the last grant decides -----

  ghost predicate GrantedAt(steps: seq<Step>, c: nat, batch: nat) {
    exists a: nat :: Granted(steps, a, c, batch)
  }

  /** At step k the lease of the row changes by a grant or not at all. */
  ghost predicate LeaseStep(states: seq<State>, steps: seq<Step>, k: nat, id: nat, batch: nat)
    requires k + 1 < |states|
  {
    RowChanges(states[k].rows, states[k + 1].rows, id) && InLease(states[k + 1].rows, id, batch) ==>
      GrantedAt(steps, k, batch)
  }

  ghost predicate LeaseSteps(states: seq<State>, steps: seq<Step>, id: nat, batch: nat) {
    && |states| == |steps| + 1 && id !in states[0].rows
    && forall k :: 0 <= k < |steps| ==> LeaseStep(states, steps, k, id, batch)
  }

  lemma RunHasLeaseSteps(states: seq<State>, steps: seq<Step>, id: nat, batch: nat)
    requires Run(states, steps)
    ensures LeaseSteps(states, steps, id, batch)
  {
    forall k | 0 <= k < |steps|
      ensures LeaseStep(states, steps, k, id, batch)
    {
      if RowChanges(states[k].rows, states[k + 1].rows, id) && InLease(states[k + 1].rows, id, batch) {
        var a := LeaseChangeIsGrant(states, steps, k, id, batch);
      }
    }
  }

  lemma {:induction false} HoldsSince(states: seq<State>, steps: seq<Step>, a: nat, c: nat, j: nat, id: nat, batch: nat)
    requires LeaseSteps(states, steps, id, batch) && j < |states| && LastGrant(steps, a, c, j, batch)
    requires InLease(states[c + 1].rows, id, batch) ==> states[c + 1].rows[id].expiresAt == steps[a].expiry
    requires InLease(states[j].rows, id, batch)
    ensures states[j].rows[id].expiresAt == steps[a].expiry
    decreases j
  {
    if j > c + 1 {
      assert LeaseStep(states, steps, j - 1, id, batch);
      HoldsSince(states, steps, a, c, j - 1, id, batch);
    }
  }

  /** As long as a row is leased, its expiry is that of the last grant committed for its batch. */
  lemma LastGrantHolds(states: seq<State>, steps: seq<Step>, a: nat, c: nat, j: nat, id: nat, batch: nat)
    requires Run(states, steps) && j < |states| && LastGrant(steps, a, c, j, batch)
    requires InLease(states[j].rows, id, batch)
    ensures states[j].rows[id].expiresAt == steps[a].expiry
  {
    RunHasLeaseSteps(states, steps, id, batch);
    if InLease(states[c + 1].rows, id, batch) {
      GrantGivesExpiry(states, steps, a, c, id, batch);
    }
    HoldsSince(states, steps, a, c, j, id, batch);
  }

  /** A leased row has been granted its lease. */
  lemma {:induction false} LastGrantExists(states: seq<State>, steps: seq<Step>, j: nat, id: nat, batch: nat)
    returns (a: nat, c: nat)
    requires LeaseSteps(states, steps, id, batch) && j < |states| && InLease(states[j].rows, id, batch)
    ensures LastGrant(steps, a, c, j, batch)
    decreases j
  {
    c := j - 1;
    assert LeaseStep(states, steps, c, id, batch);
    if GrantedAt(steps, c, batch) {
      a :| Granted(steps, a, c, batch);
    } else {
      a, c := LastGrantExists(states, steps, j - 1, id, batch);
    }
  }

  /**
    No lease is cut short: when a row expires, the clock is past the expiry that the last committed
    claim or renewal of its batch asked for.
   */
  lemma LeaseLastsAsGranted(states: seq<State>, steps: seq<Step>, k: nat, id: nat)
    returns (a: nat, c: nat, batch: nat)
    requires Run(states, steps) && k + 1 < |states| && ExpiresAt(states, k, id)
    ensures states[k].rows[id].batch == Some(batch) && LastGrant(steps, a, c, k, batch)
    ensures steps[a].expiry < states[k].now
  {
    LeaseIsHonoured(states, steps, k, id);
    RunKeepsInv(states, steps, k);
    assert states[k].rows[id].batch.Some?;
    batch := states[k].rows[id].batch.value;
    RunHasLeaseSteps(states, steps, id, batch);
    a, c := LastGrantExists(states, steps, k, id, batch);
    LastGrantHolds(states, steps, a, c, k, id, batch);
  }
}
