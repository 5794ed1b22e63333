/**
  Expired rows and the batches they belong to. An update that commits brings an expired row back
  exactly when it found the row expired, so the exact conditions here speak of what updates find.
 */
module LeaseExpired {
  import opened PendingEnhancements
  import opened Leases
  import opened LeaseInvariant
  import opened LeaseRuns
  import opened LeaseGuards
  import opened LeaseBatches

  // ----- what an update found is what its commit writes over -----

  predicate Ready(s: State, t: nat) {
    t in s.txs && s.txs[t].Guarding? && s.txs[t].ids <= s.rows.Keys
  }

  /** The transaction still is what its update made of it, over the rows the update saw. */
  ghost predicate Held(found: State, s: State, t: nat)
    requires Ready(found, t)
  {
    && t in s.txs && s.txs[t] == UpdateTx(found, found.txs[t])
    && forall i :: i in found.txs[t].ids ==> i in s.rows && s.rows[i] == found.rows[i]
  }

  /** Rows a transaction has locked are as they were after any step of another. */
  lemma LockedStay(s: State, st: Step, t: nat, ids: set<nat>)
    requires Inv(s) && Enabled(s, st) && t in s.txs && !Touches(st, t) && ids <= Locks(s.txs[t]) && ids <= s.rows.Keys
    ensures forall i :: i in ids ==> i in Apply(s, st).rows && Apply(s, st).rows[i] == s.rows[i]
  {
    forall i | i in ids
      ensures i in Apply(s, st).rows && Apply(s, st).rows[i] == s.rows[i]
    {
      StepSparesLocks(s, st, t, i);
    }
  }

  lemma HeldThrough(found: State, s: State, s': State, t: nat)
    requires Ready(found, t) && Held(found, s, t) && t in s'.txs && s'.txs[t] == s.txs[t]
    requires forall i :: i in found.txs[t].ids ==> i in s'.rows && s'.rows[i] == s.rows[i]
    ensures Held(found, s', t)
  {
  }

  lemma HeldStays(found: State, s: State, st: Step, t: nat)
    requires Ready(found, t) && Held(found, s, t) && Inv(s) && Enabled(s, st) && !Touches(st, t)
    ensures Held(found, Apply(s, st), t)
  {
    HeldLocks(found, s, t);
    OtherStepHolds(s, st, t, found.txs[t].ids);
    HeldThrough(found, s, Apply(s, st), t);
  }

  lemma HeldLocks(found: State, s: State, t: nat)
    requires Ready(found, t) && Held(found, s, t)
    ensures found.txs[t].ids <= Locks(s.txs[t]) && found.txs[t].ids <= s.rows.Keys
  {
  }

  lemma OtherStepHolds(s: State, st: Step, t: nat, ids: set<nat>)
    requires Inv(s) && Enabled(s, st) && t in s.txs && !Touches(st, t) && ids <= Locks(s.txs[t]) && ids <= s.rows.Keys
    ensures t in Apply(s, st).txs && Apply(s, st).txs[t] == s.txs[t]
    ensures forall i :: i in ids ==> i in Apply(s, st).rows && Apply(s, st).rows[i] == s.rows[i]
  {
    StepKeepsOthers(s, st, t);
    LockedStay(s, st, t, ids);
  }

  lemma JustHeld(s: State, t: nat)
    requires CanUpdate(s, t)
    ensures Held(s, Apply(s, Update(t)), t)
  {
  }

  lemma {:induction false} UpdateIsHeld(states: seq<State>, steps: seq<Step>, a: nat, k: nat, t: nat)
    requires Run(states, steps) && Updated(steps, a, k, t)
    ensures Ready(states[a], t) && Held(states[a], states[k], t)
    decreases k
  {
    assert Enabled(states[a], steps[a]) && states[a + 1] == Apply(states[a], steps[a]);
    if k == a + 1 {
      JustHeld(states[a], t);
    } else {
      UpdateIsHeld(states, steps, a, k - 1, t);
      RunKeepsInv(states, steps, k - 1);
      HeldStays(states[a], states[k - 1], steps[k - 1], t);
    }
  }

  /** What the commit of an update leaves: its target on every row it asked for. */
  lemma CommitWritesTarget(found: State, s: State, t: nat, id: nat)
    requires Ready(found, t) && Held(found, s, t) && id in found.txs[t].ids
    ensures CanCommit(s, t) && DoCommit(s, t).rows == s.rows + Writes(s.txs[t])
    ensures id in DoCommit(s, t).rows && DoCommit(s, t).rows[id].status == found.txs[t].target
  {
  }

  // ----- which steps bring expired rows back -----

  predicate Wakes(before: Table, after: Table, id: nat) {
    id in before && before[id].status.Expired? && id in after && !after[id].status.Expired?
  }

  predicate FindsExpired(s: State, t: nat, id: nat) {
    t in s.txs && s.txs[t].Guarding? && id in s.txs[t].ids && id in s.rows && s.rows[id].status.Expired?
  }

  /** An update that found a row expired brings it back with its commit. */
  lemma FoundExpiredWakes(states: seq<State>, steps: seq<Step>, a: nat, c: nat, id: nat)
    requires Run(states, steps) && CommittedUpdate(steps, a, c) && FindsExpired(states[a], steps[c].t, id)
    ensures Wakes(states[c].rows, states[c + 1].rows, id)
    ensures states[c + 1].rows[id].status == states[a].txs[steps[c].t].target
  {
    var t := steps[c].t;
    RunKeepsInv(states, steps, a);
    TargetSettles(states[a], t);
    UpdateIsHeld(states, steps, a, c, t);
    CommitWritesTarget(states[a], states[c], t, id);
    assert states[c + 1] == Apply(states[c], steps[c]);
  }

  lemma TargetSettles(s: State, t: nat)
    requires Inv(s) && t in s.txs && s.txs[t].Guarding?
    ensures Settling(s.txs[t].target)
  {
    assert TxOk(s.rows, s.maxRetries, s.txs[t]);
  }

  ghost predicate OverwritesIllegally(s: State, t: nat, id: nat) {
    Illegal(s, t) && s.txs[t].Writing? && id in s.txs[t].written
  }

  /** A row brought back is illegally written by the transaction that commits. */
  lemma WakingIsIllegal(s: State, st: Step, id: nat)
    requires Inv(s) && Enabled(s, st)
    ensures Wakes(s.rows, Apply(s, st).rows, id) ==>
      && st.Commit? && OverwritesIllegally(s, st.t, id)
      && Apply(s, st).rows[id] == s.txs[st.t].written[id]
  {
    StepCommits(s, st);
    if Wakes(s.rows, Apply(s, st).rows, id) {
      WakingCommit(s.rows, s.maxRetries, s.txs[st.t], id);
    }
  }

  lemma WakingCommit(rows: Table, m: nat, tx: Tx, id: nat)
    requires TxOk(rows, m, tx) && Committable(tx) && Wakes(rows, rows + Writes(tx), id)
    ensures tx.Writing? && id in tx.written && (rows + Writes(tx))[id] == tx.written[id] && !WritesLegally(rows, tx)
  {
    CommitOldRow(rows, m, tx, id);
    assert tx.Writing? && id in tx.written;
    assert !LegalChange(rows[id].status, tx.written[id].status);
  }

  /** Every row brought back was found expired by the update that is being committed. */
  lemma WakingFoundExpired(states: seq<State>, steps: seq<Step>, c: nat, id: nat) returns (a: nat)
    requires Run(states, steps) && c < |steps| && Wakes(states[c].rows, states[c + 1].rows, id)
    ensures CommittedUpdate(steps, a, c) && FindsExpired(states[a], steps[c].t, id)
    ensures states[c + 1].rows[id].status == states[a].txs[steps[c].t].target
  {
    RunKeepsInv(states, steps, c);
    assert Enabled(states[c], steps[c]) && states[c + 1] == Apply(states[c], steps[c]);
    WakingIsIllegal(states[c], steps[c], id);
    var t := steps[c].t;
    RunIsTraced(states, steps, t);
    a := IllegalHasUpdate(states, steps, c, t);
    UpdateIsHeld(states, steps, a, c, t);
    HeldRow(states[a], states[c], t, id);
  }

  lemma HeldRow(found: State, s: State, t: nat, id: nat)
    requires Ready(found, t) && Held(found, s, t) && s.txs[t].Writing? && id in s.txs[t].written
    ensures id in found.txs[t].ids && id in found.rows && id in s.rows && s.rows[id] == found.rows[id]
    ensures s.txs[t].written[id].status == found.txs[t].target
  {
  }

  // ----- EXPIRED is terminal: exactly when -----

  /** No expired row leaves EXPIRED. */
  ghost predicate Sleeps(before: Table, after: Table) {
    forall id :: !Wakes(before, after, id)
  }

  ghost predicate FindsNoneExpired(s: State, t: nat) {
    forall id :: !FindsExpired(s, t, id)
  }

  ghost predicate SleepsAt(states: seq<State>, c: nat)
    requires c + 1 < |states|
  {
    Sleeps(states[c].rows, states[c + 1].rows)
  }

  /** The update behind the commit at `c`, if there is one, found none of its rows expired. */
  ghost predicate AwakeStep(states: seq<State>, steps: seq<Step>, c: nat)
    requires |states| == |steps| + 1
  {
    forall a: nat :: CommittedUpdate(steps, a, c) ==> FindsNoneExpired(states[a], steps[c].t)
  }

  lemma StepSleepsExactly(states: seq<State>, steps: seq<Step>, c: nat)
    requires Run(states, steps) && c < |steps|
    ensures SleepsAt(states, c) <==> AwakeStep(states, steps, c)
  {
    if !AwakeStep(states, steps, c) {
      var a: nat :| CommittedUpdate(steps, a, c) && !FindsNoneExpired(states[a], steps[c].t);
      var id :| FindsExpired(states[a], steps[c].t, id);
      FoundExpiredWakes(states, steps, a, c, id);
    }
    if !SleepsAt(states, c) {
      var id :| Wakes(states[c].rows, states[c + 1].rows, id);
      var a := WakingFoundExpired(states, steps, c, id);
    }
  }

  /** Every update committed before step k found none of its rows expired. */
  ghost predicate AwakeUntil(states: seq<State>, steps: seq<Step>, k: nat)
    requires |states| == |steps| + 1
  {
    forall c: nat :: c < k && c < |steps| ==> AwakeStep(states, steps, c)
  }

  /**
    Over every run: no row leaves EXPIRED before step k if and only if no update committed before
    step k found one of its rows expired.
   */
  lemma ExpiredIsTerminalExactly(states: seq<State>, steps: seq<Step>, k: nat)
    requires Run(states, steps) && k <= |steps|
    ensures (forall c: nat :: c < k ==> SleepsAt(states, c)) <==> AwakeUntil(states, steps, k)
  {
    forall c: nat | c < k
      ensures SleepsAt(states, c) <==> AwakeStep(states, steps, c)
    {
      StepSleepsExactly(states, steps, c);
    }
  }

  predicate ExpiredIn(s: State, id: nat) {
    id in s.rows && s.rows[id].status.Expired?
  }

  lemma {:induction false} StaysExpired(states: seq<State>, i: nat, j: nat, id: nat)
    requires i <= j < |states| && ExpiredIn(states[i], id)
    requires forall c :: i <= c < j && ExpiredIn(states[c], id) ==> ExpiredIn(states[c + 1], id)
    ensures ExpiredIn(states[j], id)
    decreases j - i
  {
    if i < j {
      StaysExpired(states, i, j - 1, id);
      assert ExpiredIn(states[j - 1], id) ==> ExpiredIn(states[j - 1 + 1], id);
    }
  }

  /** No update committed from step i on and before step k found the row expired. */
  ghost predicate NeverFound(states: seq<State>, steps: seq<Step>, i: nat, k: nat, id: nat)
    requires |states| == |steps| + 1
  {
    forall a: nat, c: nat :: i <= c < k && CommittedUpdate(steps, a, c) ==> !FindsExpired(states[a], steps[c].t, id)
  }

  /**
    Of every row in every run: once expired it stays so up to state k if and only if no update committed
    since then, and before step k, found it expired.
   */
  lemma ExpiredRowStaysExactly(states: seq<State>, steps: seq<Step>, i: nat, k: nat, id: nat)
    requires Run(states, steps) && i <= k < |states| && ExpiredIn(states[i], id)
    ensures (forall c :: i <= c <= k ==> ExpiredIn(states[c], id)) <==> NeverFound(states, steps, i, k, id)
  {
    if NeverFound(states, steps, i, k, id) {
      forall c: nat | i <= c < k && ExpiredIn(states[c], id)
        ensures ExpiredIn(states[c + 1], id)
      {
        UnfoundStaysExpired(states, steps, c, id);
      }
      forall c | i <= c <= k
        ensures ExpiredIn(states[c], id)
      {
        StaysExpired(states, i, c, id);
      }
    }
    if forall c :: i <= c <= k ==> ExpiredIn(states[c], id) {
      forall a: nat, c: nat | i <= c < k && CommittedUpdate(steps, a, c)
        ensures !FindsExpired(states[a], steps[c].t, id)
      {
        if FindsExpired(states[a], steps[c].t, id) {
          FoundExpiredWakes(states, steps, a, c, id);
        }
      }
    }
  }

  lemma UnfoundStaysExpired(states: seq<State>, steps: seq<Step>, c: nat, id: nat)
    requires Run(states, steps) && c < |steps| && ExpiredIn(states[c], id)
    requires forall a: nat :: CommittedUpdate(steps, a, c) ==> !FindsExpired(states[a], steps[c].t, id)
    ensures ExpiredIn(states[c + 1], id)
  {
    NextMovesOn(states, steps, c);
    if !ExpiredIn(states[c + 1], id) {
      var a := WakingFoundExpired(states, steps, c, id);
    }
  }

  /** A row that has expired stays so while updates find none of their rows expired. */
  lemma ExpiredIsTerminal(states: seq<State>, steps: seq<Step>, i: nat, j: nat, id: nat)
    requires Run(states, steps) && i <= j < |states| && AwakeUntil(states, steps, j) && ExpiredIn(states[i], id)
    ensures ExpiredIn(states[j], id)
  {
    forall a: nat, c: nat | i <= c < j && CommittedUpdate(steps, a, c)
      ensures !FindsExpired(states[a], steps[c].t, id)
    {
      assert AwakeStep(states, steps, c);
    }
    ExpiredRowStaysExactly(states, steps, i, j, id);
  }

  /** A run without overtaken updates never brings an expired row back. */
  lemma CalmIsAwake(states: seq<State>, steps: seq<Step>, k: nat)
    requires CalmRun(states, steps) && k <= |steps|
    ensures AwakeUntil(states, steps, k)
  {
    forall a: nat, c: nat, id | c < k && CommittedUpdate(steps, a, c)
      ensures !FindsExpired(states[a], steps[c].t, id)
    {
      assert CalmStep(states, steps, c) && Tolerated(states[a], steps[c].t);
      RunKeepsInv(states, steps, a);
      UpdateIsHeld(states, steps, a, c, steps[c].t);
      TargetSettles(states[a], steps[c].t);
    }
  }

  // ----- one expired row blocks its batch: exactly when -----

  /** Row r starts importing at a moment when row q of its batch is expired. */
  predicate ImportsOver(states: seq<State>, c: nat, r: nat, q: nat)
    requires c + 1 < |states|
  {
    && StartsImporting(states, c, r)
    && q in states[c].rows && SameBatch(states[c].rows[r], states[c].rows[q]) && states[c].rows[q].status.Expired?
  }

  ghost predicate ImportsClean(states: seq<State>, c: nat)
    requires c + 1 < |states|
  {
    forall r, q :: !ImportsOver(states, c, r, q)
  }

  predicate AsksImporting(s: State, t: nat) {
    t in s.txs && s.txs[t].Guarding? && s.txs[t].target.Importing?
  }

  /** The update behind the commit at `c`, if it is one to IMPORTING, found none of its rows expired. */
  ghost predicate ImportFindsNoneExpired(states: seq<State>, steps: seq<Step>, c: nat)
    requires |states| == |steps| + 1
  {
    forall a: nat :: CommittedUpdate(steps, a, c) && AsksImporting(states[a], steps[c].t) ==>
      FindsNoneExpired(states[a], steps[c].t)
  }

  /** An update to IMPORTING that found a row expired starts importing that very row. */
  lemma FoundExpiredImports(states: seq<State>, steps: seq<Step>, a: nat, c: nat, id: nat)
    requires Run(states, steps) && CommittedUpdate(steps, a, c) && FindsExpired(states[a], steps[c].t, id)
    requires AsksImporting(states[a], steps[c].t)
    ensures ImportsOver(states, c, id, id)
  {
    FoundExpiredWakes(states, steps, a, c, id);
    RunKeepsInv(states, steps, c);
    assert states[c].rows[id].batch.Some?;
  }

  lemma ImportOverFoundExpired(states: seq<State>, steps: seq<Step>, c: nat, r: nat, q: nat) returns (a: nat)
    requires Run(states, steps) && c < |steps| && ImportsOver(states, c, r, q)
    ensures CommittedUpdate(steps, a, c) && AsksImporting(states[a], steps[c].t)
    ensures FindsExpired(states[a], steps[c].t, q)
  {
    BatchImportsTogether(states, steps, c, r, q);
    a := WakingFoundExpired(states, steps, c, q);
  }

  lemma StepImportsExactly(states: seq<State>, steps: seq<Step>, c: nat)
    requires Run(states, steps) && c < |steps|
    ensures ImportsClean(states, c) <==> ImportFindsNoneExpired(states, steps, c)
  {
    if !ImportFindsNoneExpired(states, steps, c) {
      var a: nat :| CommittedUpdate(steps, a, c) && AsksImporting(states[a], steps[c].t)
                    && !FindsNoneExpired(states[a], steps[c].t);
      var id :| FindsExpired(states[a], steps[c].t, id);
      FoundExpiredImports(states, steps, a, c, id);
    }
    if !ImportsClean(states, c) {
      var r, q :| ImportsOver(states, c, r, q);
      var a := ImportOverFoundExpired(states, steps, c, r, q);
    }
  }

  /**
    Over every run: before step k no row starts importing while a row of its batch is expired, if and
    only if every update to IMPORTING committed before step k found none of its rows expired.
   */
  lemma ExpiredBlocksTheBatchExactly(states: seq<State>, steps: seq<Step>, k: nat)
    requires Run(states, steps) && k <= |steps|
    ensures (forall c: nat :: c < k ==> ImportsClean(states, c)) <==>
            (forall c: nat :: c < k ==> ImportFindsNoneExpired(states, steps, c))
  {
    forall c: nat | c < k
      ensures ImportsClean(states, c) <==> ImportFindsNoneExpired(states, steps, c)
    {
      StepImportsExactly(states, steps, c);
    }
  }

  /** Once a row of a batch has expired, no row of the batch starts importing while updates find none expired. */
  lemma ExpiredBlocksTheBatch(states: seq<State>, steps: seq<Step>, i: nat, k: nat, r: nat, q: nat)
    requires Run(states, steps) && i <= k < |steps| && AwakeUntil(states, steps, k + 1)
    requires ExpiredIn(states[i], q)
    requires r in states[k].rows && q in states[k].rows && SameBatch(states[k].rows[r], states[k].rows[q])
    ensures !StartsImporting(states, k, r)
  {
    ExpiredIsTerminal(states, steps, i, k, q);
    assert AwakeStep(states, steps, k);
    if StartsImporting(states, k, r) {
      var a := ImportOverFoundExpired(states, steps, k, r, q);
    }
  }

  /** The guard itself: one expired row ends the transaction before anything is written. */
  lemma ExpiredFailsTheGuard(states: seq<State>, steps: seq<Step>, i: nat, k: nat, id: nat)
    requires Run(states, steps) && i <= k < |steps| && AwakeUntil(states, steps, k)
    requires ExpiredIn(states[i], id)
    requires steps[k].Guard? && id in steps[k].ids
    ensures states[k + 1] == Drop(states[k], steps[k].t)
  {
    ExpiredIsTerminal(states, steps, i, k, id);
    assert Enabled(states[k], steps[k]) && states[k + 1] == Apply(states[k], steps[k]);
    assert !CanTransition(states[k].rows[id].status, steps[k].target);
  }
}
