/**
  What the status guard achieves. Its SELECT takes no lock, so what it saw may have changed when its
  update writes. Statuses follow the transition table exactly in the runs where every committed
  update still found statuses it may change.
 */
module LeaseGuards {
  import opened PendingEnhancements
  import opened Leases
  import opened LeaseInvariant
  import opened LeaseRuns

  predicate LegalChange(a: Status, b: Status) {
    a == b || CanTransition(a, b)
  }

  /** The update finds only statuses that may move to its target, or are there already. */
  predicate Tolerated(s: State, t: nat) {
    t in s.txs && s.txs[t].Guarding? ==>
      forall i :: i in s.txs[t].ids && i in s.rows ==> LegalChange(s.rows[i].status, s.txs[t].target)
  }

  /** Since the update at `a`, its transaction has not stepped. */
  ghost predicate Updated(steps: seq<Step>, a: nat, k: nat, t: nat) {
    && a < k <= |steps| && steps[a] == Update(t)
    && forall b :: a < b < k ==> !Touches(steps[b], t)
  }

  ghost predicate CommittedUpdate(steps: seq<Step>, a: nat, c: nat) {
    c < |steps| && steps[c].Commit? && Updated(steps, a, c, steps[c].t)
  }

  /** What the commit at `c` writes over was still open to the change when its update found it. */
  ghost predicate CalmStep(states: seq<State>, steps: seq<Step>, c: nat)
    requires |states| == |steps| + 1
  {
    forall a: nat :: CommittedUpdate(steps, a, c) ==> Tolerated(states[a], steps[c].t)
  }

  /** A run in which no committed update was overtaken. */
  ghost predicate CalmRun(states: seq<State>, steps: seq<Step>) {
    Run(states, steps) && forall c: nat :: c < |steps| ==> CalmStep(states, steps, c)
  }

  // ----- which transactions write legally -----

  ghost predicate WritesLegally(rows: Table, tx: Tx) {
    tx.Writing? ==> forall i :: i in tx.written && i in rows ==> LegalChange(rows[i].status, tx.written[i].status)
  }

  lemma ReplaceWritesLegally(s: State, t: nat, heirs: map<nat, nat>)
    requires CanReplace(s, t, heirs) && TxOk(s.rows, s.maxRetries, s.txs[t])
    ensures WritesLegally(s.rows, ReplaceTx(s, s.txs[t].marked, heirs))
  {
    var w := ReplaceTx(s, s.txs[t].marked, heirs).written;
    assert forall i :: i in w && i in s.rows ==> w[i].status.Expired? && s.rows[i].status.Processing?;
  }

  lemma ClaimWritesLegally(s: State, t: nat, kept: set<nat>, batch: nat, expiry: int)
    requires CanClaimUpdate(s, t, kept, batch) && TxOk(s.rows, s.maxRetries, s.txs[t])
    ensures WritesLegally(s.rows, ClaimTx(s, t, kept, batch, expiry))
  {
  }

  /** The one step that can prepare an illegal write is an update. */
  lemma OwnStepWritesLegally(s: State, st: Step)
    requires Enabled(s, st) && !st.Tick? && !st.Commit? && !st.Update? && st.t in Apply(s, st).txs
    requires st.t in s.txs ==> TxOk(s.rows, s.maxRetries, s.txs[st.t])
    ensures WritesLegally(s.rows, Apply(s, st).txs[st.t])
  {
    match st
    case Replace(t, heirs) => ReplaceWritesLegally(s, t, heirs);
    case ClaimUpdate(t, kept, batch, expiry) => ClaimWritesLegally(s, t, kept, batch, expiry);
    case _ =>
  }

  lemma UpdateWritesLegally(s: State, t: nat)
    requires CanUpdate(s, t)
    ensures WritesLegally(s.rows, UpdateTx(s, s.txs[t])) <==> Tolerated(s, t)
  {
    var w := UpdateTx(s, s.txs[t]).written;
    assert forall i :: i in s.txs[t].ids ==> i in w && w[i].status == s.txs[t].target;
  }

  // ----- locks keep it that way until the commit -----

  lemma StepSparesLocks(s: State, st: Step, t: nat, i: nat)
    requires Inv(s) && Enabled(s, st) && t in s.txs && !Touches(st, t) && i in Locks(s.txs[t])
    ensures i in Apply(s, st).rows <==> i in s.rows
    ensures i in s.rows ==> Apply(s, st).rows[i] == s.rows[i]
  {
    StepCommits(s, st);
    if Apply(s, st).rows != s.rows {
      assert Apart(s.txs[st.t], s.txs[t]);
      CommitSparesLocks(s.rows, s.maxRetries, s.txs[st.t], s.txs[t], i);
    }
  }

  lemma WrittenIsLocked(s: State, t: nat)
    requires Inv(s) && t in s.txs && s.txs[t].Writing?
    ensures s.txs[t].written.Keys <= Locks(s.txs[t])
  {
    assert TxOk(s.rows, s.maxRetries, s.txs[t]);
  }

  lemma LegalityStays(s: State, st: Step, t: nat)
    requires Inv(s) && Enabled(s, st) && t in s.txs && !Touches(st, t)
    ensures t in Apply(s, st).txs && Apply(s, st).txs[t] == s.txs[t]
    ensures WritesLegally(s.rows, s.txs[t]) <==> WritesLegally(Apply(s, st).rows, s.txs[t])
  {
    StepKeepsOthers(s, st, t);
    if s.txs[t].Writing? {
      WrittenIsLocked(s, t);
      forall i | i in s.txs[t].written
        ensures i in Apply(s, st).rows <==> i in s.rows
        ensures i in s.rows ==> Apply(s, st).rows[i] == s.rows[i]
      {
        StepSparesLocks(s, st, t, i);
      }
    }
  }

  /** An update decides the legality of its transaction's commit, however long that waits. */
  lemma {:induction false} UpdateDecides(states: seq<State>, steps: seq<Step>, a: nat, k: nat, t: nat)
    requires Run(states, steps) && Updated(steps, a, k, t)
    ensures t in states[k].txs
    ensures WritesLegally(states[k].rows, states[k].txs[t]) <==> Tolerated(states[a], t)
    decreases k
  {
    if k == a + 1 {
      JustUpdated(states[a], t);
    } else {
      UpdateDecides(states, steps, a, k - 1, t);
      RunKeepsInv(states, steps, k - 1);
      LegalityStays(states[k - 1], steps[k - 1], t);
    }
  }

  lemma JustUpdated(s: State, t: nat)
    requires Enabled(s, Update(t))
    ensures t in Apply(s, Update(t)).txs
    ensures WritesLegally(Apply(s, Update(t)).rows, Apply(s, Update(t)).txs[t]) <==> Tolerated(s, t)
  {
    UpdateWritesLegally(s, t);
  }

  ghost predicate Illegal(s: State, t: nat) {
    t in s.txs && !WritesLegally(s.rows, s.txs[t])
  }

  ghost predicate Arises(s: State, st: Step, s': State, t: nat) {
    Illegal(s', t) ==> if Touches(st, t) then st == Update(t) else Illegal(s, t)
  }

  lemma OwnStepArises(s: State, st: Step)
    requires Inv(s) && Enabled(s, st) && !st.Tick?
    ensures Illegal(Apply(s, st), st.t) ==> st == Update(st.t)
  {
    if !st.Update? && !st.Commit? && st.t in Apply(s, st).txs {
      StepKeepsRows(s, st);
      OwnStepWritesLegally(s, st);
    }
  }

  /** An illegal write is made by an update, or was there before the step. */
  lemma IllegalArises(s: State, st: Step, t: nat)
    requires Inv(s) && Enabled(s, st)
    ensures Arises(s, st, Apply(s, st), t)
  {
    if Touches(st, t) {
      OwnStepArises(s, st);
    } else {
      StepKeepsOthers(s, st, t);
      if t in s.txs {
        LegalityStays(s, st, t);
      }
    }
  }

  /** Illegality only arises by an update of the transaction. */
  ghost predicate Traced(states: seq<State>, steps: seq<Step>, t: nat) {
    && |states| == |steps| + 1 && !Illegal(states[0], t)
    && forall k :: 0 <= k < |steps| ==> Arises(states[k], steps[k], states[k + 1], t)
  }

  lemma RunIsTraced(states: seq<State>, steps: seq<Step>, t: nat)
    requires Run(states, steps)
    ensures Traced(states, steps, t)
  {
    forall k | 0 <= k < |steps|
      ensures Arises(states[k], steps[k], states[k + 1], t)
    {
      RunKeepsInv(states, steps, k);
      IllegalArises(states[k], steps[k], t);
    }
  }

  /** Every illegal write goes back to an update. */
  lemma {:induction false} IllegalHasUpdate(states: seq<State>, steps: seq<Step>, k: nat, t: nat) returns (a: nat)
    requires Traced(states, steps, t) && k < |states| && Illegal(states[k], t)
    ensures Updated(steps, a, k, t)
  {
    assert k > 0;
    assert Arises(states[k - 1], steps[k - 1], states[k - 1 + 1], t);
    if Touches(steps[k - 1], t) {
      a := k - 1;
    } else {
      a := IllegalHasUpdate(states, steps, k - 1, t);
    }
  }

  // ----- statuses follow the table exactly in calm runs -----

  predicate MovesLegally(states: seq<State>, k: nat, id: nat)
    requires k + 1 < |states| && id in states[k].rows
  {
    id in states[k + 1].rows && LegalChange(states[k].rows[id].status, states[k + 1].rows[id].status)
  }

  lemma LegalCommitFollows(rows: Table, m: nat, tx: Tx, id: nat)
    requires TxOk(rows, m, tx) && Committable(tx) && WritesLegally(rows, tx) && id in rows
    ensures LegalChange(rows[id].status, (rows + Writes(tx))[id].status)
  {
  }

  /** A step whose update was not overtaken changes statuses only as the table allows. */
  lemma StatusesFollowTheTable(states: seq<State>, steps: seq<Step>, k: nat, id: nat)
    requires Run(states, steps) && k < |steps| && CalmStep(states, steps, k) && id in states[k].rows
    ensures MovesLegally(states, k, id)
  {
    var s, st := states[k], steps[k];
    RunKeepsInv(states, steps, k);
    StepCommits(s, st);
    if Apply(s, st).rows != s.rows {
      CommitIsLegal(states, steps, k);
      LegalCommitFollows(s.rows, s.maxRetries, s.txs[st.t], id);
    }
  }

  lemma CommitIsLegal(states: seq<State>, steps: seq<Step>, k: nat)
    requires Run(states, steps) && k < |steps| && steps[k].Commit? && steps[k].t in states[k].txs
    requires CalmStep(states, steps, k)
    ensures WritesLegally(states[k].rows, states[k].txs[steps[k].t])
  {
    if !WritesLegally(states[k].rows, states[k].txs[steps[k].t]) {
      RunIsTraced(states, steps, steps[k].t);
      var a := IllegalHasUpdate(states, steps, k, steps[k].t);
      assert CommittedUpdate(steps, a, k);
      UpdateDecides(states, steps, a, k, steps[k].t);
    }
  }

  lemma OvertakenBreaksTheTable(states: seq<State>, steps: seq<Step>, a: nat, c: nat) returns (id: nat)
    requires Run(states, steps) && CommittedUpdate(steps, a, c) && !Tolerated(states[a], steps[c].t)
    ensures id in states[c].rows && !MovesLegally(states, c, id)
  {
    var s, t := states[c], steps[c].t;
    UpdateDecides(states, steps, a, c, t);
    id :| id in s.txs[t].written && id in s.rows && !LegalChange(s.rows[id].status, s.txs[t].written[id].status);
  }

  ghost predicate AllMoveLegally(states: seq<State>, k: nat)
    requires k + 1 < |states|
  {
    forall id :: id in states[k].rows ==> MovesLegally(states, k, id)
  }

  /** Of every step of every run: statuses change as the table allows if and only if its update was not overtaken. */
  lemma StepFollowsExactly(states: seq<State>, steps: seq<Step>, k: nat)
    requires Run(states, steps) && k < |steps|
    ensures CalmStep(states, steps, k) <==> AllMoveLegally(states, k)
  {
    if CalmStep(states, steps, k) {
      forall id | id in states[k].rows
        ensures MovesLegally(states, k, id)
      {
        StatusesFollowTheTable(states, steps, k, id);
      }
    } else {
      var a: nat :| CommittedUpdate(steps, a, k) && !Tolerated(states[a], steps[k].t);
      var id := OvertakenBreaksTheTable(states, steps, a, k);
    }
  }

  /** Over every run: statuses follow the transition table if and only if no committed update was overtaken. */
  lemma StatusesFollowExactly(states: seq<State>, steps: seq<Step>)
    requires Run(states, steps)
    ensures CalmRun(states, steps) <==> (forall k: nat :: k < |steps| ==> AllMoveLegally(states, k))
  {
    forall k: nat | k < |steps|
      ensures CalmStep(states, steps, k) <==> AllMoveLegally(states, k)
    {
      StepFollowsExactly(states, steps, k);
    }
  }
}
