/** What a lease is worth: it is not cut short, and a batch belongs to one robot. */
module LeaseTerms {
  import opened PendingEnhancements
  import opened Leases
  import opened LeaseInvariant
  import opened LeaseRuns

  ghost predicate OneRobot(rows: Table) {
    forall i, j :: i in rows && j in rows && SameBatch(rows[i], rows[j]) ==> rows[i].robot == rows[j].robot
  }

  /** Only rows whose lease has run out are written as expired. */
  ghost predicate ExpiresLate(now: int, rows: Table, written: Table) {
    forall i :: i in written && i in rows && written[i].status.Expired? && !rows[i].status.Expired? ==>
      rows[i].expiresAt < now
  }

  /** The rows among `ids` that are still pending are all for one robot. */
  ghost predicate ForOneRobot(rows: Table, ids: set<nat>) {
    forall i, j | i in ids && j in ids && i in rows && j in rows ::
      rows[i].status.Pending? && rows[j].status.Pending? ==> rows[i].robot == rows[j].robot
  }

  ghost predicate Fair(now: int, rows: Table, tx: Tx) {
    match tx
    case Claiming(picked) => ForOneRobot(rows, picked)
    case Expiring(marked) => forall i :: i in marked && i in rows ==> rows[i].expiresAt < now
    case Writing(_, written, _) => ExpiresLate(now, rows, written) && ForOneRobot(rows, written.Keys)
    case _ => true
  }

  ghost predicate AllFair(s: State) {
    OneRobot(s.rows) && forall t :: t in s.txs ==> Fair(s.now, s.rows, s.txs[t])
  }

  lemma CommitKeepsOneRobot(now: int, rows: Table, m: nat, tx: Tx)
    requires TxOk(rows, m, tx) && Committable(tx) && OneRobot(rows) && Fair(now, rows, tx)
    ensures OneRobot(rows + Writes(tx))
  {
    var after := rows + Writes(tx);
    forall i, j | i in after && j in after && SameBatch(after[i], after[j])
      ensures after[i].robot == after[j].robot
    {
      assert i in rows && j in rows;
      SameBatchSameRobot(now, rows, m, tx, i, j);
    }
  }

  lemma SameBatchSameRobot(now: int, rows: Table, m: nat, tx: Tx, i: nat, j: nat)
    requires TxOk(rows, m, tx) && Committable(tx) && OneRobot(rows) && Fair(now, rows, tx) && i in rows && j in rows
    requires SameBatch((rows + Writes(tx))[i], (rows + Writes(tx))[j])
    ensures (rows + Writes(tx))[i].robot == (rows + Writes(tx))[j].robot
  {
    CommitOldRow(rows, m, tx, i);
    CommitOldRow(rows, m, tx, j);
    assert SameBatch(rows[i], rows[j]) || (tx.Writing? && i in tx.written && j in tx.written
      && rows[i].status.Pending? && rows[j].status.Pending?);
  }

  /** Another transaction's commit does not touch the rows this one relies on. */
  lemma CommitKeepsFair(now: int, rows: Table, m: nat, tx: Tx, other: Tx)
    requires TxOk(rows, m, tx) && Committable(tx) && TxOk(rows, m, other) && Apart(tx, other) && Fair(now, rows, other)
    ensures Fair(now, rows + Writes(tx), other)
  {
    forall i | i in Judged(other)
      ensures i in rows + Writes(tx) <==> i in rows
      ensures i in rows ==> (rows + Writes(tx))[i] == rows[i]
    {
      JudgedIsLocked(rows, m, other, i);
      CommitSparesLocks(rows, m, tx, other, i);
    }
  }

  /** The rows whose state a transaction relies on. */
  function Judged(tx: Tx): set<nat> {
    match tx
    case Claiming(picked) => picked
    case Expiring(marked) => marked
    case Writing(_, written, _) => written.Keys
    case _ => {}
  }

  lemma JudgedIsLocked(rows: Table, m: nat, tx: Tx, i: nat)
    requires TxOk(rows, m, tx) && i in Judged(tx)
    ensures i in Locks(tx)
  {
  }

  lemma ReplaceIsFair(s: State, t: nat, heirs: map<nat, nat>)
    requires CanReplace(s, t, heirs) && TxOk(s.rows, s.maxRetries, s.txs[t]) && Fair(s.now, s.rows, s.txs[t])
    ensures Fair(s.now, s.rows, ReplaceTx(s, s.txs[t].marked, heirs))
  {
    var w := ReplaceTx(s, s.txs[t].marked, heirs).written;
    assert forall i :: i in w && i in s.rows ==> i in s.txs[t].marked && s.rows[i].status.Processing?;
  }

  lemma ClaimSelectIsFair(s: State, t: nat, robot: nat, limit: nat, chosen: set<nat>)
    requires CanClaimSelect(s, t, robot, limit, chosen)
    ensures Fair(s.now, s.rows, Claiming(chosen))
  {
    assert forall i :: i in chosen ==> i in Unclaimed(s, robot) && Available(s.rows[i], robot);
  }

  lemma ExpireIsFair(s: State, t: nat, limit: nat, chosen: set<nat>)
    requires CanExpire(s, t, limit, chosen)
    ensures Fair(s.now, s.rows, Expiring(chosen))
  {
    assert forall i :: i in chosen ==> i in Stale(s);
  }

  lemma RenewIsFair(s: State, batch: nat, expiry: int)
    ensures Fair(s.now, s.rows, RenewTx(s, batch, expiry))
  {
    assert forall i :: i in RenewTx(s, batch, expiry).written ==> s.rows[i].status.Processing?;
  }

  lemma UpdateIsFair(s: State, tx: Tx)
    requires tx.Guarding? && tx.ids <= s.rows.Keys && TxOk(s.rows, s.maxRetries, tx)
    ensures Fair(s.now, s.rows, UpdateTx(s, tx))
  {
    assert forall i :: i in UpdateTx(s, tx).written ==> !s.rows[i].status.Pending?;
  }

  lemma ClaimIsFair(s: State, t: nat, kept: set<nat>, batch: nat, expiry: int)
    requires CanClaimUpdate(s, t, kept, batch) && Fair(s.now, s.rows, s.txs[t])
    ensures Fair(s.now, s.rows, ClaimTx(s, t, kept, batch, expiry))
  {
    assert ClaimTx(s, t, kept, batch, expiry).written.Keys == kept;
  }

  /** The transaction that steps stays fair. */
  lemma OwnStepIsFair(s: State, st: Step)
    requires Enabled(s, st) && !st.Tick? && !st.Commit?
    requires st.t in s.txs ==> Fair(s.now, s.rows, s.txs[st.t]) && TxOk(s.rows, s.maxRetries, s.txs[st.t])
    ensures st.t in Apply(s, st).txs ==> Fair(s.now, s.rows, Apply(s, st).txs[st.t])
  {
    match st
    case Replace(t, heirs) => ReplaceIsFair(s, t, heirs);
    case ClaimSelect(t, robot, limit, chosen) => ClaimSelectIsFair(s, t, robot, limit, chosen);
    case ClaimUpdate(t, kept, batch, expiry) => ClaimIsFair(s, t, kept, batch, expiry);
    case Expire(t, limit, chosen) => ExpireIsFair(s, t, limit, chosen);
    case Renew(_, batch, expiry) => RenewIsFair(s, batch, expiry);
    case Update(t) => UpdateIsFair(s, s.txs[t]);
    case _ =>
  }

  lemma TickKeepsFair(now: int, elapsed: nat, rows: Table, tx: Tx)
    requires Fair(now, rows, tx)
    ensures Fair(now + elapsed, rows, tx)
  {
  }

  lemma ClockStands(s: State, st: Step)
    requires Enabled(s, st) && !st.Tick?
    ensures Apply(s, st).now == s.now
  {
  }

  lemma RowsMoveFairly(s: State, st: Step, u: nat)
    requires Inv(s) && Enabled(s, st) && u in s.txs && !Touches(st, u) && Fair(s.now, s.rows, s.txs[u])
    ensures Fair(s.now, Apply(s, st).rows, s.txs[u])
  {
    StepCommits(s, st);
    if Apply(s, st).rows != s.rows {
      assert Apart(s.txs[st.t], s.txs[u]) && TxOk(s.rows, s.maxRetries, s.txs[u]);
      CommitKeepsFair(s.now, s.rows, s.maxRetries, s.txs[st.t], s.txs[u]);
    }
  }

  lemma OtherStepKeepsFair(s: State, st: Step, u: nat)
    requires Inv(s) && Enabled(s, st) && u in s.txs && !Touches(st, u) && Fair(s.now, s.rows, s.txs[u])
    ensures Fair(Apply(s, st).now, Apply(s, st).rows, s.txs[u])
  {
    RowsMoveFairly(s, st, u);
    if st.Tick? {
      TickKeepsFair(s.now, st.elapsed, s.rows, s.txs[u]);
    } else {
      ClockStands(s, st);
    }
  }

  lemma StepKeepsOneRobot(s: State, st: Step)
    requires Inv(s) && AllFair(s) && Enabled(s, st)
    ensures OneRobot(Apply(s, st).rows)
  {
    StepCommits(s, st);
    if Apply(s, st).rows != s.rows {
      CommitKeepsOneRobot(s.now, s.rows, s.maxRetries, s.txs[st.t]);
    }
  }

  lemma StepKeepsFair(s: State, st: Step)
    requires Inv(s) && AllFair(s) && Enabled(s, st)
    ensures AllFair(Apply(s, st))
  {
    StepKeepsOneRobot(s, st);
    forall u | u in Apply(s, st).txs
      ensures Fair(Apply(s, st).now, Apply(s, st).rows, Apply(s, st).txs[u])
    {
      if Touches(st, u) {
        StepKeepsRows(s, st);
        ClockStands(s, st);
        OwnStepIsFair(s, st);
      } else {
        StepKeepsOthers(s, st, u);
        OtherStepKeepsFair(s, st, u);
      }
    }
  }

  lemma {:induction false} RunIsFair(states: seq<State>, steps: seq<Step>, k: nat)
    requires Run(states, steps) && k < |states|
    ensures AllFair(states[k])
  {
    if k > 0 {
      RunIsFair(states, steps, k - 1);
      RunKeepsInv(states, steps, k - 1);
      StepKeepsFair(states[k - 1], steps[k - 1]);
    }
  }

  lemma CommitExpiresLate(now: int, rows: Table, m: nat, tx: Tx, id: nat)
    requires TxOk(rows, m, tx) && Committable(tx) && Fair(now, rows, tx) && id in rows
    requires !rows[id].status.Expired? && (rows + Writes(tx))[id].status.Expired?
    ensures rows[id].status.Processing? && rows[id].expiresAt < now
  {
    CommitOldRow(rows, m, tx, id);
  }

  /** No lease is cut short: a row expires only after the expiry it was last granted or renewed to. */
  lemma LeaseIsHonoured(states: seq<State>, steps: seq<Step>, k: nat, id: nat)
    requires Run(states, steps) && k + 1 < |states| && ExpiresAt(states, k, id)
    ensures states[k].rows[id].status.Processing? && states[k].rows[id].expiresAt < states[k].now
  {
    RunKeepsInv(states, steps, k);
    RunIsFair(states, steps, k);
    StepExpiresLate(states[k], steps[k], id);
  }

  predicate Expires(before: Table, after: Table, id: nat) {
    id in before && !before[id].status.Expired? && id in after && after[id].status.Expired?
  }

  lemma StepExpiresLate(s: State, st: Step, id: nat)
    requires Inv(s) && AllFair(s) && Enabled(s, st)
    ensures Expires(s.rows, Apply(s, st).rows, id) ==> s.rows[id].status.Processing? && s.rows[id].expiresAt < s.now
  {
    StepCommits(s, st);
    if Expires(s.rows, Apply(s, st).rows, id) {
      CommitExpiresLate(s.now, s.rows, s.maxRetries, s.txs[st.t], id);
    }
  }

  /** In every reachable state the rows of a batch are all for the same robot. */
  lemma BatchHasOneRobot(states: seq<State>, steps: seq<Step>, k: nat, i: nat, j: nat)
    requires Run(states, steps) && k < |states| && i in states[k].rows && j in states[k].rows
    requires SameBatch(states[k].rows[i], states[k].rows[j])
    ensures states[k].rows[i].robot == states[k].rows[j].robot
  {
    RunIsFair(states, steps, k);
  }
}
