/** A batch is imported as a whole: whoever moves one of its rows to IMPORTING moves them all. */
module LeaseBatches {
  import opened Options
  import opened PendingEnhancements
  import opened Leases
  import opened LeaseInvariant
  import opened LeaseRuns
  import opened LeaseGuards

  /** Nobody joins a batch that is already in the table. */
  lemma NobodyJoins(rows: Table, m: nat, tx: Tx, r: nat, q: nat)
    requires BatchIffClaimed(rows) && TxOk(rows, m, tx) && Committable(tx)
    requires r in rows && rows[r].batch.Some? && q in rows + Writes(tx)
    requires SameBatch((rows + Writes(tx))[r], (rows + Writes(tx))[q])
    ensures q in rows && SameBatch(rows[r], rows[q])
  {
    CommitOldRow(rows, m, tx, r);
    if q in rows {
      CommitOldRow(rows, m, tx, q);
    } else {
      CommitShape(rows, m, tx);
    }
  }

  ghost predicate Closed(rows: Table, ids: set<nat>) {
    forall r, q :: r in ids && r in rows && q in rows && SameBatch(rows[r], rows[q]) ==> q in ids
  }

  function Imports(written: Table): set<nat> {
    set i | i in written && written[i].status.Importing?
  }

  /** Whoever moves one row of a batch to IMPORTING moves every row of that batch. */
  ghost predicate TakesWholeBatches(rows: Table, tx: Tx) {
    match tx
    case Guarding(ids, target) => target.Importing? ==> Closed(rows, ids)
    case Writing(_, written, _) => Closed(rows, Imports(written))
    case _ => true
  }

  lemma ClosedStays(rows: Table, m: nat, tx: Tx, ids: set<nat>)
    requires BatchIffClaimed(rows) && TxOk(rows, m, tx) && Committable(tx) && Closed(rows, ids)
    requires forall i :: i in ids ==> i in rows && rows[i].batch.Some?
    ensures Closed(rows + Writes(tx), ids)
  {
    var after := rows + Writes(tx);
    forall r, q | r in ids && r in after && q in after && SameBatch(after[r], after[q])
      ensures q in ids
    {
      NobodyJoins(rows, m, tx, r, q);
    }
  }

  /** A transaction can only be importing rows that have a batch. */
  lemma ImportsAreClaimed(rows: Table, m: nat, written: Table, locked: set<nat>, batch: Option<nat>)
    requires BatchIffClaimed(rows) && WritingOk(rows, m, locked, written, batch)
    ensures forall i :: i in Imports(written) ==> i in rows && rows[i].batch.Some?
  {
    forall i | i in Imports(written)
      ensures i in rows && !rows[i].status.Pending?
    {
      assert i !in rows ==> RetryOk(rows, written, written[i], m);
      assert i in rows ==> Evolves(rows[i], written[i], batch);
    }
  }

  lemma CommitKeepsWhole(rows: Table, m: nat, tx: Tx, other: Tx)
    requires BatchIffClaimed(rows) && TxOk(rows, m, tx) && Committable(tx) && TxOk(rows, m, other)
    requires TakesWholeBatches(rows, other)
    ensures TakesWholeBatches(rows + Writes(tx), other)
  {
    match other
    case Guarding(ids, target) =>
      if target.Importing? {
        ClosedStays(rows, m, tx, ids);
      }
    case Writing(locked, written, batch) =>
      ImportsAreClaimed(rows, m, written, locked, batch);
      ClosedStays(rows, m, tx, Imports(written));
    case _ =>
  }

  lemma GuardTakesWhole(rows: Table, ids: set<nat>)
    requires WholeBatch(rows, ids)
    ensures Closed(rows, ids)
  {
    var batch :| ids == Members(rows, batch);
  }

  lemma ReplaceTakesWhole(s: State, t: nat, heirs: map<nat, nat>)
    requires CanReplace(s, t, heirs)
    ensures TakesWholeBatches(s.rows, ReplaceTx(s, s.txs[t].marked, heirs))
  {
    assert Imports(ReplaceTx(s, s.txs[t].marked, heirs).written) == {};
  }

  lemma UpdateTakesWhole(s: State, tx: Tx)
    requires tx.Guarding? && tx.ids <= s.rows.Keys && TakesWholeBatches(s.rows, tx)
    ensures TakesWholeBatches(s.rows, UpdateTx(s, tx))
  {
    var w := UpdateTx(s, tx).written;
    assert Imports(w) == if tx.target.Importing? then tx.ids else {};
  }

  lemma RenewTakesWhole(s: State, batch: nat, expiry: int)
    ensures TakesWholeBatches(s.rows, RenewTx(s, batch, expiry))
  {
    assert Imports(RenewTx(s, batch, expiry).written) == {};
  }

  lemma ClaimTakesWhole(s: State, t: nat, kept: set<nat>, batch: nat, expiry: int)
    requires CanClaimUpdate(s, t, kept, batch)
    ensures TakesWholeBatches(s.rows, ClaimTx(s, t, kept, batch, expiry))
  {
    assert Imports(ClaimTx(s, t, kept, batch, expiry).written) == {};
  }

  lemma OwnStepTakesWhole(s: State, st: Step)
    requires Enabled(s, st) && !st.Tick? && !st.Commit? && st.t in Apply(s, st).txs
    requires st.t in s.txs ==> TakesWholeBatches(s.rows, s.txs[st.t])
    ensures TakesWholeBatches(s.rows, Apply(s, st).txs[st.t])
  {
    match st
    case Replace(t, heirs) => ReplaceTakesWhole(s, t, heirs);
    case ClaimUpdate(t, kept, batch, expiry) => ClaimTakesWhole(s, t, kept, batch, expiry);
    case Renew(_, batch, expiry) => RenewTakesWhole(s, batch, expiry);
    case Update(t) => UpdateTakesWhole(s, s.txs[t]);
    case Guard(_, ids, target) =>
      if target.Importing? {
        GuardTakesWhole(s.rows, ids);
      }
    case _ =>
  }

  ghost predicate AllTakeWhole(s: State) {
    forall t :: t in s.txs ==> TakesWholeBatches(s.rows, s.txs[t])
  }

  lemma OtherStepTakesWhole(s: State, st: Step, u: nat)
    requires Inv(s) && AllTakeWhole(s) && Enabled(s, st) && !Touches(st, u) && u in s.txs
    ensures TakesWholeBatches(Apply(s, st).rows, s.txs[u])
  {
    StepCommits(s, st);
    if Apply(s, st).rows != s.rows {
      assert TxOk(s.rows, s.maxRetries, s.txs[u]);
      CommitKeepsWhole(s.rows, s.maxRetries, s.txs[st.t], s.txs[u]);
    }
  }

  lemma StepTakesWhole(s: State, st: Step)
    requires Inv(s) && AllTakeWhole(s) && Enabled(s, st)
    ensures AllTakeWhole(Apply(s, st))
  {
    forall u | u in Apply(s, st).txs
      ensures TakesWholeBatches(Apply(s, st).rows, Apply(s, st).txs[u])
    {
      if !Touches(st, u) {
        StepKeepsOthers(s, st, u);
        OtherStepTakesWhole(s, st, u);
      } else {
        StepKeepsRows(s, st);
        OwnStepTakesWhole(s, st);
      }
    }
  }

  lemma {:induction false} RunTakesWhole(states: seq<State>, steps: seq<Step>, k: nat)
    requires Run(states, steps) && k < |states|
    ensures AllTakeWhole(states[k])
  {
    if k > 0 {
      RunTakesWhole(states, steps, k - 1);
      RunKeepsInv(states, steps, k - 1);
      StepTakesWhole(states[k - 1], steps[k - 1]);
    }
  }

  predicate StartsImporting(states: seq<State>, k: nat, id: nat)
    requires k + 1 < |states|
  {
    && id in states[k].rows && !states[k].rows[id].status.Importing?
    && id in states[k + 1].rows && states[k + 1].rows[id].status.Importing?
  }

  /** In every run, overtaken or not, the rows of a batch start importing in one and the same commit. */
  lemma BatchImportsTogether(states: seq<State>, steps: seq<Step>, k: nat, r: nat, q: nat)
    requires Run(states, steps) && k + 1 < |states| && StartsImporting(states, k, r)
    requires q in states[k].rows && SameBatch(states[k].rows[r], states[k].rows[q])
    ensures q in states[k + 1].rows && states[k + 1].rows[q].status.Importing?
  {
    var s, st := states[k], steps[k];
    RunKeepsInv(states, steps, k);
    RunTakesWhole(states, steps, k);
    StepCommits(s, st);
    CommitImports(s.rows, s.maxRetries, s.txs[st.t], r, q);
  }

  lemma CommitImports(rows: Table, m: nat, tx: Tx, r: nat, q: nat)
    requires TxOk(rows, m, tx) && Committable(tx) && TakesWholeBatches(rows, tx) && r in rows && q in rows
    requires !rows[r].status.Importing? && (rows + Writes(tx))[r].status.Importing? && SameBatch(rows[r], rows[q])
    ensures (rows + Writes(tx))[q].status.Importing?
  {
    assert tx.Writing? ==> r in Imports(tx.written);
  }

  /** No row of a batch is still leased while another is importing. */
  ghost predicate NoneLags(rows: Table) {
    forall r, q :: r in rows && q in rows && SameBatch(rows[r], rows[q]) && rows[q].status.Importing? ==>
      !rows[r].status.Processing?
  }

  lemma CommitKeepsUp(rows: Table, m: nat, tx: Tx, r: nat, q: nat)
    requires BatchIffClaimed(rows) && NoneLags(rows) && TxOk(rows, m, tx) && Committable(tx)
      && TakesWholeBatches(rows, tx)
    requires r in rows && q in rows && SameBatch((rows + Writes(tx))[r], (rows + Writes(tx))[q])
    requires (rows + Writes(tx))[q].status.Importing?
    ensures !(rows + Writes(tx))[r].status.Processing?
  {
    CommitOldRow(rows, m, tx, q);
    CommitOldRow(rows, m, tx, r);
    assert rows[q].batch.Some?;
    assert SameBatch((rows + Writes(tx))[q], (rows + Writes(tx))[r]);
    NobodyJoins(rows, m, tx, q, r);
    assert SameBatch(rows[r], rows[q]);
    if !rows[q].status.Importing? {
      CommitImports(rows, m, tx, q, r);
    }
  }

  lemma CommitKeepsNoneLags(rows: Table, m: nat, tx: Tx)
    requires BatchIffClaimed(rows) && NoneLags(rows) && TxOk(rows, m, tx) && Committable(tx)
      && TakesWholeBatches(rows, tx)
    ensures NoneLags(rows + Writes(tx))
  {
    var after := rows + Writes(tx);
    CommitShape(rows, m, tx);
    forall r, q | r in after && q in after && SameBatch(after[r], after[q]) && after[q].status.Importing?
      ensures !after[r].status.Processing?
    {
      CommitKeepsUp(rows, m, tx, r, q);
    }
  }

  lemma {:induction false} RunNeverLags(states: seq<State>, steps: seq<Step>, k: nat)
    requires Run(states, steps) && k < |states|
    ensures NoneLags(states[k].rows)
  {
    if k > 0 {
      RunNeverLags(states, steps, k - 1);
      RunKeepsInv(states, steps, k - 1);
      RunTakesWhole(states, steps, k - 1);
      StepNeverLags(states[k - 1], steps[k - 1]);
    }
  }

  lemma StepNeverLags(s: State, st: Step)
    requires Inv(s) && AllTakeWhole(s) && Enabled(s, st) && NoneLags(s.rows)
    ensures NoneLags(Apply(s, st).rows)
  {
    StepCommits(s, st);
    if Apply(s, st).rows != s.rows {
      CommitKeepsNoneLags(s.rows, s.maxRetries, s.txs[st.t]);
    }
  }

  /** When a batch starts importing by an update that was not overtaken, every row of it is still leased. */
  lemma ImportingFindsAllLeased(states: seq<State>, steps: seq<Step>, k: nat, r: nat, q: nat)
    requires Run(states, steps) && k < |steps| && StartsImporting(states, k, r) && CalmStep(states, steps, k)
    requires q in states[k].rows && SameBatch(states[k].rows[r], states[k].rows[q])
    ensures states[k].rows[q].status.Processing?
  {
    BatchImportsTogether(states, steps, k, r, q);
    StatusesFollowTheTable(states, steps, k, r);
    StatusesFollowTheTable(states, steps, k, q);
    RunNeverLags(states, steps, k);
    assert CanTransition(states[k].rows[r].status, Importing);
  }
}
