/** What the lease protocol guarantees over every run, whatever overtakes what. */
module LeaseRuns {
  import opened Options
  import opened PendingEnhancements
  import opened Leases
  import opened LeaseInvariant

  ghost predicate Init(s: State) {
    s.rows == map[] && s.txs == map[] && s.batches == {}
  }

  /** A run: any interleaving of enabled steps from the empty table. */
  ghost predicate Run(states: seq<State>, steps: seq<Step>) {
    && |states| == |steps| + 1 && Init(states[0])
    && forall k :: 0 <= k < |steps| ==> Enabled(states[k], steps[k]) && states[k + 1] == Apply(states[k], steps[k])
  }

  lemma {:induction false} RunKeepsInv(states: seq<State>, steps: seq<Step>, k: nat)
    requires Run(states, steps) && k < |states|
    ensures Inv(states[k]) && states[k].maxRetries == states[0].maxRetries
  {
    if k > 0 {
      RunKeepsInv(states, steps, k - 1);
      StepKeepsInv(states[k - 1], steps[k - 1]);
    }
  }

  // ----- the life of one row -----

  /** How a committed row may differ from an earlier version of itself. */
  predicate Later(a: Row, b: Row) {
    && SameWork(a, b) && a.retryOf == b.retryOf && a.createdAt == b.createdAt
    && (a.batch.Some? ==> b.batch == a.batch)
    && Phase(a.status) <= Phase(b.status)
    && (Phase(a.status) == 2 ==> b.expiresAt == a.expiresAt && (b.status.Expired? ==> a.status.Expired?))
  }

  ghost predicate TableLater(a: Table, b: Table) {
    forall i :: i in a ==> i in b && Later(a[i], b[i])
  }

  lemma CommitMovesOn(rows: Table, m: nat, tx: Tx)
    requires TxOk(rows, m, tx) && Committable(tx)
    ensures TableLater(rows, rows + Writes(tx))
  {
    forall i | i in rows
      ensures Later(rows[i], (rows + Writes(tx))[i])
    {
      CommitOldRow(rows, m, tx, i);
    }
  }

  predicate Touches(st: Step, t: nat) {
    !st.Tick? && st.t == t
  }

  /** A step other than a commit leaves the committed table alone. */
  lemma StepKeepsRows(s: State, st: Step)
    requires Enabled(s, st) && !st.Commit?
    ensures Apply(s, st).rows == s.rows
  {
  }

  /** A step leaves the other transactions as they are. */
  lemma StepKeepsOthers(s: State, st: Step, u: nat)
    requires Enabled(s, st) && !Touches(st, u)
    ensures u in Apply(s, st).txs <==> u in s.txs
    ensures u in s.txs ==> Apply(s, st).txs[u] == s.txs[u]
  {
  }

  /** What a step does to the table: nothing, or the commit of one sound transaction. */
  lemma StepCommits(s: State, st: Step)
    requires Inv(s) && Enabled(s, st)
    ensures Apply(s, st).rows == s.rows
      || (st.Commit? && Commits(s, st.t) && Apply(s, st).rows == s.rows + Writes(s.txs[st.t]))
  {
    if st.Commit? {
      assert TxOk(s.rows, s.maxRetries, s.txs[st.t]);
      assert !Committable(s.txs[st.t]) ==> Apply(s, st).rows == s.rows;
    } else {
      StepKeepsRows(s, st);
    }
  }

  ghost predicate Commits(s: State, t: nat) {
    t in s.txs && Committable(s.txs[t]) && TxOk(s.rows, s.maxRetries, s.txs[t])
  }

  lemma StepMovesOn(s: State, st: Step)
    requires Inv(s) && Enabled(s, st)
    ensures TableLater(s.rows, Apply(s, st).rows)
  {
    StepCommits(s, st);
    if Apply(s, st).rows != s.rows {
      CommitMovesOn(s.rows, s.maxRetries, s.txs[st.t]);
    }
  }

  lemma LaterIsReflexive(a: Table)
    ensures TableLater(a, a)
  {
  }

  lemma LaterIsTransitive(a: Table, b: Table, c: Table)
    requires TableLater(a, b) && TableLater(b, c)
    ensures TableLater(a, c)
  {
    forall i | i in a
      ensures i in c && Later(a[i], c[i])
    {
      assert Later(a[i], b[i]) && Later(b[i], c[i]);
    }
  }

  ghost predicate EachLater(tables: seq<Table>) {
    forall k :: 0 <= k < |tables| - 1 ==> TableLater(tables[k], tables[k + 1])
  }

  lemma {:induction false} TablesMoveOn(tables: seq<Table>, i: nat, j: nat)
    requires EachLater(tables) && i <= j < |tables|
    ensures TableLater(tables[i], tables[j])
    decreases j - i
  {
    if i < j {
      TablesMoveOn(tables, i, j - 1);
      assert TableLater(tables[j - 1], tables[j - 1 + 1]);
      LaterIsTransitive(tables[i], tables[j - 1], tables[j]);
    } else {
      LaterIsReflexive(tables[i]);
    }
  }

  lemma RunMovesOn(states: seq<State>, steps: seq<Step>, i: nat, j: nat)
    requires Run(states, steps) && i <= j < |states|
    ensures TableLater(states[i].rows, states[j].rows)
  {
    var tables := seq(|states|, k requires 0 <= k < |states| => states[k].rows);
    forall k | 0 <= k < |tables| - 1
      ensures TableLater(tables[k], tables[k + 1])
    {
      NextMovesOn(states, steps, k);
    }
    TablesMoveOn(tables, i, j);
  }

  lemma NextMovesOn(states: seq<State>, steps: seq<Step>, k: nat)
    requires Run(states, steps) && k + 1 < |states|
    ensures TableLater(states[k].rows, states[k + 1].rows)
  {
    RunKeepsInv(states, steps, k);
    StepMovesOn(states[k], steps[k]);
  }

  /** A batch id, once committed on a row, is there for good: no row is ever in two batches. */
  lemma BatchSetOnce(states: seq<State>, steps: seq<Step>, i: nat, j: nat, id: nat)
    requires Run(states, steps) && i <= j < |states| && id in states[i].rows && states[i].rows[id].batch.Some?
    ensures id in states[j].rows && states[j].rows[id].batch == states[i].rows[id].batch
  {
    RunMovesOn(states, steps, i, j);
  }

  predicate ExpiresAt(states: seq<State>, k: nat, id: nat)
    requires k + 1 < |states|
  {
    && id in states[k].rows && !states[k].rows[id].status.Expired?
    && id in states[k + 1].rows && states[k + 1].rows[id].status.Expired?
  }

  lemma ExpiresOnlyOnce(states: seq<State>, steps: seq<Step>, i: nat, j: nat, id: nat)
    requires Run(states, steps) && i <= j && j + 1 < |states|
    requires ExpiresAt(states, i, id) && ExpiresAt(states, j, id)
    ensures i == j
  {
    if i < j {
      RunMovesOn(states, steps, i + 1, j);
      RunMovesOn(states, steps, j, j + 1);
    }
  }

  /** Once expired, a row keeps its batch and its old expiry, and no claim or renewal ever takes it again. */
  lemma ExpiredIsNeverLeasedAgain(states: seq<State>, steps: seq<Step>, i: nat, j: nat, id: nat)
    requires Run(states, steps) && i <= j < |states| && id in states[i].rows && states[i].rows[id].status.Expired?
    ensures id in states[j].rows && Phase(states[j].rows[id].status) == 2
    ensures states[j].rows[id].batch == states[i].rows[id].batch
    ensures states[j].rows[id].expiresAt == states[i].rows[id].expiresAt
    ensures forall t :: t in states[j].txs && states[j].txs[t].Claiming? ==> id !in states[j].txs[t].picked
    ensures forall t :: t in states[j].txs && states[j].txs[t].Expiring? ==> id !in states[j].txs[t].marked
  {
    RunMovesOn(states, steps, i, j);
    RunKeepsInv(states, steps, i);
    RunKeepsInv(states, steps, j);
    assert states[i].rows[id].batch.Some?;
    forall t | t in states[j].txs
      ensures states[j].txs[t].Claiming? ==> id !in states[j].txs[t].picked
      ensures states[j].txs[t].Expiring? ==> id !in states[j].txs[t].marked
    {
      assert TxOk(states[j].rows, states[j].maxRetries, states[j].txs[t]);
    }
  }

  /** Two open transactions never hold the same row; a committed batch holds each reference once. */
  lemma ClaimsAreExclusive(states: seq<State>, steps: seq<Step>, k: nat)
    requires Run(states, steps) && k < |states|
    ensures forall t, u :: t in states[k].txs && u in states[k].txs && t != u ==>
      Locks(states[k].txs[t]) !! Locks(states[k].txs[u])
    ensures DistinctInBatch(states[k].rows)
  {
    RunKeepsInv(states, steps, k);
    forall t, u | t in states[k].txs && u in states[k].txs && t != u
      ensures Locks(states[k].txs[t]) !! Locks(states[k].txs[u])
    {
      assert Apart(states[k].txs[t], states[k].txs[u]);
    }
  }

  // ----- retry chains -----

  /** Every row is a known number of retries, at most the limit, from an original. */
  lemma RetryChainsAreBounded(states: seq<State>, steps: seq<Step>, k: nat, id: nat)
    requires Run(states, steps) && k < |states| && id in states[k].rows
    ensures exists n: nat :: n <= states[0].maxRetries && DepthIs(states[k].rows, id, n)
    ensures Linear(states[k].rows)
  {
    RunKeepsInv(states, steps, k);
    assert HasDepth(states[k].rows, id, states[k].maxRetries);
  }

  ghost predicate Replaces(rows: Table, r: nat, id: nat) {
    r in rows && id in rows && IsRetryOf(rows[r], id) && SameWork(rows[r], rows[id])
  }

  /** No expiry loses work: an expired row has a replacement for the same work, unless its retries ran out. */
  lemma ExpiryLosesNothing(states: seq<State>, steps: seq<Step>, k: nat, id: nat)
    requires Run(states, steps) && k < |states| && id in states[k].rows && states[k].rows[id].status.Expired?
    ensures DepthIs(states[k].rows, id, states[0].maxRetries)
      || exists r :: Replaces(states[k].rows, r, id)
  {
    RunKeepsInv(states, steps, k);
    var rows := states[k].rows;
    if !DepthIs(rows, id, states[0].maxRetries) {
      var r :| r in rows && rows[r].retryOf == Some(id);
      assert IsRetryOf(rows[r], id);
      assert Replaces(rows, r, id);
    }
  }

  // ----- building runs -----

  ghost predicate Ends(states: seq<State>, steps: seq<Step>, s: State) {
    Run(states, steps) && states[|steps|] == s
  }

  ghost predicate Reachable(s: State) {
    exists states, steps :: Ends(states, steps, s)
  }

  lemma Reach(s: State, st: Step, s': State)
    requires Reachable(s) && Enabled(s, st) && s' == Apply(s, st)
    ensures Reachable(s')
  {
    var states, steps :| Ends(states, steps, s);
    RunExtends(states, steps, st, s');
    assert Ends(states + [s'], steps + [st], s');
  }

  lemma RunExtends(states: seq<State>, steps: seq<Step>, st: Step, s': State)
    requires Run(states, steps) && Enabled(states[|steps|], st) && s' == Apply(states[|steps|], st)
    ensures Run(states + [s'], steps + [st])
  {
    var longer, more := states + [s'], steps + [st];
    forall k | 0 <= k < |more|
      ensures Enabled(longer[k], more[k]) && longer[k + 1] == Apply(longer[k], more[k])
    {
      assert longer[k] == states[k];
      assert k < |steps| ==> more[k] == steps[k] && longer[k + 1] == states[k + 1];
    }
  }

  /** What has happened so far. */
  datatype Past = Past(states: seq<State>, steps: seq<Step>)

  ghost predicate GoesOn(h: Past, states: seq<State>, steps: seq<Step>, s: State) {
    Ends(states, steps, s) && h.states <= states && h.steps <= steps
  }

  /** Some run that goes on from h ends in s. */
  ghost predicate Continues(h: Past, s: State) {
    exists states, steps :: GoesOn(h, states, steps, s)
  }

  lemma PastContinues(h: Past)
    requires Run(h.states, h.steps)
    ensures Continues(h, h.states[|h.steps|])
  {
    assert GoesOn(h, h.states, h.steps, h.states[|h.steps|]);
  }

  lemma Continue(h: Past, s: State, st: Step, s': State)
    requires Continues(h, s) && Enabled(s, st) && s' == Apply(s, st)
    ensures Continues(h, s')
  {
    var states, steps :| GoesOn(h, states, steps, s);
    RunExtends(states, steps, st, s');
    assert GoesOn(h, states + [s'], steps + [st], s');
  }

  lemma ContinuesKeepsInv(h: Past, s: State)
    requires Continues(h, s)
    ensures Inv(s)
  {
    var states, steps :| GoesOn(h, states, steps, s);
    RunKeepsInv(states, steps, |steps|);
  }
}
