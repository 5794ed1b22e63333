/**
  At most one row per request and reference is live, that is not expired. Over every run this holds
  exactly as long as every commit that brings an expired row back is careful.
 */
module LeaseLive {
  import opened PendingEnhancements
  import opened Leases
  import opened LeaseInvariant
  import opened LeaseRuns
  import opened LeaseGuards
  import opened LeaseExpired

  ghost predicate OneLive(rows: Table) {
    forall i, j | i in rows && j in rows && SameKey(rows[i], rows[j]) ::
      !rows[i].status.Expired? && !rows[j].status.Expired? ==> i == j
  }

  /** An update that was overtaken by an expiry brings the row back. */
  predicate Revives(a: Row, b: Row) {
    a.status.Expired? && !b.status.Expired? && a.request.Some?
  }

  /** Every other row of the key is expired and is not brought back too. */
  ghost predicate OthersStayExpired(rows: Table, written: Table, p: nat)
    requires p in rows
  {
    forall j :: j in rows && j != p && SameKey(rows[p], rows[j]) ==>
      rows[j].status.Expired? && (j in written ==> written[j].status.Expired?)
  }

  ghost predicate Careful(rows: Table, tx: Tx) {
    forall p :: p in Writes(tx) && p in rows && Revives(rows[p], Writes(tx)[p]) ==>
      OthersStayExpired(rows, Writes(tx), p)
  }

  // ----- a careful commit keeps one live row -----

  /** At the end of every retry chain is an original with the same work. */
  lemma {:induction false} OriginalOf(rows: Table, i: nat, n: nat) returns (o: nat)
    requires RetriesFollowLeases(rows) && DepthIs(rows, i, n)
    ensures o in rows && rows[o].retryOf.None? && SameWork(rows[o], rows[i])
    decreases n
  {
    o := i;
    if n > 0 {
      var p := rows[i].retryOf.value;
      assert IsRetryOf(rows[i], p);
      o := OriginalOf(rows, p, n - 1);
    }
  }

  /** A key for which an original can be inserted has no rows at all, retries included. */
  lemma InsertedKeyIsNew(rows: Table, m: nat, inserted: Table, i: nat, j: nat)
    requires RetriesFollowLeases(rows) && BoundedDepth(rows, m) && TxOk(rows, m, Inserting(inserted))
    requires i in inserted && j in rows
    ensures !SameKey(inserted[i], rows[j])
  {
    assert HasDepth(rows, j, m);
    var n: nat :| DepthIs(rows, j, n);
    var o := OriginalOf(rows, j, n);
    assert !SameKey(inserted[i], rows[o]);
  }

  lemma OldOldLive(rows: Table, m: nat, tx: Tx, i: nat, j: nat)
    requires TxOk(rows, m, tx) && Committable(tx) && OneLive(rows) && Careful(rows, tx) && i in rows && j in rows
    requires SameKey((rows + Writes(tx))[i], (rows + Writes(tx))[j])
    requires !(rows + Writes(tx))[i].status.Expired? && !(rows + Writes(tx))[j].status.Expired?
    ensures i == j
  {
    CommitOldRow(rows, m, tx, i);
    CommitOldRow(rows, m, tx, j);
    assert SameKey(rows[i], rows[j]) && SameKey(rows[j], rows[i]);
    assert rows[i].status.Expired? ==> OthersStayExpired(rows, Writes(tx), i);
    assert rows[j].status.Expired? ==> OthersStayExpired(rows, Writes(tx), j);
  }

  /** A replacement is the only live row of its key: its predecessor was, and is expired with it. */
  lemma NewOldLive(rows: Table, m: nat, tx: Tx, i: nat, j: nat)
    requires tx.Writing? && TxOk(rows, m, tx) && OneLive(rows) && Careful(rows, tx)
    requires i in tx.written && i !in rows && j in rows && SameKey(tx.written[i], rows[j])
    ensures (rows + tx.written)[j].status.Expired?
  {
    CommitNewRow(rows, m, tx, i);
    CommitOldRow(rows, m, tx, j);
    var p := tx.written[i].retryOf.value;
    assert SameKey(rows[p], rows[j]) && SameKey(rows[j], rows[p]);
    assert j != p ==> rows[j].status.Expired?;
    assert j != p ==> !Revives(rows[j], (rows + tx.written)[j]);
  }

  lemma NewNewLive(rows: Table, m: nat, tx: Tx, i: nat, j: nat)
    requires tx.Writing? && TxOk(rows, m, tx) && OneLive(rows)
    requires i in tx.written && i !in rows && j in tx.written && j !in rows && SameKey(tx.written[i], tx.written[j])
    ensures i == j
  {
    CommitNewRow(rows, m, tx, i);
    CommitNewRow(rows, m, tx, j);
    var p, q := tx.written[i].retryOf.value, tx.written[j].retryOf.value;
    assert SameKey(rows[p], rows[q]);
  }

  lemma NewLive(rows: Table, m: nat, tx: Tx, i: nat, j: nat)
    requires RetriesFollowLeases(rows) && BoundedDepth(rows, m) && TxOk(rows, m, tx) && Committable(tx)
    requires OneLive(rows) && Careful(rows, tx) && i in Writes(tx) && i !in rows && j in rows + Writes(tx)
    requires SameKey(Writes(tx)[i], (rows + Writes(tx))[j]) && !(rows + Writes(tx))[j].status.Expired?
    ensures i == j
  {
    if tx.Inserting? {
      if j in rows {
        InsertedKeyIsNew(rows, m, tx.inserted, i, j);
      }
    } else if j in rows {
      CommitOldRow(rows, m, tx, j);
      NewOldLive(rows, m, tx, i, j);
    } else {
      NewNewLive(rows, m, tx, i, j);
    }
  }

  lemma CarefulKeepsOneLive(rows: Table, m: nat, tx: Tx)
    requires RetriesFollowLeases(rows) && BoundedDepth(rows, m) && TxOk(rows, m, tx) && Committable(tx)
    requires OneLive(rows) && Careful(rows, tx)
    ensures OneLive(rows + Writes(tx))
  {
    var after := rows + Writes(tx);
    forall i, j | i in after && j in after && SameKey(after[i], after[j])
                  && !after[i].status.Expired? && !after[j].status.Expired?
      ensures i == j
    {
      assert SameKey(after[j], after[i]);
      if i !in rows {
        NewLive(rows, m, tx, i, j);
      } else if j !in rows {
        NewLive(rows, m, tx, j, i);
      } else {
        OldOldLive(rows, m, tx, i, j);
      }
    }
  }

  // ----- and only a careful one does -----

  /** No transaction both expires rows and writes over expired ones. */
  ghost predicate Unmixed(rows: Table, tx: Tx) {
    tx.Writing? ==>
      || (forall i :: i in tx.written && i in rows ==> !tx.written[i].status.Expired?)
      || (forall i :: i in tx.written && i in rows ==> !rows[i].status.Expired?)
  }

  lemma OneLiveMeansCareful(rows: Table, m: nat, tx: Tx)
    requires TxOk(rows, m, tx) && Committable(tx) && Unmixed(rows, tx) && OneLive(rows + Writes(tx))
    ensures Careful(rows, tx)
  {
    forall p | p in Writes(tx) && p in rows && Revives(rows[p], Writes(tx)[p])
      ensures OthersStayExpired(rows, Writes(tx), p)
    {
      forall j | j in rows && j != p && SameKey(rows[p], rows[j])
        ensures rows[j].status.Expired? && (j in Writes(tx) ==> Writes(tx)[j].status.Expired?)
      {
        RevivedAlone(rows, m, tx, p, j);
      }
    }
  }

  lemma RevivedAlone(rows: Table, m: nat, tx: Tx, p: nat, j: nat)
    requires TxOk(rows, m, tx) && Committable(tx) && Unmixed(rows, tx) && OneLive(rows + Writes(tx))
    requires p in Writes(tx) && p in rows && Revives(rows[p], Writes(tx)[p])
    requires j in rows && j != p && SameKey(rows[p], rows[j])
    ensures rows[j].status.Expired? && (j in Writes(tx) ==> Writes(tx)[j].status.Expired?)
  {
    var after := rows + Writes(tx);
    CommitOldRow(rows, m, tx, p);
    CommitOldRow(rows, m, tx, j);
    assert SameKey(after[p], after[j]);
    assert after[j].status.Expired?;
  }

  lemma ReplaceIsUnmixed(s: State, t: nat, heirs: map<nat, nat>)
    requires CanReplace(s, t, heirs) && TxOk(s.rows, s.maxRetries, s.txs[t])
    ensures Unmixed(s.rows, ReplaceTx(s, s.txs[t].marked, heirs))
  {
    var w := ReplaceTx(s, s.txs[t].marked, heirs).written;
    assert forall i :: i in w && i in s.rows ==> i in s.txs[t].marked;
  }

  lemma UpdateIsUnmixed(s: State, tx: Tx)
    requires tx.Guarding? && tx.ids <= s.rows.Keys && TxOk(s.rows, s.maxRetries, tx)
    ensures Unmixed(s.rows, UpdateTx(s, tx))
  {
    assert !tx.target.Expired?;
  }

  lemma RenewIsUnmixed(s: State, batch: nat, expiry: int)
    ensures Unmixed(s.rows, RenewTx(s, batch, expiry))
  {
    assert forall i :: i in RenewTx(s, batch, expiry).written ==> s.rows[i].status.Processing?;
  }

  lemma OwnStepIsUnmixed(s: State, st: Step)
    requires Enabled(s, st) && !st.Tick? && !st.Commit? && st.t in Apply(s, st).txs
    requires st.t in s.txs ==> TxOk(s.rows, s.maxRetries, s.txs[st.t])
    ensures Unmixed(s.rows, Apply(s, st).txs[st.t])
  {
    match st
    case Replace(t, heirs) => ReplaceIsUnmixed(s, t, heirs);
    case Renew(_, batch, expiry) => RenewIsUnmixed(s, batch, expiry);
    case Update(t) => UpdateIsUnmixed(s, s.txs[t]);
    case _ =>
  }

  ghost predicate AllUnmixed(s: State) {
    forall t :: t in s.txs ==> Unmixed(s.rows, s.txs[t])
  }

  lemma OtherStaysUnmixed(s: State, st: Step, u: nat)
    requires Inv(s) && Enabled(s, st) && u in s.txs && !Touches(st, u) && Unmixed(s.rows, s.txs[u])
    ensures Unmixed(Apply(s, st).rows, s.txs[u])
  {
    if s.txs[u].Writing? {
      WrittenIsLocked(s, u);
      forall i | i in s.txs[u].written
        ensures i in Apply(s, st).rows <==> i in s.rows
        ensures i in s.rows ==> Apply(s, st).rows[i] == s.rows[i]
      {
        StepSparesLocks(s, st, u, i);
      }
    }
  }

  lemma StepKeepsUnmixed(s: State, st: Step)
    requires Inv(s) && AllUnmixed(s) && Enabled(s, st)
    ensures AllUnmixed(Apply(s, st))
  {
    forall u | u in Apply(s, st).txs
      ensures Unmixed(Apply(s, st).rows, Apply(s, st).txs[u])
    {
      if !Touches(st, u) {
        StepKeepsOthers(s, st, u);
        OtherStaysUnmixed(s, st, u);
      } else {
        StepKeepsRows(s, st);
        OwnStepIsUnmixed(s, st);
      }
    }
  }

  lemma {:induction false} RunIsUnmixed(states: seq<State>, steps: seq<Step>, k: nat)
    requires Run(states, steps) && k < |states|
    ensures AllUnmixed(states[k])
  {
    if k > 0 {
      RunIsUnmixed(states, steps, k - 1);
      RunKeepsInv(states, steps, k - 1);
      StepKeepsUnmixed(states[k - 1], steps[k - 1]);
    }
  }

  // ----- the exact condition, over every run -----

  ghost predicate CarefulStep(s: State, st: Step) {
    st.Commit? && st.t in s.txs ==> Careful(s.rows, s.txs[st.t])
  }

  lemma StepLiveExactly(s: State, st: Step)
    requires Inv(s) && AllUnmixed(s) && Enabled(s, st) && OneLive(s.rows)
    ensures OneLive(Apply(s, st).rows) <==> CarefulStep(s, st)
  {
    if st.Commit? && Committable(s.txs[st.t]) {
      CommitLiveExactly(s, st.t);
    } else {
      StepCommits(s, st);
    }
  }

  lemma CommitLiveExactly(s: State, t: nat)
    requires Inv(s) && AllUnmixed(s) && CanCommit(s, t) && Committable(s.txs[t]) && OneLive(s.rows)
    ensures OneLive(DoCommit(s, t).rows) <==> Careful(s.rows, s.txs[t])
  {
    assert TxOk(s.rows, s.maxRetries, s.txs[t]);
    if Careful(s.rows, s.txs[t]) {
      CarefulKeepsOneLive(s.rows, s.maxRetries, s.txs[t]);
    }
    if OneLive(DoCommit(s, t).rows) {
      OneLiveMeansCareful(s.rows, s.maxRetries, s.txs[t]);
    }
  }

  lemma NextLiveExactly(states: seq<State>, steps: seq<Step>, k: nat)
    requires Run(states, steps) && k < |steps| && OneLive(states[k].rows)
    ensures OneLive(states[k + 1].rows) <==> CarefulStep(states[k], steps[k])
  {
    RunKeepsInv(states, steps, k);
    RunIsUnmixed(states, steps, k);
    StepLiveExactly(states[k], steps[k]);
  }

  lemma {:induction false} DecidedStepwise(live: seq<bool>, careful: seq<bool>, k: nat)
    requires |live| == |careful| + 1 && live[0] && k < |live|
    requires forall j :: 0 <= j < |careful| && live[j] ==> (live[j + 1] <==> careful[j])
    ensures (forall j :: 0 <= j <= k ==> live[j]) <==> (forall j :: 0 <= j < k ==> careful[j])
  {
    if k > 0 {
      DecidedStepwise(live, careful, k - 1);
      assert live[k - 1] ==> (live[k - 1 + 1] <==> careful[k - 1]);
    }
  }

  /** Over every run: one live row per key in all states up to k if and only if all commits before k are careful. */
  lemma OneLiveExactly(states: seq<State>, steps: seq<Step>, k: nat)
    requires Run(states, steps) && k < |states|
    ensures (forall j :: 0 <= j <= k ==> OneLive(states[j].rows)) <==>
            (forall j :: 0 <= j < k ==> CarefulStep(states[j], steps[j]))
  {
    ghost var live := seq(|states|, j requires 0 <= j < |states| => OneLive(states[j].rows));
    ghost var careful := seq(|steps|, j requires 0 <= j < |steps| => CarefulStep(states[j], steps[j]));
    forall j | 0 <= j < |careful| && live[j]
      ensures live[j + 1] <==> careful[j]
    {
      NextLiveExactly(states, steps, j);
    }
    DecidedStepwise(live, careful, k);
    assert forall j :: 0 <= j < |live| ==> (live[j] <==> OneLive(states[j].rows));
    assert forall j :: 0 <= j < |careful| ==> (careful[j] <==> CarefulStep(states[j], steps[j]));
  }

  // ----- as long as no expired row comes back, every commit is careful -----

  lemma SleepingIsCareful(rows: Table, tx: Tx)
    requires Sleeps(rows, rows + Writes(tx))
    ensures Careful(rows, tx)
  {
    forall p | p in Writes(tx) && p in rows
      ensures !Revives(rows[p], Writes(tx)[p])
    {
      assert !Wakes(rows, rows + Writes(tx), p);
    }
  }

  lemma AwakeStepIsCareful(states: seq<State>, steps: seq<Step>, k: nat)
    requires Run(states, steps) && k < |steps| && AwakeStep(states, steps, k)
    ensures CarefulStep(states[k], steps[k])
  {
    if steps[k].Commit? && steps[k].t in states[k].txs {
      StepSleepsExactly(states, steps, k);
      assert Enabled(states[k], steps[k]) && states[k + 1] == Apply(states[k], steps[k]);
      SleepingIsCareful(states[k].rows, states[k].txs[steps[k].t]);
    }
  }

  /** While updates find none of their rows expired, a request has at most one live row per reference. */
  lemma AtMostOneLive(states: seq<State>, steps: seq<Step>, k: nat)
    requires Run(states, steps) && k < |states| && AwakeUntil(states, steps, k)
    ensures OneLive(states[k].rows)
  {
    forall j | 0 <= j < k
      ensures CarefulStep(states[j], steps[j])
    {
      assert AwakeStep(states, steps, j);
      AwakeStepIsCareful(states, steps, j);
    }
    OneLiveExactly(states, steps, k);
  }

  // ----- which of the rows of a key is the live one -----

  ghost predicate ReplacedMeansExpired(rows: Table) {
    forall i, p :: i in rows && p in rows && IsRetryOf(rows[i], p) ==> rows[p].status.Expired?
  }

  /** A row that has been replaced is brought back. */
  ghost predicate WakesReplaced(before: Table, after: Table, p: nat) {
    Wakes(before, after, p) && HasRetry(before, p)
  }

  ghost predicate ReplacedSleep(before: Table, after: Table) {
    forall p :: !WakesReplaced(before, after, p)
  }

  lemma PredecessorExpires(rows: Table, m: nat, tx: Tx, i: nat, p: nat)
    requires TxOk(rows, m, tx) && Committable(tx) && ReplacedMeansExpired(rows) && i in rows && p in rows
    ensures IsRetryOf((rows + Writes(tx))[i], p) && !WakesReplaced(rows, rows + Writes(tx), p) ==>
      (rows + Writes(tx))[p].status.Expired?
  {
    CommitOldRow(rows, m, tx, i);
    if IsRetryOf((rows + Writes(tx))[i], p) {
      assert IsRetryOf(rows[i], p);
      assert HasRetry(rows, p);
    }
  }

  lemma RetryNamesARow(rows: Table, m: nat, tx: Tx, i: nat, p: nat)
    requires TxOk(rows, m, tx) && Committable(tx) && RetriesFollowLeases(rows)
    requires i in rows && IsRetryOf((rows + Writes(tx))[i], p)
    ensures p in rows
  {
    CommitOldRow(rows, m, tx, i);
    assert IsRetryOf(rows[i], p);
  }

  lemma CommitKeepsReplaced(rows: Table, m: nat, tx: Tx)
    requires TxOk(rows, m, tx) && Committable(tx) && RetriesFollowLeases(rows) && ReplacedMeansExpired(rows)
    requires ReplacedSleep(rows, rows + Writes(tx))
    ensures ReplacedMeansExpired(rows + Writes(tx))
  {
    var after := rows + Writes(tx);
    forall i, p | i in after && p in after && IsRetryOf(after[i], p)
      ensures after[p].status.Expired?
    {
      if i in rows {
        RetryNamesARow(rows, m, tx, i, p);
        PredecessorExpires(rows, m, tx, i, p);
        assert !WakesReplaced(rows, after, p);
      } else {
        CommitNewRow(rows, m, tx, i);
      }
    }
  }

  lemma ReplacedStaysExpired(rows: Table, m: nat, tx: Tx, p: nat)
    requires TxOk(rows, m, tx) && Committable(tx) && ReplacedMeansExpired(rows + Writes(tx))
    requires p in rows && HasRetry(rows, p)
    ensures (rows + Writes(tx))[p].status.Expired?
  {
    var i :| i in rows && IsRetryOf(rows[i], p);
    RetryKept(rows, m, tx, i, p);
  }

  lemma RetryKept(rows: Table, m: nat, tx: Tx, i: nat, p: nat)
    requires TxOk(rows, m, tx) && Committable(tx) && i in rows && IsRetryOf(rows[i], p)
    ensures IsRetryOf((rows + Writes(tx))[i], p)
  {
    CommitShape(rows, m, tx);
  }

  lemma CommitSleepsIfReplaced(rows: Table, m: nat, tx: Tx)
    requires TxOk(rows, m, tx) && Committable(tx) && ReplacedMeansExpired(rows + Writes(tx))
    ensures ReplacedSleep(rows, rows + Writes(tx))
  {
    forall p
      ensures !WakesReplaced(rows, rows + Writes(tx), p)
    {
      if p in rows && HasRetry(rows, p) {
        ReplacedStaysExpired(rows, m, tx, p);
      }
    }
  }

  lemma StepReplacedExactly(s: State, st: Step)
    requires Inv(s) && Enabled(s, st) && ReplacedMeansExpired(s.rows)
    ensures ReplacedMeansExpired(Apply(s, st).rows) <==> ReplacedSleep(s.rows, Apply(s, st).rows)
  {
    StepCommits(s, st);
    if Apply(s, st).rows != s.rows {
      if ReplacedSleep(s.rows, Apply(s, st).rows) {
        CommitKeepsReplaced(s.rows, s.maxRetries, s.txs[st.t]);
      }
      if ReplacedMeansExpired(Apply(s, st).rows) {
        CommitSleepsIfReplaced(s.rows, s.maxRetries, s.txs[st.t]);
      }
    }
  }

  /** The update behind the commit at `c`, if there is one, found no row expired that has been replaced. */
  ghost predicate FindsNoneReplaced(states: seq<State>, steps: seq<Step>, c: nat)
    requires |states| == |steps| + 1 && c < |steps|
  {
    forall a: nat, id :: CommittedUpdate(steps, a, c) && FindsExpired(states[a], steps[c].t, id) ==>
      !HasRetry(states[c].rows, id)
  }

  lemma ReplacedSleepExactly(states: seq<State>, steps: seq<Step>, c: nat)
    requires Run(states, steps) && c < |steps|
    ensures ReplacedSleep(states[c].rows, states[c + 1].rows) <==> FindsNoneReplaced(states, steps, c)
  {
    if !FindsNoneReplaced(states, steps, c) {
      var a: nat, id :| CommittedUpdate(steps, a, c) && FindsExpired(states[a], steps[c].t, id)
                        && HasRetry(states[c].rows, id);
      FoundExpiredWakes(states, steps, a, c, id);
      assert WakesReplaced(states[c].rows, states[c + 1].rows, id);
    }
    if !ReplacedSleep(states[c].rows, states[c + 1].rows) {
      var id :| WakesReplaced(states[c].rows, states[c + 1].rows, id);
      var a := WakingFoundExpired(states, steps, c, id);
    }
  }

  lemma NextReplacedExactly(states: seq<State>, steps: seq<Step>, c: nat)
    requires Run(states, steps) && c < |steps| && ReplacedMeansExpired(states[c].rows)
    ensures ReplacedMeansExpired(states[c + 1].rows) <==> FindsNoneReplaced(states, steps, c)
  {
    RunKeepsInv(states, steps, c);
    StepReplacedExactly(states[c], steps[c]);
    ReplacedSleepExactly(states, steps, c);
  }

  /**
    Over every run: replaced rows are expired in all states up to k if and only if no update committed
    before step k found a row expired that has been replaced.
   */
  lemma ReplacedIsExpiredExactly(states: seq<State>, steps: seq<Step>, k: nat)
    requires Run(states, steps) && k < |states|
    ensures (forall j :: 0 <= j <= k ==> ReplacedMeansExpired(states[j].rows)) <==>
            (forall j :: 0 <= j < k ==> FindsNoneReplaced(states, steps, j))
  {
    ghost var good := seq(|states|, j requires 0 <= j < |states| => ReplacedMeansExpired(states[j].rows));
    ghost var found := seq(|steps|, j requires 0 <= j < |steps| => FindsNoneReplaced(states, steps, j));
    forall j | 0 <= j < |found| && good[j]
      ensures good[j + 1] <==> found[j]
    {
      NextReplacedExactly(states, steps, j);
    }
    DecidedStepwise(good, found, k);
    assert forall j :: 0 <= j < |good| ==> (good[j] <==> ReplacedMeansExpired(states[j].rows));
    assert forall j :: 0 <= j < |found| ==> (found[j] <==> FindsNoneReplaced(states, steps, j));
  }

  lemma {:induction false} SameDepthSameRow(rows: Table, i: nat, j: nat, n: nat)
    requires RetriesFollowLeases(rows) && Linear(rows) && OneOriginal(rows)
    requires DepthIs(rows, i, n) && DepthIs(rows, j, n) && SameKey(rows[i], rows[j])
    ensures i == j
    decreases n
  {
    if n > 0 {
      var p, q := rows[i].retryOf.value, rows[j].retryOf.value;
      assert IsRetryOf(rows[i], p) && IsRetryOf(rows[j], q);
      SameDepthSameRow(rows, p, q, n - 1);
    }
  }

  lemma {:induction false} ShallowerIsExpired(rows: Table, i: nat, a: nat, j: nat, b: nat)
    requires RetriesFollowLeases(rows) && Linear(rows) && OneOriginal(rows) && ReplacedMeansExpired(rows)
    requires DepthIs(rows, i, a) && DepthIs(rows, j, b) && a < b && SameKey(rows[i], rows[j])
    ensures rows[i].status.Expired?
    decreases b
  {
    var p := rows[j].retryOf.value;
    assert IsRetryOf(rows[j], p);
    if a == b - 1 {
      SameDepthSameRow(rows, i, p, a);
    } else {
      ShallowerIsExpired(rows, i, a, p, b - 1);
    }
  }

  /**
    Of two rows of one key the one with fewer retries behind it is expired, as long as no committed
    update found a row expired that has been replaced.
   */
  lemma EarlierAttemptsAreExpired(states: seq<State>, steps: seq<Step>, k: nat, i: nat, a: nat, j: nat, b: nat)
    requires Run(states, steps) && k < |states| && i in states[k].rows && j in states[k].rows
    requires forall c :: 0 <= c < k ==> FindsNoneReplaced(states, steps, c)
    requires DepthIs(states[k].rows, i, a) && DepthIs(states[k].rows, j, b) && a < b
    requires SameKey(states[k].rows[i], states[k].rows[j])
    ensures states[k].rows[i].status.Expired?
  {
    RunKeepsInv(states, steps, k);
    ReplacedIsExpiredExactly(states, steps, k);
    ShallowerIsExpired(states[k].rows, i, a, j, b);
  }
}
