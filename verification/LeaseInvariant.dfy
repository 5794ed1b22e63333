/** Every step of the lease protocol keeps its invariant. */
module LeaseInvariant {
  import opened Options
  import opened PendingEnhancements
  import opened Leases

  ghost predicate Committable(tx: Tx) {
    tx.Writing? || tx.Inserting?
  }

  /** Facts about a commit that every other lemma starts from. */
  lemma CommitShape(rows: Table, m: nat, tx: Tx)
    requires TxOk(rows, m, tx) && Committable(tx)
    ensures Writes(tx).Keys <= Locks(tx)
    ensures KeepsLinks(rows, rows + Writes(tx))
    ensures forall i :: i in Writes(tx) && i !in rows ==> FreshlyPending(Writes(tx)[i])
  {
  }

  /** What a commit may do to a row that is already in the table. */
  lemma CommitOldRow(rows: Table, m: nat, tx: Tx, i: nat)
    requires TxOk(rows, m, tx) && Committable(tx) && i in rows
    ensures var b := (rows + Writes(tx))[i]; b == rows[i] || (tx.Writing? && Evolves(rows[i], b, tx.batch))
  {
  }

  lemma CommitNewRow(rows: Table, m: nat, tx: Tx, i: nat)
    requires TxOk(rows, m, tx) && Committable(tx) && i in Writes(tx) && i !in rows
    ensures tx.Inserting? ==> Writes(tx)[i].retryOf.None?
    ensures tx.Writing? ==> RetryOk(rows, tx.written, tx.written[i], m)
  {
  }

  /** The predecessor of a row, old or new, has left its lease and holds the same work. */
  predicate Follows(rows: Table, r: Row, p: nat) {
    p in rows && SameWork(r, rows[p]) && Phase(rows[p].status) == 2
  }

  lemma OldRetryFollows(rows: Table, m: nat, tx: Tx, i: nat, p: nat)
    requires TxOk(rows, m, tx) && Committable(tx) && i in rows && Follows(rows, rows[i], p)
    ensures Follows(rows + Writes(tx), (rows + Writes(tx))[i], p)
  {
    CommitOldRow(rows, m, tx, i);
    CommitOldRow(rows, m, tx, p);
  }

  lemma NewRetryFollows(rows: Table, m: nat, tx: Tx, i: nat, p: nat)
    requires TxOk(rows, m, tx) && Committable(tx) && i in Writes(tx) && i !in rows && IsRetryOf(Writes(tx)[i], p)
    ensures Follows(rows + Writes(tx), Writes(tx)[i], p)
  {
    CommitNewRow(rows, m, tx, i);
    CommitOldRow(rows, m, tx, p);
  }

  lemma CommitKeepsRetries(rows: Table, m: nat, tx: Tx)
    requires RetriesFollowLeases(rows) && TxOk(rows, m, tx) && Committable(tx)
    ensures RetriesFollowLeases(rows + Writes(tx))
  {
    var after := rows + Writes(tx);
    forall i, p | i in after && IsRetryOf(after[i], p)
      ensures Follows(after, after[i], p)
    {
      if i in rows {
        CommitOldRow(rows, m, tx, i);
        assert IsRetryOf(rows[i], p);
        OldRetryFollows(rows, m, tx, i, p);
      } else {
        NewRetryFollows(rows, m, tx, i, p);
      }
    }
  }

  /** An old row's predecessor has left its lease; a new row's predecessor is still leased. */
  lemma CommitKeepsLinear(rows: Table, m: nat, tx: Tx)
    requires RetriesFollowLeases(rows) && Linear(rows) && TxOk(rows, m, tx) && Committable(tx)
    ensures Linear(rows + Writes(tx))
  {
    var after := rows + Writes(tx);
    CommitShape(rows, m, tx);
    forall i, j | i in after && j in after && after[i].retryOf.Some? && after[i].retryOf == after[j].retryOf
      ensures i == j
    {
      var p := after[i].retryOf.value;
      if i in rows && j in rows {
        assert rows[i].retryOf == rows[j].retryOf == Some(p);
      } else if i in rows {
        assert IsRetryOf(rows[i], p);
      } else if j in rows {
        assert IsRetryOf(rows[j], p);
      }
    }
  }

  lemma CommitKeepsClaimed(rows: Table, m: nat, tx: Tx)
    requires BatchIffClaimed(rows) && TxOk(rows, m, tx) && Committable(tx)
    ensures BatchIffClaimed(rows + Writes(tx))
  {
    var after := rows + Writes(tx);
    forall i | i in after
      ensures after[i].batch.None? <==> after[i].status.Pending?
    {
      if i in rows {
        CommitOldRow(rows, m, tx, i);
      } else {
        CommitShape(rows, m, tx);
      }
    }
  }

  lemma CommitKeepsOriginals(rows: Table, m: nat, tx: Tx)
    requires OneOriginal(rows) && BatchIffClaimed(rows) && TxOk(rows, m, tx) && Committable(tx)
    ensures OneOriginal(rows + Writes(tx)) && BatchIffClaimed(rows + Writes(tx))
  {
    CommitKeepsClaimed(rows, m, tx);
    var after := rows + Writes(tx);
    forall i, j | i in after && j in after && after[i].retryOf.None? && after[j].retryOf.None?
                  && SameKey(after[i], after[j])
      ensures i == j
    {
      OriginalAfter(rows, m, tx, i);
      OriginalAfter(rows, m, tx, j);
    }
  }

  /** An original in the committed table was one before or is being inserted as one. */
  lemma OriginalAfter(rows: Table, m: nat, tx: Tx, i: nat)
    requires TxOk(rows, m, tx) && Committable(tx) && i in rows + Writes(tx) && (rows + Writes(tx))[i].retryOf.None?
    ensures i in rows ==> SameWork((rows + Writes(tx))[i], rows[i]) && rows[i].retryOf.None?
    ensures i !in rows ==> tx.Inserting? && i in tx.inserted && (rows + Writes(tx))[i] == tx.inserted[i]
  {
    if i in rows {
      CommitOldRow(rows, m, tx, i);
    } else {
      CommitNewRow(rows, m, tx, i);
    }
  }

  lemma CommitKeepsBatches(rows: Table, m: nat, tx: Tx)
    requires BatchIffClaimed(rows) && DistinctInBatch(rows) && TxOk(rows, m, tx) && Committable(tx)
    ensures DistinctInBatch(rows + Writes(tx))
  {
    var after := rows + Writes(tx);
    forall i, j | i in after && j in after && SameBatch(after[i], after[j]) && after[i].reference == after[j].reference
      ensures i == j
    {
      assert i in rows && j in rows;
      assert SameWork(after[i], rows[i]) && SameWork(after[j], rows[j]);
      if after[i].batch == rows[i].batch && after[j].batch == rows[j].batch {
        assert SameBatch(rows[i], rows[j]);
      } else {
        assert rows[i].status.Pending? && rows[j].status.Pending?;
      }
    }
  }

  lemma CommitKeepsDepths(rows: Table, m: nat, tx: Tx)
    requires BoundedDepth(rows, m) && NothingLost(rows, m) && TxOk(rows, m, tx) && Committable(tx)
    ensures BoundedDepth(rows + Writes(tx), m) && NothingLost(rows + Writes(tx), m)
  {
    var after := rows + Writes(tx);
    CommitShape(rows, m, tx);
    forall i | i in after
      ensures HasDepth(after, i, m)
    {
      if i in rows {
        var n: nat :| n <= m && DepthIs(rows, i, n);
        DepthFrame(rows, after, i, n);
      } else if tx.Inserting? {
        assert DepthIs(after, i, 0);
      } else {
        var p := after[i].retryOf.value;
        var n: nat :| n < m && DepthIs(rows, p, n);
        DepthFrame(rows, after, p, n);
        assert DepthIs(after, i, n + 1);
      }
    }
    forall p | p in after && after[p].status.Expired?
      ensures HasRetry(after, p) || DepthIs(after, p, m)
    {
      if DepthIs(rows, p, m) {
        DepthFrame(rows, after, p, m);
      } else if p in Writes(tx) {
        var i :| i in Writes(tx) && i !in rows && Writes(tx)[i].retryOf == Some(p);
        assert after[i].retryOf == Some(p);
      } else {
        var i :| i in rows && rows[i].retryOf == Some(p);
        assert after[i].retryOf == Some(p);
      }
    }
  }

  lemma CommitKeepsTable(rows: Table, m: nat, tx: Tx)
    requires TableInv(rows, m) && TxOk(rows, m, tx) && Committable(tx)
    ensures TableInv(rows + Writes(tx), m)
  {
    CommitKeepsRetries(rows, m, tx);
    CommitKeepsLinear(rows, m, tx);
    CommitKeepsOriginals(rows, m, tx);
    CommitKeepsBatches(rows, m, tx);
    CommitKeepsDepths(rows, m, tx);
  }

  /** Rows that another transaction has locked, or will insert, are not touched by a commit. */
  lemma CommitSparesLocks(rows: Table, m: nat, tx: Tx, other: Tx, i: nat)
    requires TxOk(rows, m, tx) && Committable(tx) && Apart(tx, other) && i in Locks(other)
    ensures i in rows + Writes(tx) <==> i in rows
    ensures i in rows ==> (rows + Writes(tx))[i] == rows[i]
  {
    CommitShape(rows, m, tx);
  }

  lemma CommitSparesAll(rows: Table, m: nat, tx: Tx, other: Tx, ids: set<nat>)
    requires TxOk(rows, m, tx) && Committable(tx) && Apart(tx, other) && ids <= Locks(other) && ids <= rows.Keys
    ensures forall i :: i in ids ==> i in rows + Writes(tx) && (rows + Writes(tx))[i] == rows[i]
  {
    forall i | i in ids
      ensures i in rows + Writes(tx) && (rows + Writes(tx))[i] == rows[i]
    {
      CommitSparesLocks(rows, m, tx, other, i);
    }
  }

  lemma CommitKeepsRetryOk(rows: Table, m: nat, tx: Tx, other: Tx, r: Row)
    requires TxOk(rows, m, tx) && Committable(tx) && Apart(tx, other) && other.Writing?
      && other.written.Keys <= other.locked
    requires RetryOk(rows, other.written, r, m)
    ensures RetryOk(rows + Writes(tx), other.written, r, m)
  {
    var p := r.retryOf.value;
    CommitShape(rows, m, tx);
    CommitSparesLocks(rows, m, tx, other, p);
    var n: nat :| n < m && DepthIs(rows, p, n);
    DepthFrame(rows, rows + Writes(tx), p, n);
  }

  ghost predicate Succeeded(rows: Table, m: nat, written: Table, p: nat) {
    (exists i :: i in written && i !in rows && written[i].retryOf == Some(p)) || DepthIs(rows, p, m)
  }

  lemma CommitKeepsSucceeded(rows: Table, m: nat, tx: Tx, other: Tx, p: nat)
    requires TxOk(rows, m, tx) && Committable(tx) && Apart(tx, other) && other.Writing?
      && other.written.Keys <= other.locked
    requires Succeeded(rows, m, other.written, p)
    ensures Succeeded(rows + Writes(tx), m, other.written, p)
  {
    var after, w := rows + Writes(tx), other.written;
    CommitShape(rows, m, tx);
    if DepthIs(rows, p, m) {
      DepthFrame(rows, after, p, m);
    } else {
      var i :| i in w && i !in rows && w[i].retryOf == Some(p);
      CommitSparesLocks(rows, m, tx, other, i);
    }
  }

  /** A claim's batch id is new to the table, and stays new whoever else commits. */
  lemma CommitKeepsBatchNew(rows: Table, m: nat, tx: Tx, batch: Option<nat>)
    requires TxOk(rows, m, tx) && Committable(tx) && batch.Some? && (tx.Writing? ==> tx.batch != batch)
    requires forall i :: i in rows ==> rows[i].batch != batch
    ensures forall i :: i in rows + Writes(tx) ==> (rows + Writes(tx))[i].batch != batch
  {
    forall i | i in rows + Writes(tx)
      ensures (rows + Writes(tx))[i].batch != batch
    {
      if i in rows {
        CommitOldRow(rows, m, tx, i);
      } else {
        CommitShape(rows, m, tx);
      }
    }
  }

  lemma CommitKeepsWriting(rows: Table, m: nat, tx: Tx, other: Tx)
    requires TxOk(rows, m, tx) && Committable(tx) && Apart(tx, other) && Apart(other, tx)
    requires other.Writing? && TxOk(rows, m, other)
    ensures TxOk(rows + Writes(tx), m, other)
  {
    var after, w := rows + Writes(tx), other.written;
    forall i | i in w
      ensures i in after <==> i in rows
      ensures i in rows ==> after[i] == rows[i]
      ensures i !in rows ==> RetryOk(after, w, w[i], m)
    {
      CommitSparesLocks(rows, m, tx, other, i);
      if i !in rows {
        CommitKeepsRetryOk(rows, m, tx, other, w[i]);
      }
    }
    forall p | p in w && p in after && w[p].status.Expired?
      ensures Succeeded(after, m, w, p)
    {
      CommitKeepsSucceeded(rows, m, tx, other, p);
    }
    if other.batch.Some? {
      CommitKeepsBatchNew(rows, m, tx, other.batch);
    }
  }

  /** A commit leaves every other open transaction as sound as it was. */
  lemma CommitKeepsOthers(rows: Table, m: nat, tx: Tx, other: Tx)
    requires TxOk(rows, m, tx) && Committable(tx) && TxOk(rows, m, other) && Apart(tx, other) && Apart(other, tx)
    ensures TxOk(rows + Writes(tx), m, other)
  {
    match other
    case Writing(_, _, _) => CommitKeepsWriting(rows, m, tx, other);
    case Inserting(inserted) => CommitKeepsInserting(rows, m, tx, inserted);
    case Guarding(ids, target) =>
      forall i | i in ids
        ensures i in rows + Writes(tx) && !(rows + Writes(tx))[i].status.Pending?
      {
        CommitOldRow(rows, m, tx, i);
      }
    case Claiming(picked) => CommitSparesAll(rows, m, tx, other, picked);
    case Expiring(marked) => CommitSparesAll(rows, m, tx, other, marked);
    case Idle =>
  }

  lemma CommitKeepsInserting(rows: Table, m: nat, tx: Tx, inserted: Table)
    requires TxOk(rows, m, tx) && Committable(tx) && Apart(tx, Inserting(inserted))
      && TxOk(rows, m, Inserting(inserted))
    ensures TxOk(rows + Writes(tx), m, Inserting(inserted))
  {
    var after := rows + Writes(tx);
    forall i | i in inserted
      ensures i !in after
    {
      CommitSparesLocks(rows, m, tx, Inserting(inserted), i);
    }
    forall i, j | i in inserted && j in after && after[j].retryOf.None?
      ensures !SameKey(inserted[i], after[j])
    {
      OriginalAfter(rows, m, tx, j);
      if j !in rows {
        assert !SameKey(after[j], inserted[i]);
      }
    }
  }

  lemma CommitKeepsBatchesKnown(s: State, t: nat)
    requires t in s.txs && Committable(s.txs[t]) && TxOk(s.rows, s.maxRetries, s.txs[t]) && BatchesKnown(s)
    ensures BatchesKnown(DoCommit(s, t))
  {
  }

  lemma CommitKeepsInv(s: State, t: nat)
    requires Inv(s) && CanCommit(s, t)
    ensures Inv(DoCommit(s, t))
  {
    var tx := s.txs[t];
    var s' := DoCommit(s, t);
    if tx.Claiming? {
      assert s'.rows == s.rows;
    } else {
      CommitKeepsTable(s.rows, s.maxRetries, tx);
      forall u | u in s'.txs
        ensures TxOk(s'.rows, s'.maxRetries, s'.txs[u])
      {
        assert Apart(tx, s.txs[u]) && Apart(s.txs[u], tx);
        CommitKeepsOthers(s.rows, s.maxRetries, tx, s.txs[u]);
      }
      CommitKeepsBatchesKnown(s, t);
    }
  }

  /** Replacing the state of one transaction, when the table does not change. */
  lemma SetTxKeepsInv(s: State, t: nat, tx: Tx)
    requires Inv(s) && TxOk(s.rows, s.maxRetries, tx)
    requires forall u :: u in s.txs && u != t ==> Apart(tx, s.txs[u]) && Apart(s.txs[u], tx)
    requires tx.Writing? && tx.batch.Some? ==> tx.batch.value in s.batches
    ensures Inv(SetTx(s, t, tx))
  {
  }

  /** Growing the lock set by rows nobody holds keeps the transaction apart from the rest. */
  lemma StaysApart(s: State, t: nat, tx: Tx, more: set<nat>)
    requires t in s.txs && Unlocked(s, more) && !tx.Inserting?
    requires forall u :: u in s.txs && u != t ==> Apart(s.txs[t], s.txs[u])
    requires Locks(tx) <= Locks(s.txs[t]) + more
    requires tx.Writing? ==> tx.batch.None?
    ensures forall u :: u in s.txs && u != t ==> Apart(tx, s.txs[u]) && Apart(s.txs[u], tx)
  {
  }

  /** A transaction moves on to its writes, having locked what it will write. */
  lemma WriteKeepsInv(s: State, t: nat, tx: Tx, more: set<nat>)
    requires Inv(s) && t in s.txs && Unlocked(s, more) && TxOk(s.rows, s.maxRetries, tx)
    requires !tx.Inserting? && (tx.Writing? ==> tx.batch.None?) && Locks(tx) <= Locks(s.txs[t]) + more
    ensures Inv(SetTx(s, t, tx))
  {
    StaysApart(s, t, tx, more);
    SetTxKeepsInv(s, t, tx);
  }

  lemma AllUnlocked(s: State, ids: set<nat>)
    requires forall i :: i in ids ==> Unlocked(s, {i})
    ensures Unlocked(s, ids)
  {
    forall u, i | u in s.txs && i in ids
      ensures i !in Locks(s.txs[u])
    {
      assert Unlocked(s, {i});
      assert i in {i};
    }
  }

  lemma InsertOk(rows: Table, m: nat, own: Table, id: nat, row: Row)
    requires TxOk(rows, m, Inserting(own)) && id !in rows && id !in own
    requires FreshlyPending(row) && row.retryOf.None?
    requires !Conflict(rows, row.request, row.reference) && !Conflict(own, row.request, row.reference)
    ensures TxOk(rows, m, Inserting(own[id := row]))
  {
  }

  lemma InsertApart(own: Table, id: nat, row: Row, other: Tx)
    requires Apart(Inserting(own), other) && Apart(other, Inserting(own)) && id !in Locks(other) && row.retryOf.None?
    requires other.Inserting? ==> forall i :: i in other.inserted ==>
      other.inserted[i].retryOf.None? && !Clashes(other.inserted[i], row.request, row.reference)
    ensures Apart(Inserting(own[id := row]), other) && Apart(other, Inserting(own[id := row]))
  {
  }

  lemma InsertKeepsInv(s: State, t: nat, id: nat, row: Row)
    requires Inv(s) && CanInsert(s, t, id, row.reference, row.request) && FreshlyPending(row) && row.retryOf.None?
    ensures Inv(DoInsert(s, t, id, row))
  {
    var own := Writes(s.txs[t]);
    if !Conflict(s.rows, row.request, row.reference) && !Conflict(own, row.request, row.reference) {
      assert id in {id};
      assert TxOk(s.rows, s.maxRetries, s.txs[t]);
      InsertOk(s.rows, s.maxRetries, own, id, row);
      forall u | u in s.txs && u != t
        ensures Apart(Inserting(own[id := row]), s.txs[u]) && Apart(s.txs[u], Inserting(own[id := row]))
      {
        assert Apart(s.txs[t], s.txs[u]) && Apart(s.txs[u], s.txs[t]);
        assert TxOk(s.rows, s.maxRetries, s.txs[u]);
        if s.txs[u].Inserting? {
          assert forall i :: i in s.txs[u].inserted ==> !Clashes(Writes(s.txs[u])[i], row.request, row.reference);
        }
        InsertApart(own, id, row, s.txs[u]);
      }
      SetTxKeepsInv(s, t, Inserting(own[id := row]));
    }
  }

  lemma ClaimSelectKeepsInv(s: State, t: nat, robot: nat, limit: nat, chosen: set<nat>)
    requires Inv(s) && CanClaimSelect(s, t, robot, limit, chosen)
    ensures Inv(SetTx(s, t, Claiming(chosen)))
  {
    AllUnlocked(s, chosen);
    StaysApart(s, t, Claiming(chosen), chosen);
    SetTxKeepsInv(s, t, Claiming(chosen));
  }

  /** The guard of a claim cannot fail: the rows it checks are locked and still pending. */
  lemma ClaimGuardPasses(s: State, t: nat, kept: set<nat>, batch: nat)
    requires Inv(s) && CanClaimUpdate(s, t, kept, batch)
    ensures GuardPasses(s.rows, kept, Processing)
  {
    assert TxOk(s.rows, s.maxRetries, s.txs[t]);
  }

  lemma ClaimOk(rows: Table, m: nat, picked: set<nat>, kept: set<nat>, batch: nat, expiry: int)
    requires TxOk(rows, m, Claiming(picked)) && OnePerReference(rows, picked, kept)
    requires forall i :: i in rows ==> rows[i].batch != Some(batch)
    ensures TxOk(rows, m, Writing(picked, Leasing(rows, kept, batch, expiry), Some(batch)))
  {
  }

  lemma ClaimApart(s: State, t: nat, kept: set<nat>, batch: nat, expiry: int)
    requires CanClaimUpdate(s, t, kept, batch) && BatchesKnown(s)
    requires forall u :: u in s.txs && u != t ==> Apart(s.txs[t], s.txs[u])
    ensures var tx := ClaimTx(s, t, kept, batch, expiry);
            forall u :: u in s.txs && u != t ==> Apart(tx, s.txs[u]) && Apart(s.txs[u], tx)
  {
  }

  lemma ClaimUpdateKeepsInv(s: State, t: nat, kept: set<nat>, batch: nat, expiry: int)
    requires Inv(s) && CanClaimUpdate(s, t, kept, batch)
    ensures Inv(DoClaimUpdate(s, t, kept, batch, expiry))
  {
    ClaimGuardPasses(s, t, kept, batch);
    ClaimApart(s, t, kept, batch, expiry);
    assert TxOk(s.rows, s.maxRetries, s.txs[t]);
    ClaimOk(s.rows, s.maxRetries, s.txs[t].picked, kept, batch, expiry);
    SetTxKeepsInv(s.(batches := s.batches + {batch}), t, ClaimTx(s, t, kept, batch, expiry));
  }

  lemma RenewOk(rows: Table, m: nat, batch: nat, expiry: int)
    ensures TxOk(rows, m, Writing(Leased(rows, batch), Renewed(rows, Leased(rows, batch), expiry), None))
  {
  }

  lemma RenewKeepsInv(s: State, t: nat, batch: nat, expiry: int)
    requires Inv(s) && CanRenew(s, t, batch)
    ensures Inv(SetTx(s, t, RenewTx(s, batch, expiry)))
  {
    RenewOk(s.rows, s.maxRetries, batch, expiry);
    WriteKeepsInv(s, t, RenewTx(s, batch, expiry), Leased(s.rows, batch));
  }

  lemma UpdateOk(rows: Table, m: nat, ids: set<nat>, target: Status)
    requires TxOk(rows, m, Guarding(ids, target))
    ensures TxOk(rows, m, Writing(ids, WithStatus(rows, ids, target), None))
  {
  }

  lemma GuardKeepsInv(s: State, t: nat, ids: set<nat>, target: Status)
    requires Inv(s) && CanGuard(s, t, ids, target)
    ensures Inv(DoGuard(s, t, ids, target))
  {
    if GuardPasses(s.rows, ids, target) {
      WriteKeepsInv(s, t, Guarding(ids, target), {});
    }
  }

  lemma UpdateKeepsInv(s: State, t: nat)
    requires Inv(s) && CanUpdate(s, t)
    ensures Inv(SetTx(s, t, UpdateTx(s, s.txs[t])))
  {
    var tx := s.txs[t];
    assert TxOk(s.rows, s.maxRetries, tx);
    UpdateOk(s.rows, s.maxRetries, tx.ids, tx.target);
    WriteKeepsInv(s, t, UpdateTx(s, tx), tx.ids);
  }

  lemma ExpireKeepsInv(s: State, t: nat, limit: nat, chosen: set<nat>)
    requires Inv(s) && CanExpire(s, t, limit, chosen)
    ensures Inv(SetTx(s, t, Expiring(chosen)))
  {
    AllUnlocked(s, chosen);
    WriteKeepsInv(s, t, Expiring(chosen), chosen);
  }

  ghost predicate HeirsFit(s: State, marked: set<nat>, heirs: map<nat, nat>) {
    && (forall i :: i in marked ==> i in s.rows && s.rows[i].status.Processing?)
    && (forall p :: p in heirs <==> p in marked && Retriable(s.rows, p, s.maxRetries))
    && heirs.Values !! s.rows.Keys
    && (forall p, q :: p in heirs && q in heirs && heirs[p] == heirs[q] ==> p == q)
  }

  /** The row inserted for an expired row is the one its heir id points at. */
  lemma HeirRow(s: State, marked: set<nat>, heirs: map<nat, nat>, w: Table, i: nat)
    requires HeirsFit(s, marked, heirs)
    requires w == WithStatus(s.rows, marked, Expired) + Replacements(s, heirs) && i in w && i !in s.rows
    ensures w[i].retryOf.Some? && w[i].retryOf.value in heirs && heirs[w[i].retryOf.value] == i
    ensures RetryOk(s.rows, w, w[i], s.maxRetries)
  {
    var added := Replacements(s, heirs);
    assert i in added && w[i] == added[i];
    var p :| p in heirs && heirs[p] == i && added[i] == Replacement(s.now, p, s.rows[p]);
    assert p in w && w[p].status.Expired?;
  }

  lemma ExpiredIsReplaced(s: State, marked: set<nat>, heirs: map<nat, nat>, w: Table, p: nat)
    requires HeirsFit(s, marked, heirs) && HasDepth(s.rows, p, s.maxRetries)
    requires w == WithStatus(s.rows, marked, Expired) + Replacements(s, heirs) && p in marked
    ensures Succeeded(s.rows, s.maxRetries, w, p)
  {
    if p in heirs {
      assert heirs[p] in heirs.Values;
      HeirRow(s, marked, heirs, w, heirs[p]);
    }
  }

  ghost predicate Succeeds(rows: Table, m: nat, heirs: map<nat, nat>, w: Table, i: nat) {
    && i in w && RetryOk(rows, w, w[i], m)
    && w[i].retryOf.value in heirs && heirs[w[i].retryOf.value] == i
  }

  lemma ReplacementsFit(rows: Table, m: nat, marked: set<nat>, heirs: map<nat, nat>, w: Table)
    requires w.Keys == marked + heirs.Values && marked <= rows.Keys && heirs.Values !! rows.Keys
    requires forall i :: i in marked ==> rows[i].status.Processing? && w[i] == rows[i].(status := Expired)
    requires forall i :: i in heirs.Values ==> Succeeds(rows, m, heirs, w, i)
    requires forall p :: p in marked ==> Succeeded(rows, m, w, p)
    ensures WritingOk(rows, m, marked + heirs.Values, w, None)
  {
  }

  lemma ReplaceOk(s: State, marked: set<nat>, heirs: map<nat, nat>)
    requires HeirsFit(s, marked, heirs) && BoundedDepth(s.rows, s.maxRetries)
    ensures TxOk(s.rows, s.maxRetries, ReplaceTx(s, marked, heirs))
  {
    var w := WithStatus(s.rows, marked, Expired) + Replacements(s, heirs);
    forall i | i in heirs.Values
      ensures Succeeds(s.rows, s.maxRetries, heirs, w, i)
    {
      HeirRow(s, marked, heirs, w, i);
    }
    forall p | p in marked
      ensures Succeeded(s.rows, s.maxRetries, w, p)
    {
      ExpiredIsReplaced(s, marked, heirs, w, p);
    }
    ReplacementsFit(s.rows, s.maxRetries, marked, heirs, w);
  }

  lemma ReplaceKeepsInv(s: State, t: nat, heirs: map<nat, nat>)
    requires Inv(s) && CanReplace(s, t, heirs)
    ensures Inv(SetTx(s, t, ReplaceTx(s, s.txs[t].marked, heirs)))
  {
    var marked := s.txs[t].marked;
    assert TxOk(s.rows, s.maxRetries, s.txs[t]);
    HeirsDoFit(s, t, heirs);
    ReplaceOk(s, marked, heirs);
    WriteKeepsInv(s, t, ReplaceTx(s, marked, heirs), heirs.Values);
  }

  lemma HeirsDoFit(s: State, t: nat, heirs: map<nat, nat>)
    requires CanReplace(s, t, heirs) && TxOk(s.rows, s.maxRetries, s.txs[t])
    ensures HeirsFit(s, s.txs[t].marked, heirs)
  {
  }

  lemma BeginKeepsInv(s: State, t: nat)
    requires Inv(s) && t !in s.txs
    ensures Inv(SetTx(s, t, Idle))
  {
    SetTxKeepsInv(s, t, Idle);
  }

  lemma AbortKeepsInv(s: State, t: nat)
    requires Inv(s)
    ensures Inv(Drop(s, t))
  {
  }

  lemma TickKeepsInv(s: State, elapsed: nat)
    requires Inv(s)
    ensures Inv(s.(now := s.now + elapsed))
  {
  }

  /** One step, whatever it is and whoever takes it. */
  lemma StepKeepsInv(s: State, st: Step)
    requires Inv(s) && Enabled(s, st)
    ensures Inv(Apply(s, st))
  {
    match st
    case Begin(t) => BeginKeepsInv(s, t);
    case Insert(t, id, reference, robot, request, source) =>
      InsertKeepsInv(s, t, id, Original(s.now, reference, robot, request, source));
    case ClaimSelect(t, robot, limit, chosen) => ClaimSelectKeepsInv(s, t, robot, limit, chosen);
    case ClaimUpdate(t, kept, batch, expiry) => ClaimUpdateKeepsInv(s, t, kept, batch, expiry);
    case Renew(t, batch, expiry) => RenewKeepsInv(s, t, batch, expiry);
    case Expire(t, limit, chosen) => ExpireKeepsInv(s, t, limit, chosen);
    case Replace(t, heirs) => ReplaceKeepsInv(s, t, heirs);
    case Guard(t, ids, target) => GuardKeepsInv(s, t, ids, target);
    case Update(t) => UpdateKeepsInv(s, t);
    case Commit(t) => CommitKeepsInv(s, t);
    case Abort(t) => AbortKeepsInv(s, t);
    case Tick(elapsed) => TickKeepsInv(s, elapsed);
  }
}
