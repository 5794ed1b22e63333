/** A run in which an expiry overtakes a guarded update, and a request ends with two live rows. */
module LeaseRace {
  import opened Options
  import opened PendingEnhancements
  import opened Leases
  import opened LeaseRuns
  import opened LeaseExpired
  import opened LeaseLive

  const CREATED: Row := Row(7, 1, Some(5), None, Pending, None, 0, None, 0)
  const LEASED: Row := CREATED.(status := Processing, batch := Some(9), expiresAt := 10)
  const RETRY: Row := Row(7, 1, Some(5), None, Pending, None, 0, Some(0), 20)

  function At(now: int, rows: Table, txs: map<nat, Tx>, batches: set<nat>): State {
    State(now, 1, rows, txs, batches)
  }

  lemma RowInserted()
    ensures Reachable(At(0, map[], map[0 := Inserting(map[0 := CREATED])], {}))
  {
    var s0 := At(0, map[], map[], {});
    assert Ends([s0], [], s0);
    var s1 := At(0, map[], map[0 := Idle], {});
    Reach(s0, Begin(0), s1);
    var s2 := At(0, map[], map[0 := Inserting(map[0 := CREATED])], {});
    assert CanInsert(s1, 0, 0, 7, Some(5));
    Reach(s1, Insert(0, 0, 7, 1, Some(5), None), s2);
  }

  lemma RowCreated()
    ensures Reachable(At(0, map[0 := CREATED], map[], {}))
  {
    RowInserted();
    var s2 := At(0, map[], map[0 := Inserting(map[0 := CREATED])], {});
    var s3 := At(0, map[0 := CREATED], map[], {});
    assert Apply(s2, Commit(0)) == s3;
    Reach(s2, Commit(0), s3);
  }

  lemma RowSelected()
    ensures Reachable(At(0, map[0 := CREATED], map[0 := Claiming({0})], {}))
  {
    RowCreated();
    var rows := map[0 := CREATED];
    var s1 := At(0, rows, map[0 := Idle], {});
    Reach(At(0, rows, map[], {}), Begin(0), s1);
    assert Unclaimed(s1, 1) == {0};
    Reach(s1, ClaimSelect(0, 1, 1, {0}), At(0, rows, map[0 := Claiming({0})], {}));
  }

  lemma RowLeasing()
    ensures Reachable(At(0, map[0 := CREATED], map[0 := Writing({0}, map[0 := LEASED], Some(9))], {9}))
  {
    RowSelected();
    var rows := map[0 := CREATED];
    var s2 := At(0, rows, map[0 := Claiming({0})], {});
    var s3 := At(0, rows, map[0 := Writing({0}, map[0 := LEASED], Some(9))], {9});
    assert Leasing(rows, {0}, 9, 10) == map[0 := LEASED];
    assert CanClaimUpdate(s2, 0, {0}, 9);
    Reach(s2, ClaimUpdate(0, {0}, 9, 10), s3);
  }

  lemma RowClaimed()
    ensures Reachable(At(0, map[0 := LEASED], map[], {9}))
  {
    RowLeasing();
    var s3 := At(0, map[0 := CREATED], map[0 := Writing({0}, map[0 := LEASED], Some(9))], {9});
    var s4 := At(0, map[0 := LEASED], map[], {9});
    assert Apply(s3, Commit(0)) == s4;
    Reach(s3, Commit(0), s4);
  }

  lemma GuardedThenStale()
    ensures Reachable(At(20, map[0 := LEASED], map[1 := Guarding({0}, Importing)], {9}))
  {
    RowClaimed();
    var s0 := At(0, map[0 := LEASED], map[], {9});
    var s1 := At(0, map[0 := LEASED], map[1 := Idle], {9});
    Reach(s0, Begin(1), s1);
    var s2 := At(0, map[0 := LEASED], map[1 := Guarding({0}, Importing)], {9});
    assert Members(s1.rows, 9) == {0};
    Reach(s1, Guard(1, {0}, Importing), s2);
    Reach(s2, Tick(20), At(20, map[0 := LEASED], map[1 := Guarding({0}, Importing)], {9}));
  }

  const GUARD: Tx := Guarding({0}, Importing)
  const AFTER: Table := map[0 := LEASED.(status := Expired), 1 := RETRY]

  lemma ExpiryBegun()
    ensures Reachable(At(20, map[0 := LEASED], map[1 := GUARD, 0 := Expiring({0})], {9}))
  {
    GuardedThenStale();
    var rows := map[0 := LEASED];
    var s1 := At(20, rows, map[1 := GUARD, 0 := Idle], {9});
    Reach(At(20, rows, map[1 := GUARD], {9}), Begin(0), s1);
    assert Stale(s1) == {0};
    Reach(s1, Expire(0, 1, {0}), At(20, rows, map[1 := GUARD, 0 := Expiring({0})], {9}));
  }

  lemma OneHeir(s: State)
    requires s.rows == map[0 := LEASED] && s.now == 20
    ensures map[0 := 1].Values == {1} && Replacements(s, map[0 := 1]) == map[1 := RETRY]
  {
    var heirs := map[0 := 1];
    assert heirs[0] == 1 && heirs.Values == {1};
    var added := Replacements(s, heirs);
    assert added[1] == RETRY;
    assert added == map[1 := RETRY];
  }

  lemma RetryWritten(s: State)
    requires s == At(20, map[0 := LEASED], map[1 := GUARD, 0 := Expiring({0})], {9})
    ensures CanReplace(s, 0, map[0 := 1])
    ensures ReplaceTx(s, {0}, map[0 := 1]) == Writing({0, 1}, AFTER, None)
  {
    OneHeir(s);
    assert DepthIs(s.rows, 0, 0);
    assert Retriable(s.rows, 0, 1);
    assert WithStatus(s.rows, {0}, Expired) == map[0 := LEASED.(status := Expired)];
  }

  lemma RetryPrepared()
    ensures Reachable(At(20, map[0 := LEASED], map[1 := GUARD, 0 := Writing({0, 1}, AFTER, None)], {9}))
  {
    ExpiryBegun();
    var s2 := At(20, map[0 := LEASED], map[1 := GUARD, 0 := Expiring({0})], {9});
    RetryWritten(s2);
    var s3 := At(20, map[0 := LEASED], map[1 := GUARD, 0 := Writing({0, 1}, AFTER, None)], {9});
    Reach(s2, Replace(0, map[0 := 1]), s3);
  }

  lemma ExpiredUnderTheGuard()
    ensures Reachable(At(20, AFTER, map[1 := GUARD], {9}))
  {
    RetryPrepared();
    var s3 := At(20, map[0 := LEASED], map[1 := GUARD, 0 := Writing({0, 1}, AFTER, None)], {9});
    var s4 := At(20, AFTER, map[1 := GUARD], {9});
    assert Apply(s3, Commit(0)) == s4;
    Reach(s3, Commit(0), s4);
  }

  const LATE: Row := LEASED.(status := Importing)

  lemma UpdatePrepared()
    ensures Reachable(At(20, AFTER, map[1 := Writing({0}, map[0 := LATE], None)], {9}))
  {
    ExpiredUnderTheGuard();
    var s0 := At(20, AFTER, map[1 := GUARD], {9});
    assert WithStatus(AFTER, {0}, Importing) == map[0 := LATE];
    var s1 := At(20, AFTER, map[1 := Writing({0}, map[0 := LATE], None)], {9});
    Reach(s0, Update(1), s1);
  }

  lemma Overwritten()
    ensures Reachable(At(20, map[0 := LATE, 1 := RETRY], map[], {9}))
  {
    UpdatePrepared();
    var s1 := At(20, AFTER, map[1 := Writing({0}, map[0 := LATE], None)], {9});
    var s2 := At(20, map[0 := LATE, 1 := RETRY], map[], {9});
    assert Apply(s1, Commit(1)) == s2;
    Reach(s1, Commit(1), s2);
  }

  /** The row and its replacement are both live: the update overwrote EXPIRED without looking again. */
  lemma OvertakenGuardBreaksOneLive()
    ensures exists s :: Reachable(s) && !OneLive(s.rows)
  {
    Overwritten();
    var s := At(20, map[0 := LATE, 1 := RETRY], map[], {9});
    assert SameKey(s.rows[0], s.rows[1]);
  }

  /** The same run: an expired row of a batch starts importing, by an update that found it expired. */
  lemma OvertakenGuardImportsExpired()
    ensures exists states, steps, c: nat :: Run(states, steps) && c < |steps| && ImportsOver(states, c, 0, 0)
  {
    UpdatePrepared();
    var s1 := At(20, AFTER, map[1 := Writing({0}, map[0 := LATE], None)], {9});
    var s2 := At(20, map[0 := LATE, 1 := RETRY], map[], {9});
    assert Apply(s1, Commit(1)) == s2;
    var states, steps :| Ends(states, steps, s1);
    RunExtends(states, steps, Commit(1), s2);
    var longer, c := states + [s2], |steps|;
    assert longer[c] == s1 && longer[c + 1] == s2;
    assert ImportsOver(longer, c, 0, 0);
  }
}
