/**
  The lease protocol on pending enhancements: creation, claims under SKIP LOCKED, renewals,
  expiry with replacement, and the guarded status updates, run by any number of
  interleaved transactions that may abort at any point.
 */
module Leases {
  import opened Options
  import opened PendingEnhancements

  /** An open transaction, by what it has done so far. */
  datatype Tx =
    | Idle
    | Inserting(inserted: Table)                     // originals inserted, not committed
    | Claiming(picked: set<nat>)                    // rows selected FOR UPDATE SKIP LOCKED
    | Expiring(marked: set<nat>)                    // rows set to EXPIRED, replacements still to come
    | Guarding(ids: set<nat>, target: Status)       // guard passed; its SELECT holds no lock
    | Writing(locked: set<nat>, written: Table, batch: Option<nat>)

  function Locks(tx: Tx): set<nat> {
    match tx
    case Inserting(inserted) => inserted.Keys
    case Claiming(picked) => picked
    case Expiring(marked) => marked
    case Writing(locked, _, _) => locked
    case _ => {}
  }

  function Writes(tx: Tx): Table {
    match tx
    case Inserting(inserted) => inserted
    case Writing(_, written, _) => written
    case _ => map[]
  }

  /** The committed table, the open transactions and every batch id handed out so far. */
  datatype State = State(
    now: int,
    maxRetries: nat,
    rows: Table,
    txs: map<nat, Tx>,
    batches: set<nat>)

  datatype Step =
    | Begin(t: nat)
    | Insert(t: nat, id: nat, reference: nat, robot: nat, request: Option<nat>, source: Option<nat>)
    | ClaimSelect(t: nat, robot: nat, limit: nat, chosen: set<nat>)
    | ClaimUpdate(t: nat, kept: set<nat>, batch: nat, expiry: int)
    | Renew(t: nat, batch: nat, expiry: int)
    | Expire(t: nat, limit: nat, chosen: set<nat>)
    | Replace(t: nat, heirs: map<nat, nat>)
    | Guard(t: nat, ids: set<nat>, target: Status)
    | Update(t: nat)
    | Commit(t: nat)
    | Abort(t: nat)
    | Tick(elapsed: nat)

  ghost predicate Unlocked(s: State, ids: set<nat>) {
    forall u :: u in s.txs ==> ids !! Locks(s.txs[u])
  }

  ghost predicate FreshIds(s: State, ids: set<nat>) {
    ids !! s.rows.Keys && Unlocked(s, ids)
  }

  /** A row some other transaction has inserted with the same key blocks the insert. */
  ghost predicate InsertBlocked(s: State, t: nat, request: Option<nat>, reference: nat) {
    exists u, i :: u in s.txs && u != t && i in Writes(s.txs[u]) && Clashes(Writes(s.txs[u])[i], request, reference)
  }

  predicate Clashes(r: Row, request: Option<nat>, reference: nat) {
    r.retryOf.None? && r.request.Some? && r.request == request && r.reference == reference
  }

  ghost predicate Conflict(rows: Table, request: Option<nat>, reference: nat) {
    exists i :: i in rows && Clashes(rows[i], request, reference)
  }

  /** What ORDER BY .. LIMIT .. FOR UPDATE SKIP LOCKED returns from the matching set. */
  ghost predicate Selected(all: set<nat>, limit: nat, chosen: set<nat>, key: nat --> int)
    requires forall i :: i in all ==> key.requires(i)
  {
    && chosen <= all
    && |chosen| <= limit
    && (|chosen| < limit ==> chosen == all)
    && forall i, j :: i in chosen && j in all - chosen ==> key(i) <= key(j)
  }

  ghost function Unclaimed(s: State, robot: nat): set<nat> {
    set i | i in s.rows && Available(s.rows[i], robot) && Unlocked(s, {i})
  }

  ghost function Stale(s: State): set<nat> {
    set i | i in s.rows && s.rows[i].status.Processing? && s.rows[i].expiresAt < s.now && Unlocked(s, {i})
  }

  function Leased(rows: Table, batch: nat): set<nat> {
    set i | i in rows && rows[i].batch == Some(batch) && rows[i].status.Processing?
  }

  /** `kept` holds exactly one picked row per picked reference. */
  ghost predicate OnePerReference(rows: Table, picked: set<nat>, kept: set<nat>)
    requires picked <= rows.Keys
  {
    && kept <= picked
    && (forall i, j :: i in kept && j in kept && rows[i].reference == rows[j].reference ==> i == j)
    && (forall i :: i in picked ==> exists j :: j in kept && rows[j].reference == rows[i].reference)
  }

  ghost predicate Retriable(rows: Table, id: nat, maxRetries: nat) {
    exists n: nat :: n < maxRetries && DepthIs(rows, id, n)
  }

  predicate GuardPasses(rows: Table, ids: set<nat>, target: Status) {
    forall i :: i in ids && i in rows ==> CanTransition(rows[i].status, target)
  }

  function Original(now: int, reference: nat, robot: nat, request: Option<nat>, source: Option<nat>): Row {
    Row(reference, robot, request, source, Pending, None, 0, None, now)
  }

  /** The replacement copies the work; status, batch and lease start afresh. */
  function Replacement(now: int, p: nat, r: Row): Row {
    Row(r.reference, r.robot, r.request, r.source, Pending, None, 0, Some(p), now)
  }

  ghost function Replacements(s: State, heirs: map<nat, nat>): (added: Table)
    requires heirs.Keys <= s.rows.Keys
    ensures added.Keys == heirs.Values
    ensures forall i :: i in added ==>
      exists p :: p in heirs && heirs[p] == i && added[i] == Replacement(s.now, p, s.rows[p])
  {
    map i | i in heirs.Values :: (var p :| p in heirs && heirs[p] == i; Replacement(s.now, p, s.rows[p]))
  }

  function WithStatus(rows: Table, ids: set<nat>, target: Status): Table
    requires ids <= rows.Keys
  {
    map i | i in ids :: rows[i].(status := target)
  }

  function Leasing(rows: Table, ids: set<nat>, batch: nat, expiry: int): Table
    requires ids <= rows.Keys
  {
    map i | i in ids :: rows[i].(status := Processing, batch := Some(batch), expiresAt := expiry)
  }

  function Renewed(rows: Table, ids: set<nat>, expiry: int): Table
    requires ids <= rows.Keys
  {
    map i | i in ids :: rows[i].(expiresAt := expiry)
  }

  function SetTx(s: State, t: nat, tx: Tx): State {
    s.(txs := s.txs[t := tx])
  }

  function Drop(s: State, t: nat): State {
    s.(txs := s.txs - {t})
  }

  // ----- the steps: when each can happen, and what it does -----

  ghost predicate CanInsert(s: State, t: nat, id: nat, reference: nat, request: Option<nat>) {
    && t in s.txs && (s.txs[t].Idle? || s.txs[t].Inserting?)
    && FreshIds(s, {id}) && !InsertBlocked(s, t, request, reference)
  }

  /** INSERT .. ON CONFLICT DO NOTHING on the partial unique index. */
  ghost function DoInsert(s: State, t: nat, id: nat, row: Row): State
    requires t in s.txs
  {
    var own := Writes(s.txs[t]);
    if Conflict(s.rows, row.request, row.reference) || Conflict(own, row.request, row.reference) then s
    else SetTx(s, t, Inserting(own[id := row]))
  }

  ghost predicate CanClaimSelect(s: State, t: nat, robot: nat, limit: nat, chosen: set<nat>) {
    && t in s.txs && s.txs[t].Idle?
    && Selected(Unclaimed(s, robot), limit, chosen, i requires i in s.rows => s.rows[i].createdAt)
  }

  ghost predicate CanClaimUpdate(s: State, t: nat, kept: set<nat>, batch: nat) {
    && t in s.txs && s.txs[t].Claiming? && s.txs[t].picked != {} && s.txs[t].picked <= s.rows.Keys
    && OnePerReference(s.rows, s.txs[t].picked, kept) && batch !in s.batches
  }

  function ClaimTx(s: State, t: nat, kept: set<nat>, batch: nat, expiry: int): Tx
    requires t in s.txs && s.txs[t].Claiming? && kept <= s.rows.Keys
  {
    Writing(s.txs[t].picked, Leasing(s.rows, kept, batch, expiry), Some(batch))
  }

  ghost function DoClaimUpdate(s: State, t: nat, kept: set<nat>, batch: nat, expiry: int): State
    requires CanClaimUpdate(s, t, kept, batch)
  {
    var s' := s.(batches := s.batches + {batch});
    if GuardPasses(s.rows, kept, Processing) then SetTx(s', t, ClaimTx(s, t, kept, batch, expiry)) else Drop(s', t)
  }

  function Members(rows: Table, batch: nat): set<nat> {
    set i | i in rows && rows[i].batch == Some(batch)
  }

  /** The batch must exist, that is be committed; its rows are committed with it. */
  ghost predicate CanRenew(s: State, t: nat, batch: nat) {
    t in s.txs && s.txs[t].Idle? && Members(s.rows, batch) != {} && Unlocked(s, Leased(s.rows, batch))
  }

  function RenewTx(s: State, batch: nat, expiry: int): Tx {
    var hit := Leased(s.rows, batch);
    Writing(hit, Renewed(s.rows, hit, expiry), None)
  }

  ghost predicate CanExpire(s: State, t: nat, limit: nat, chosen: set<nat>) {
    && t in s.txs && s.txs[t].Idle?
    && Selected(Stale(s), limit, chosen, i requires i in s.rows => s.rows[i].expiresAt)
  }

  ghost predicate CanReplace(s: State, t: nat, heirs: map<nat, nat>) {
    && t in s.txs && s.txs[t].Expiring? && s.txs[t].marked <= s.rows.Keys
    && (forall p :: p in heirs <==> p in s.txs[t].marked && Retriable(s.rows, p, s.maxRetries))
    && FreshIds(s, heirs.Values)
    && (forall p, q :: p in heirs && q in heirs && heirs[p] == heirs[q] ==> p == q)
  }

  ghost function ReplaceTx(s: State, marked: set<nat>, heirs: map<nat, nat>): Tx
    requires marked <= s.rows.Keys && heirs.Keys <= s.rows.Keys
  {
    Writing(marked + heirs.Values, WithStatus(s.rows, marked, Expired) + Replacements(s, heirs), None)
  }

  ghost predicate WholeBatch(rows: Table, ids: set<nat>) {
    exists batch :: ids == Members(rows, batch)
  }

  /** IMPORTING is only ever asked for a whole batch; the other statuses also for single rows. */
  ghost predicate CanGuard(s: State, t: nat, ids: set<nat>, target: Status) {
    && t in s.txs && s.txs[t].Idle? && ids <= s.rows.Keys && Settling(target)
    && (target.Importing? ==> WholeBatch(s.rows, ids))
  }

  function DoGuard(s: State, t: nat, ids: set<nat>, target: Status): State {
    if GuardPasses(s.rows, ids, target) then SetTx(s, t, Guarding(ids, target)) else Drop(s, t)
  }

  ghost predicate CanUpdate(s: State, t: nat) {
    t in s.txs && s.txs[t].Guarding? && s.txs[t].ids <= s.rows.Keys && Unlocked(s, s.txs[t].ids)
  }

  function UpdateTx(s: State, tx: Tx): Tx
    requires tx.Guarding? && tx.ids <= s.rows.Keys
  {
    Writing(tx.ids, WithStatus(s.rows, tx.ids, tx.target), None)
  }

  predicate CanCommit(s: State, t: nat) {
    t in s.txs && (s.txs[t].Writing? || s.txs[t].Inserting? || (s.txs[t].Claiming? && s.txs[t].picked == {}))
  }

  function DoCommit(s: State, t: nat): State
    requires t in s.txs
  {
    Drop(s, t).(rows := s.rows + Writes(s.txs[t]))
  }

  ghost predicate Enabled(s: State, st: Step) {
    match st
    case Begin(t) => t !in s.txs
    case Insert(t, id, reference, _, request, _) => CanInsert(s, t, id, reference, request)
    case ClaimSelect(t, robot, limit, chosen) => CanClaimSelect(s, t, robot, limit, chosen)
    case ClaimUpdate(t, kept, batch, expiry) => CanClaimUpdate(s, t, kept, batch) && s.now < expiry
    case Renew(t, batch, expiry) => CanRenew(s, t, batch) && s.now < expiry
    case Expire(t, limit, chosen) => CanExpire(s, t, limit, chosen)
    case Replace(t, heirs) => CanReplace(s, t, heirs)
    case Guard(t, ids, target) => CanGuard(s, t, ids, target)
    case Update(t) => CanUpdate(s, t)
    case Commit(t) => CanCommit(s, t)
    case Abort(t) => t in s.txs
    case Tick(_) => true
  }

  ghost function Apply(s: State, st: Step): State
    requires Enabled(s, st)
  {
    match st
    case Begin(t) => SetTx(s, t, Idle)
    case Insert(t, id, reference, robot, request, source) =>
      DoInsert(s, t, id, Original(s.now, reference, robot, request, source))
    case ClaimSelect(t, _, _, chosen) => SetTx(s, t, Claiming(chosen))
    case ClaimUpdate(t, kept, batch, expiry) => DoClaimUpdate(s, t, kept, batch, expiry)
    case Renew(t, batch, expiry) => SetTx(s, t, RenewTx(s, batch, expiry))
    case Expire(t, _, chosen) => SetTx(s, t, Expiring(chosen))
    case Replace(t, heirs) => SetTx(s, t, ReplaceTx(s, s.txs[t].marked, heirs))
    case Guard(t, ids, target) => DoGuard(s, t, ids, target)
    case Update(t) => SetTx(s, t, UpdateTx(s, s.txs[t]))
    case Commit(t) => DoCommit(s, t)
    case Abort(t) => Drop(s, t)
    case Tick(elapsed) => s.(now := s.now + elapsed)
  }

  // ----- the invariant -----

  ghost predicate BatchIffClaimed(rows: Table) {
    forall i :: i in rows ==> (rows[i].batch.None? <==> rows[i].status.Pending?)
  }

  predicate IsRetryOf(r: Row, p: nat) {
    r.retryOf == Some(p)
  }

  ghost predicate RetriesFollowLeases(rows: Table) {
    forall i, p :: i in rows && IsRetryOf(rows[i], p) ==>
      p in rows && SameWork(rows[i], rows[p]) && Phase(rows[p].status) == 2
  }

  ghost predicate Linear(rows: Table) {
    forall i, j :: i in rows && j in rows && rows[i].retryOf.Some? && rows[i].retryOf == rows[j].retryOf ==> i == j
  }

  ghost predicate OneOriginal(rows: Table) {
    forall i, j :: i in rows && j in rows && rows[i].retryOf.None? && rows[j].retryOf.None? && SameKey(rows[i], rows[j])
      ==> i == j
  }

  ghost predicate HasDepth(rows: Table, id: nat, maxRetries: nat) {
    exists n: nat :: n <= maxRetries && DepthIs(rows, id, n)
  }

  ghost predicate BoundedDepth(rows: Table, maxRetries: nat) {
    forall i :: i in rows ==> HasDepth(rows, i, maxRetries)
  }

  predicate SameBatch(a: Row, b: Row) {
    a.batch.Some? && a.batch == b.batch
  }

  ghost predicate DistinctInBatch(rows: Table) {
    forall i, j :: i in rows && j in rows && SameBatch(rows[i], rows[j]) && rows[i].reference == rows[j].reference
      ==> i == j
  }

  ghost predicate HasRetry(rows: Table, p: nat) {
    exists i :: i in rows && rows[i].retryOf == Some(p)
  }

  /** An expired row is either replaced or out of retries: expiry loses no work. */
  ghost predicate NothingLost(rows: Table, maxRetries: nat) {
    forall p :: p in rows && rows[p].status.Expired? ==> HasRetry(rows, p) || DepthIs(rows, p, maxRetries)
  }

  ghost predicate TableInv(rows: Table, maxRetries: nat) {
    && BatchIffClaimed(rows) && RetriesFollowLeases(rows) && Linear(rows) && OneOriginal(rows)
    && BoundedDepth(rows, maxRetries) && DistinctInBatch(rows) && NothingLost(rows, maxRetries)
  }

  /** How one committed write may change a row. */
  predicate Evolves(a: Row, b: Row, batch: Option<nat>) {
    && SameWork(a, b) && a.retryOf == b.retryOf && a.createdAt == b.createdAt
    && ( || (a.status.Pending? && a.batch.None? && b.status.Processing? && b.batch.Some? && b.batch == batch)
         || (a.status.Processing? && b.status.Processing? && a.batch == b.batch)
         || (a.status.Processing? && b.status.Expired? && a.batch == b.batch && a.expiresAt == b.expiresAt)
         || (!a.status.Pending? && Settling(b.status) && a.batch == b.batch && a.expiresAt == b.expiresAt))
  }

  predicate FreshlyPending(r: Row) {
    r.status.Pending? && r.batch.None?
  }

  /** A replacement inserted by the transaction that expires its predecessor. */
  ghost predicate RetryOk(rows: Table, written: Table, r: Row, maxRetries: nat) {
    && FreshlyPending(r) && r.retryOf.Some?
    && var p := r.retryOf.value;
       p in rows && p in written && rows[p].status.Processing? && written[p].status.Expired?
       && SameWork(r, rows[p]) && Retriable(rows, p, maxRetries)
  }

  ghost predicate WritingOk(rows: Table, maxRetries: nat, locked: set<nat>, written: Table, batch: Option<nat>) {
    && written.Keys <= locked
    && (forall i :: i in written && i in rows ==> Evolves(rows[i], written[i], batch))
    && (forall i :: i in written && i !in rows ==> RetryOk(rows, written, written[i], maxRetries))
    && (forall i, j | i in written && j in written && i !in rows && j !in rows ::
          written[i].retryOf == written[j].retryOf ==> i == j)
    && (forall p :: p in written && p in rows && written[p].status.Expired? ==>
          (exists i :: i in written && i !in rows && written[i].retryOf == Some(p)) || DepthIs(rows, p, maxRetries))
    && (forall i, j | i in written && j in written && i in rows && j in rows ::
          rows[i].status.Pending? && rows[j].status.Pending? && rows[i].reference == rows[j].reference ==> i == j)
    && (batch.Some? ==> forall i :: i in rows ==> rows[i].batch != batch)
  }

  ghost predicate TxOk(rows: Table, maxRetries: nat, tx: Tx) {
    match tx
    case Idle => true
    case Inserting(inserted) =>
      && (forall i :: i in inserted ==> i !in rows && FreshlyPending(inserted[i]) && inserted[i].retryOf.None?)
      && (forall i, j :: i in inserted && j in inserted && SameKey(inserted[i], inserted[j]) ==> i == j)
      && (forall i, j :: i in inserted && j in rows && rows[j].retryOf.None? ==> !SameKey(inserted[i], rows[j]))
    case Claiming(picked) => forall i :: i in picked ==> i in rows && FreshlyPending(rows[i])
    case Expiring(marked) => forall i :: i in marked ==> i in rows && rows[i].status.Processing?
    case Guarding(ids, target) =>
      Settling(target) && forall i :: i in ids ==> i in rows && !rows[i].status.Pending?
    case Writing(locked, written, batch) => WritingOk(rows, maxRetries, locked, written, batch)
  }

  ghost predicate Apart(a: Tx, b: Tx) {
    && Locks(a) !! Locks(b)
    && (a.Inserting? && b.Inserting? ==>
          forall i, j :: i in a.inserted && j in b.inserted ==> !SameKey(a.inserted[i], b.inserted[j]))
    && (a.Writing? && b.Writing? && a.batch.Some? ==> a.batch != b.batch)
  }

  ghost predicate BatchesKnown(s: State) {
    && (forall i :: i in s.rows && s.rows[i].batch.Some? ==> s.rows[i].batch.value in s.batches)
    && (forall t :: t in s.txs && s.txs[t].Writing? && s.txs[t].batch.Some? ==> s.txs[t].batch.value in s.batches)
  }

  ghost predicate Inv(s: State) {
    && TableInv(s.rows, s.maxRetries)
    && (forall t :: t in s.txs ==> TxOk(s.rows, s.maxRetries, s.txs[t]))
    && (forall t, u :: t in s.txs && u in s.txs && t != u ==> Apart(s.txs[t], s.txs[u]))
    && BatchesKnown(s)
  }
}
