/** Rows of the pending-enhancement table and the status machine that guards them. */
module PendingEnhancements {
  import opened Options

  datatype Status =
    | Pending | Processing | Importing | Indexing | IndexingFailed
    | Discarded | Completed | Failed | Expired

  /** The transition table; a status mapped to the empty set is terminal. */
  function Transitions(s: Status): set<Status> {
    match s
    case Pending => {Processing}
    case Processing => {Importing, Expired, Failed}
    case Importing => {Indexing, Discarded, Failed}
    case Indexing => {Completed, IndexingFailed}
    case _ => {}
  }

  predicate CanTransition(from: Status, to: Status) {
    to in Transitions(from)
  }

  /** The statuses that the result-handling code asks for through a guarded bulk update. */
  predicate Settling(s: Status) {
    s.Importing? || s.Indexing? || s.IndexingFailed? || s.Discarded? || s.Completed? || s.Failed?
  }

  // ----- what the table allows -----

  predicate Permitted(history: seq<Status>) {
    forall i :: 0 <= i < |history| - 1 ==> CanTransition(history[i], history[i + 1])
  }

  /** The six ways a row can live, from its creation to the status it ends in. */
  const LIVES: set<seq<Status>> := {
    [Pending, Processing, Importing, Indexing, Completed],
    [Pending, Processing, Importing, Indexing, IndexingFailed],
    [Pending, Processing, Importing, Discarded],
    [Pending, Processing, Importing, Failed],
    [Pending, Processing, Expired],
    [Pending, Processing, Failed]}

  /** The table allows a history if and only if it is the beginning of one of the six lives. */
  lemma {:induction false} HistoriesExactly(history: seq<Status>)
    requires history != [] && history[0] == Pending
    ensures Permitted(history) <==> exists life :: life in LIVES && history <= life
  {
    if Permitted(history) {
      HistoryIsALife(history);
    }
    forall life | life in LIVES && history <= life
      ensures Permitted(history)
    {
      assert Permitted(life);
    }
  }

  lemma {:induction false} HistoryIsALife(history: seq<Status>)
    requires history != [] && history[0] == Pending && Permitted(history)
    ensures exists life :: life in LIVES && history <= life
  {
    if |history| > 1 {
      var before := history[..|history| - 1];
      HistoryIsALife(before);
      var life :| life in LIVES && before <= life;
      var next := history[|history| - 1];
      assert CanTransition(before[|before| - 1], next);
      LifeGoesOn(life, |before|, next);
      assert history == life[..|before|] + [next];
    }
  }

  lemma LifeGoesOn(life: seq<Status>, n: nat, next: Status)
    requires life in LIVES && 0 < n <= |life| && CanTransition(life[n - 1], next)
    ensures exists other :: other in LIVES && life[..n] + [next] <= other
  {
    var branch: seq<Status> :=
      match next
      case IndexingFailed => [Pending, Processing, Importing, Indexing, IndexingFailed]
      case Discarded => [Pending, Processing, Importing, Discarded]
      case Expired => [Pending, Processing, Expired]
      case Failed => if n == 2 then [Pending, Processing, Failed] else [Pending, Processing, Importing, Failed]
      case _ => [Pending, Processing, Importing, Indexing, Completed];
    assert branch in LIVES;
    assert life[..n] + [next] <= branch;
  }

  /** Results ask for exactly the statuses that a claimed row can reach other than by expiring. */
  lemma SettlingExactly(target: Status)
    ensures Settling(target) <==>
      !target.Expired? && exists from: Status :: !from.Pending? && CanTransition(from, target)
  {
    assert CanTransition(Processing, Importing) && CanTransition(Processing, Failed);
    assert CanTransition(Importing, Indexing) && CanTransition(Importing, Discarded);
    assert CanTransition(Indexing, Completed) && CanTransition(Indexing, IndexingFailed);
  }

  /** 0 before a claim, 1 while leased, 2 afterwards: the coarse phase of a row. */
  function Phase(s: Status): nat {
    if s.Pending? then 0 else if s.Processing? then 1 else 2
  }

  /** One row. Ids, references, robots, requests and batches are numbers; times are integers. */
  datatype Row = Row(
    reference: nat,
    robot: nat,
    request: Option<nat>,
    source: Option<nat>,
    status: Status,
    batch: Option<nat>,
    expiresAt: int,
    retryOf: Option<nat>,
    createdAt: int)

  type Table = map<nat, Row>

  predicate SameKey(a: Row, b: Row) {
    a.request.Some? && a.request == b.request && a.reference == b.reference
  }

  predicate SameWork(a: Row, b: Row) {
    && a.reference == b.reference && a.robot == b.robot
    && a.request == b.request && a.source == b.source
  }

  predicate Available(r: Row, robot: nat) {
    r.robot == robot && r.batch.None? && r.status.Pending?
  }

  /** `id` is exactly `n` retries away from an original row. */
  ghost predicate DepthIs(rows: Table, id: nat, n: nat)
    decreases n
  {
    && id in rows
    && if n == 0 then rows[id].retryOf.None?
       else rows[id].retryOf.Some? && DepthIs(rows, rows[id].retryOf.value, n - 1)
  }

  /** `after` holds every row of `before`, with unchanged retry links. */
  ghost predicate KeepsLinks(before: Table, after: Table) {
    forall i :: i in before ==> i in after && after[i].retryOf == before[i].retryOf
  }

  lemma {:induction false} DepthFrame(before: Table, after: Table, id: nat, n: nat)
    requires KeepsLinks(before, after) && DepthIs(before, id, n)
    ensures DepthIs(after, id, n)
    decreases n
  {
    if n > 0 {
      DepthFrame(before, after, before[id].retryOf.value, n - 1);
    }
  }

  lemma {:induction false} DepthUnique(rows: Table, id: nat, m: nat, n: nat)
    requires DepthIs(rows, id, m) && DepthIs(rows, id, n)
    ensures m == n
    decreases n
  {
    if m > 0 && n > 0 {
      DepthUnique(rows, rows[id].retryOf.value, m - 1, n - 1);
    }
  }
}
