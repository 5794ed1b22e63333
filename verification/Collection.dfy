/**
  Search-driven collection: a task claims the request, scans a snapshot page by page through the
  prefetch, and inserts one page per transaction. Tasks crash, are redelivered and overlap.
 */
module Collection {
  import opened Options
  import P = Prefetch
  import S = Scan

  // ----- the idempotent sink -----

  /** An original (non-retry) row of the table. */
  datatype Original = Original(request: Option<nat>, reference: nat)
  type Originals = map<nat, Original>

  /** What the partial unique index forbids: a null request never collides. */
  predicate Collides(o: Original, request: Option<nat>, reference: nat) {
    request.Some? && o.request == request && o.reference == reference
  }

  predicate Present(rows: Originals, request: Option<nat>, reference: nat) {
    exists i :: i in rows && Collides(rows[i], request, reference)
  }

  ghost predicate NoDuplicates(rows: Originals) {
    forall i, j :: i in rows && j in rows && Collides(rows[i], rows[j].request, rows[j].reference) ==> i == j
  }

  predicate Distinct(ids: seq<nat>) {
    forall i, j :: 0 <= i < j < |ids| ==> ids[i] != ids[j]
  }

  predicate FreshFor(rows: Originals, ids: seq<nat>) {
    Distinct(ids) && forall i :: 0 <= i < |ids| ==> ids[i] !in rows
  }

  function InsertOne(rows: Originals, existing: set<nat>, request: Option<nat>, reference: nat, id: nat): Originals {
    if reference in existing && !Present(rows, request, reference) then rows[id := Original(request, reference)]
    else rows
  }

  /** A page in order: absent references and conflicting rows are skipped. */
  function InsertPage(rows: Originals, existing: set<nat>, request: Option<nat>, page: seq<nat>,
                      ids: seq<nat>): Originals
    requires |ids| == |page|
    decreases page
  {
    if page == [] then rows
    else InsertPage(InsertOne(rows, existing, request, page[0], ids[0]), existing, request, page[1..], ids[1..])
  }

  ghost predicate Keeps(a: Originals, b: Originals) {
    forall i :: i in a ==> i in b && b[i] == a[i]
  }

  lemma InsertOneEffect(rows: Originals, existing: set<nat>, request: Option<nat>, reference: nat, id: nat)
    requires id !in rows
    ensures var one := InsertOne(rows, existing, request, reference, id);
            && Keeps(rows, one) && (NoDuplicates(rows) ==> NoDuplicates(one))
            && (request.Some? && reference in existing ==> Present(one, request, reference))
  {
    var one := InsertOne(rows, existing, request, reference, id);
    if reference in existing && !Present(rows, request, reference) {
      assert one[id] == Original(request, reference);
      assert request.Some? ==> Collides(one[id], request, reference);
      assert forall j :: j in rows ==> !Collides(rows[j], request, reference);
    }
  }

  predicate Requested(o: Original, existing: set<nat>, request: Option<nat>, page: seq<nat>) {
    o.request == request && o.reference in page && o.reference in existing
  }

  lemma {:induction false} InsertPageEffect(rows: Originals, existing: set<nat>, request: Option<nat>,
                                            page: seq<nat>, ids: seq<nat>)
    requires |ids| == |page| && FreshFor(rows, ids)
    ensures var after := InsertPage(rows, existing, request, page, ids);
            && Keeps(rows, after)
            && (forall i :: i in after && i !in rows ==> i in ids && Requested(after[i], existing, request, page))
            && (NoDuplicates(rows) ==> NoDuplicates(after))
            && (request.Some? ==>
                  forall k :: 0 <= k < |page| && page[k] in existing ==> Present(after, request, page[k]))
    decreases page
  {
    if page != [] {
      var one := InsertOne(rows, existing, request, page[0], ids[0]);
      InsertOneEffect(rows, existing, request, page[0], ids[0]);
      assert FreshFor(one, ids[1..]);
      InsertPageEffect(one, existing, request, page[1..], ids[1..]);
      var after := InsertPage(one, existing, request, page[1..], ids[1..]);
      if request.Some? && page[0] in existing {
        var i :| i in one && Collides(one[i], request, page[0]);
        assert Collides(after[i], request, page[0]);
      }
      forall k | request.Some? && 0 <= k < |page| && page[k] in existing
        ensures Present(after, request, page[k])
      {
        assert k > 0 ==> page[k] == page[1..][k - 1];
      }
    }
  }

  /** Inserting the same page again, with whatever new ids, changes nothing. */
  lemma {:induction false} InsertPageIsIdempotent(rows: Originals, existing: set<nat>, request: Option<nat>,
                                                  page: seq<nat>, ids: seq<nat>)
    requires |ids| == |page| && request.Some?
    requires forall k :: 0 <= k < |page| && page[k] in existing ==> Present(rows, request, page[k])
    ensures InsertPage(rows, existing, request, page, ids) == rows
    decreases page
  {
    if page != [] {
      assert InsertOne(rows, existing, request, page[0], ids[0]) == rows;
      forall k | 0 <= k < |page[1..]| && page[1..][k] in existing
        ensures Present(rows, request, page[1..][k])
      {
        assert page[1..][k] == page[k + 1];
      }
      InsertPageIsIdempotent(rows, existing, request, page[1..], ids[1..]);
    }
  }

  /** Rows without a request id, as automations create them, are never recognised as duplicates. */
  lemma NullRequestIsNotDeduplicated(rows: Originals, existing: set<nat>, reference: nat, a: nat, b: nat)
    requires FreshFor(rows, [a, b]) && reference in existing
    ensures var once := InsertPage(rows, existing, None, [reference], [a]);
            var twice := InsertPage(once, existing, None, [reference], [b]);
            a in twice && b in twice && twice[a] == twice[b] && a != b
  {
    assert [a, b][0] == a && [a, b][1] == b;
    assert [reference][1..] == [];
  }

  /** The bulk insert: existing references are looked up first, then the rows go in one by one. */
  class OriginalStore {
    var rows: Originals

    method AddBulkIgnoreConflicts(existing: set<nat>, request: Option<nat>, page: seq<nat>, ids: seq<nat>)
      returns (inserted: nat)
      requires |ids| == |page| && FreshFor(rows, ids)
      modifies this
      ensures rows == InsertPage(old(rows), existing, request, page, ids)
      ensures inserted == |rows| - |old(rows)|
    {
      inserted := 0;
      var n := 0;
      while n < |page|
        invariant 0 <= n <= |page| && FreshFor(rows, ids[n..]) && inserted == |rows| - |old(rows)|
        invariant InsertPage(rows, existing, request, page[n..], ids[n..])
          == InsertPage(old(rows), existing, request, page, ids)
      {
        assert page[n..][1..] == page[n + 1..] && ids[n..][1..] == ids[n + 1..];
        assert ids[n..][0] == ids[n] && ids[n] !in rows;
        assert forall k :: n < k < |ids| ==> ids[n..][k - n] == ids[k] && ids[k] != ids[n];
        if page[n] in existing && !Present(rows, request, page[n]) {
          rows := rows[ids[n] := Original(request, page[n])];
          inserted := inserted + 1;
        }
        n := n + 1;
      }
    }
  }

  // ----- tasks -----

  datatype SearchStatus = Pending | Searching | Completed | Failed

  /**
    A running task: its pages, its prefetch, the references that existed when it began and, for each
    page it has stored so far, those that existed when that page was inserted.
   */
  datatype Task = Task(
    source: P.Source<seq<nat>>,
    fetch: P.State<seq<nat>>,
    begun: set<nat>,
    known: seq<set<nat>>)

  /** One search request, `request`; other requests' rows live in the same table. */
  datatype State = State(
    request: nat,
    status: SearchStatus,
    references: set<nat>,
    rows: Originals,
    tasks: map<nat, Task>)

  datatype Step =
    | Deliver(t: nat, pages: seq<seq<nat>>, ending: P.Ending)
    | Advance(t: nat, move: P.Step)
    | Store(t: nat, ids: seq<nat>)
    | Complete(t: nat)
    | Fail(t: nat)
    | Crash(t: nat)
    | Elsewhere(request: Option<nat>, page: seq<nat>, ids: seq<nat>)
    | AddReference(reference: nat)

  function Pages(pages: seq<seq<nat>>, ending: P.Ending): P.Source<seq<nat>> {
    P.Source(P.Plains(pages), ending)
  }

  /** The page the caller was last handed. */
  predicate Handed(task: Task) {
    task.fetch.consumer.Yielded? && |task.known| + 1 == |task.fetch.yielded|
  }

  ghost predicate Enabled(s: State, st: Step) {
    match st
    case Deliver(t, _, _) => t !in s.tasks
    case Advance(t, move) =>
      && t in s.tasks && P.Enabled(s.tasks[t].fetch, move) && !move.Close?
      && (move.Resume? ==> |s.tasks[t].known| == |s.tasks[t].fetch.yielded|)
    case Store(t, ids) =>
      t in s.tasks && Handed(s.tasks[t]) && |ids| == |s.tasks[t].fetch.yielded[|s.tasks[t].known|]|
        && FreshFor(s.rows, ids)
    case Complete(t) => t in s.tasks && s.tasks[t].fetch.consumer.Returned?
    case Fail(t) => t in s.tasks
    case Crash(t) => t in s.tasks
    case Elsewhere(_, page, ids) => |ids| == |page| && FreshFor(s.rows, ids)
    case AddReference(_) => true
  }

  ghost function Apply(s: State, st: Step): State
    requires Enabled(s, st)
  {
    match st
    case Deliver(t, pages, ending) =>
      // the claim: PENDING or SEARCHING moves to SEARCHING, a finished request is left alone
      if s.status.Pending? || s.status.Searching?
      then s.(status := Searching, tasks := s.tasks[t := Task(Pages(pages, ending), P.Initial(), s.references, [])])
      else s
    case Advance(t, move) =>
      var task := s.tasks[t];
      s.(tasks := s.tasks[t := task.(fetch := P.Apply(task.source, task.fetch, move))])
    case Store(t, ids) =>
      var task := s.tasks[t];
      s.(rows := InsertPage(s.rows, s.references, Some(s.request), task.fetch.yielded[|task.known|], ids),
         tasks := s.tasks[t := task.(known := task.known + [s.references])])
    case Complete(t) => s.(status := Completed, tasks := s.tasks - {t})
    case Fail(t) => s.(status := Failed, tasks := s.tasks - {t})
    case Crash(t) => s.(tasks := s.tasks - {t})
    case Elsewhere(request, page, ids) => s.(rows := InsertPage(s.rows, s.references, request, page, ids))
    case AddReference(reference) => s.(references := s.references + {reference})
  }

  // ----- the invariant -----

  ghost predicate Stored(rows: Originals, request: nat, task: Task) {
    && |task.known| <= |task.fetch.yielded| <= |task.known| + 1
    && (task.fetch.consumer.Yielded? || |task.known| == |task.fetch.yielded|)
    && forall k, r :: 0 <= k < |task.known| && r in task.fetch.yielded[k] && r in task.known[k] ==>
      Present(rows, Some(request), r)
  }

  predicate BegunBefore(references: set<nat>, task: Task) {
    task.begun <= references && forall k :: 0 <= k < |task.known| ==> task.begun <= task.known[k]
  }

  ghost predicate TaskOk(s: State, task: Task) {
    P.Inv(task.source, task.fetch) && BegunBefore(s.references, task) && Stored(s.rows, s.request, task)
  }

  ghost predicate Inv(s: State) {
    NoDuplicates(s.rows) && forall t :: t in s.tasks ==> TaskOk(s, s.tasks[t])
  }

  lemma PresentStays(a: Originals, b: Originals, request: nat, task: Task)
    requires Keeps(a, b) && Stored(a, request, task)
    ensures Stored(b, request, task)
  {
    forall k, r | 0 <= k < |task.known| && r in task.fetch.yielded[k] && r in task.known[k]
      ensures Present(b, Some(request), r)
    {
      assert Present(a, Some(request), r);
      var i :| i in a && Collides(a[i], Some(request), r);
      assert Collides(b[i], Some(request), r);
    }
  }

  lemma StoreKeepsStored(rows: Originals, after: Originals, request: nat, task: Task, references: set<nat>)
    requires Stored(rows, request, task) && Keeps(rows, after) && Handed(task)
    requires forall r :: r in task.fetch.yielded[|task.known|] && r in references ==> Present(after, Some(request), r)
    ensures Stored(after, request, task.(known := task.known + [references]))
  {
    PresentStays(rows, after, request, task);
    var next := task.(known := task.known + [references]);
    forall k, r | 0 <= k < |next.known| && r in next.fetch.yielded[k] && r in next.known[k]
      ensures Present(after, Some(request), r)
    {
      assert k < |task.known| ==> next.known[k] == task.known[k];
    }
  }

  lemma PageIsPresent(rows: Originals, references: set<nat>, request: nat, page: seq<nat>, ids: seq<nat>, r: nat)
    requires |ids| == |page| && FreshFor(rows, ids) && r in page && r in references
    ensures Present(InsertPage(rows, references, Some(request), page, ids), Some(request), r)
  {
    InsertPageEffect(rows, references, Some(request), page, ids);
    var i :| 0 <= i < |page| && page[i] == r;
  }

  lemma StoreKeepsInv(s: State, t: nat, ids: seq<nat>)
    requires Inv(s) && Enabled(s, Store(t, ids))
    ensures Inv(Apply(s, Store(t, ids)))
  {
    var task, s' := s.tasks[t], Apply(s, Store(t, ids));
    assert TaskOk(s, task);
    var page := task.fetch.yielded[|task.known|];
    InsertPageEffect(s.rows, s.references, Some(s.request), page, ids);
    forall r | r in page && r in s.references
      ensures Present(s'.rows, Some(s.request), r)
    {
      PageIsPresent(s.rows, s.references, s.request, page, ids, r);
    }
    StoreKeepsStored(s.rows, s'.rows, s.request, task, s.references);
    forall u | u in s'.tasks && u != t
      ensures TaskOk(s', s'.tasks[u])
    {
      assert TaskOk(s, s.tasks[u]);
      PresentStays(s.rows, s'.rows, s.request, s.tasks[u]);
    }
  }

  lemma MoveKeepsStored(rows: Originals, request: nat, task: Task, move: P.Step)
    requires Stored(rows, request, task) && P.Enabled(task.fetch, move) && !move.Close?
    requires move.Resume? ==> |task.known| == |task.fetch.yielded|
    ensures Stored(rows, request, task.(fetch := P.Apply(task.source, task.fetch, move)))
  {
    assert forall k :: 0 <= k < |task.known| ==>
      P.Apply(task.source, task.fetch, move).yielded[k] == task.fetch.yielded[k];
  }

  function Moved(task: Task, move: P.Step): Task
    requires P.Enabled(task.fetch, move)
  {
    task.(fetch := P.Apply(task.source, task.fetch, move))
  }

  lemma MoveKeepsTask(s: State, task: Task, move: P.Step)
    requires TaskOk(s, task) && P.Enabled(task.fetch, move) && !move.Close?
    requires move.Resume? ==> |task.known| == |task.fetch.yielded|
    ensures TaskOk(s, Moved(task, move))
  {
    P.StepKeepsInv(task.source, task.fetch, move);
    MoveKeepsStored(s.rows, s.request, task, move);
  }

  lemma AdvanceKeepsInv(s: State, t: nat, move: P.Step)
    requires Inv(s) && Enabled(s, Advance(t, move))
    ensures Inv(Apply(s, Advance(t, move)))
  {
    var s' := Apply(s, Advance(t, move));
    MoveKeepsTask(s, s.tasks[t], move);
    assert s'.tasks == s.tasks[t := Moved(s.tasks[t], move)];
    forall u | u in s'.tasks
      ensures TaskOk(s', s'.tasks[u])
    {
      assert TaskOk(s, s'.tasks[u]);
    }
  }

  lemma StepKeepsInv(s: State, st: Step)
    requires Inv(s) && Enabled(s, st)
    ensures Inv(Apply(s, st))
  {
    var s' := Apply(s, st);
    match st
    case Advance(t, move) => AdvanceKeepsInv(s, t, move);
    case Store(t, ids) => StoreKeepsInv(s, t, ids);
    case Elsewhere(request, page, ids) =>
      InsertPageEffect(s.rows, s.references, request, page, ids);
      forall u | u in s'.tasks
        ensures TaskOk(s', s'.tasks[u])
      {
        assert TaskOk(s, s.tasks[u]);
        PresentStays(s.rows, s'.rows, s.request, s.tasks[u]);
      }
    case Deliver(t, pages, ending) =>
      var start: P.State<seq<nat>> := P.Initial();
      assert P.Flow(start) == [];
      forall u | u in s'.tasks
        ensures TaskOk(s', s'.tasks[u])
      {
        assert u in s.tasks ==> TaskOk(s, s.tasks[u]);
      }
    case _ =>
      forall u | u in s'.tasks
        ensures TaskOk(s', s'.tasks[u])
      {
        assert TaskOk(s, s.tasks[u]);
      }
  }

  // ----- whole runs -----

  ghost predicate Run(states: seq<State>, steps: seq<Step>) {
    && |states| == |steps| + 1 && states[0].rows == map[] && states[0].tasks == map[]
    && forall k :: 0 <= k < |steps| ==> Enabled(states[k], steps[k]) && states[k + 1] == Apply(states[k], steps[k])
  }

  lemma {:induction false} RunKeepsInv(states: seq<State>, steps: seq<Step>, k: nat)
    requires Run(states, steps) && k < |states|
    ensures Inv(states[k]) && states[k].request == states[0].request
  {
    if k > 0 {
      RunKeepsInv(states, steps, k - 1);
      StepKeepsInv(states[k - 1], steps[k - 1]);
    }
  }

  lemma {:induction false} RunKeepsRows(states: seq<State>, steps: seq<Step>, i: nat, j: nat)
    requires Run(states, steps) && i <= j < |states|
    ensures Keeps(states[i].rows, states[j].rows)
    decreases j - i
  {
    if i < j {
      RunKeepsRows(states, steps, i, j - 1);
      var s, st := states[j - 1], steps[j - 1];
      match st
      case Store(t, ids) =>
        InsertPageEffect(s.rows, s.references, Some(s.request), s.tasks[t].fetch.yielded[|s.tasks[t].known|], ids);
      case Elsewhere(request, page, ids) => InsertPageEffect(s.rows, s.references, request, page, ids);
      case _ =>
    }
  }

  ghost predicate ExactlyOne(rows: Originals, request: nat, reference: nat) {
    exists i :: i in rows && Collides(rows[i], Some(request), reference)
      && forall j :: j in rows && Collides(rows[j], Some(request), reference) ==> j == i
  }

  /** Whatever crashes, redeliveries and overlaps: never two originals for one (request, reference). */
  lemma NeverTwoOriginals(states: seq<State>, steps: seq<Step>, k: nat, i: nat, j: nat)
    requires Run(states, steps) && k < |states| && i in states[k].rows && j in states[k].rows
    requires states[k].rows[i].request.Some? && states[k].rows[i] == states[k].rows[j]
    ensures i == j
  {
    RunKeepsInv(states, steps, k);
  }

  /** A reference that is present has exactly one original, in every reachable table. */
  lemma PresentIsOne(rows: Originals, request: nat, reference: nat)
    requires NoDuplicates(rows) && Present(rows, Some(request), reference)
    ensures ExactlyOne(rows, request, reference)
  {
    var i :| i in rows && Collides(rows[i], Some(request), reference);
    forall j | j in rows && Collides(rows[j], Some(request), reference)
      ensures j == i
    {
      assert Collides(rows[i], rows[j].request, rows[j].reference);
    }
  }

  /** A completed task has been handed, and has stored, every page of its source. */
  lemma CompletedHasAllPages(s: State, t: nat, pages: seq<seq<nat>>)
    requires Inv(s) && Enabled(s, Complete(t)) && s.tasks[t].source.items == P.Plains(pages)
    ensures s.tasks[t].fetch.yielded == pages && |s.tasks[t].known| == |pages|
  {
    var task := s.tasks[t];
    assert TaskOk(s, task);
    forall p | 0 <= p < |pages|
      ensures |task.fetch.yielded| == |pages| && task.fetch.yielded[p] == pages[p]
    {
      assert P.Plains(task.fetch.yielded)[p] == P.Plains(pages)[p];
    }
    assert |P.Plains(task.fetch.yielded)| == |P.Plains(pages)|;
  }

  /**
    When a task completes, every reference on every page of its scan that existed when that page was
    inserted, so in particular every one that existed when the task began, has exactly one original
    row, then and in every later state.
   */
  lemma CompletedScanIsStored(states: seq<State>, steps: seq<Step>, k: nat, later: nat, t: nat, pages: seq<seq<nat>>,
                              p: nat, reference: nat)
    requires Run(states, steps) && k < later < |states| && steps[k] == Complete(t)
    requires states[k].tasks[t].source.items == P.Plains(pages)
    requires p < |pages| && reference in pages[p]
    ensures |states[k].tasks[t].known| == |pages| && states[k].tasks[t].begun <= states[k].tasks[t].known[p]
    ensures reference in states[k].tasks[t].known[p] ==> ExactlyOne(states[later].rows, states[0].request, reference)
  {
    RunKeepsInv(states, steps, k);
    RunKeepsInv(states, steps, later);
    RunKeepsRows(states, steps, k, later);
    var task := states[k].tasks[t];
    assert TaskOk(states[k], task);
    CompletedHasAllPages(states[k], t, pages);
    if reference in task.known[p] {
      PresentStays(states[k].rows, states[later].rows, states[0].request, task);
      PresentIsOne(states[later].rows, states[0].request, reference);
    }
  }

  // ----- scan, prefetch and sink together -----

  function HitIds(hits: seq<S.Hit>): seq<nat> {
    seq(|hits|, i requires 0 <= i < |hits| => hits[i].id)
  }

  function PageIds(pages: seq<S.Page>): seq<seq<nat>> {
    seq(|pages|, i requires 0 <= i < |pages| => HitIds(pages[i].hits))
  }

  lemma {:induction false} HitIsOnAPage(pages: seq<S.Page>, hit: S.Hit) returns (p: nat)
    requires hit in S.Flat(pages)
    ensures p < |pages| && hit in pages[p].hits
  {
    var n := |pages| - 1;
    if hit in pages[n].hits {
      p := n;
    } else {
      p := HitIsOnAPage(pages[..n], hit);
    }
  }

  /** A completed task has stored every hit of its snapshot that existed when the hit's page was inserted. */
  lemma CompletedTaskCoversSnapshot(states: seq<State>, steps: seq<Step>, k: nat, later: nat, t: nat,
                                    snapshot: seq<S.Hit>, pageSize: int, pages: seq<S.Page>, hit: S.Hit)
    returns (p: nat)
    requires Run(states, steps) && k < later < |states| && steps[k] == Complete(t) && hit in snapshot
    requires S.Scanned(snapshot, pageSize, None, pages)
    requires states[k].tasks[t].source.items == P.Plains(PageIds(pages))
    ensures p < |pages| && hit in pages[p].hits && |states[k].tasks[t].known| == |pages|
    ensures states[k].tasks[t].begun <= states[k].tasks[t].known[p]
    ensures hit.id in states[k].tasks[t].known[p] ==> ExactlyOne(states[later].rows, states[0].request, hit.id)
  {
    assert snapshot[..|snapshot|] == snapshot;
    p := HitIsOnAPage(pages, hit);
    var i :| 0 <= i < |pages[p].hits| && pages[p].hits[i] == hit;
    assert PageIds(pages)[p][i] == hit.id;
    CompletedScanIsStored(states, steps, k, later, t, PageIds(pages), p, hit.id);
  }

  // ----- what the request's status says -----

  predicate Over(status: SearchStatus) {
    status.Completed? || status.Failed?
  }

  /** A request that is over is never claimed again: it stays over in every later state. */
  lemma {:induction false} OverStaysOver(states: seq<State>, steps: seq<Step>, i: nat, j: nat)
    requires Run(states, steps) && i <= j < |states| && Over(states[i].status)
    ensures Over(states[j].status)
    decreases j - i
  {
    if i < j {
      OverStaysOver(states, steps, i, j - 1);
      assert states[j] == Apply(states[j - 1], steps[j - 1]);
    }
  }

  /** Every page of the task's scan is stored: what existed when it was inserted has exactly one original. */
  ghost predicate AllStored(rows: Originals, request: nat, task: Task) {
    && task.source.items == P.Plains(task.fetch.yielded) && |task.known| == |task.fetch.yielded|
    && forall p, r :: 0 <= p < |task.known| && r in task.fetch.yielded[p] && r in task.known[p] ==>
         ExactlyOne(rows, request, r)
  }

  ghost predicate CompletedBy(states: seq<State>, steps: seq<Step>, a: nat, k: nat) {
    && a < k < |states| && a < |steps| && steps[a].Complete? && steps[a].t in states[a].tasks
    && AllStored(states[k].rows, states[0].request, states[a].tasks[steps[a].t])
  }

  lemma CompletionStores(states: seq<State>, steps: seq<Step>, a: nat, k: nat)
    requires Run(states, steps) && a < k < |states| && steps[a].Complete?
    ensures CompletedBy(states, steps, a, k)
  {
    RunKeepsInv(states, steps, a);
    var t := steps[a].t;
    assert Enabled(states[a], steps[a]);
    var task := states[a].tasks[t];
    assert TaskOk(states[a], task);
    CompletedHasAllPages(states[a], t, task.fetch.yielded);
    forall p, r | 0 <= p < |task.known| && r in task.fetch.yielded[p] && r in task.known[p]
      ensures ExactlyOne(states[k].rows, states[0].request, r)
    {
      CompletedScanIsStored(states, steps, a, k, t, task.fetch.yielded, p, r);
    }
  }

  /** COMPLETED is set by a completing task only. */
  lemma {:induction false} CompletedHasACause(states: seq<State>, steps: seq<Step>, k: nat) returns (a: nat)
    requires Run(states, steps) && k < |states| && states[0].status.Pending? && states[k].status.Completed?
    ensures a < k && steps[a].Complete?
  {
    assert states[k] == Apply(states[k - 1], steps[k - 1]);
    if steps[k - 1].Complete? {
      a := k - 1;
    } else {
      a := CompletedHasACause(states, steps, k - 1);
    }
  }

  /** A COMPLETED request has had all references of some whole scan requested, whatever else failed or crashed. */
  lemma CompletedMeansStored(states: seq<State>, steps: seq<Step>, k: nat)
    requires Run(states, steps) && k < |states| && states[0].status.Pending? && states[k].status.Completed?
    ensures exists a: nat :: CompletedBy(states, steps, a, k)
  {
    var a := CompletedHasACause(states, steps, k);
    CompletionStores(states, steps, a, k);
  }

  predicate Verdict(st: Step) {
    st.Complete? || st.Fail?
  }

  /** The status is the last verdict, so a task that fails late turns COMPLETED into FAILED. */
  lemma {:induction false} StatusIsTheLastVerdict(states: seq<State>, steps: seq<Step>, a: nat, k: nat)
    requires Run(states, steps) && a < k < |states| && Verdict(steps[a])
    requires forall b :: a < b < k ==> !Verdict(steps[b])
    ensures states[k].status == if steps[a].Complete? then Completed else Failed
  {
    assert states[k] == Apply(states[k - 1], steps[k - 1]);
    if a < k - 1 {
      StatusIsTheLastVerdict(states, steps, a, k - 1);
    }
  }

  lemma {:induction false} NoTaskBeginsOnceOver(states: seq<State>, steps: seq<Step>, i: nat, j: nat)
    requires Run(states, steps) && i <= j < |states| && Over(states[i].status)
    ensures states[j].tasks.Keys <= states[i].tasks.Keys
    decreases j - i
  {
    if i < j {
      NoTaskBeginsOnceOver(states, steps, i, j - 1);
      OverStaysOver(states, steps, i, j - 1);
      OverBeginsNothing(states[j - 1], steps[j - 1]);
    }
  }

  lemma OverBeginsNothing(s: State, st: Step)
    requires Enabled(s, st) && Over(s.status)
    ensures Apply(s, st).tasks.Keys <= s.tasks.Keys
  {
  }

  /** A verdict after a verdict is another task's, and that task was running when the first was given. */
  lemma SecondVerdictNeedsOverlap(states: seq<State>, steps: seq<Step>, a: nat, b: nat)
    requires Run(states, steps) && a < b < |steps| && Verdict(steps[a]) && Verdict(steps[b])
    ensures steps[b].t in states[a].tasks && steps[b].t != steps[a].t
  {
    assert Enabled(states[a], steps[a]) && states[a + 1] == Apply(states[a], steps[a]);
    assert Enabled(states[b], steps[b]);
    NoTaskBeginsOnceOver(states, steps, a + 1, b);
  }

  // ----- FAILED does not mean that references are missing -----

  /** All references of the pages from `n` on that existed when the task began are present. */
  ghost predicate RestPresent(rows: Originals, request: nat, begun: set<nat>, pages: seq<seq<nat>>, n: nat) {
    forall p, r :: n <= p < |pages| && r in pages[p] && r in begun ==> Present(rows, Some(request), r)
  }

  /**
    When a task fails, its scan is stored in full exactly when the pages it had not stored hold no
    missing reference; so a failure after the last page leaves nothing missing.
   */
  lemma FailedScanIsStoredExactly(states: seq<State>, steps: seq<Step>, b: nat, task: Task, pages: seq<seq<nat>>)
    requires Run(states, steps) && b < |steps| && steps[b].Fail?
    requires steps[b].t in states[b].tasks && task == states[b].tasks[steps[b].t]
    requires task.source.items == P.Plains(pages)
    ensures RestPresent(states[b + 1].rows, states[0].request, task.begun, pages, 0)
       <==> RestPresent(states[b].rows, states[0].request, task.begun, pages, |task.known|)
  {
    RunKeepsInv(states, steps, b);
    assert TaskOk(states[b], task) && states[b + 1] == Apply(states[b], steps[b]);
    forall p, r | 0 <= p < |task.known| && p < |pages| && r in pages[p] && r in task.begun
      ensures Present(states[b].rows, Some(states[0].request), r)
    {
      YieldedIsAPage(task, pages, p);
    }
  }

  lemma YieldedIsAPage(task: Task, pages: seq<seq<nat>>, p: nat)
    requires P.Inv(task.source, task.fetch) && task.source.items == P.Plains(pages)
    requires p < |task.fetch.yielded| && p < |pages|
    ensures task.fetch.yielded[p] == pages[p]
  {
    var f := P.Flow(task.fetch);
    assert f <= task.source.items;
    assert f[p] == P.Plains(task.fetch.yielded)[p] == P.Plains(pages)[p];
  }

  /** One delivery, and nobody else inserting for the request. */
  ghost predicate LoneRun(states: seq<State>, steps: seq<Step>) {
    Run(states, steps) && forall k :: 0 < k < |steps| ==> !steps[k].Deliver? && !steps[k].Elsewhere?
  }

  /** The reference is on a page that the task has stored. */
  ghost predicate Sourced(task: Task, reference: nat) {
    exists p :: 0 <= p < |task.known| && p < |task.fetch.yielded| && reference in task.fetch.yielded[p]
  }

  ghost predicate OnlyStored(rows: Originals, task: Task) {
    forall i :: i in rows ==> Sourced(task, rows[i].reference)
  }

  /** At most one task runs, and every row is from a page it has stored. */
  ghost predicate Lone(s: State) {
    && (forall t, u :: t in s.tasks && u in s.tasks ==> t == u)
    && (forall t :: t in s.tasks ==> OnlyStored(s.rows, s.tasks[t]))
  }

  lemma SourcedStays(task: Task, later: Task, reference: nat)
    requires Sourced(task, reference) && |task.known| <= |later.known|
    requires task.fetch.yielded <= later.fetch.yielded
    ensures Sourced(later, reference)
  {
    var p :| 0 <= p < |task.known| && p < |task.fetch.yielded| && reference in task.fetch.yielded[p];
    assert later.fetch.yielded[p] == task.fetch.yielded[p];
  }

  lemma AdvanceKeepsLone(s: State, t: nat, move: P.Step)
    requires Lone(s) && Enabled(s, Advance(t, move))
    ensures Lone(Apply(s, Advance(t, move)))
  {
    var s' := Apply(s, Advance(t, move));
    forall i | i in s'.rows
      ensures Sourced(s'.tasks[t], s'.rows[i].reference)
    {
      assert OnlyStored(s.rows, s.tasks[t]);
      SourcedStays(s.tasks[t], s'.tasks[t], s.rows[i].reference);
    }
  }

  lemma StoreKeepsLone(s: State, t: nat, ids: seq<nat>)
    requires Lone(s) && Enabled(s, Store(t, ids))
    ensures Lone(Apply(s, Store(t, ids)))
  {
    var s', task := Apply(s, Store(t, ids)), s.tasks[t];
    var page := task.fetch.yielded[|task.known|];
    InsertPageEffect(s.rows, s.references, Some(s.request), page, ids);
    forall i | i in s'.rows
      ensures Sourced(s'.tasks[t], s'.rows[i].reference)
    {
      if i in s.rows {
        assert OnlyStored(s.rows, task);
        SourcedStays(task, s'.tasks[t], s.rows[i].reference);
      } else {
        assert s'.rows[i].reference in s'.tasks[t].fetch.yielded[|task.known|];
      }
    }
  }

  lemma StepKeepsLone(s: State, st: Step)
    requires Lone(s) && Enabled(s, st) && !st.Deliver? && !st.Elsewhere?
    ensures Lone(Apply(s, st))
  {
    match st
    case Advance(t, move) => AdvanceKeepsLone(s, t, move);
    case Store(t, ids) => StoreKeepsLone(s, t, ids);
    case _ =>
  }

  lemma FirstStepIsLone(s: State, st: Step)
    requires s.rows == map[] && s.tasks == map[] && Enabled(s, st)
    ensures Lone(Apply(s, st))
  {
  }

  lemma {:induction false} LoneRunIsLone(states: seq<State>, steps: seq<Step>, k: nat)
    requires LoneRun(states, steps) && k < |states|
    ensures Lone(states[k])
  {
    if k == 1 {
      FirstStepIsLone(states[0], steps[0]);
    } else if k > 1 {
      LoneRunIsLone(states, steps, k - 1);
      StepKeepsLone(states[k - 1], steps[k - 1]);
    }
  }

  predicate OnPageBefore(pages: seq<seq<nat>>, n: nat, r: nat) {
    exists q :: 0 <= q < n && q < |pages| && r in pages[q]
  }

  /** Every reference on a page from `n` on that existed when the task began is also on a page before. */
  ghost predicate NothingNewFrom(begun: set<nat>, pages: seq<seq<nat>>, n: nat) {
    forall p, r :: n <= p < |pages| && r in pages[p] && r in begun ==> OnPageBefore(pages, n, r)
  }

  lemma SourcedIsOnPage(task: Task, pages: seq<seq<nat>>, r: nat)
    requires P.Inv(task.source, task.fetch) && task.source.items == P.Plains(pages) && Sourced(task, r)
    ensures OnPageBefore(pages, |task.known|, r)
  {
    var q :| 0 <= q < |task.known| && q < |task.fetch.yielded| && r in task.fetch.yielded[q];
    assert P.Flow(task.fetch) <= task.source.items;
    assert q < |P.Flow(task.fetch)| <= |pages|;
    YieldedIsAPage(task, pages, q);
  }

  lemma StoredPageIsPresent(s: State, task: Task, pages: seq<seq<nat>>, r: nat)
    requires TaskOk(s, task) && task.source.items == P.Plains(pages)
    requires OnPageBefore(pages, |task.known|, r) && r in task.begun
    ensures Present(s.rows, Some(s.request), r)
  {
    var q :| 0 <= q < |task.known| && q < |pages| && r in pages[q];
    YieldedIsAPage(task, pages, q);
    assert r in task.known[q];
  }

  /**
    A single delivery that fails has its whole scan stored if and only if the pages it did not store
    hold no reference that is not also on one it did: the pages alone decide it.
   */
  lemma LoneFailureExactly(states: seq<State>, steps: seq<Step>, b: nat, task: Task, pages: seq<seq<nat>>)
    requires LoneRun(states, steps) && b < |steps| && steps[b].Fail?
    requires steps[b].t in states[b].tasks && task == states[b].tasks[steps[b].t]
    requires task.source.items == P.Plains(pages)
    ensures RestPresent(states[b + 1].rows, states[0].request, task.begun, pages, 0)
       <==> NothingNewFrom(task.begun, pages, |task.known|)
  {
    RunKeepsInv(states, steps, b);
    LoneRunIsLone(states, steps, b);
    FailedScanIsStoredExactly(states, steps, b, task, pages);
    LonePresentExactly(states[b], task, pages);
  }

  lemma LonePresentExactly(s: State, task: Task, pages: seq<seq<nat>>)
    requires TaskOk(s, task) && OnlyStored(s.rows, task) && task.source.items == P.Plains(pages)
    ensures RestPresent(s.rows, s.request, task.begun, pages, |task.known|)
       <==> NothingNewFrom(task.begun, pages, |task.known|)
  {
    forall p, r | |task.known| <= p < |pages| && r in pages[p] && r in task.begun
      ensures Present(s.rows, Some(s.request), r) <==> OnPageBefore(pages, |task.known|, r)
    {
      if Present(s.rows, Some(s.request), r) {
        SourcedIsOnPage(task, pages, r);
      }
      if OnPageBefore(pages, |task.known|, r) {
        StoredPageIsPresent(s, task, pages, r);
      }
    }
  }

  ghost predicate LoneReach(s0: State, st0: Step, s: State) {
    exists states, steps :: LoneEnds(states, steps, s0, st0, s)
  }

  ghost predicate LoneEnds(states: seq<State>, steps: seq<Step>, s0: State, st0: Step, s: State) {
    LoneRun(states, steps) && |steps| > 0 && states[0] == s0 && steps[0] == st0 && states[|steps|] == s
  }

  lemma LoneStep(s0: State, st0: Step, s: State, st: Step, s': State)
    requires LoneReach(s0, st0, s) && Enabled(s, st) && s' == Apply(s, st) && !st.Deliver? && !st.Elsewhere?
    ensures LoneReach(s0, st0, s')
  {
    var states, steps :| LoneEnds(states, steps, s0, st0, s);
    var longer, more := states + [s'], steps + [st];
    forall k | 0 <= k < |more|
      ensures Enabled(longer[k], more[k]) && longer[k + 1] == Apply(longer[k], more[k])
    {
      assert longer[k] == states[k];
      assert k < |steps| ==> more[k] == steps[k] && longer[k + 1] == states[k + 1];
    }
    assert LoneEnds(longer, more, s0, st0, s');
  }

  const SOURCE: P.Source<seq<nat>> := Pages([[7]], P.Raises(1))
  const BEFORE: State := State(0, Pending, {7}, map[], map[])
  const DELIVERY: Step := Deliver(0, [[7]], P.Raises(1))

  function Running(fetch: P.State<seq<nat>>, known: seq<set<nat>>, rows: Originals): State {
    State(0, Searching, {7}, rows, map[0 := Task(SOURCE, fetch, {7}, known)])
  }

  lemma Move(fetch: P.State<seq<nat>>, known: seq<set<nat>>, rows: Originals, move: P.Step)
    requires LoneReach(BEFORE, DELIVERY, Running(fetch, known, rows)) && P.Enabled(fetch, move) && !move.Close?
    requires move.Resume? ==> |known| == |fetch.yielded|
    ensures LoneReach(BEFORE, DELIVERY, Running(P.Apply(SOURCE, fetch, move), known, rows))
  {
    var s := Running(fetch, known, rows);
    var s' := Running(P.Apply(SOURCE, fetch, move), known, rows);
    assert Apply(s, Advance(0, move)).tasks == s'.tasks;
    LoneStep(BEFORE, DELIVERY, s, Advance(0, move), s');
  }

  const PAGE: P.Message<seq<nat>> := P.Value(P.Plain([7]))
  const STORED: Originals := map[9 := Original(Some(0), 7)]

  /** The states of the prefetch: begun, page fetched, queued, handed over. */
  function Fetched(): P.State<seq<nat>> { P.State(1, P.Putting(PAGE), [], P.Waiting, []) }
  function Queued(): P.State<seq<nat>> { P.State(1, P.Fetching, [PAGE], P.Waiting, []) }
  function HandedOver(): P.State<seq<nat>> { P.State(1, P.Fetching, [], P.Yielded, [[7]]) }

  lemma PageMoves()
    ensures P.Apply(SOURCE, P.Initial(), P.Fetch) == Fetched()
    ensures P.Apply(SOURCE, Fetched(), P.Put) == Queued()
    ensures P.Apply(SOURCE, Queued(), P.Get) == HandedOver()
  {
    assert SOURCE.items[0] == P.Plain([7]);
    assert [PAGE][1..] == [];
    var none: seq<seq<nat>> := [];
    assert none + [[7]] == [[7]];
  }

  lemma DeliveryReached()
    ensures LoneReach(BEFORE, DELIVERY, Running(P.Initial(), [], map[]))
  {
    var s1 := Running(P.Initial(), [], map[]);
    assert Apply(BEFORE, DELIVERY).tasks == s1.tasks;
    assert LoneEnds([BEFORE, s1], [DELIVERY], BEFORE, DELIVERY, s1);
  }

  lemma OnePageHanded()
    ensures LoneReach(BEFORE, DELIVERY, Running(HandedOver(), [], map[]))
  {
    DeliveryReached();
    PageMoves();
    Move(P.Initial(), [], map[], P.Fetch);
    Move(Fetched(), [], map[], P.Put);
    Move(Queued(), [], map[], P.Get);
  }

  lemma OnePageStored()
    ensures LoneReach(BEFORE, DELIVERY, Running(HandedOver(), [{7}], STORED))
  {
    OnePageHanded();
    var s := Running(HandedOver(), [], map[]);
    var s' := Running(HandedOver(), [{7}], STORED);
    StoredPage();
    var none: seq<set<nat>> := [];
    assert none + [{7}] == [{7}];
    assert Apply(s, Store(0, [9])).tasks == s'.tasks;
    LoneStep(BEFORE, DELIVERY, s, Store(0, [9]), s');
  }

  lemma StoredPage()
    ensures InsertPage(map[], {7}, Some(0), [7], [9]) == STORED
  {
    assert [7][1..] == [] && !Present(map[], Some(0), 7);
  }

  /** Then the source raises, the error is queued, and the caller gets it. */
  function Waiting(): P.State<seq<nat>> { P.State(1, P.Fetching, [], P.Waiting, [[7]]) }
  function Broken(): P.State<seq<nat>> { P.State(1, P.Putting(P.Failure(1)), [], P.Waiting, [[7]]) }
  function Announced(): P.State<seq<nat>> { P.State(1, P.Stopped, [P.Failure(1)], P.Waiting, [[7]]) }
  function Informed(): P.State<seq<nat>> { P.State(1, P.Stopped, [], P.Raised(1, false), [[7]]) }

  lemma ErrorMoves()
    ensures P.Apply(SOURCE, HandedOver(), P.Resume) == Waiting()
    ensures P.Apply(SOURCE, Waiting(), P.Fetch) == Broken()
    ensures P.Apply(SOURCE, Broken(), P.Put) == Announced()
    ensures P.Apply(SOURCE, Announced(), P.Get) == Informed()
  {
    var error: seq<P.Message<seq<nat>>> := [P.Failure(1)];
    assert error[1..] == [];
  }

  /** The scan fails after its last page, for instance while closing the point in time. */
  lemma ScanRaisesAtTheEnd()
    ensures LoneReach(BEFORE, DELIVERY, Running(Informed(), [{7}], STORED))
  {
    OnePageStored();
    ErrorMoves();
    Move(HandedOver(), [{7}], STORED, P.Resume);
    Move(Waiting(), [{7}], STORED, P.Fetch);
    Move(Broken(), [{7}], STORED, P.Put);
    Move(Announced(), [{7}], STORED, P.Get);
  }

  /** A single delivery ends FAILED although its one page, its one reference, is stored. */
  lemma FailedWithNothingMissing()
    ensures LoneReach(BEFORE, DELIVERY, State(0, Failed, {7}, STORED, map[]))
    ensures ExactlyOne(STORED, 0, 7)
  {
    ScanRaisesAtTheEnd();
    var s := Running(Informed(), [{7}], STORED);
    assert s.tasks - {0} == map[];
    LoneStep(BEFORE, DELIVERY, s, Fail(0), State(0, Failed, {7}, STORED, map[]));
    StoredOnce();
  }

  lemma StoredOnce()
    ensures ExactlyOne(STORED, 0, 7)
  {
    assert Collides(STORED[9], Some(0), 7);
    PresentIsOne(STORED, 0, 7);
  }
}
