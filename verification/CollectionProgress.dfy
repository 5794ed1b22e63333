/**
  A delivery runs: whatever has crashed, overlapped or been redelivered before, a request that is not
  over can still be collected in full by one more delivery.
 */
module CollectionProgress {
  import opened Options
  import P = Prefetch
  import opened Collection

  // ----- what a delivery does -----

  /** The task has just begun: its whole source is ahead of it, and it knows what exists now. */
  predicate JustBegun(task: Task, pages: seq<seq<nat>>, ending: P.Ending, references: set<nat>) {
    && task.source.items == P.Plains(pages) && task.source.ending == ending
    && task.fetch == P.State(0, P.Fetching, [], P.Waiting, []) && task.begun == references && task.known == []
  }

  /** A delivery, first or repeated, begins a task if and only if the request is not over; otherwise it does nothing. */
  lemma DeliverExactly(states: seq<State>, steps: seq<Step>, k: nat)
    requires Run(states, steps) && k < |steps| && steps[k].Deliver?
    ensures var s, s', st := states[k], states[k + 1], steps[k];
            if s.status == Completed || s.status == Failed then s' == s
            else && st.t in s'.tasks && JustBegun(s'.tasks[st.t], st.pages, st.ending, s.references)
                 && s'.status == Searching && s'.rows == s.rows && s'.references == s.references
                 && s'.tasks - {st.t} == s.tasks
  {
    assert Enabled(states[k], steps[k]) && states[k + 1] == Apply(states[k], steps[k]);
  }

  /** A crash loses the task and nothing else; references only ever appear. */
  lemma CrashLosesTheTask(states: seq<State>, steps: seq<Step>, k: nat)
    requires Run(states, steps) && k < |steps|
    ensures steps[k].Crash? ==>
      steps[k].t !in states[k + 1].tasks && states[k + 1] == states[k].(tasks := states[k].tasks - {steps[k].t})
    ensures states[k].references <= states[k + 1].references
    ensures steps[k].AddReference? ==> steps[k].reference in states[k + 1].references
  {
    assert Enabled(states[k], steps[k]) && states[k + 1] == Apply(states[k], steps[k]);
  }

  /** At every moment a running task can crash or fail, and a reference can appear. */
  lemma AnythingCanHappen(states: seq<State>, steps: seq<Step>, k: nat, t: nat, reference: nat)
    requires Run(states, steps) && k < |states|
    ensures t in states[k].tasks <==> Enabled(states[k], Crash(t))
    ensures t in states[k].tasks <==> Enabled(states[k], Fail(t))
    ensures Enabled(states[k], AddReference(reference))
  {
  }

  /** What another request inserts is stored as well, and touches no task. */
  lemma OthersAreStored(states: seq<State>, steps: seq<Step>, k: nat)
    requires Run(states, steps) && k < |steps| && steps[k].Elsewhere?
    ensures var s, s', st := states[k], states[k + 1], steps[k];
            && s'.tasks == s.tasks && s'.status == s.status && s'.references == s.references
            && (forall i :: i in s.rows ==> i in s'.rows && s'.rows[i] == s.rows[i])
            && (st.request.Some? ==>
                  forall r :: r in st.page && r in s.references ==> Present(s'.rows, st.request, r))
  {
    var s, st := states[k], steps[k];
    assert Enabled(s, st) && states[k + 1] == Apply(s, st);
    InsertPageEffect(s.rows, s.references, st.request, st.page, st.ids);
  }

  // ----- one delivery is enough -----

  /** A run that goes on from `steps0` with the delivery `st0` and no other, and ends in s. */
  ghost predicate Goes(states: seq<State>, steps: seq<Step>, steps0: seq<Step>, st0: Step, s: State) {
    && Run(states, steps) && steps0 < steps && steps[|steps0|] == st0
    && (forall k :: |steps0| < k < |steps| ==> !steps[k].Deliver?)
    && states[|steps|] == s
  }

  ghost predicate Continues(steps0: seq<Step>, st0: Step, s: State) {
    exists states, steps :: Goes(states, steps, steps0, st0, s)
  }

  lemma RunExtends(states: seq<State>, steps: seq<Step>, st: Step, s': State)
    requires Run(states, steps) && Enabled(states[|steps|], st) && s' == Apply(states[|steps|], st)
    ensures Run(states + [s'], steps + [st])
  {
    var longer, more := states + [s'], steps + [st];
    forall k | 0 <= k < |more|
      ensures Enabled(longer[k], more[k]) && longer[k + 1] == Apply(longer[k], more[k])
    {
      assert longer[k] == states[k];
      assert k < |steps| ==> more[k] == steps[k] && longer[k + 1] == states[k + 1];
    }
  }

  lemma Continue(steps0: seq<Step>, st0: Step, s: State, st: Step)
    requires Continues(steps0, st0, s) && Enabled(s, st) && !st.Deliver?
    ensures Continues(steps0, st0, Apply(s, st))
  {
    var states, steps :| Goes(states, steps, steps0, st0, s);
    RunExtends(states, steps, st, Apply(s, st));
    var longer, more := states + [Apply(s, st)], steps + [st];
    assert more[|steps0|] == st0 && longer[|more|] == Apply(s, st);
    assert Goes(longer, more, steps0, st0, Apply(s, st));
  }

  /** The task after n pages: all stored, the next one not yet asked for. */
  function Between(pages: seq<seq<nat>>, n: nat): P.State<seq<nat>>
    requires n <= |pages|
  {
    P.State(n, P.Fetching, [], P.Waiting, pages[..n])
  }

  function With(s: State, t: nat, pages: seq<seq<nat>>, fetch: P.State<seq<nat>>, known: seq<set<nat>>, rows: Originals)
    : State {
    var task := Task(Pages(pages, P.Finishes), fetch, s.references, known);
    s.(status := Searching, rows := rows, tasks := s.tasks[t := task])
  }

  lemma ContinueMove(steps0: seq<Step>, st0: Step, s: State, t: nat, pages: seq<seq<nat>>, fetch: P.State<seq<nat>>,
                     known: seq<set<nat>>, rows: Originals, move: P.Step)
    requires Continues(steps0, st0, With(s, t, pages, fetch, known, rows)) && P.Enabled(fetch, move) && !move.Close?
    requires move.Resume? ==> |known| == |fetch.yielded|
    ensures Continues(steps0, st0, With(s, t, pages, P.Apply(Pages(pages, P.Finishes), fetch, move), known, rows))
  {
    var before := With(s, t, pages, fetch, known, rows);
    var after := With(s, t, pages, P.Apply(Pages(pages, P.Finishes), fetch, move), known, rows);
    Continue(steps0, st0, before, Advance(t, move));
    assert Apply(before, Advance(t, move)).tasks == after.tasks;
    assert Apply(before, Advance(t, move)) == after;
  }

  function Loaded(pages: seq<seq<nat>>, n: nat): P.State<seq<nat>>
    requires n < |pages|
  {
    P.State(n + 1, P.Putting(P.Value(P.Plain(pages[n]))), [], P.Waiting, pages[..n])
  }

  function Offered(pages: seq<seq<nat>>, n: nat): P.State<seq<nat>>
    requires n < |pages|
  {
    P.State(n + 1, P.Fetching, [P.Value(P.Plain(pages[n]))], P.Waiting, pages[..n])
  }

  function HandedOut(pages: seq<seq<nat>>, n: nat): P.State<seq<nat>>
    requires n < |pages|
  {
    P.State(n + 1, P.Fetching, [], P.Yielded, pages[..n + 1])
  }

  lemma PageMoves(pages: seq<seq<nat>>, n: nat)
    requires n < |pages|
    ensures P.Apply(Pages(pages, P.Finishes), Between(pages, n), P.Fetch) == Loaded(pages, n)
    ensures P.Apply(Pages(pages, P.Finishes), Loaded(pages, n), P.Put) == Offered(pages, n)
    ensures P.Apply(Pages(pages, P.Finishes), Offered(pages, n), P.Get) == HandedOut(pages, n)
    ensures P.Apply(Pages(pages, P.Finishes), HandedOut(pages, n), P.Resume) == Between(pages, n + 1)
  {
    assert P.Plains(pages)[n] == P.Plain(pages[n]);
    assert [P.Value(P.Plain(pages[n]))][1..] == [];
    assert pages[..n] + [pages[n]] == pages[..n + 1];
  }

  /** There are always enough new ids. */
  lemma NewIds(rows: Originals, n: nat, above: nat) returns (ids: seq<nat>)
    requires forall i :: i in rows ==> i < above
    ensures |ids| == n && FreshFor(rows, ids) && forall k :: 0 <= k < n ==> above <= ids[k] < above + n
  {
    ids := seq(n, k requires 0 <= k < n => above + k);
    assert forall k :: 0 <= k < n ==> ids[k] == above + k;
  }

  lemma {:induction false} Above(keys: set<nat>) returns (above: nat)
    ensures forall i :: i in keys ==> i < above
  {
    if keys == {} {
      above := 0;
    } else {
      var i :| i in keys;
      var rest := Above(keys - {i});
      above := if i < rest then rest else i + 1;
      assert forall j :: j in keys ==> j == i || j in keys - {i};
    }
  }

  ghost predicate StoredUpTo(rows: Originals, request: nat, references: set<nat>, pages: seq<seq<nat>>, n: nat) {
    forall p, r :: 0 <= p < n && p < |pages| && r in pages[p] && r in references ==> Present(rows, Some(request), r)
  }

  lemma PresentIsKept(a: Originals, b: Originals, request: nat, r: nat)
    requires Keeps(a, b) && Present(a, Some(request), r)
    ensures Present(b, Some(request), r)
  {
    var i :| i in a && Collides(a[i], Some(request), r);
    assert Collides(b[i], Some(request), r);
  }

  lemma StoreStoresPage(rows: Originals, request: nat, references: set<nat>, pages: seq<seq<nat>>, n: nat,
                        ids: seq<nat>)
    requires n < |pages| && |ids| == |pages[n]| && FreshFor(rows, ids)
    requires StoredUpTo(rows, request, references, pages, n) && NoDuplicates(rows)
    ensures var after := InsertPage(rows, references, Some(request), pages[n], ids);
            StoredUpTo(after, request, references, pages, n + 1) && NoDuplicates(after)
  {
    var after := InsertPage(rows, references, Some(request), pages[n], ids);
    InsertPageEffect(rows, references, Some(request), pages[n], ids);
    forall p, r | 0 <= p < n + 1 && p < |pages| && r in pages[p] && r in references
      ensures Present(after, Some(request), r)
    {
      if p == n {
        PageIsPresent(rows, references, request, pages[n], ids, r);
      } else {
        PresentIsKept(rows, after, request, r);
      }
    }
  }

  /** One page: fetched, queued, handed over, stored, and the next one asked for. */
  lemma OneRound(steps0: seq<Step>, st0: Step, s: State, t: nat, pages: seq<seq<nat>>, n: nat,
                 known: seq<set<nat>>, rows: Originals) returns (known': seq<set<nat>>, rows': Originals)
    requires n < |pages| && |known| == n && StoredUpTo(rows, s.request, s.references, pages, n) && NoDuplicates(rows)
    requires Continues(steps0, st0, With(s, t, pages, Between(pages, n), known, rows))
    ensures |known'| == n + 1 && StoredUpTo(rows', s.request, s.references, pages, n + 1) && NoDuplicates(rows')
    ensures Continues(steps0, st0, With(s, t, pages, Between(pages, n + 1), known', rows'))
  {
    PageMoves(pages, n);
    ContinueMove(steps0, st0, s, t, pages, Between(pages, n), known, rows, P.Fetch);
    ContinueMove(steps0, st0, s, t, pages, Loaded(pages, n), known, rows, P.Put);
    ContinueMove(steps0, st0, s, t, pages, Offered(pages, n), known, rows, P.Get);
    var above := Above(rows.Keys);
    var ids := NewIds(rows, |pages[n]|, above);
    known', rows' := known + [s.references], InsertPage(rows, s.references, Some(s.request), pages[n], ids);
    StoreStoresPage(rows, s.request, s.references, pages, n, ids);
    StoreContinues(steps0, st0, s, t, pages, n, known, rows, ids);
    ContinueMove(steps0, st0, s, t, pages, HandedOut(pages, n), known', rows', P.Resume);
  }

  lemma StoreContinues(steps0: seq<Step>, st0: Step, s: State, t: nat, pages: seq<seq<nat>>, n: nat,
                       known: seq<set<nat>>, rows: Originals, ids: seq<nat>)
    requires n < |pages| && |known| == n && |ids| == |pages[n]| && FreshFor(rows, ids)
    requires Continues(steps0, st0, With(s, t, pages, HandedOut(pages, n), known, rows))
    ensures Continues(steps0, st0, With(s, t, pages, HandedOut(pages, n), known + [s.references],
                                        InsertPage(rows, s.references, Some(s.request), pages[n], ids)))
  {
    var before := With(s, t, pages, HandedOut(pages, n), known, rows);
    var after := With(s, t, pages, HandedOut(pages, n), known + [s.references],
                      InsertPage(rows, s.references, Some(s.request), pages[n], ids));
    assert pages[..n + 1][n] == pages[n];
    Continue(steps0, st0, before, Store(t, ids));
    assert Apply(before, Store(t, ids)).tasks == after.tasks;
    assert Apply(before, Store(t, ids)) == after;
  }

  lemma {:induction false} AllRounds(steps0: seq<Step>, st0: Step, s: State, t: nat, pages: seq<seq<nat>>, n: nat)
    returns (known: seq<set<nat>>, rows: Originals)
    requires n <= |pages| && NoDuplicates(s.rows)
    requires Continues(steps0, st0, With(s, t, pages, P.Initial(), [], s.rows))
    ensures |known| == n && StoredUpTo(rows, s.request, s.references, pages, n) && NoDuplicates(rows)
    ensures Continues(steps0, st0, With(s, t, pages, Between(pages, n), known, rows))
  {
    if n == 0 {
      known, rows := [], s.rows;
      assert Between(pages, 0) == P.Initial();
    } else {
      known, rows := AllRounds(steps0, st0, s, t, pages, n - 1);
      known, rows := OneRound(steps0, st0, s, t, pages, n - 1, known, rows);
    }
  }

  lemma EndMoves(pages: seq<seq<nat>>)
    ensures var src, y := Pages(pages, P.Finishes), pages;
            && P.Apply(src, P.State(|pages|, P.Fetching, [], P.Waiting, y), P.Fetch)
               == P.State(|pages|, P.Putting(P.Done), [], P.Waiting, y)
            && P.Apply(src, P.State(|pages|, P.Putting(P.Done), [], P.Waiting, y), P.Put)
               == P.State(|pages|, P.Stopped, [P.Done], P.Waiting, y)
            && P.Apply(src, P.State(|pages|, P.Stopped, [P.Done], P.Waiting, y), P.Get)
               == P.State(|pages|, P.Stopped, [], P.Returned, y)
  {
    var end: seq<P.Message<seq<nat>>> := [P.Done];
    assert end[1..] == [];
  }

  /** The end of the scan is announced, and the task completes. */
  lemma LastMoves(steps0: seq<Step>, st0: Step, s: State, t: nat, pages: seq<seq<nat>>, known: seq<set<nat>>,
                  rows: Originals)
    requires t !in s.tasks && Continues(steps0, st0, With(s, t, pages, Between(pages, |pages|), known, rows))
    ensures Continues(steps0, st0, s.(status := Completed, rows := rows))
  {
    EndMoves(pages);
    assert pages[..|pages|] == pages;
    ContinueMove(steps0, st0, s, t, pages, Between(pages, |pages|), known, rows, P.Fetch);
    var ending := P.State(|pages|, P.Putting(P.Done), [], P.Waiting, pages);
    ContinueMove(steps0, st0, s, t, pages, ending, known, rows, P.Put);
    var announced := P.State(|pages|, P.Stopped, [P.Done], P.Waiting, pages);
    ContinueMove(steps0, st0, s, t, pages, announced, known, rows, P.Get);
    CompleteContinues(steps0, st0, s, t, pages, known, rows);
  }

  lemma CompleteContinues(steps0: seq<Step>, st0: Step, s: State, t: nat, pages: seq<seq<nat>>, known: seq<set<nat>>,
                          rows: Originals)
    requires t !in s.tasks
    requires Continues(steps0, st0, With(s, t, pages, P.State(|pages|, P.Stopped, [], P.Returned, pages), known, rows))
    ensures Continues(steps0, st0, s.(status := Completed, rows := rows))
  {
    var before := With(s, t, pages, P.State(|pages|, P.Stopped, [], P.Returned, pages), known, rows);
    Continue(steps0, st0, before, Complete(t));
    assert before.tasks - {t} == s.tasks;
    assert Apply(before, Complete(t)) == s.(status := Completed, rows := rows);
  }

  /**
    From every reachable state in which the request is not over, one more delivery whose scan finishes can
    go on to COMPLETED with every existing reference of its pages stored once: a redelivered task
    resumes the collection.
   */
  lemma RedeliveryCompletes(states: seq<State>, steps: seq<Step>, t: nat, pages: seq<seq<nat>>)
    returns (states': seq<State>, steps': seq<Step>)
    requires Run(states, steps) && t !in states[|steps|].tasks
    requires states[|steps|].status == Pending || states[|steps|].status == Searching
    ensures Run(states', steps') && steps < steps' && steps'[|steps|] == Deliver(t, pages, P.Finishes)
    ensures forall k :: |steps| < k < |steps'| ==> !steps'[k].Deliver?
    ensures states'[|steps'|].status == Completed
    ensures forall p, r :: 0 <= p < |pages| && r in pages[p] && r in states[|steps|].references ==>
      ExactlyOne(states'[|steps'|].rows, states[|steps|].request, r)
  {
    var s, st0 := states[|steps|], Deliver(t, pages, P.Finishes);
    RunKeepsInv(states, steps, |steps|);
    DeliveryContinues(states, steps, t, pages);
    var known, rows := AllRounds(steps, st0, s, t, pages, |pages|);
    LastMoves(steps, st0, s, t, pages, known, rows);
    states', steps' :| Goes(states', steps', steps, st0, s.(status := Completed, rows := rows));
    forall p, r | 0 <= p < |pages| && r in pages[p] && r in s.references
      ensures ExactlyOne(rows, s.request, r)
    {
      PresentIsOne(rows, s.request, r);
    }
  }

  lemma DeliveryContinues(states: seq<State>, steps: seq<Step>, t: nat, pages: seq<seq<nat>>)
    requires Run(states, steps) && t !in states[|steps|].tasks
    requires states[|steps|].status == Pending || states[|steps|].status == Searching
    ensures Continues(steps, Deliver(t, pages, P.Finishes),
                      With(states[|steps|], t, pages, P.Initial(), [], states[|steps|].rows))
  {
    var s, st0 := states[|steps|], Deliver(t, pages, P.Finishes);
    var s' := With(s, t, pages, P.Initial(), [], s.rows);
    assert Apply(s, st0) == s';
    RunExtends(states, steps, st0, s');
    var longer, more := states + [s'], steps + [st0];
    assert more[|steps|] == st0 && longer[|more|] == s';
    assert Goes(longer, more, steps, st0, s');
  }
}
