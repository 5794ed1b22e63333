/** What the two indices hold after a migration, said of the upserts that were made. */
module MigrationWrites {
  import opened Migration

  // ----- the upserts of a run, read off its steps -----

  ghost predicate SwitchedBy(steps: seq<Step>, k: nat) {
    exists m :: 0 <= m < k && m < |steps| && steps[m].Switch?
  }

  ghost predicate BlockedBy(steps: seq<Step>, k: nat) {
    exists m :: 0 <= m < k && m < |steps| && steps[m].Block?
  }

  /** The operation was resolved at step i and has not landed before step j. */
  ghost predicate Flying(steps: seq<Step>, i: nat, j: nat, op: nat) {
    && i < j <= |steps| && steps[i].Resolve? && steps[i].op == op
    && forall m :: i < m < j ==> steps[m] != Land(op)
  }

  /** Step j lands an upsert of id that was resolved at step i. */
  ghost predicate Lands(steps: seq<Step>, i: nat, j: nat, id: nat) {
    j < |steps| && steps[j].Land? && Flying(steps, i, j, steps[j].op) && steps[i].id == id
  }

  /** An upsert resolved before the switch and landing before the write block goes to the old index. */
  ghost predicate WritesOld(steps: seq<Step>, i: nat, j: nat, id: nat) {
    Lands(steps, i, j, id) && !SwitchedBy(steps, i) && !BlockedBy(steps, j)
  }

  /** An upsert resolved after the switch goes to the new index. */
  ghost predicate WritesNew(steps: seq<Step>, i: nat, j: nat, id: nat) {
    Lands(steps, i, j, id) && SwitchedBy(steps, i)
  }

  ghost predicate OldWrite(steps: seq<Step>, j: nat, id: nat) {
    exists i: nat :: WritesOld(steps, i, j, id)
  }

  ghost predicate NewWrite(steps: seq<Step>, j: nat, id: nat) {
    exists i: nat :: WritesNew(steps, i, j, id)
  }

  ghost function OldWrites(steps: seq<Step>, k: nat, id: nat): set<nat> {
    set j: nat | j < k && OldWrite(steps, j, id)
  }

  // ----- the steps say which index an upsert goes to -----

  predicate PhaseMove(states: seq<State>, steps: seq<Step>, k: nat)
    requires k < |steps| && k + 1 < |states|
  {
    && (AfterSwitch(states[k + 1].phase) <==> AfterSwitch(states[k].phase) || steps[k].Switch?)
    && (states[k + 1].oldBlocked <==> states[k].oldBlocked || steps[k].Block?)
  }

  lemma {:induction false} PhasesMove(states: seq<State>, steps: seq<Step>, k: nat)
    requires |states| == |steps| + 1 && k < |states|
    requires !AfterSwitch(states[0].phase) && !states[0].oldBlocked
    requires forall m :: 0 <= m < |steps| ==> PhaseMove(states, steps, m)
    ensures SwitchedBy(steps, k) <==> AfterSwitch(states[k].phase)
    ensures BlockedBy(steps, k) <==> states[k].oldBlocked
  {
    if k > 0 {
      PhasesMove(states, steps, k - 1);
      NextSwitched(steps, k - 1);
      assert PhaseMove(states, steps, k - 1);
    }
  }

  lemma PhaseFollowsSteps(docs: Docs, states: seq<State>, steps: seq<Step>, script: Script, k: nat)
    requires Run(docs, states, steps, script) && k < |states|
    ensures SwitchedBy(steps, k) <==> AfterSwitch(states[k].phase)
    ensures BlockedBy(steps, k) <==> states[k].oldBlocked
  {
    forall m | 0 <= m < |steps|
      ensures PhaseMove(states, steps, m)
    {
      RunKeepsInv(docs, states, steps, script, m);
      PhaseStep(states[m], steps[m], script);
    }
    PhasesMove(states, steps, k);
  }

  lemma NextSwitched(steps: seq<Step>, k: nat)
    requires k < |steps|
    ensures SwitchedBy(steps, k + 1) <==> SwitchedBy(steps, k) || steps[k].Switch?
    ensures BlockedBy(steps, k + 1) <==> BlockedBy(steps, k) || steps[k].Block?
  {
  }

  lemma PhaseStep(s: State, st: Step, script: Script)
    requires AliasOk(s) && Enabled(s, st)
    ensures AfterSwitch(Apply(s, st, script).phase) <==> AfterSwitch(s.phase) || st.Switch?
    ensures Apply(s, st, script).oldBlocked <==> s.oldBlocked || st.Block?
  {
    match st
    case Land(op) => assert DoLand(s, op).phase == s.phase && DoLand(s, op).oldBlocked == s.oldBlocked;
    case Copy(id) => CopyPhase(s, id, script);
    case Miss(id) => assert AfterSwitch(DoMiss(s, id).phase) == AfterSwitch(s.phase);
    case _ =>
  }

  lemma CopyPhase(s: State, id: nat, script: Script)
    requires Copyable(s.phase, id)
    ensures AfterSwitch(DoCopy(s, id, script).phase) == AfterSwitch(s.phase)
    ensures DoCopy(s, id, script).oldBlocked == s.oldBlocked
  {
  }

  function Asked(st: Step, switched: bool): Write
    requires st.Resolve?
  {
    Write(st.id, st.content, if switched then New else Old)
  }

  lemma ResolveStep(s: State, op: nat, id: nat, content: int, script: Script)
    requires AliasOk(s) && Enabled(s, Resolve(op, id, content))
    ensures var s' := Apply(s, Resolve(op, id, content), script);
            op in s'.inFlight && s'.inFlight[op] == Write(id, content, if AfterSwitch(s.phase) then New else Old)
  {
  }

  lemma FlyingStep(s: State, st: Step, op: nat, script: Script)
    requires Enabled(s, st) && op in s.inFlight && st != Land(op)
    ensures op in Apply(s, st, script).inFlight && Apply(s, st, script).inFlight[op] == s.inFlight[op]
  {
    match st
    case Land(o) => assert DoLand(s, o).inFlight == s.inFlight - {o};
    case Copy(id) => assert DoCopy(s, id, script).inFlight == s.inFlight;
    case Miss(id) => assert DoMiss(s, id).inFlight == s.inFlight;
    case _ =>
  }

  predicate FlightMove(states: seq<State>, steps: seq<Step>, k: nat, op: nat)
    requires k < |steps| && k + 1 < |states|
  {
    op in states[k].inFlight && steps[k] != Land(op) ==>
      op in states[k + 1].inFlight && states[k + 1].inFlight[op] == states[k].inFlight[op]
  }

  lemma {:induction false} StaysInFlight(states: seq<State>, steps: seq<Step>, i: nat, j: nat, op: nat)
    requires |states| == |steps| + 1 && Flying(steps, i, j, op) && op in states[i + 1].inFlight
    requires forall m :: 0 <= m < |steps| ==> FlightMove(states, steps, m, op)
    ensures op in states[j].inFlight && states[j].inFlight[op] == states[i + 1].inFlight[op]
    decreases j
  {
    if j > i + 1 {
      StaysInFlight(states, steps, i, j - 1, op);
      assert FlightMove(states, steps, j - 1, op);
    }
  }

  lemma RunFlies(docs: Docs, states: seq<State>, steps: seq<Step>, script: Script, op: nat)
    requires Run(docs, states, steps, script)
    ensures forall m :: 0 <= m < |steps| ==> FlightMove(states, steps, m, op)
  {
    forall m | 0 <= m < |steps|
      ensures FlightMove(states, steps, m, op)
    {
      if op in states[m].inFlight && steps[m] != Land(op) {
        FlyingStep(states[m], steps[m], op, script);
      }
    }
  }

  /** An operation in flight is what was asked for when it was resolved. */
  lemma FlyingIsAsked(docs: Docs, states: seq<State>, steps: seq<Step>, script: Script, i: nat, j: nat, op: nat)
    requires Run(docs, states, steps, script) && Flying(steps, i, j, op)
    ensures op in states[j].inFlight && states[j].inFlight[op] == Asked(steps[i], SwitchedBy(steps, i))
  {
    assert Enabled(states[i], steps[i]) && states[i + 1] == Apply(states[i], steps[i], script);
    RunKeepsInv(docs, states, steps, script, i);
    PhaseFollowsSteps(docs, states, steps, script, i);
    ResolveStep(states[i], op, steps[i].id, steps[i].content, script);
    RunFlies(docs, states, steps, script, op);
    StaysInFlight(states, steps, i, j, op);
  }

  lemma NewInFlight(s: State, st: Step, op: nat, script: Script)
    requires Enabled(s, st)
    ensures op in Apply(s, st, script).inFlight ==> st != Land(op) && (op in s.inFlight || (st.Resolve? && st.op == op))
  {
    match st
    case Land(o) => assert DoLand(s, o).inFlight == s.inFlight - {o};
    case Copy(id) => assert DoCopy(s, id, script).inFlight == s.inFlight;
    case Miss(id) => assert DoMiss(s, id).inFlight == s.inFlight;
    case _ =>
  }

  predicate FlightStart(states: seq<State>, steps: seq<Step>, k: nat, op: nat)
    requires k < |steps| && k + 1 < |states|
  {
    op in states[k + 1].inFlight ==>
      steps[k] != Land(op) && (op in states[k].inFlight || (steps[k].Resolve? && steps[k].op == op))
  }

  lemma {:induction false} FindStart(states: seq<State>, steps: seq<Step>, j: nat, op: nat) returns (i: nat)
    requires |states| == |steps| + 1 && j < |states| && op !in states[0].inFlight && op in states[j].inFlight
    requires forall m :: 0 <= m < |steps| ==> FlightStart(states, steps, m, op)
    ensures Flying(steps, i, j, op)
  {
    assert FlightStart(states, steps, j - 1, op);
    if steps[j - 1].Resolve? && steps[j - 1].op == op {
      i := j - 1;
    } else {
      i := FindStart(states, steps, j - 1, op);
    }
  }

  lemma FlyingHasStart(docs: Docs, states: seq<State>, steps: seq<Step>, script: Script, j: nat, op: nat)
    returns (i: nat)
    requires Run(docs, states, steps, script) && j < |states| && op in states[j].inFlight
    ensures Flying(steps, i, j, op)
  {
    forall m | 0 <= m < |steps|
      ensures FlightStart(states, steps, m, op)
    {
      NewInFlight(states[m], steps[m], op, script);
    }
    i := FindStart(states, steps, j, op);
  }

  // ----- the old index -----

  /** A document with one more version and new content; version one if it is new. */
  predicate Bumped(before: Docs, after: Docs, id: nat, content: int) {
    id in after && after[id] == Doc((if id in before then before[id].version else 0) + 1, content)
  }

  predicate Untouched(before: Docs, after: Docs, id: nat) {
    (id in after <==> id in before) && (id in before ==> after[id] == before[id])
  }

  lemma LandStep(s: State, op: nat, id: nat)
    requires op in s.inFlight
    ensures var w, s' := s.inFlight[op], DoLand(s, op);
            && (if w.id == id && w.target.Old? && !s.oldBlocked then Bumped(s.oldDocs, s'.oldDocs, id, w.content)
                else Untouched(s.oldDocs, s'.oldDocs, id))
            && (if w.id == id && w.target.New? then id in s'.viaNew && s'.viaNew[id].content == w.content
                else Untouched(s.viaNew, s'.viaNew, id))
  {
  }

  lemma OtherStepKeepsOld(s: State, st: Step, script: Script)
    requires Enabled(s, st) && !st.Land?
    ensures Apply(s, st, script).oldDocs == s.oldDocs
  {
    match st
    case Copy(id) => assert DoCopy(s, id, script).oldDocs == s.oldDocs;
    case Miss(id) => assert DoMiss(s, id).oldDocs == s.oldDocs;
    case _ =>
  }

  lemma OtherStepKeepsNew(s: State, st: Step, script: Script)
    requires Enabled(s, st) && !st.Land?
    ensures Apply(s, st, script).viaNew == s.viaNew
  {
    match st
    case Copy(id) => assert DoCopy(s, id, script).viaNew == s.viaNew;
    case Miss(id) => assert DoMiss(s, id).viaNew == s.viaNew;
    case _ =>
  }

  /** One step of the old index: an upsert that writes to it, or nothing. */
  ghost predicate OldMove(states: seq<State>, steps: seq<Step>, k: nat, id: nat)
    requires k < |steps| && k + 1 < |states|
  {
    && (forall i: nat :: WritesOld(steps, i, k, id) ==>
          Bumped(states[k].oldDocs, states[k + 1].oldDocs, id, steps[i].content))
    && (!OldWrite(steps, k, id) ==> Untouched(states[k].oldDocs, states[k + 1].oldDocs, id))
  }

  /** The same of what was written through the new index. */
  ghost predicate NewMove(states: seq<State>, steps: seq<Step>, k: nat, id: nat)
    requires k < |steps| && k + 1 < |states|
  {
    && (forall i: nat :: WritesNew(steps, i, k, id) ==>
          id in states[k + 1].viaNew && states[k + 1].viaNew[id].content == steps[i].content)
    && (!NewWrite(steps, k, id) ==> Untouched(states[k].viaNew, states[k + 1].viaNew, id))
  }

  lemma LandMoves(docs: Docs, states: seq<State>, steps: seq<Step>, script: Script, k: nat, id: nat)
    requires Run(docs, states, steps, script) && k < |steps| && steps[k].Land?
    ensures OldMove(states, steps, k, id) && NewMove(states, steps, k, id)
  {
    var op := steps[k].op;
    assert Enabled(states[k], steps[k]) && states[k + 1] == Apply(states[k], steps[k], script);
    var i0 := FlyingHasStart(docs, states, steps, script, k, op);
    PhaseFollowsSteps(docs, states, steps, script, k);
    LandStep(states[k], op, id);
    forall i: nat | Flying(steps, i, k, op)
      ensures states[k].inFlight[op] == Asked(steps[i], SwitchedBy(steps, i))
    {
      FlyingIsAsked(docs, states, steps, script, i, k, op);
    }
    assert !OldWrite(steps, k, id) ==> !WritesOld(steps, i0, k, id);
    assert !NewWrite(steps, k, id) ==> !WritesNew(steps, i0, k, id);
  }

  lemma RunMoves(docs: Docs, states: seq<State>, steps: seq<Step>, script: Script, id: nat)
    requires Run(docs, states, steps, script)
    ensures Moves(states, steps, id)
  {
    forall k | 0 <= k < |steps|
      ensures OldMove(states, steps, k, id) && NewMove(states, steps, k, id)
    {
      if steps[k].Land? {
        LandMoves(docs, states, steps, script, k, id);
      } else {
        assert Enabled(states[k], steps[k]) && states[k + 1] == Apply(states[k], steps[k], script);
        OtherStepKeepsOld(states[k], steps[k], script);
        OtherStepKeepsNew(states[k], steps[k], script);
      }
    }
  }

  ghost predicate Moves(states: seq<State>, steps: seq<Step>, id: nat) {
    && |states| == |steps| + 1 && states[0].viaNew == map[]
    && forall k :: 0 <= k < |steps| ==> OldMove(states, steps, k, id) && NewMove(states, steps, k, id)
  }

  lemma NextOldWrites(steps: seq<Step>, k: nat, id: nat)
    ensures OldWrites(steps, k + 1, id) == OldWrites(steps, k, id) + (if OldWrite(steps, k, id) then {k} else {})
    ensures |OldWrites(steps, k + 1, id)| == |OldWrites(steps, k, id)| + (if OldWrite(steps, k, id) then 1 else 0)
  {
    assert k !in OldWrites(steps, k, id);
    assert OldWrites(steps, k + 1, id) == OldWrites(steps, k, id) + (if OldWrite(steps, k, id) then {k} else {});
  }

  function Initial(docs: Docs, id: nat): nat {
    if id in docs then docs[id].version else 0
  }

  /** After n upserts: there if it was or n is not zero, n versions on, and as it was if n is zero. */
  predicate CountedTo(initial: Docs, docs: Docs, n: nat, id: nat) {
    && (id in docs <==> id in initial || n > 0)
    && (id in docs ==> docs[id].version == Initial(initial, id) + n)
    && (n == 0 ==> Untouched(initial, docs, id))
  }

  lemma CountNext(initial: Docs, before: Docs, after: Docs, n: nat, id: nat, content: int)
    requires CountedTo(initial, before, n, id)
    ensures Bumped(before, after, id, content) ==> CountedTo(initial, after, n + 1, id)
    ensures Untouched(before, after, id) ==> CountedTo(initial, after, n, id)
  {
  }

  lemma {:induction false} Counts(states: seq<State>, steps: seq<Step>, k: nat, id: nat)
    requires Moves(states, steps, id) && k < |states|
    ensures CountedTo(states[0].oldDocs, states[k].oldDocs, |OldWrites(steps, k, id)|, id)
  {
    if k == 0 {
      assert OldWrites(steps, 0, id) == {};
    } else {
      Counts(states, steps, k - 1, id);
      NextOldWrites(steps, k - 1, id);
      assert OldMove(states, steps, k - 1, id);
      var n, before, after := |OldWrites(steps, k - 1, id)|, states[k - 1].oldDocs, states[k].oldDocs;
      if OldWrite(steps, k - 1, id) {
        var i: nat :| WritesOld(steps, i, k - 1, id);
        CountNext(states[0].oldDocs, before, after, n, id, steps[i].content);
      } else {
        CountNext(states[0].oldDocs, before, after, n, id, 0);
      }
    }
  }

  /** The version counts the upserts made to the old index; a document is there if it was or was written. */
  lemma OldVersionCounts(docs: Docs, states: seq<State>, steps: seq<Step>, script: Script, k: nat, id: nat)
    requires Run(docs, states, steps, script) && k < |states|
    ensures id in states[k].oldDocs <==> id in docs || OldWrites(steps, k, id) != {}
    ensures id in states[k].oldDocs ==> states[k].oldDocs[id].version == Initial(docs, id) + |OldWrites(steps, k, id)|
    ensures OldWrites(steps, k, id) == {} ==> Untouched(docs, states[k].oldDocs, id)
  {
    RunMoves(docs, states, steps, script, id);
    Counts(states, steps, k, id);
  }

  lemma {:induction false} OldContentStays(states: seq<State>, steps: seq<Step>, i: nat, j: nat, k: nat, id: nat)
    requires Moves(states, steps, id) && j < k < |states| && WritesOld(steps, i, j, id)
    requires forall m: nat :: j < m < k ==> !OldWrite(steps, m, id)
    ensures id in states[k].oldDocs && states[k].oldDocs[id].content == steps[i].content
    decreases k
  {
    assert OldMove(states, steps, k - 1, id);
    if j < k - 1 {
      OldContentStays(states, steps, i, j, k - 1, id);
    } else {
      assert WritesOld(steps, i, k - 1, id);
    }
  }

  /**
    The old index holds exactly what was written to it: the content of the last upsert that landed
    before the write block, at the initial version plus the number of such upserts.
   */
  lemma OldIndexHoldsLastWrite(docs: Docs, states: seq<State>, steps: seq<Step>, script: Script, i: nat, j: nat, k: nat,
                               id: nat)
    requires Run(docs, states, steps, script) && j < k < |states| && WritesOld(steps, i, j, id)
    requires forall m: nat :: j < m < k ==> !OldWrite(steps, m, id)
    ensures id in states[k].oldDocs
    ensures states[k].oldDocs[id] == Doc(Initial(docs, id) + |OldWrites(steps, k, id)|, steps[i].content)
  {
    RunMoves(docs, states, steps, script, id);
    OldContentStays(states, steps, i, j, k, id);
    OldVersionCounts(docs, states, steps, script, k, id);
  }

  /** And a document nobody wrote to is as it was before the migration. */
  lemma UnwrittenIsInitial(docs: Docs, states: seq<State>, steps: seq<Step>, script: Script, k: nat, id: nat)
    requires Run(docs, states, steps, script) && k < |states| && forall m: nat :: m < k ==> !OldWrite(steps, m, id)
    ensures Untouched(docs, states[k].oldDocs, id)
  {
    OldVersionCounts(docs, states, steps, script, k, id);
    assert OldWrites(steps, k, id) == {};
  }

  // ----- writes through the new index -----

  lemma {:induction false} WrittenViaNew(states: seq<State>, steps: seq<Step>, k: nat, id: nat)
    requires Moves(states, steps, id) && k < |states|
    ensures id in states[k].viaNew <==> exists j: nat :: j < k && NewWrite(steps, j, id)
  {
    if k > 0 {
      WrittenViaNew(states, steps, k - 1, id);
      assert NewMove(states, steps, k - 1, id);
      if NewWrite(steps, k - 1, id) {
        var i: nat :| WritesNew(steps, i, k - 1, id);
      }
    }
  }

  /** A document counts as written through the new index if and only if an upsert on it landed there. */
  lemma ViaNewIsWritten(docs: Docs, states: seq<State>, steps: seq<Step>, script: Script, k: nat, id: nat)
    requires Run(docs, states, steps, script) && k < |states|
    ensures id in states[k].viaNew <==> exists j: nat :: j < k && NewWrite(steps, j, id)
  {
    RunMoves(docs, states, steps, script, id);
    WrittenViaNew(states, steps, k, id);
  }

  lemma {:induction false} NewContentStays(states: seq<State>, steps: seq<Step>, i: nat, j: nat, k: nat, id: nat)
    requires Moves(states, steps, id) && j < k < |states| && WritesNew(steps, i, j, id)
    requires forall m: nat :: j < m < k ==> !NewWrite(steps, m, id)
    ensures id in states[k].viaNew && states[k].viaNew[id].content == steps[i].content
    decreases k
  {
    assert NewMove(states, steps, k - 1, id);
    if j < k - 1 {
      NewContentStays(states, steps, i, j, k - 1, id);
    } else {
      assert WritesNew(steps, i, k - 1, id);
    }
  }

  /** What was last written through the new index is remembered with its content. */
  lemma ViaNewHoldsLastWrite(docs: Docs, states: seq<State>, steps: seq<Step>, script: Script, i: nat, j: nat, k: nat,
                             id: nat)
    requires Run(docs, states, steps, script) && j < k < |states| && WritesNew(steps, i, j, id)
    requires forall m: nat :: j < m < k ==> !NewWrite(steps, m, id)
    ensures id in states[k].viaNew && states[k].viaNew[id].content == steps[i].content
  {
    RunMoves(docs, states, steps, script, id);
    NewContentStays(states, steps, i, j, k, id);
  }

  // ----- what the new index ends with -----

  /**
    A finished migration has lost no upsert to the old index: a document not written through the new
    index holds there the content of the last upsert, at its version, rewritten by the script.
   */
  lemma LastWriteIsCarried(docs: Docs, states: seq<State>, steps: seq<Step>, script: Script, i: nat, j: nat, k: nat,
                           id: nat)
    requires Run(docs, states, steps, script) && j < k < |states| && states[k].phase.Finished?
    requires WritesOld(steps, i, j, id) && forall m: nat :: j < m < k ==> !OldWrite(steps, m, id)
    requires id !in states[k].missed && forall m: nat :: m < k ==> !NewWrite(steps, m, id)
    ensures id in states[k].newDocs
    ensures states[k].newDocs[id] == Doc(Initial(docs, id) + |OldWrites(steps, k, id)|, script(steps[i].content))
  {
    OldIndexHoldsLastWrite(docs, states, steps, script, i, j, k, id);
    ViaNewIsWritten(docs, states, steps, script, k, id);
    NothingIsLeftBehind(docs, states, steps, script, k, id);
  }

  /** And a document nobody wrote to is carried over as it was before the migration. */
  lemma InitialIsCarried(docs: Docs, states: seq<State>, steps: seq<Step>, script: Script, k: nat, id: nat)
    requires Run(docs, states, steps, script) && k < |states| && states[k].phase.Finished?
    requires id in docs && id !in states[k].missed
    requires forall m: nat :: m < k ==> !OldWrite(steps, m, id) && !NewWrite(steps, m, id)
    ensures id in states[k].newDocs && states[k].newDocs[id] == Doc(docs[id].version, script(docs[id].content))
  {
    UnwrittenIsInitial(docs, states, steps, script, k, id);
    ViaNewIsWritten(docs, states, steps, script, k, id);
    NothingIsLeftBehind(docs, states, steps, script, k, id);
  }

  /**
    A document written through the new index ends with the content of its last such upsert if the old
    index had not counted further, and otherwise with what the old index ended with.
   */
  lemma LastNewWriteDecides(docs: Docs, states: seq<State>, steps: seq<Step>, script: Script, i: nat, j: nat, k: nat,
                            id: nat)
    requires Run(docs, states, steps, script) && j < k < |states| && states[k].phase.Finished?
    requires WritesNew(steps, i, j, id) && forall m: nat :: j < m < k ==> !NewWrite(steps, m, id)
    ensures id in states[k].newDocs && id in states[k].viaNew
    ensures if id !in states[k].missed
               && states[k].viaNew[id].version < Initial(docs, id) + |OldWrites(steps, k, id)|
            then id in states[k].oldDocs && states[k].newDocs[id] == Migrated(states[k], id, script)
            else states[k].newDocs[id].content == steps[i].content
  {
    ViaNewHoldsLastWrite(docs, states, steps, script, i, j, k, id);
    OldVersionCounts(docs, states, steps, script, k, id);
    LatestWriteSurvivesExactly(docs, states, steps, script, k, id);
  }

  // ----- upserts are taken and the migration can finish -----

  /** At every moment any upsert can be resolved, and one in flight can land. */
  lemma UpsertsAreTaken(docs: Docs, states: seq<State>, steps: seq<Step>, script: Script, k: nat, op: nat, id: nat,
                        content: int)
    requires Run(docs, states, steps, script) && k < |states|
    ensures op !in states[k].inFlight ==> Enabled(states[k], Resolve(op, id, content))
    ensures op in states[k].inFlight ==> Enabled(states[k], Land(op))
  {
    RunKeepsInv(docs, states, steps, script, k);
    assert Target(states[k].alias) in states[k].alias;
  }

  /** What has happened so far. */
  datatype Past = Past(states: seq<State>, steps: seq<Step>)

  ghost predicate GoesOn(docs: Docs, script: Script, h: Past, states: seq<State>, steps: seq<Step>, s: State) {
    Run(docs, states, steps, script) && states[|steps|] == s && h.states <= states && h.steps <= steps
  }

  /** Some run that goes on from h ends in s. */
  ghost predicate Continues(docs: Docs, script: Script, h: Past, s: State) {
    exists states, steps :: GoesOn(docs, script, h, states, steps, s)
  }

  lemma Continue(docs: Docs, script: Script, h: Past, s: State, st: Step, s': State)
    requires Continues(docs, script, h, s) && Enabled(s, st) && s' == Apply(s, st, script)
    ensures Continues(docs, script, h, s')
  {
    var states, steps :| GoesOn(docs, script, h, states, steps, s);
    RunExtends(docs, states, steps, script, st, s');
    assert GoesOn(docs, script, h, states + [s'], steps + [st], s');
  }

  /** A copy under way can be brought to its end without a failure. */
  lemma {:induction false} CopyCanEnd(docs: Docs, script: Script, h: Past, s: State) returns (s': State)
    requires Continues(docs, script, h, s) && (s.phase.Copying? || s.phase.ToppingUp?)
    ensures Continues(docs, script, h, s') && s'.phase == if s.phase.Copying? then Copied else Finished
    ensures s'.missed == s.missed && s'.inFlight == s.inFlight
    decreases s.phase.todo
  {
    if s.phase.todo == map[] {
      if s.phase.Copying? {
        s' := s.(phase := Copied);
        Continue(docs, script, h, s, EndCopy, s');
      } else {
        s' := s.(phase := Finished);
        Continue(docs, script, h, s, EndTopUp, s');
      }
    } else {
      var id :| id in s.phase.todo;
      Continue(docs, script, h, s, Copy(id), DoCopy(s, id, script));
      s' := CopyCanEnd(docs, script, h, DoCopy(s, id, script));
    }
  }

  /** From the copy on: switch, block, top up. */
  lemma CanFinishFromCopied(docs: Docs, script: Script, h: Past, s: State) returns (s': State)
    requires Continues(docs, script, h, s) && (s.phase.Copied? || s.phase.Switched? || s.phase.Blocked?)
    ensures Continues(docs, script, h, s') && s'.phase.Finished? && s'.missed == s.missed && s'.inFlight == s.inFlight
  {
    s' := s;
    if s'.phase.Copied? {
      var next := Apply(s', Switch, script);
      Continue(docs, script, h, s', Switch, next);
      s' := next;
    }
    if s'.phase.Switched? {
      var next := Apply(s', Block, script);
      Continue(docs, script, h, s', Block, next);
      s' := next;
    }
    var topping := Apply(s', StartTopUp, script);
    Continue(docs, script, h, s', StartTopUp, topping);
    s' := CopyCanEnd(docs, script, h, topping);
  }

  lemma CopyCanBegin(docs: Docs, script: Script, h: Past, s: State) returns (s': State)
    requires Continues(docs, script, h, s) && (s.phase.Before? || s.phase.Created?)
    ensures Continues(docs, script, h, s') && s'.phase.Copying? && s'.missed == s.missed && s'.inFlight == s.inFlight
  {
    s' := s;
    if s'.phase.Before? {
      var next := Apply(s', Create, script);
      Continue(docs, script, h, s', Create, next);
      s' := next;
    }
    var copying := Apply(s', StartCopy, script);
    Continue(docs, script, h, s', StartCopy, copying);
    s' := copying;
  }

  /** Every run can go on to the end of the migration, failing on nothing more, whatever is in flight. */
  lemma MigrationCanFinish(docs: Docs, script: Script, h: Past) returns (s': State)
    requires Run(docs, h.states, h.steps, script)
    ensures Continues(docs, script, h, s') && s'.phase.Finished?
    ensures s'.missed == h.states[|h.steps|].missed && s'.inFlight == h.states[|h.steps|].inFlight
  {
    var s := h.states[|h.steps|];
    assert GoesOn(docs, script, h, h.states, h.steps, s);
    s' := s;
    if s'.phase.Before? || s'.phase.Created? {
      s' := CopyCanBegin(docs, script, h, s');
    }
    if s'.phase.Copying? || s'.phase.ToppingUp? {
      s' := CopyCanEnd(docs, script, h, s');
    }
    if !s'.phase.Finished? {
      s' := CanFinishFromCopied(docs, script, h, s');
    }
  }
}
