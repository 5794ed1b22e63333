/**
  Index migration under concurrent upserts: create the new index, copy, switch the alias, block writes
  to the old index, copy again. Copies use external versioning; upserts resolve the alias first and
  land later.
 */
module Migration {

  datatype Index = Old | New
  datatype Doc = Doc(version: nat, content: int)
  type Docs = map<nat, Doc>

  /** An upsert whose index is already resolved but which has not landed. */
  datatype Write = Write(id: nat, content: int, target: Index)

  datatype Phase =
    | Before | Created | Copying(todo: Docs) | Copied
    | Switched | Blocked | ToppingUp(todo: Docs) | Finished

  /**
    Three fields only remember: `viaNew`, for each id written through the new index, what the last such
    write left there; `copied`, the version at which the first copy brought an id over; and `missed`,
    the ids that the top-up failed to copy.
   */
  datatype State = State(
    phase: Phase,
    oldDocs: Docs,
    newDocs: Docs,
    existing: set<Index>,
    alias: set<Index>,
    oldBlocked: bool,
    inFlight: map<nat, Write>,
    viaNew: map<nat, Doc>,
    copied: map<nat, nat>,
    missed: set<nat>)

  datatype Step =
    | Resolve(op: nat, id: nat, content: int)
    | Land(op: nat)
    | Create
    | StartCopy
    | Copy(id: nat)
    | Miss(id: nat)
    | EndCopy
    | Switch
    | Block
    | StartTopUp
    | EndTopUp

  /** The reindex script rewrites each document it copies. */
  type Script = int -> int

  function Init(docs: Docs): State {
    State(Before, docs, map[], {Old}, {Old}, false, map[], map[], map[], {})
  }

  /** A plain index request: version one, or one more than what is there. */
  function Upsert(docs: Docs, id: nat, content: int): Docs {
    docs[id := Doc(if id in docs then docs[id].version + 1 else 1, content)]
  }

  /** A copy with an external version is refused when the destination is as new. */
  function CopyOne(docs: Docs, id: nat, d: Doc, script: Script): Docs {
    if id in docs && d.version <= docs[id].version then docs else docs[id := Doc(d.version, script(d.content))]
  }

  predicate Copyable(p: Phase, id: nat) {
    (p.Copying? || p.ToppingUp?) && id in p.todo
  }

  predicate Enabled(s: State, st: Step) {
    match st
    case Resolve(op, _, _) => op !in s.inFlight && exists i :: i in s.alias
    case Land(op) => op in s.inFlight
    case Create => s.phase.Before?
    case StartCopy => s.phase.Created?
    case Copy(id) => Copyable(s.phase, id)
    case Miss(id) => Copyable(s.phase, id)
    case EndCopy => s.phase.Copying? && s.phase.todo == map[]
    case Switch => s.phase.Copied?
    case Block => s.phase.Switched?
    case StartTopUp => s.phase.Blocked?
    case EndTopUp => s.phase.ToppingUp? && s.phase.todo == map[]
  }

  function Target(alias: set<Index>): Index {
    if New in alias then New else Old
  }

  /** A resolved upsert reaches its index; a blocked index refuses it. */
  function DoLand(s: State, op: nat): State
    requires op in s.inFlight
  {
    var w, s' := s.inFlight[op], s.(inFlight := s.inFlight - {op});
    if w.target.New? then
      var after := Upsert(s.newDocs, w.id, w.content);
      s'.(newDocs := after, viaNew := s.viaNew[w.id := after[w.id]])
    else if s.oldBlocked then s'
    else s'.(oldDocs := Upsert(s.oldDocs, w.id, w.content))
  }

  function DoCopy(s: State, id: nat, script: Script): State
    requires Copyable(s.phase, id)
  {
    var after := CopyOne(s.newDocs, id, s.phase.todo[id], script);
    if s.phase.Copying?
    then s.(newDocs := after, copied := s.copied[id := after[id].version], phase := Copying(s.phase.todo - {id}))
    else s.(newDocs := after, phase := ToppingUp(s.phase.todo - {id}))
  }

  /** The finished reindex task may list failures, which nobody reads. */
  function DoMiss(s: State, id: nat): State
    requires Copyable(s.phase, id)
  {
    if s.phase.Copying? then s.(phase := Copying(s.phase.todo - {id}))
    else s.(phase := ToppingUp(s.phase.todo - {id}), missed := s.missed + {id})
  }

  function Apply(s: State, st: Step, script: Script): State
    requires Enabled(s, st)
  {
    match st
    case Resolve(op, id, content) => s.(inFlight := s.inFlight[op := Write(id, content, Target(s.alias))])
    case Land(op) => DoLand(s, op)
    case Create => s.(phase := Created, existing := s.existing + {New})
    case StartCopy => s.(phase := Copying(s.oldDocs))
    case Copy(id) => DoCopy(s, id, script)
    case Miss(id) => DoMiss(s, id)
    case EndCopy => s.(phase := Copied)
    case Switch => s.(phase := Switched, alias := s.alias - {Old} + {New})
    case Block => s.(phase := Blocked, oldBlocked := true)
    case StartTopUp => s.(phase := ToppingUp(s.oldDocs))
    case EndTopUp => s.(phase := Finished)
  }

  // ----- the invariant -----

  /** `d` is the document `o` was, at this or an earlier version. */
  predicate NotNewer(d: Doc, o: Doc) {
    d.version <= o.version && (d.version == o.version ==> d.content == o.content)
  }

  predicate CopyOf(d: Doc, o: Doc, script: Script) {
    d.version <= o.version && (d.version == o.version ==> d.content == script(o.content))
  }

  predicate Reached(newDocs: Docs, id: nat, o: Doc) {
    id in newDocs && o.version <= newDocs[id].version
  }

  predicate AfterSwitch(p: Phase) {
    p.Switched? || p.Blocked? || p.ToppingUp? || p.Finished?
  }

  ghost predicate AliasOk(s: State) {
    && s.alias == {if AfterSwitch(s.phase) then New else Old}
    && Old in s.existing && (!s.phase.Before? ==> New in s.existing)
    && (s.oldBlocked <==> s.phase.Blocked? || s.phase.ToppingUp? || s.phase.Finished?)
  }

  /** Writes go through the new index only after the switch. */
  ghost predicate NewIsLate(s: State) {
    && (s.viaNew != map[] ==> AfterSwitch(s.phase))
    && (forall op :: op in s.inFlight && s.inFlight[op].target.New? ==> AfterSwitch(s.phase))
  }

  /** The top-up has dealt with the document, and did not fail on it. */
  predicate ToppedUp(s: State, id: nat) {
    id in s.oldDocs && id !in s.missed && (s.phase.Finished? || (s.phase.ToppingUp? && id !in s.phase.todo))
  }

  function Migrated(s: State, id: nat, script: Script): Doc
    requires id in s.oldDocs
  {
    Doc(s.oldDocs[id].version, script(s.oldDocs[id].content))
  }

  predicate TodoOk(s: State, id: nat) {
    && (s.phase.Copying? && id in s.phase.todo ==> id in s.oldDocs && NotNewer(s.phase.todo[id], s.oldDocs[id]))
    && (s.phase.ToppingUp? && id in s.phase.todo ==> id in s.oldDocs && s.phase.todo[id] == s.oldDocs[id])
    && (id in s.missed ==> s.phase.Finished? || (s.phase.ToppingUp? && id !in s.phase.todo))
  }

  /** A document never written through the new index is there as the last copy left it. */
  predicate CopyOk(s: State, id: nat, script: Script) {
    id !in s.viaNew ==>
      && (id in s.newDocs ==> id in s.oldDocs && CopyOf(s.newDocs[id], s.oldDocs[id], script))
      && (!ToppedUp(s, id) ==>
            && (id in s.newDocs <==> id in s.copied)
            && (id in s.newDocs ==> s.newDocs[id].version == s.copied[id]))
  }

  /** A write through the new index stands, or the top-up has put a higher version from the old index over it. */
  predicate LastWriteOk(s: State, id: nat, script: Script) {
    id in s.viaNew ==>
      && id in s.newDocs
      && (|| s.newDocs[id] == s.viaNew[id]
          || (ToppedUp(s, id) && s.viaNew[id].version < s.oldDocs[id].version
            && s.newDocs[id] == Migrated(s, id, script)))
  }

  predicate DocOk(s: State, id: nat, script: Script) {
    && TodoOk(s, id) && CopyOk(s, id, script) && LastWriteOk(s, id, script)
    && (ToppedUp(s, id) ==> Reached(s.newDocs, id, s.oldDocs[id]))
  }

  ghost predicate Inv(s: State, script: Script) {
    AliasOk(s) && NewIsLate(s) && forall id: nat :: DocOk(s, id, script)
  }

  lemma LandNewKeepsDoc(s: State, op: nat, script: Script, id: nat)
    requires NewIsLate(s) && DocOk(s, id, script) && op in s.inFlight && s.inFlight[op].target.New?
    ensures DocOk(DoLand(s, op), id, script)
  {
    var w, s' := s.inFlight[op], DoLand(s, op);
    assert AfterSwitch(s.phase);
    assert ToppedUp(s', id) <==> ToppedUp(s, id);
    if w.id == id {
      assert s'.newDocs[id] == s'.viaNew[id];
    }
  }

  lemma LandOldKeepsDoc(s: State, op: nat, script: Script, id: nat)
    requires AliasOk(s) && DocOk(s, id, script) && op in s.inFlight && s.inFlight[op].target.Old?
    ensures DocOk(DoLand(s, op), id, script)
  {
    var s' := DoLand(s, op);
    assert s.oldBlocked ==> s'.oldDocs == s.oldDocs;
  }

  lemma CopyKeepsDoc(s: State, c: nat, script: Script, id: nat)
    requires AliasOk(s) && NewIsLate(s) && DocOk(s, id, script) && Enabled(s, Copy(c))
    ensures DocOk(DoCopy(s, c, script), id, script)
  {
  }

  lemma StepKeepsDoc(s: State, st: Step, script: Script, id: nat)
    requires AliasOk(s) && NewIsLate(s) && DocOk(s, id, script) && Enabled(s, st)
    ensures DocOk(Apply(s, st, script), id, script)
  {
    match st
    case Land(op) =>
      if s.inFlight[op].target.New? {
        LandNewKeepsDoc(s, op, script, id);
      } else {
        LandOldKeepsDoc(s, op, script, id);
      }
    case Copy(c) => CopyKeepsDoc(s, c, script, id);
    case _ =>
  }

  lemma StepKeepsAlias(s: State, st: Step, script: Script)
    requires AliasOk(s) && Enabled(s, st)
    ensures AliasOk(Apply(s, st, script))
  {
  }

  lemma StepKeepsNewLate(s: State, st: Step, script: Script)
    requires AliasOk(s) && NewIsLate(s) && Enabled(s, st)
    ensures NewIsLate(Apply(s, st, script))
  {
    match st
    case Land(op) =>
      assert forall p :: p in DoLand(s, op).inFlight ==> p in s.inFlight && DoLand(s, op).inFlight[p] == s.inFlight[p];
    case _ =>
  }

  lemma StepKeepsInv(s: State, st: Step, script: Script)
    requires Inv(s, script) && Enabled(s, st)
    ensures Inv(Apply(s, st, script), script)
  {
    StepKeepsAlias(s, st, script);
    StepKeepsNewLate(s, st, script);
    forall id: nat
      ensures DocOk(Apply(s, st, script), id, script)
    {
      assert DocOk(s, id, script);
      StepKeepsDoc(s, st, script, id);
    }
  }

  ghost predicate Run(docs: Docs, states: seq<State>, steps: seq<Step>, script: Script) {
    && |states| == |steps| + 1 && states[0] == Init(docs)
    && forall k :: 0 <= k < |steps| ==>
      Enabled(states[k], steps[k]) && states[k + 1] == Apply(states[k], steps[k], script)
  }

  lemma {:induction false} RunKeepsInv(docs: Docs, states: seq<State>, steps: seq<Step>, script: Script, k: nat)
    requires Run(docs, states, steps, script) && k < |states|
    ensures Inv(states[k], script)
  {
    if k > 0 {
      RunKeepsInv(docs, states, steps, script, k - 1);
      StepKeepsInv(states[k - 1], steps[k - 1], script);
    }
  }

  // ----- what every interleaving guarantees -----

  /** At every moment, also if the migration stops half-way, the alias names one index and it exists. */
  lemma AliasNamesOneIndex(docs: Docs, states: seq<State>, steps: seq<Step>, script: Script, k: nat)
    requires Run(docs, states, steps, script) && k < |states|
    ensures |states[k].alias| == 1 && states[k].alias <= states[k].existing
  {
    RunKeepsInv(docs, states, steps, script, k);
    assert AliasOk(states[k]);
  }

  /**
    Once the migration has finished, every document of the old index that the top-up did not fail on is
    in the new one at no older a version, and one never written through the new index carries the old
    index's final content. What the first copy missed, the top-up has brought over.
   */
  lemma NothingIsLeftBehind(docs: Docs, states: seq<State>, steps: seq<Step>, script: Script, k: nat, id: nat)
    requires Run(docs, states, steps, script) && k < |states| && states[k].phase.Finished?
    requires id in states[k].oldDocs && id !in states[k].missed
    ensures id in states[k].newDocs && states[k].oldDocs[id].version <= states[k].newDocs[id].version
    ensures id !in states[k].viaNew ==> states[k].newDocs[id] == Migrated(states[k], id, script)
  {
    RunKeepsInv(docs, states, steps, script, k);
    assert DocOk(states[k], id, script);
  }

  ghost predicate Carried(s: State, id: nat, script: Script)
    requires id in s.oldDocs
  {
    id in s.newDocs && s.newDocs[id] == Migrated(s, id, script)
  }

  /**
    A document never written through the new index is carried over in its final form if and only if the
    top-up did not fail on it, or the first copy had already brought over its final version.
   */
  lemma CarriedExactly(docs: Docs, states: seq<State>, steps: seq<Step>, script: Script, k: nat, id: nat)
    requires Run(docs, states, steps, script) && k < |states| && states[k].phase.Finished?
    requires id in states[k].oldDocs && id !in states[k].viaNew
    ensures Carried(states[k], id, script) <==>
      || id !in states[k].missed
      || (id in states[k].copied && states[k].copied[id] == states[k].oldDocs[id].version)
  {
    RunKeepsInv(docs, states, steps, script, k);
    assert DocOk(states[k], id, script);
  }

  /** Nothing appears in the new index from nowhere. */
  lemma NothingIsInvented(docs: Docs, states: seq<State>, steps: seq<Step>, script: Script, k: nat, id: nat)
    requires Run(docs, states, steps, script) && k < |states| && id in states[k].newDocs
    ensures id in states[k].oldDocs || id in states[k].viaNew
  {
    RunKeepsInv(docs, states, steps, script, k);
    assert DocOk(states[k], id, script);
  }

  lemma StaysFrozen(s: State, st: Step, script: Script)
    requires s.oldBlocked && Enabled(s, st)
    ensures Apply(s, st, script).oldDocs == s.oldDocs && Apply(s, st, script).oldBlocked
  {
    match st
    case Land(op) => assert DoLand(s, op).oldDocs == s.oldDocs;
    case Copy(id) => assert DoCopy(s, id, script).oldDocs == s.oldDocs;
    case Miss(id) => assert DoMiss(s, id).oldDocs == s.oldDocs;
    case _ =>
  }

  /** After the write block the old index is frozen for good, whatever is still in flight. */
  lemma {:induction false} BlockedIndexIsFrozen(docs: Docs, states: seq<State>, steps: seq<Step>, script: Script,
                                                i: nat, j: nat)
    requires Run(docs, states, steps, script) && i <= j < |states| && states[i].oldBlocked
    ensures states[j].oldDocs == states[i].oldDocs && states[j].oldBlocked
    decreases j - i
  {
    if i < j {
      BlockedIndexIsFrozen(docs, states, steps, script, i, j - 1);
      StaysFrozen(states[j - 1], steps[j - 1], script);
    }
  }

  /**
    Versions are counted per index. What was last written through the new index is what it finally
    holds exactly when the old index had not counted further by the time it was blocked, or the top-up
    failed on the document; otherwise the old index's final content has replaced it.
   */
  lemma LatestWriteSurvivesExactly(docs: Docs, states: seq<State>, steps: seq<Step>, script: Script, k: nat, id: nat)
    requires Run(docs, states, steps, script) && k < |states| && states[k].phase.Finished? && id in states[k].viaNew
    ensures id in states[k].newDocs
    ensures states[k].newDocs[id] == states[k].viaNew[id] <==>
      || id !in states[k].oldDocs || id in states[k].missed
      || states[k].oldDocs[id].version <= states[k].viaNew[id].version
    ensures states[k].newDocs[id] != states[k].viaNew[id] ==>
      id in states[k].oldDocs && states[k].newDocs[id] == Migrated(states[k], id, script)
  {
    RunKeepsInv(docs, states, steps, script, k);
    assert DocOk(states[k], id, script);
  }

  // ----- a run in which the last writer loses -----

  ghost predicate Reachable(docs: Docs, script: Script, s: State) {
    exists states, steps :: Run(docs, states, steps, script) && states[|steps|] == s
  }

  lemma Reach(docs: Docs, script: Script, s: State, st: Step, s': State)
    requires Reachable(docs, script, s) && Enabled(s, st) && s' == Apply(s, st, script)
    ensures Reachable(docs, script, s')
  {
    var states, steps :| Run(docs, states, steps, script) && states[|steps|] == s;
    RunExtends(docs, states, steps, script, st, s');
    assert (states + [s'])[|steps + [st]|] == s';
  }

  lemma RunExtends(docs: Docs, states: seq<State>, steps: seq<Step>, script: Script, st: Step, s': State)
    requires Run(docs, states, steps, script) && Enabled(states[|steps|], st)
      && s' == Apply(states[|steps|], st, script)
    ensures Run(docs, states + [s'], steps + [st], script)
  {
    var longer, more := states + [s'], steps + [st];
    forall k | 0 <= k < |more|
      ensures Enabled(longer[k], more[k]) && longer[k + 1] == Apply(longer[k], more[k], script)
    {
      assert longer[k] == states[k];
      assert k < |steps| ==> more[k] == steps[k] && longer[k + 1] == states[k + 1];
    }
  }

  lemma Unchanged(docs: Docs, script: Script)
    ensures Reachable(docs, script, Init(docs))
  {
    var steps: seq<Step> := [];
    assert Run(docs, [Init(docs)], steps, script) && [Init(docs)][|steps|] == Init(docs);
  }

  const START: Docs := map[1 := Doc(1, 10)]
  const LATE: Docs := map[1 := Doc(2, 30)]

  const FLYING: map<nat, Write> := map[0 := Write(1, 20, Old), 1 := Write(1, 21, Old)]

  lemma TwoResolve(script: Script) returns (s: State)
    ensures Reachable(START, script, s) && s == Init(START).(inFlight := FLYING)
  {
    Unchanged(START, script);
    var s0 := Init(START);
    assert Old in s0.alias;
    var s1 := s0.(inFlight := map[0 := Write(1, 20, Old)]);
    Reach(START, script, s0, Resolve(0, 1, 20), s1);
    s := s0.(inFlight := FLYING);
    Reach(START, script, s1, Resolve(1, 1, 21), s);
  }

  lemma CopyBegins(script: Script, s0: State) returns (s: State)
    requires Reachable(START, script, s0) && s0.phase.Before? && s0.oldDocs == START && s0.existing == {Old}
    ensures Reachable(START, script, s) && s == s0.(phase := Copying(START), existing := {Old, New})
  {
    var s1 := s0.(phase := Created, existing := {Old, New});
    Reach(START, script, s0, Create, s1);
    s := s1.(phase := Copying(START));
    Reach(START, script, s1, StartCopy, s);
  }

  /** Two upserts resolve the old index, the alias is switched, a third upsert lands in the new index. */
  lemma LateWriteLands(script: Script) returns (s: State)
    requires forall c :: script(c) == c
    ensures Reachable(START, script, s)
    ensures s == State(Switched, START, LATE, {Old, New}, {New}, false, FLYING, LATE, map[1 := 1], {})
  {
    var s2 := TwoResolve(script);
    var s4 := CopyBegins(script, s2);
    var s5 := s4.(phase := Copying(map[]), newDocs := START, copied := map[1 := 1]);
    assert START - {1} == map[];
    Reach(START, script, s4, Copy(1), s5);
    var s6 := s5.(phase := Copied);
    Reach(START, script, s5, EndCopy, s6);
    var s7 := Switching(script, s6);
    s := LateWrite(script, s7);
  }

  lemma Switching(script: Script, s6: State) returns (s: State)
    requires Reachable(START, script, s6) && s6.phase.Copied? && s6.alias == {Old}
    ensures Reachable(START, script, s) && s == s6.(phase := Switched, alias := {New})
  {
    s := s6.(phase := Switched, alias := {New});
    assert s6.alias - {Old} + {New} == {New};
    Reach(START, script, s6, Switch, s);
  }

  lemma LateWrite(script: Script, s7: State) returns (s: State)
    requires Reachable(START, script, s7)
    requires s7 == State(Switched, START, START, {Old, New}, {New}, false, FLYING, map[], map[1 := 1], {})
    ensures Reachable(START, script, s) && s == s7.(newDocs := LATE, viaNew := LATE)
  {
    assert New in s7.alias;
    var s8 := s7.(inFlight := FLYING[2 := Write(1, 30, New)]);
    Reach(START, script, s7, Resolve(2, 1, 30), s8);
    s := s7.(newDocs := LATE, viaNew := LATE);
    assert s8.inFlight - {2} == FLYING;
    Reach(START, script, s8, Land(2), s);
  }

  lemma EarlyWritesLand(script: Script) returns (s: State)
    requires forall c :: script(c) == c
    ensures Reachable(START, script, s)
    ensures s == State(Switched, map[1 := Doc(3, 21)], LATE, {Old, New}, {New}, false, map[], LATE, map[1 := 1], {})
  {
    var s9 := LateWriteLands(script);
    var s10 := s9.(oldDocs := map[1 := Doc(2, 20)], inFlight := map[1 := Write(1, 21, Old)]);
    assert s9.inFlight - {0} == s10.inFlight;
    Reach(START, script, s9, Land(0), s10);
    s := s10.(oldDocs := map[1 := Doc(3, 21)], inFlight := map[]);
    assert s10.inFlight - {1} == s.inFlight;
    Reach(START, script, s10, Land(1), s);
  }

  lemma Blocking(script: Script, s11: State) returns (s: State)
    requires Reachable(START, script, s11) && s11.phase.Switched?
    ensures Reachable(START, script, s) && s == s11.(phase := ToppingUp(s11.oldDocs), oldBlocked := true)
  {
    var s12 := s11.(phase := Blocked, oldBlocked := true);
    Reach(START, script, s11, Block, s12);
    s := s12.(phase := ToppingUp(s12.oldDocs));
    Reach(START, script, s12, StartTopUp, s);
  }

  /**
    The two early upserts land in the old index before the block and outnumber the late one; the
    top-up then replaces the latest content, 30, by the earlier 21.
   */
  lemma LatestWriteCanLose(script: Script) returns (s: State)
    requires forall c :: script(c) == c
    ensures Reachable(START, script, s) && s.phase.Finished? && s.newDocs == map[1 := Doc(3, 21)] && s.viaNew == LATE
  {
    var s11 := EarlyWritesLand(script);
    var s13 := Blocking(script, s11);
    var s14 := s13.(phase := ToppingUp(map[]), newDocs := map[1 := Doc(3, 21)]);
    assert s13.phase.todo - {1} == map[];
    Reach(START, script, s13, Copy(1), s14);
    s := s14.(phase := Finished);
    Reach(START, script, s14, EndTopUp, s);
  }

  // ----- a run in which a document is lost -----

  lemma NothingCopied(script: Script) returns (s: State)
    ensures Reachable(START, script, s)
    ensures s == State(Switched, START, map[], {Old, New}, {New}, false, map[], map[], map[], {})
  {
    Unchanged(START, script);
    var s2 := CopyBegins(script, Init(START));
    var s3 := s2.(phase := Copying(map[]));
    assert START - {1} == map[];
    Reach(START, script, s2, Miss(1), s3);
    var s4 := s2.(phase := Copied);
    Reach(START, script, s3, EndCopy, s4);
    s := Switching(script, s4);
  }

  /** Both copies fail on a document: the migration finishes, and the alias names an index without it. */
  lemma FailedCopyIsLost(script: Script) returns (s: State)
    ensures Reachable(START, script, s) && s.phase.Finished? && s.alias == {New}
    ensures 1 in s.oldDocs && 1 !in s.newDocs
  {
    var s5 := NothingCopied(script);
    var s7 := Blocking(script, s5);
    var s8 := s7.(phase := ToppingUp(map[]), missed := {1});
    assert START - {1} == map[];
    Reach(START, script, s7, Miss(1), s8);
    s := s8.(phase := Finished);
    Reach(START, script, s8, EndTopUp, s);
  }
}
