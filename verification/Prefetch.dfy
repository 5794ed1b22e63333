/** The one-ahead prefetch: a producer task and a consuming generator around a queue of size one. */
module Prefetch {

  /** What a source yields. An item that is itself an exception object is legal for the source. */
  datatype Item<T> = Plain(value: T) | Exception(error: nat)

  /** How a source ends; a cancellation raised by the source itself is passed on without a message. */
  datatype Ending = Finishes | Raises(error: nat) | RaisesCancelled

  datatype Source<T> = Source(items: seq<Item<T>>, ending: Ending)

  datatype Message<T> = Value(item: Item<T>) | Failure(error: nat) | Done

  datatype Producer<T> = Fetching | Putting(message: Message<T>) | Stopped

  datatype Consumer = Waiting | Yielded | Returned | Raised(error: nat, fromItem: bool) | Closed

  datatype State<T> = State(
    fetched: nat,
    producer: Producer<T>,
    queue: seq<Message<T>>,
    consumer: Consumer,
    yielded: seq<T>)

  datatype Step = Fetch | Put | Get | Resume | Close | Cleanup

  predicate Over(c: Consumer) {
    c.Returned? || c.Raised? || c.Closed?
  }

  predicate Enabled<T>(s: State<T>, st: Step) {
    match st
    case Fetch => s.producer.Fetching?
    case Put => s.producer.Putting? && s.queue == []
    case Get => s.consumer.Waiting? && s.queue != []
    case Resume => s.consumer.Yielded?
    case Close => s.consumer.Yielded? || s.consumer.Waiting?
    case Cleanup => Over(s.consumer) && !s.producer.Stopped?
  }

  function Apply<T>(src: Source<T>, s: State<T>, st: Step): State<T>
    requires Enabled(s, st)
  {
    match st
    case Fetch =>
      if s.fetched < |src.items| then s.(producer := Putting(Value(src.items[s.fetched])), fetched := s.fetched + 1)
      else (match src.ending
            case Finishes => s.(producer := Putting(Done))
            case Raises(e) => s.(producer := Putting(Failure(e)))
            case RaisesCancelled => s.(producer := Stopped))
    case Put =>
      s.(queue := [s.producer.message], producer := if s.producer.message.Value? then Fetching else Stopped)
    case Get =>
      var rest := s.(queue := s.queue[1..]);
      (match s.queue[0]
       case Done => rest.(consumer := Returned)
       case Failure(e) => rest.(consumer := Raised(e, false))
       case Value(Exception(e)) => rest.(consumer := Raised(e, true))
       case Value(Plain(v)) => rest.(consumer := Yielded, yielded := s.yielded + [v]))
    case Resume => s.(consumer := Waiting)
    case Close => s.(consumer := Closed)
    case Cleanup => s.(producer := Stopped)
  }

  function Initial<T>(): State<T> {
    State(0, Fetching, [], Waiting, [])
  }

  ghost predicate Run<T>(src: Source<T>, states: seq<State<T>>, steps: seq<Step>) {
    && |states| == |steps| + 1 && states[0] == Initial()
    && forall k :: 0 <= k < |steps| ==> Enabled(states[k], steps[k]) && states[k + 1] == Apply(src, states[k], steps[k])
  }

  // ----- the invariant -----

  function Plains<T>(vs: seq<T>): seq<Item<T>> {
    seq(|vs|, i requires 0 <= i < |vs| => Plain(vs[i]))
  }

  function Payload<T>(m: Message<T>): seq<Item<T>> {
    if m.Value? then [m.item] else []
  }

  function Queued<T>(s: State<T>): seq<Item<T>> {
    if s.queue == [] then [] else Payload(s.queue[0])
  }

  function Held<T>(s: State<T>): seq<Item<T>> {
    if s.producer.Putting? then Payload(s.producer.message) else []
  }

  function Blocking<T>(s: State<T>): seq<Item<T>> {
    if s.consumer.Raised? && s.consumer.fromItem then [Exception(s.consumer.error)] else []
  }

  /** Everything taken from the source that is still accounted for, oldest first. */
  function Flow<T>(s: State<T>): seq<Item<T>> {
    Plains(s.yielded) + Blocking(s) + Queued(s) + Held(s)
  }

  predicate Last<T>(src: Source<T>, m: Message<T>) {
    match m
    case Value(_) => true
    case Done => src.ending.Finishes?
    case Failure(e) => src.ending == Raises(e)
  }

  ghost predicate Inv<T>(src: Source<T>, s: State<T>) {
    && s.fetched <= |src.items| && |s.queue| <= 1
    && (if Over(s.consumer) && s.producer.Stopped? then Flow(s) <= src.items else Flow(s) == src.items[..s.fetched])
    && (s.producer.Stopped? && !Over(s.consumer) ==>
          s.fetched == |src.items| && (src.ending.RaisesCancelled? || (s.queue != [] && !s.queue[0].Value?)))
    && (s.producer.Putting? ==>
          Last(src, s.producer.message) && (!s.producer.message.Value? ==> s.fetched == |src.items|))
    && (s.queue != [] ==>
          Last(src, s.queue[0]) && (!s.queue[0].Value? ==> s.fetched == |src.items| && s.producer.Stopped?))
    && (s.consumer.Returned? ==> src.ending.Finishes? && Plains(s.yielded) == src.items)
    && (s.consumer.Raised? && !s.consumer.fromItem ==>
          src.ending == Raises(s.consumer.error) && Plains(s.yielded) == src.items)
    && (s.consumer.Raised? && s.consumer.fromItem ==> Plains(s.yielded) + [Exception(s.consumer.error)] <= src.items)
  }

  lemma FetchKeepsInv<T>(src: Source<T>, s: State<T>)
    requires Inv(src, s) && Enabled(s, Fetch)
    ensures Inv(src, Apply(src, s, Fetch))
  {
    var s' := Apply(src, s, Fetch);
    if s.fetched < |src.items| {
      assert src.items[..s.fetched + 1] == src.items[..s.fetched] + [src.items[s.fetched]];
      assert Flow(s) == Plains(s.yielded) + Blocking(s) + Queued(s);
      assert Flow(s') == Flow(s) + [src.items[s.fetched]];
    } else {
      assert Flow(s') == Flow(s);
    }
  }

  lemma PutKeepsInv<T>(src: Source<T>, s: State<T>)
    requires Inv(src, s) && Enabled(s, Put)
    ensures Inv(src, Apply(src, s, Put))
  {
    assert Flow(Apply(src, s, Put)) == Flow(s);
  }

  lemma GetKeepsInv<T>(src: Source<T>, s: State<T>)
    requires Inv(src, s) && Enabled(s, Get)
    ensures Inv(src, Apply(src, s, Get))
  {
    var s' := Apply(src, s, Get);
    match s.queue[0]
    case Value(Plain(v)) =>
      assert Plains(s'.yielded) == Plains(s.yielded) + [Plain(v)];
      assert Flow(s') == Flow(s);
    case Value(Exception(e)) =>
      assert Flow(s') == Flow(s);
      assert Plains(s.yielded) + [Exception(e)] <= Flow(s) <= src.items;
    case _ =>
      assert Flow(s') == Flow(s) == Plains(s.yielded);
      assert src.items[..|src.items|] == src.items;
  }

  lemma StepKeepsInv<T>(src: Source<T>, s: State<T>, st: Step)
    requires Inv(src, s) && Enabled(s, st)
    ensures Inv(src, Apply(src, s, st))
  {
    match st
    case Fetch => FetchKeepsInv(src, s);
    case Put => PutKeepsInv(src, s);
    case Get => GetKeepsInv(src, s);
    case Cleanup => CleanupKeepsInv(src, s);
    case _ => assert Flow(Apply(src, s, st)) == Flow(s);
  }

  lemma CleanupKeepsInv<T>(src: Source<T>, s: State<T>)
    requires Inv(src, s) && Enabled(s, Cleanup)
    ensures Inv(src, Apply(src, s, Cleanup))
  {
    assert Flow(Apply(src, s, Cleanup)) <= Flow(s) <= src.items;
  }

  lemma {:induction false} RunKeepsInv<T>(src: Source<T>, states: seq<State<T>>, steps: seq<Step>, k: nat)
    requires Run(src, states, steps) && k < |states|
    ensures Inv(src, states[k])
  {
    if k > 0 {
      RunKeepsInv(src, states, steps, k - 1);
      StepKeepsInv(src, states[k - 1], steps[k - 1]);
    } else {
      var initial: State<T> := Initial();
      assert Flow(initial) == [];
    }
  }

  // ----- what every run guarantees -----

  /** Items reach the caller in source order, none lost and none repeated: yielded, then queued, then held. */
  lemma ItemsFlowInOrder<T>(src: Source<T>, states: seq<State<T>>, steps: seq<Step>, k: nat)
    requires Run(src, states, steps) && k < |states|
    ensures Plains(states[k].yielded) + Blocking(states[k]) + Queued(states[k]) + Held(states[k]) <= src.items
    ensures states[k].fetched <= |src.items|
    ensures !Over(states[k].consumer) ==>
      Plains(states[k].yielded) + Queued(states[k]) + Held(states[k]) == src.items[..states[k].fetched]
  {
    RunKeepsInv(src, states, steps, k);
    assert states[k].consumer != Closed && !states[k].consumer.Raised? ==>
      Plains(states[k].yielded) + Blocking(states[k]) == Plains(states[k].yielded);
  }

  /** Items alive: the one the caller works on, the one queued and the one waiting for the queue. */
  function Alive<T>(s: State<T>): nat {
    (if s.consumer.Yielded? then 1 else 0) + |s.queue| + (if s.producer.Putting? then 1 else 0)
  }

  lemma AtMostThreeAlive<T>(src: Source<T>, states: seq<State<T>>, steps: seq<Step>, k: nat)
    requires Run(src, states, steps) && k < |states|
    ensures Alive(states[k]) <= 3
    ensures !Over(states[k].consumer) ==>
      states[k].fetched <= |states[k].yielded| + 2
  {
    RunKeepsInv(src, states, steps, k);
    ItemsFlowInOrder(src, states, steps, k);
  }

  predicate NoExceptionItems<T>(items: seq<Item<T>>) {
    forall i :: 0 <= i < |items| ==> items[i].Plain?
  }

  /**
    A source error, and a normal end, come only after every item; an exception object among the items
    ends it early.
   */
  lemma EndComesAfterEverything<T>(src: Source<T>, states: seq<State<T>>, steps: seq<Step>, k: nat)
    requires Run(src, states, steps) && k < |states|
    ensures states[k].consumer.Returned? ==> src.ending.Finishes?
    ensures states[k].consumer.Raised? && !states[k].consumer.fromItem ==>
      src.ending == Raises(states[k].consumer.error)
    ensures Over(states[k].consumer) && !states[k].consumer.Closed? ==>
      (Plains(states[k].yielded) == src.items <==> NoExceptionItems(src.items))
  {
    RunKeepsInv(src, states, steps, k);
    var s := states[k];
    assert forall i :: 0 <= i < |s.yielded| ==> Plains(s.yielded)[i].Plain?;
    if s.consumer.Raised? && s.consumer.fromItem {
      assert (Plains(s.yielded) + [Exception(s.consumer.error)])[|s.yielded|] == src.items[|s.yielded|];
    }
  }

  /** The caller waits for a message that nobody will send. */
  predicate Stranded<T>(s: State<T>) {
    s.consumer.Waiting? && s.producer.Stopped? && s.queue == []
  }

  /** No move is left but the caller's closing. */
  predicate Ended<T>(s: State<T>) {
    forall st :: Enabled(s, st) ==> st.Close?
  }

  predicate NeverCloses(steps: seq<Step>) {
    forall k :: 0 <= k < |steps| ==> !steps[k].Close?
  }

  lemma {:induction false} NotClosed<T>(src: Source<T>, states: seq<State<T>>, steps: seq<Step>, k: nat)
    requires Run(src, states, steps) && NeverCloses(steps) && k < |states|
    ensures !states[k].consumer.Closed?
  {
    if k > 0 {
      NotClosed(src, states, steps, k - 1);
      assert states[k] == Apply(src, states[k - 1], steps[k - 1]);
    }
  }

  lemma EndedIsOverOrStranded<T>(s: State<T>)
    requires |s.queue| <= 1 && Ended(s)
    ensures Over(s.consumer) || Stranded(s)
  {
    assert !Enabled(s, Fetch) && !Enabled(s, Put) && !Enabled(s, Get) && !Enabled(s, Resume);
  }

  lemma StrandedHasEverything<T>(src: Source<T>, s: State<T>)
    requires Inv(src, s) && Stranded(s)
    ensures src.ending.RaisesCancelled? && Plains(s.yielded) == src.items
  {
    assert Flow(s) == Plains(s.yielded);
    assert src.items[..|src.items|] == src.items;
  }

  lemma PlainsHaveNoException<T>(vs: seq<T>)
    ensures NoExceptionItems(Plains(vs))
  {
  }

  /**
    How a run ends that the caller does not close and that no side can continue: the source alone
    decides it, whatever the interleaving. An exception object among the items is raised before the
    source's own ending counts; otherwise the caller gets that ending, and a source that raised a
    cancellation, which sends no message, leaves the caller waiting.
   */
  lemma OutcomeExactly<T>(src: Source<T>, states: seq<State<T>>, steps: seq<Step>)
    requires Run(src, states, steps) && NeverCloses(steps) && Ended(states[|steps|])
    ensures Stranded(states[|steps|]) <==> src.ending.RaisesCancelled? && NoExceptionItems(src.items)
    ensures states[|steps|].consumer.Returned? <==> src.ending.Finishes? && NoExceptionItems(src.items)
    ensures FromSource(states[|steps|].consumer) <==> src.ending.Raises? && NoExceptionItems(src.items)
    ensures FromItem(states[|steps|].consumer) <==> !NoExceptionItems(src.items)
  {
    var s := states[|steps|];
    RunKeepsInv(src, states, steps, |steps|);
    NotClosed(src, states, steps, |steps|);
    EndedIsOverOrStranded(s);
    PlainsHaveNoException(s.yielded);
    if Stranded(s) {
      StrandedHasEverything(src, s);
    }
    if FromItem(s.consumer) {
      assert (Plains(s.yielded) + [Exception(s.consumer.error)])[|s.yielded|] == src.items[|s.yielded|];
    }
  }

  predicate FromSource(c: Consumer) {
    c.Raised? && !c.fromItem
  }

  predicate FromItem(c: Consumer) {
    c.Raised? && c.fromItem
  }

  /** Until the stream is over some side can step, unless the source raised a cancellation after its last item. */
  lemma SomeSideCanStep<T>(src: Source<T>, states: seq<State<T>>, steps: seq<Step>, k: nat)
    requires Run(src, states, steps) && k < |states| && !Over(states[k].consumer)
    requires !(src.ending.RaisesCancelled? && NoExceptionItems(src.items))
    ensures !Ended(states[k])
  {
    RunKeepsInv(src, states, steps, k);
    if Ended(states[k]) {
      EndedIsOverOrStranded(states[k]);
      StrandedHasEverything(src, states[k]);
      PlainsHaveNoException(states[k].yielded);
    }
  }

  /** The shortest such run: a source that raises a cancellation at once. */
  lemma CancelledSourceStrandsTheCaller()
    ensures exists src: Source<int>, states: seq<State<int>>, steps: seq<Step> ::
      Run(src, states, steps) && Stranded(states[|steps|])
  {
    var src: Source<int> := Source([], RaisesCancelled);
    var s0: State<int> := Initial();
    var s1 := s0.(producer := Stopped);
    assert Run(src, [s0, s1], [Fetch]);
    assert [s0, s1][|[Fetch]|] == s1;
  }

  /** The caller can close at any time before the end; what then still runs is stopped, and nothing else happens. */
  lemma CallerCanClose<T>(src: Source<T>, states: seq<State<T>>, steps: seq<Step>, k: nat)
    requires Run(src, states, steps) && k < |states| && !Over(states[k].consumer)
    ensures Enabled(states[k], Close)
    ensures var s := Apply(src, states[k], Close);
            && s.consumer == Closed && s.yielded == states[k].yielded
            && (s.producer != Stopped ==> Enabled(s, Cleanup) && Apply(src, s, Cleanup).producer == Stopped)
  {
  }

  /** Once the stream is over, for whatever reason, nothing more is yielded and the end does not change. */
  lemma {:induction false} NothingAfterTheEnd<T>(src: Source<T>, states: seq<State<T>>, steps: seq<Step>,
      i: nat, j: nat)
    requires Run(src, states, steps) && i <= j < |states| && Over(states[i].consumer)
    ensures states[j].consumer == states[i].consumer && states[j].yielded == states[i].yielded
    decreases j - i
  {
    if i < j {
      NothingAfterTheEnd(src, states, steps, i, j - 1);
      assert states[j] == Apply(src, states[j - 1], steps[j - 1]);
    }
  }

  /** Work left: four moves for an unfetched message, down to one for an item in the caller's hands. */
  function Work<T>(src: Source<T>, s: State<T>): int {
    4 * (|src.items| - s.fetched)
    + (if s.producer.Fetching? then 5
       else if s.producer.Putting? && s.producer.message.Value? then 8
       else if s.producer.Putting? then 4
       else 0)
    + 2 * |s.queue| + (if s.consumer.Yielded? then 2 else if s.consumer.Waiting? then 1 else 0)
  }

  lemma StepUsesWork<T>(src: Source<T>, s: State<T>, st: Step)
    requires s.fetched <= |src.items| && |s.queue| <= 1 && Enabled(s, st)
    ensures Work(src, Apply(src, s, st)) < Work(src, s)
  {
  }

  lemma WithinBounds<T>(src: Source<T>, states: seq<State<T>>, steps: seq<Step>, k: nat)
    requires Run(src, states, steps) && k < |states|
    ensures states[k].fetched <= |src.items| && |states[k].queue| <= 1
  {
    RunKeepsInv(src, states, steps, k);
  }

  /** Every step uses up work, so no run is longer than the source calls for. */
  lemma {:induction false} RunsAreFinite<T>(src: Source<T>, states: seq<State<T>>, steps: seq<Step>, k: nat)
    requires Run(src, states, steps) && k < |states|
    ensures 0 <= Work(src, states[k]) <= 4 * |src.items| + 6 - k
  {
    WithinBounds(src, states, steps, k);
    if k > 0 {
      RunsAreFinite(src, states, steps, k - 1);
      WithinBounds(src, states, steps, k - 1);
      StepUsesWork(src, states[k - 1], steps[k - 1]);
    }
  }
}
