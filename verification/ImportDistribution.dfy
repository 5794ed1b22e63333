/** Distributing an import file line by line, resuming after transport errors. */
module ImportDistribution {

  datatype Task = Task(line: string, number: nat)

  /** How one attempt's stream ends after delivering some lines. */
  datatype Ending = Ends | TransportError | OtherError
  datatype Attempt = Attempt(delivered: nat, ending: Ending)

  const MAX_ATTEMPTS := 5

  type Strip = string -> string

  /** The tasks for the first n lines: the non-blank ones, stripped, under their true numbers. */
  function Tasks(lines: seq<string>, n: nat, strip: Strip): seq<Task>
    requires n <= |lines|
  {
    if n == 0 then []
    else Tasks(lines, n - 1, strip) + if strip(lines[n - 1]) == "" then [] else [Task(strip(lines[n - 1]), n)]
  }

  /** What an attempt's stream can do: it serves the same file, and only a normal end has served it all. */
  predicate Possible(lines: seq<string>, a: Attempt) {
    a.delivered <= |lines| && (a.ending.Ends? ==> a.delivered == |lines|)
  }

  function Furthest(attempts: seq<Attempt>, n: nat): nat
    requires n <= |attempts|
  {
    if n == 0 then 0
    else var before := Furthest(attempts, n - 1);
      if before < attempts[n - 1].delivered then attempts[n - 1].delivered else before
  }

  /** One pass over the stream, skipping what earlier attempts have handled. */
  method Pass(lines: seq<string>, a: Attempt, strip: Strip, queuedBefore: seq<Task>, lastBefore: nat)
    returns (queued: seq<Task>, last: nat)
    requires Possible(lines, a) && lastBefore <= |lines| && queuedBefore == Tasks(lines, lastBefore, strip)
    ensures last == if lastBefore < a.delivered then a.delivered else lastBefore
    ensures queued == Tasks(lines, last, strip)
  {
    queued, last := queuedBefore, lastBefore;
    var number := 0;
    while number < a.delivered
      invariant 0 <= number <= a.delivered
      invariant last == if lastBefore < number then number else lastBefore
      invariant queued == Tasks(lines, last, strip)
    {
      var line := lines[number];
      number := number + 1;
      if number <= last {
        continue;
      }
      var stripped := strip(line);
      if stripped != "" {
        queued := queued + [Task(stripped, number)];
      }
      last := number;
    }
  }

  /**
    The retry loop. `attempts` says how each attempt's stream behaves; at most five are made, and only
    a transport error is retried. At any end the queued tasks are exactly those of the lines reached.
   */
  method Distribute(lines: seq<string>, attempts: seq<Attempt>, strip: Strip)
    returns (queued: seq<Task>, last: nat, made: nat, succeeded: bool)
    requires |attempts| >= MAX_ATTEMPTS && forall k :: 0 <= k < |attempts| ==> Possible(lines, attempts[k])
    ensures 1 <= made <= 5
    ensures forall k :: 0 <= k < made - 1 ==> attempts[k].ending.TransportError?
    ensures succeeded <==> attempts[made - 1].ending.Ends?
    ensures attempts[made - 1].ending.TransportError? ==> made == 5
    ensures last == Furthest(attempts, made) && last <= |lines| && queued == Tasks(lines, last, strip)
    ensures succeeded ==> queued == Tasks(lines, |lines|, strip)
  {
    queued, last, made, succeeded := [], 0, 0, false;
    while true
      invariant 0 <= made < MAX_ATTEMPTS
      invariant forall k :: 0 <= k < made ==> attempts[k].ending.TransportError?
      invariant last == Furthest(attempts, made) && last <= |lines| && queued == Tasks(lines, last, strip)
      decreases MAX_ATTEMPTS - made
    {
      var a := attempts[made];
      queued, last := Pass(lines, a, strip, queued, last);
      made := made + 1;
      if !a.ending.TransportError? || made == MAX_ATTEMPTS {
        succeeded := a.ending.Ends?;
        return;
      }
    }
  }

  ghost predicate Increasing(ts: seq<Task>) {
    forall i, j :: 0 <= i < j < |ts| ==> ts[i].number < ts[j].number
  }

  ghost predicate FromLines(ts: seq<Task>, lines: seq<string>, n: nat, strip: Strip)
    requires n <= |lines|
  {
    forall i :: 0 <= i < |ts| ==>
      1 <= ts[i].number <= n && ts[i].line == strip(lines[ts[i].number - 1]) && ts[i].line != ""
  }

  /**
    Line numbers in the queue strictly increase and name the line they came from: nothing twice,
    nothing out of order.
   */
  lemma {:induction false} TasksAreOrdered(lines: seq<string>, n: nat, strip: Strip)
    requires n <= |lines|
    ensures Increasing(Tasks(lines, n, strip)) && FromLines(Tasks(lines, n, strip), lines, n, strip)
  {
    if n > 0 {
      TasksAreOrdered(lines, n - 1, strip);
      var before, ts := Tasks(lines, n - 1, strip), Tasks(lines, n, strip);
      assert ts == before || ts == before + [Task(strip(lines[n - 1]), n)];
    }
  }

  ghost predicate Queued(ts: seq<Task>, number: nat) {
    exists i :: 0 <= i < |ts| && ts[i].number == number
  }

  lemma QueuedAppend(ts: seq<Task>, last: Task, number: nat)
    ensures Queued(ts + [last], number) <==> Queued(ts, number) || last.number == number
  {
    var more := ts + [last];
    assert more[|ts|] == last;
    if Queued(ts, number) {
      var i :| 0 <= i < |ts| && ts[i].number == number;
      assert more[i] == ts[i];
    }
  }

  /** Exactly the non-blank lines up to n are queued. */
  lemma {:induction false} TasksAreComplete(lines: seq<string>, n: nat, strip: Strip, number: nat)
    requires n <= |lines| && 1 <= number <= |lines|
    ensures Queued(Tasks(lines, n, strip), number) <==> number <= n && strip(lines[number - 1]) != ""
  {
    if n > 0 {
      TasksAreComplete(lines, n - 1, strip, number);
      var before := Tasks(lines, n - 1, strip);
      if strip(lines[n - 1]) == "" {
        assert before + [] == before;
      } else {
        QueuedAppend(before, Task(strip(lines[n - 1]), n), number);
      }
    }
  }
}
