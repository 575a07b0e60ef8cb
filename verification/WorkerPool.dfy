/** One target: a bounded queue shared by a pool of sender workers.

    Every worker runs the polling loop of `next_msg`: it tries the lock of the shared receiver,
    polls the queue, and only when the poll yields nothing tries the lock again to ask whether
    the channel is closed.  Both lock attempts fail without waiting when another worker holds
    the lock.  Each such action is one step here, so a run is any interleaving of them. */
module WorkerPool {
  import opened Basics

  datatype Worker =
    | Idle            // about to try the lock for a poll
    | Polling         // holds the lock, about to poll the queue
    | Missed          // the poll yielded nothing, about to try the lock for the closed check
    | Checking        // holds the lock, about to read the closed flag
    | Holding(msg: nat)
    | Ended

  /** `accepted`, `taken` and `finished` are the histories of sends, polls and completed writes. */
  datatype Pool = Pool(
    queue: seq<nat>,
    open: bool,
    workers: seq<Worker>,
    accepted: seq<nat>,
    taken: seq<nat>,
    finished: seq<nat>)

  datatype Step =
    | Send(msg: nat)
    | Close
    | LockToPoll(w: nat)
    | Poll(w: nat)
    | LockToCheck(w: nat)
    | Check(w: nat)
    | Finish(w: nat)

  function Start(size: nat): Pool {
    Pool([], true, seq(size, i => Idle), [], [], [])
  }

  predicate Locks(w: Worker) { w.Polling? || w.Checking? }

  predicate LockFree(p: Pool) {
    forall i | 0 <= i < |p.workers| :: !Locks(p.workers[i])
  }

  predicate Enabled(p: Pool, capacity: nat, step: Step) {
    match step
    case Send(_) => p.open && |p.queue| < capacity
    case Close => p.open
    case LockToPoll(w) => w < |p.workers| && p.workers[w].Idle?
    case Poll(w) => w < |p.workers| && p.workers[w].Polling?
    case LockToCheck(w) => w < |p.workers| && p.workers[w].Missed?
    case Check(w) => w < |p.workers| && p.workers[w].Checking?
    case Finish(w) => w < |p.workers| && p.workers[w].Holding?
  }

  function Move(p: Pool, w: nat, to: Worker): Pool
    requires w < |p.workers|
  {
    p.(workers := p.workers[w := to])
  }

  function Apply(p: Pool, capacity: nat, step: Step): Pool
    requires Enabled(p, capacity, step)
  {
    match step
    case Send(m) => p.(queue := p.queue + [m], accepted := p.accepted + [m])
    case Close => p.(open := false)
    case LockToPoll(w) => Move(p, w, if LockFree(p) then Polling else Missed)
    case Poll(w) =>
      if p.queue == [] then Move(p, w, Missed)
      else Move(p, w, Holding(p.queue[0])).(queue := p.queue[1..], taken := p.taken + [p.queue[0]])
    case LockToCheck(w) => Move(p, w, if LockFree(p) then Checking else Idle)
    case Check(w) => Move(p, w, if p.open then Idle else Ended)
    case Finish(w) => Move(p, w, Idle).(finished := p.finished + [p.workers[w].msg])
  }

  /** The state after a list of steps, or nothing when one of them is not possible. */
  function Run(p: Pool, capacity: nat, steps: seq<Step>): Option<Pool>
    decreases |steps|
  {
    if steps == [] then Some(p)
    else if Enabled(p, capacity, steps[0]) then Run(Apply(p, capacity, steps[0]), capacity, steps[1..])
    else None
  }

  lemma {:induction false} RunConcat(p: Pool, capacity: nat, a: seq<Step>, b: seq<Step>)
    ensures var mid := Run(p, capacity, a);
            Run(p, capacity, a + b) == if mid.Some? then Run(mid.value, capacity, b) else None
    decreases |a|
  {
    if a == [] {
      assert a + b == b;
    } else {
      assert (a + b)[0] == a[0] && (a + b)[1..] == a[1..] + b;
      if Enabled(p, capacity, a[0]) {
        RunConcat(Apply(p, capacity, a[0]), capacity, a[1..], b);
      }
    }
  }

  // ----- Conservation -----

  function HeldBy(w: Worker, m: nat): nat {
    if w == Holding(m) then 1 else 0
  }

  /** How many workers have message `m` in hand. */
  function Held(workers: seq<Worker>, m: nat): nat {
    if workers == [] then 0 else HeldBy(workers[0], m) + Held(workers[1..], m)
  }

  lemma {:induction false} HeldUpdate(workers: seq<Worker>, i: nat, w: Worker, m: nat)
    requires i < |workers|
    ensures Held(workers[i := w], m) + HeldBy(workers[i], m) == Held(workers, m) + HeldBy(w, m)
  {
    if i == 0 {
      assert workers[0 := w][1..] == workers[1..];
    } else {
      HeldUpdate(workers[1..], i - 1, w, m);
      assert workers[i := w][1..] == workers[1..][i - 1 := w];
    }
  }

  ghost predicate AtMostOneLock(workers: seq<Worker>) {
    forall i, j | 0 <= i < j < |workers| :: !Locks(workers[i]) || !Locks(workers[j])
  }

  ghost predicate Valid(p: Pool, capacity: nat) {
    && p.accepted == p.taken + p.queue
    && |p.queue| <= capacity
    && (forall m: nat :: multiset(p.taken)[m] == multiset(p.finished)[m] + Held(p.workers, m))
    && AtMostOneLock(p.workers)
    && (p.open ==> forall i | 0 <= i < |p.workers| :: !p.workers[i].Ended?)
  }

  lemma {:induction false} HeldNothing(workers: seq<Worker>, m: nat)
    requires forall i | 0 <= i < |workers| :: !workers[i].Holding?
    ensures Held(workers, m) == 0
  {
    if workers != [] {
      assert !workers[0].Holding?;
      HeldNothing(workers[1..], m);
    }
  }

  lemma StartValid(size: nat, capacity: nat)
    ensures Valid(Start(size), capacity)
  {
    forall m: nat ensures Held(Start(size).workers, m) == 0 {
      HeldNothing(Start(size).workers, m);
    }
  }

  lemma StepConserves(p: Pool, capacity: nat, step: Step, m: nat)
    requires Valid(p, capacity) && Enabled(p, capacity, step)
    ensures var q := Apply(p, capacity, step);
            multiset(q.taken)[m] == multiset(q.finished)[m] + Held(q.workers, m)
  {
    var q := Apply(p, capacity, step);
    if !step.Send? && !step.Close? {
      HeldUpdate(p.workers, step.w, q.workers[step.w], m);
    }
  }

  lemma StepKeepsOrder(p: Pool, capacity: nat, step: Step)
    requires p.accepted == p.taken + p.queue && Enabled(p, capacity, step)
    ensures var q := Apply(p, capacity, step); q.accepted == q.taken + q.queue
  {
    var q := Apply(p, capacity, step);
    if step.Send? {
      assert q.accepted == p.taken + (p.queue + [step.msg]);
    } else if step.Poll? && p.queue != [] {
      assert p.queue == [p.queue[0]] + p.queue[1..];
    }
  }

  lemma StepKeepsLock(p: Pool, capacity: nat, step: Step)
    requires AtMostOneLock(p.workers) && Enabled(p, capacity, step)
    ensures AtMostOneLock(Apply(p, capacity, step).workers)
  {
    var q := Apply(p, capacity, step);
    if !step.Send? && !step.Close? {
      assert forall i | 0 <= i < |p.workers| && i != step.w :: q.workers[i] == p.workers[i];
    }
  }

  lemma StepKeepsOpen(p: Pool, capacity: nat, step: Step)
    requires Valid(p, capacity) && Enabled(p, capacity, step)
    ensures var q := Apply(p, capacity, step);
            |q.queue| <= capacity && (q.open ==> forall i | 0 <= i < |q.workers| :: !q.workers[i].Ended?)
  {
  }

  lemma StepValid(p: Pool, capacity: nat, step: Step)
    requires Valid(p, capacity) && Enabled(p, capacity, step)
    ensures Valid(Apply(p, capacity, step), capacity)
  {
    var q := Apply(p, capacity, step);
    forall m: nat ensures multiset(q.taken)[m] == multiset(q.finished)[m] + Held(q.workers, m) {
      StepConserves(p, capacity, step, m);
    }
    StepKeepsOrder(p, capacity, step);
    StepKeepsLock(p, capacity, step);
    StepKeepsOpen(p, capacity, step);
  }

  lemma {:induction false} RunValid(p: Pool, capacity: nat, steps: seq<Step>)
    requires Valid(p, capacity) && Run(p, capacity, steps).Some?
    ensures Valid(Run(p, capacity, steps).value, capacity)
    decreases |steps|
  {
    if steps != [] {
      StepValid(p, capacity, steps[0]);
      RunValid(Apply(p, capacity, steps[0]), capacity, steps[1..]);
    }
  }

  /** The senders are gone and every worker has returned. */
  predicate Complete(p: Pool) {
    !p.open && forall i | 0 <= i < |p.workers| :: p.workers[i].Ended?
  }

  /** At the end of any run the accepted messages split, in order, into those that were written
      and those left in the queue: what a pool loses is always a suffix of what it accepted. */
  lemma LossIsSuffix(size: nat, capacity: nat, steps: seq<Step>)
    requires Run(Start(size), capacity, steps).Some?
    requires Complete(Run(Start(size), capacity, steps).value)
    ensures var p := Run(Start(size), capacity, steps).value;
            p.accepted == p.taken + p.queue && multiset(p.finished) == multiset(p.taken)
            && |p.queue| <= capacity
  {
    var p := Run(Start(size), capacity, steps).value;
    StartValid(size, capacity);
    RunValid(Start(size), capacity, steps);
    forall m: nat ensures multiset(p.finished)[m] == multiset(p.taken)[m] {
      HeldNothing(p.workers, m);
    }
  }

  // ----- When every accepted message is consumed -----

  /** All workers from `from` on poll an empty queue and come away empty-handed. */
  function AllMiss(from: nat, size: nat): seq<Step>
    decreases size - from
  {
    if from >= size then [] else [LockToPoll(from), Poll(from)] + AllMiss(from + 1, size)
  }

  function AllEnd(from: nat, size: nat): seq<Step>
    decreases size - from
  {
    if from >= size then [] else [LockToCheck(from), Check(from)] + AllEnd(from + 1, size)
  }

  /** Worker 0 handles each message before the next one is sent. */
  function HandleAll(msgs: seq<nat>): seq<Step> {
    if msgs == [] then []
    else [Send(msgs[0]), LockToPoll(0), Poll(0), Finish(0)] + HandleAll(msgs[1..])
  }

  lemma RunTwo(p: Pool, capacity: nat, a: Step, b: Step, rest: seq<Step>)
    requires Enabled(p, capacity, a) && Enabled(Apply(p, capacity, a), capacity, b)
    ensures Run(p, capacity, [a, b] + rest)
         == Run(Apply(Apply(p, capacity, a), capacity, b), capacity, rest)
  {
    var steps := [a, b] + rest;
    assert steps[1..] == [b] + rest && steps[1..][1..] == rest;
  }

  lemma {:induction false} RunAllMiss(p: Pool, capacity: nat, from: nat)
    requires from <= |p.workers| && p.queue == [] && LockFree(p)
    requires forall i | from <= i < |p.workers| :: p.workers[i].Idle?
    requires forall i | 0 <= i < from :: p.workers[i].Missed?
    ensures var q := Run(p, capacity, AllMiss(from, |p.workers|));
            && q.Some?
            && q.value == p.(workers := q.value.workers) && |q.value.workers| == |p.workers|
            && forall i | 0 <= i < |p.workers| :: q.value.workers[i].Missed?
    decreases |p.workers| - from
  {
    if from < |p.workers| {
      var p1 := Apply(p, capacity, LockToPoll(from));
      var p2 := Apply(p1, capacity, Poll(from));
      RunTwo(p, capacity, LockToPoll(from), Poll(from), AllMiss(from + 1, |p.workers|));
      RunAllMiss(p2, capacity, from + 1);
    }
  }

  lemma {:induction false} RunAllEnd(p: Pool, capacity: nat, from: nat)
    requires from <= |p.workers| && !p.open && LockFree(p)
    requires forall i | from <= i < |p.workers| :: p.workers[i].Missed?
    requires forall i | 0 <= i < from :: p.workers[i].Ended?
    ensures var q := Run(p, capacity, AllEnd(from, |p.workers|));
            q.Some? && q.value == p.(workers := q.value.workers) && Complete(q.value)
    decreases |p.workers| - from
  {
    if from < |p.workers| {
      var p1 := Apply(p, capacity, LockToCheck(from));
      var p2 := Apply(p1, capacity, Check(from));
      RunTwo(p, capacity, LockToCheck(from), Check(from), AllEnd(from + 1, |p.workers|));
      RunAllEnd(p2, capacity, from + 1);
    }
  }

  lemma FirstOfMany(done: seq<nat>, msgs: seq<nat>)
    requires msgs != []
    ensures done + msgs == done + [msgs[0]] + msgs[1..]
  {
  }

  lemma {:induction false} RunHandleAll(p: Pool, capacity: nat, msgs: seq<nat>)
    requires |p.workers| > 0 && capacity > 0 && p.open && p.queue == []
    requires forall i | 0 <= i < |p.workers| :: p.workers[i].Idle?
    ensures var q := Run(p, capacity, HandleAll(msgs));
            && q.Some?
            && q.value == p.(accepted := p.accepted + msgs, taken := p.taken + msgs, finished := p.finished + msgs)
    decreases |msgs|
  {
    if msgs == [] {
      assert p.accepted + msgs == p.accepted && p.taken + msgs == p.taken && p.finished + msgs == p.finished;
    } else {
      var m := msgs[0];
      var p1 := Apply(p, capacity, Send(m));
      var p2 := Apply(p1, capacity, LockToPoll(0));
      var p3 := Apply(p2, capacity, Poll(0));
      var p4 := Apply(p3, capacity, Finish(0));
      var rest := HandleAll(msgs[1..]);
      assert [Send(m), LockToPoll(0), Poll(0), Finish(0)] + rest
          == [Send(m), LockToPoll(0)] + ([Poll(0), Finish(0)] + rest);
      RunTwo(p, capacity, Send(m), LockToPoll(0), [Poll(0), Finish(0)] + rest);
      RunTwo(p2, capacity, Poll(0), Finish(0), rest);
      assert p4 == p.(accepted := p.accepted + [m], taken := p.taken + [m], finished := p.finished + [m]);
      RunHandleAll(p4, capacity, msgs[1..]);
      FirstOfMany(p.accepted, msgs);
      FirstOfMany(p.taken, msgs);
      FirstOfMany(p.finished, msgs);
    }
  }

  /** The schedule in which every worker polls just before the last message and the close. */
  function LosingSchedule(size: nat, msgs: seq<nat>): seq<Step>
    requires msgs != []
  {
    var last := |msgs| - 1;
    HandleAll(msgs[..last]) + AllMiss(0, size) + [Send(msgs[last]), Close] + AllEnd(0, size)
  }

  lemma LosingScheduleLoses(size: nat, capacity: nat, msgs: seq<nat>)
    requires size > 0 && capacity > 0 && msgs != []
    ensures var r := Run(Start(size), capacity, LosingSchedule(size, msgs));
            && r.Some? && Complete(r.value)
            && r.value.accepted == msgs && r.value.queue == [msgs[|msgs| - 1]]
  {
    var last := |msgs| - 1;
    var m := msgs[last];
    var a, b, c, d := HandleAll(msgs[..last]), AllMiss(0, size), [Send(m), Close], AllEnd(0, size);
    RunHandleAll(Start(size), capacity, msgs[..last]);
    var p1 := Run(Start(size), capacity, a).value;
    RunAllMiss(p1, capacity, 0);
    var p2 := Run(p1, capacity, b).value;
    var p3 := Apply(Apply(p2, capacity, Send(m)), capacity, Close);
    RunTwo(p2, capacity, Send(m), Close, []);
    assert c + [] == c;
    RunAllEnd(p3, capacity, 0);
    RunConcat(Start(size), capacity, a, b);
    RunConcat(Start(size), capacity, a + b, c);
    RunConcat(Start(size), capacity, a + b + c, d);
    assert msgs == msgs[..last] + [m];
  }

  /** Every complete run that accepts exactly `msgs` also writes all of them. */
  ghost predicate AlwaysDrains(size: nat, capacity: nat, msgs: seq<nat>) {
    forall steps: seq<Step> ::
      var r := Run(Start(size), capacity, steps);
      r.Some? && Complete(r.value) && r.value.accepted == msgs
      ==> multiset(r.value.finished) == multiset(msgs)
  }

  /** Closing the channel does not guarantee that what it accepted is delivered: that holds of
      every schedule exactly when nothing was sent at all. */
  lemma DrainsIffNothingSent(size: nat, capacity: nat, msgs: seq<nat>)
    requires size > 0 && capacity > 0
    ensures AlwaysDrains(size, capacity, msgs) <==> msgs == []
  {
    if msgs == [] {
      forall steps: seq<Step> | Run(Start(size), capacity, steps).Some?
        && Complete(Run(Start(size), capacity, steps).value)
        && Run(Start(size), capacity, steps).value.accepted == msgs
        ensures multiset(Run(Start(size), capacity, steps).value.finished) == multiset(msgs)
      {
        LossIsSuffix(size, capacity, steps);
        var p := Run(Start(size), capacity, steps).value;
        assert |p.taken| + |p.queue| == 0;
      }
    } else {
      var steps := LosingSchedule(size, msgs);
      LosingScheduleLoses(size, capacity, msgs);
      LossIsSuffix(size, capacity, steps);
      var p := Run(Start(size), capacity, steps).value;
      assert |multiset(p.finished)| == |p.taken| < |msgs| == |multiset(msgs)|;
    }
  }

  /** How many sends follow the last poll of a schedule. */
  function SentSincePoll(steps: seq<Step>): nat {
    if steps == [] then 0
    else
      var last := steps[|steps| - 1];
      if last.Poll? then 0
      else SentSincePoll(steps[..|steps| - 1]) + if last.Send? then 1 else 0
  }

  lemma RunSnoc(p: Pool, capacity: nat, steps: seq<Step>)
    requires steps != [] && Run(p, capacity, steps).Some?
    ensures var front := steps[..|steps| - 1];
            && Run(p, capacity, front).Some?
            && Enabled(Run(p, capacity, front).value, capacity, steps[|steps| - 1])
            && Run(p, capacity, steps).value
               == Apply(Run(p, capacity, front).value, capacity, steps[|steps| - 1])
  {
    var front, last := steps[..|steps| - 1], steps[|steps| - 1];
    assert steps == front + [last];
    RunConcat(p, capacity, front, [last]);
    var mid := Run(p, capacity, front);
    assert [last][1..] == [];
  }

  lemma {:induction false} SingleWorkerBacklog(capacity: nat, steps: seq<Step>)
    requires Run(Start(1), capacity, steps).Some?
    ensures var p := Run(Start(1), capacity, steps).value;
            && |p.workers| == 1
            && (p.workers[0].Missed? || p.workers[0].Checking? || p.workers[0].Ended?
                ==> |p.queue| == SentSincePoll(steps))
    decreases |steps|
  {
    if steps != [] {
      RunSnoc(Start(1), capacity, steps);
      SingleWorkerBacklog(capacity, steps[..|steps| - 1]);
    }
  }

  /** With one worker there is no contention, and the loss is exact: the messages lost are
      precisely those sent after the worker's last poll. */
  lemma SingleWorkerLoss(capacity: nat, steps: seq<Step>)
    requires Run(Start(1), capacity, steps).Some?
    requires Complete(Run(Start(1), capacity, steps).value)
    ensures var p := Run(Start(1), capacity, steps).value;
            |p.accepted| - |p.finished| == SentSincePoll(steps)
  {
    SingleWorkerBacklog(capacity, steps);
    LossIsSuffix(1, capacity, steps);
    var p := Run(Start(1), capacity, steps).value;
    assert |multiset(p.finished)| == |p.finished| && |multiset(p.taken)| == |p.taken|;
  }

  /** How many messages a schedule leaves in the queue: a send adds one, a poll takes one if there is one. */
  function Backlog(steps: seq<Step>): nat {
    if steps == [] then 0
    else
      var last, before := steps[|steps| - 1], Backlog(steps[..|steps| - 1]);
      if last.Send? then before + 1 else if last.Poll? && before > 0 then before - 1 else before
  }

  lemma {:induction false} QueueIsBacklog(size: nat, capacity: nat, steps: seq<Step>)
    requires Run(Start(size), capacity, steps).Some?
    ensures |Run(Start(size), capacity, steps).value.queue| == Backlog(steps)
    decreases |steps|
  {
    if steps != [] {
      RunSnoc(Start(size), capacity, steps);
      QueueIsBacklog(size, capacity, steps[..|steps| - 1]);
    }
  }

  /** The exact loss of a pool of any size: the order of sends and polls alone decides how many messages are
      lost, they are the last ones accepted, and all others are written. */
  lemma PoolLoss(size: nat, capacity: nat, steps: seq<Step>)
    requires Run(Start(size), capacity, steps).Some?
    requires Complete(Run(Start(size), capacity, steps).value)
    ensures var p := Run(Start(size), capacity, steps).value;
            && Backlog(steps) <= |p.accepted|
            && p.queue == p.accepted[|p.accepted| - Backlog(steps)..]
            && multiset(p.finished) == multiset(p.accepted[..|p.accepted| - Backlog(steps)])
            && (multiset(p.finished) == multiset(p.accepted) <==> Backlog(steps) == 0)
  {
    var p := Run(Start(size), capacity, steps).value;
    LossIsSuffix(size, capacity, steps);
    QueueIsBacklog(size, capacity, steps);
    SplitAt(p.taken, p.queue);
    assert |multiset(p.accepted)| == |p.accepted| && |multiset(p.finished)| == |multiset(p.taken)| == |p.taken|;
    if Backlog(steps) == 0 {
      EmptySides(p.taken);
    }
  }

  /** Two workers can also abandon a message sent, and the channel closed, long before: each
      loses the lock to the other's check and then finds the channel closed. */
  const CONTENDED_SCHEDULE: seq<Step> := CONTENDED_TAKE + CONTENDED_MISS

  /** Worker 1 is locked out while worker 0 takes message 1. */
  const CONTENDED_TAKE: seq<Step> :=
    [Send(1), Send(2)] + [Close, LockToPoll(0)] + [LockToPoll(1), Poll(0)]

  /** Worker 0 is locked out by the closed check of worker 1, then makes its own. */
  const CONTENDED_MISS: seq<Step> :=
    [Finish(0), LockToCheck(1)] + [LockToPoll(0), Check(1)] + [LockToCheck(0), Check(0)]

  const TAKEN: Pool := Pool([2], false, [Holding(1), Missed], [1, 2], [1], [])

  lemma ContendedTake()
    ensures Run(Start(2), 2, CONTENDED_TAKE) == Some(TAKEN)
  {
    var p0 := Pool([1, 2], true, [Idle, Idle], [1, 2], [], []);
    var p1 := Pool([1, 2], false, [Polling, Idle], [1, 2], [], []);
    assert Start(2) == Pool([], true, [Idle, Idle], [], [], []);
    RunTwo(Start(2), 2, Send(1), Send(2), []);
    EmptySides([Send(1), Send(2)]);
    assert Apply(Apply(Start(2), 2, Send(1)), 2, Send(2)) == p0;
    TwoMore(Start(2), [Send(1), Send(2)], p0, Close, LockToPoll(0), p1);
    assert Locks(p1.workers[0]);
    TwoMore(Start(2), [Send(1), Send(2)] + [Close, LockToPoll(0)], p1, LockToPoll(1), Poll(0), TAKEN);
  }

  lemma ContendedMiss()
    ensures Run(TAKEN, 2, CONTENDED_MISS) == Some(Pool([2], false, [Ended, Ended], [1, 2], [1], [1]))
  {
    var p3 := Pool([2], false, [Idle, Checking], [1, 2], [1], [1]);
    var p4 := Pool([2], false, [Missed, Ended], [1, 2], [1], [1]);
    RunTwo(TAKEN, 2, Finish(0), LockToCheck(1), []);
    EmptySides([Finish(0), LockToCheck(1)]);
    assert Apply(Apply(TAKEN, 2, Finish(0)), 2, LockToCheck(1)) == p3;
    assert Locks(p3.workers[1]);
    TwoMore(TAKEN, [Finish(0), LockToCheck(1)], p3, LockToPoll(0), Check(1), p4);
    TwoMore(TAKEN, [Finish(0), LockToCheck(1)] + [LockToPoll(0), Check(1)], p4, LockToCheck(0), Check(0),
      Pool([2], false, [Ended, Ended], [1, 2], [1], [1]));
  }

  lemma ContendedWorkersLose()
    ensures var r := Run(Start(2), 2, CONTENDED_SCHEDULE);
            r.Some? && Complete(r.value) && r.value.accepted == [1, 2] && r.value.finished == [1]
  {
    ContendedTake();
    ContendedMiss();
    RunConcat(Start(2), 2, CONTENDED_TAKE, CONTENDED_MISS);
  }

  lemma TwoMore(start: Pool, steps: seq<Step>, p: Pool, a: Step, b: Step, q: Pool)
    requires Run(start, 2, steps) == Some(p) && Enabled(p, 2, a)
    requires Enabled(Apply(p, 2, a), 2, b) && Apply(Apply(p, 2, a), 2, b) == q
    ensures Run(start, 2, steps + [a, b]) == Some(q)
  {
    RunConcat(start, 2, steps, [a, b]);
    RunTwo(p, 2, a, b, []);
    assert [a, b] + [] == [a, b];
  }
}
