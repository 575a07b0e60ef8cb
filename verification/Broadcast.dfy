/** Broadcasting each message to every target under the three policies.

    All receivers are open; consumers empty their queues at any moment.  Each accepting send is one
    step, so under `Independent` the spawned sends complete in every possible order. */
module Broadcast {
  import opened Basics

  datatype Policy = Strict | Independent | BestEffort

  /** A target's queue with the histories of what it accepted and what was dropped for it. */
  datatype Lane = Lane(queue: seq<nat>, accepted: seq<nat>, dropped: seq<nat>)

  datatype Stage =
    | Between
    | InTurn(next: nat)         // Strict: awaiting the send to target `next`
    | Parallel(todo: set<nat>)  // Independent: these spawned sends are not complete yet
    | Trying(next: nat)         // BestEffort: about to try target `next`

  /** `made` lists every message handed to the broadcast so far, the current one last. */
  datatype State = State(lanes: seq<Lane>, stage: Stage, made: seq<nat>)

  datatype Action =
    | Begin(msg: nat)
    | Accept(target: nat)
    | Try
    | Done
    | Consume(target: nat)

  function AllTargets(targets: nat): (r: set<nat>)
    ensures forall t: nat :: t in r <==> t < targets
  {
    if targets == 0 then {} else AllTargets(targets - 1) + {targets - 1}
  }

  function Begun(policy: Policy, targets: nat): Stage {
    match policy
    case Strict => InTurn(0)
    case Independent => Parallel(AllTargets(targets))
    case BestEffort => Trying(0)
  }

  function Current(s: State): nat {
    if s.made == [] then 0 else s.made[|s.made| - 1]
  }

  predicate Room(s: State, capacity: nat, t: nat) {
    t < |s.lanes| && |s.lanes[t].queue| < capacity
  }

  predicate Possible(capacity: nat, s: State, a: Action) {
    match a
    case Begin(_) => s.stage.Between?
    case Accept(t) =>
      && Room(s, capacity, t)
      && ((s.stage.InTurn? && t == s.stage.next) || (s.stage.Parallel? && t in s.stage.todo))
    case Try => s.stage.Trying? && s.stage.next < |s.lanes|
    case Done =>
      || (s.stage.InTurn? && s.stage.next == |s.lanes|)
      || (s.stage.Parallel? && s.stage.todo == {})
      || (s.stage.Trying? && s.stage.next == |s.lanes|)
    case Consume(t) => t < |s.lanes| && s.lanes[t].queue != []
  }

  function Take(lane: Lane, m: nat): Lane {
    lane.(queue := lane.queue + [m], accepted := lane.accepted + [m])
  }

  function Next(policy: Policy, capacity: nat, s: State, a: Action): State
    requires Possible(capacity, s, a)
  {
    match a
    case Begin(m) => s.(stage := Begun(policy, |s.lanes|), made := s.made + [m])
    case Accept(t) =>
      s.(lanes := s.lanes[t := Take(s.lanes[t], Current(s))],
         stage := if s.stage.InTurn? then InTurn(t + 1) else Parallel(s.stage.todo - {t}))
    case Try =>
      var t, lane := s.stage.next, s.lanes[s.stage.next];
      s.(lanes := s.lanes[t := if |lane.queue| < capacity then Take(lane, Current(s))
                               else lane.(dropped := lane.dropped + [Current(s)])],
         stage := Trying(t + 1))
    case Done => s.(stage := Between)
    case Consume(t) => s.(lanes := s.lanes[t := s.lanes[t].(queue := s.lanes[t].queue[1..])])
  }

  function Launch(targets: nat): State {
    State(seq(targets, i => Lane([], [], [])), Between, [])
  }

  function Reach(policy: Policy, capacity: nat, s: State, actions: seq<Action>): Option<State>
    decreases |actions|
  {
    if actions == [] then Some(s)
    else if Possible(capacity, s, actions[0]) then
      Reach(policy, capacity, Next(policy, capacity, s, actions[0]), actions[1..])
    else None
  }

  /** `a` is `b` with some elements left out. */
  predicate Subsequence(a: seq<nat>, b: seq<nat>) {
    if a == [] then true
    else if b == [] then false
    else
      || (a[|a| - 1] == b[|b| - 1] && Subsequence(a[..|a| - 1], b[..|b| - 1]))
      || Subsequence(a, b[..|b| - 1])
  }

  lemma SubsequenceSnoc(a: seq<nat>, b: seq<nat>, m: nat)
    requires Subsequence(a, b)
    ensures Subsequence(a + [m], b + [m]) && Subsequence(a, b + [m])
  {
    assert (a + [m])[..|a|] == a && (b + [m])[..|b|] == b;
  }

  /** Has the current message already been through target `t`? */
  predicate Served(stage: Stage, t: nat) {
    match stage
    case Between => true
    case InTurn(next) => t < next
    case Parallel(todo) => t !in todo
    case Trying(next) => t < next
  }

  /** The messages that have been through target `t`. */
  function Past(s: State, t: nat): seq<nat> {
    if Served(s.stage, t) || s.made == [] then s.made else s.made[..|s.made| - 1]
  }

  ghost predicate LaneOk(policy: Policy, capacity: nat, s: State, t: nat)
    requires t < |s.lanes|
  {
    var lane := s.lanes[t];
    && |lane.queue| <= capacity
    && (!policy.BestEffort? ==> lane.accepted == Past(s, t) && lane.dropped == [])
    && Subsequence(lane.accepted, Past(s, t))
    && multiset(lane.accepted) + multiset(lane.dropped) == multiset(Past(s, t))
  }

  predicate StageOk(policy: Policy, s: State) {
    match s.stage
    case Between => true
    case InTurn(next) => policy.Strict? && next <= |s.lanes| && s.made != []
    case Parallel(todo) => policy.Independent? && s.made != [] && forall t | t in todo :: t < |s.lanes|
    case Trying(next) => policy.BestEffort? && next <= |s.lanes| && s.made != []
  }

  ghost predicate Invariant(policy: Policy, capacity: nat, s: State) {
    StageOk(policy, s) && forall t | 0 <= t < |s.lanes| :: LaneOk(policy, capacity, s, t)
  }

  lemma LaneStep(policy: Policy, capacity: nat, s: State, a: Action, t: nat)
    requires Invariant(policy, capacity, s) && Possible(capacity, s, a) && t < |s.lanes|
    ensures LaneOk(policy, capacity, Next(policy, capacity, s, a), t)
  {
    var n := Next(policy, capacity, s, a);
    assert LaneOk(policy, capacity, s, t);
    if (a.Accept? && t == a.target) || (a.Try? && t == s.stage.next) {
      LanePassed(policy, capacity, s, n, t);
    } else {
      PastKept(policy, capacity, s, a, t);
      LaneKept(policy, capacity, s, n, t);
    }
  }

  lemma PastKept(policy: Policy, capacity: nat, s: State, a: Action, t: nat)
    requires StageOk(policy, s) && Possible(capacity, s, a) && t < |s.lanes|
    requires !(a.Accept? && t == a.target) && !(a.Try? && t == s.stage.next)
    ensures Past(Next(policy, capacity, s, a), t) == Past(s, t)
  {
    if a.Begin? {
      assert (s.made + [a.msg])[..|s.made|] == s.made;
    }
  }

  lemma LaneKept(policy: Policy, capacity: nat, s: State, n: State, t: nat)
    requires t < |s.lanes| == |n.lanes| && LaneOk(policy, capacity, s, t)
    requires Past(n, t) == Past(s, t) && |n.lanes[t].queue| <= capacity
    requires n.lanes[t].accepted == s.lanes[t].accepted && n.lanes[t].dropped == s.lanes[t].dropped
    ensures LaneOk(policy, capacity, n, t)
  {
  }

  lemma LanePassed(policy: Policy, capacity: nat, s: State, n: State, t: nat)
    requires t < |s.lanes| == |n.lanes| && LaneOk(policy, capacity, s, t)
    requires s.made != [] && n.made == s.made && !Served(s.stage, t) && Served(n.stage, t)
    requires
      var lane := s.lanes[t];
      if |lane.queue| < capacity then n.lanes[t] == Take(lane, Current(s))
      else policy.BestEffort? && n.lanes[t] == lane.(dropped := lane.dropped + [Current(s)])
    ensures LaneOk(policy, capacity, n, t)
  {
    var front, m := s.made[..|s.made| - 1], Current(s);
    assert s.made == front + [m];
    SubsequenceSnoc(s.lanes[t].accepted, front, m);
  }

  lemma {:induction false} ReachInvariant(policy: Policy, capacity: nat, s: State, actions: seq<Action>)
    requires Invariant(policy, capacity, s) && Reach(policy, capacity, s, actions).Some?
    ensures var r := Reach(policy, capacity, s, actions).value;
            Invariant(policy, capacity, r) && |r.lanes| == |s.lanes|
    decreases |actions|
  {
    if actions != [] {
      var n := Next(policy, capacity, s, actions[0]);
      forall t | 0 <= t < |s.lanes| ensures LaneOk(policy, capacity, n, t) {
        LaneStep(policy, capacity, s, actions[0], t);
      }
      ReachInvariant(policy, capacity, n, actions[1..]);
    }
  }

  /** In whatever order the spawned sends complete, at a message boundary Independent has left in
      every queue the history that Strict would have: every message, in order. */
  lemma IndependentMatchesStrict(capacity: nat, targets: nat, strict: seq<Action>, independent: seq<Action>, t: nat)
    requires t < targets
    requires var r := Reach(Strict, capacity, Launch(targets), strict);
             var q := Reach(Independent, capacity, Launch(targets), independent);
             r.Some? && q.Some? && r.value.stage.Between? && q.value.stage.Between? && r.value.made == q.value.made
    ensures var r := Reach(Strict, capacity, Launch(targets), strict).value;
            var q := Reach(Independent, capacity, Launch(targets), independent).value;
            && |r.lanes| == |q.lanes| == targets
            && q.lanes[t].accepted == r.lanes[t].accepted == q.made && q.lanes[t].dropped == []
  {
    ReachInvariant(Strict, capacity, Launch(targets), strict);
    ReachInvariant(Independent, capacity, Launch(targets), independent);
    var r := Reach(Strict, capacity, Launch(targets), strict).value;
    var q := Reach(Independent, capacity, Launch(targets), independent).value;
    assert LaneOk(Strict, capacity, r, t) && LaneOk(Independent, capacity, q, t);
  }

  /** At any moment of a Strict or Independent run two histories are equal or differ by the current
      message, and under Strict only an earlier target can be ahead. */
  lemma HistoriesDifferByOne(policy: Policy, capacity: nat, targets: nat, actions: seq<Action>, t: nat, u: nat)
    requires !policy.BestEffort? && t < targets && u < targets
    requires Reach(policy, capacity, Launch(targets), actions).Some?
    ensures var s := Reach(policy, capacity, Launch(targets), actions).value;
            && |s.lanes| == targets
            && var a, b := s.lanes[t].accepted, s.lanes[u].accepted;
            && (a == b || a == b + [Current(s)] || b == a + [Current(s)])
            && (policy.Strict? && |a| > |b| ==> t < u)
  {
    ReachInvariant(policy, capacity, Launch(targets), actions);
    var s := Reach(policy, capacity, Launch(targets), actions).value;
    assert LaneOk(policy, capacity, s, t) && LaneOk(policy, capacity, s, u);
    PastsDiffer(policy, s, t, u);
  }

  lemma PastsDiffer(policy: Policy, s: State, t: nat, u: nat)
    requires StageOk(policy, s) && !policy.BestEffort?
    ensures var a, b := Past(s, t), Past(s, u);
            && (a == b || a == b + [Current(s)] || b == a + [Current(s)])
            && (policy.Strict? && |a| > |b| ==> t < u)
  {
    if s.made != [] {
      assert s.made == s.made[..|s.made| - 1] + [Current(s)];
    }
  }

  /** BestEffort only leaves messages out: what a target accepted is a subsequence of what was
      generated, and every message that has been through it was accepted or dropped. */
  lemma BestEffortOnlyOmits(capacity: nat, targets: nat, actions: seq<Action>, t: nat)
    requires t < targets && Reach(BestEffort, capacity, Launch(targets), actions).Some?
    ensures var s := Reach(BestEffort, capacity, Launch(targets), actions).value;
            && |s.lanes| == targets
            && Subsequence(s.lanes[t].accepted, s.made)
            && multiset(s.lanes[t].accepted) + multiset(s.lanes[t].dropped) == multiset(Past(s, t))
  {
    ReachInvariant(BestEffort, capacity, Launch(targets), actions);
    var s := Reach(BestEffort, capacity, Launch(targets), actions).value;
    assert LaneOk(BestEffort, capacity, s, t);
    if s.made != [] {
      assert s.made == s.made[..|s.made| - 1] + [Current(s)];
      if !Served(s.stage, t) {
        SubsequenceSnoc(s.lanes[t].accepted, s.made[..|s.made| - 1], Current(s));
      }
    }
  }

  /** No queue ever exceeds its capacity under any policy. */
  lemma LanesBounded(policy: Policy, capacity: nat, targets: nat, actions: seq<Action>, t: nat)
    requires t < targets && Reach(policy, capacity, Launch(targets), actions).Some?
    ensures var s := Reach(policy, capacity, Launch(targets), actions).value;
            |s.lanes| == targets && |s.lanes[t].queue| <= capacity
  {
    ReachInvariant(policy, capacity, Launch(targets), actions);
    var s := Reach(policy, capacity, Launch(targets), actions).value;
    assert LaneOk(policy, capacity, s, t);
  }

  /** In a run, a step drops a message for a target exactly when it is a BestEffort attempt at that target and
      its queue is full; the queue and the accepted history then stay as they are. */
  lemma DropsOnlyWhenFull(policy: Policy, capacity: nat, targets: nat, actions: seq<Action>, a: Action, t: nat)
    requires t < targets && Reach(policy, capacity, Launch(targets), actions).Some?
    requires Possible(capacity, Reach(policy, capacity, Launch(targets), actions).value, a)
    ensures var s := Reach(policy, capacity, Launch(targets), actions).value;
            var n := Next(policy, capacity, s, a);
            && |s.lanes| == |n.lanes| == targets
            && (n.lanes[t].dropped != s.lanes[t].dropped <==>
                  a.Try? && t == s.stage.next && |s.lanes[t].queue| == capacity)
            && (n.lanes[t].dropped != s.lanes[t].dropped ==>
                  policy.BestEffort? && n.lanes[t] == s.lanes[t].(dropped := s.lanes[t].dropped + [Current(s)]))
  {
    ReachInvariant(policy, capacity, Launch(targets), actions);
    var s := Reach(policy, capacity, Launch(targets), actions).value;
    assert LaneOk(policy, capacity, s, t);
    assert |s.lanes[t].dropped + [Current(s)]| != |s.lanes[t].dropped|;
  }

  /** The queue holds the newest of what was accepted. */
  predicate QueueIsTail(lane: Lane) {
    |lane.queue| <= |lane.accepted| && lane.queue == lane.accepted[|lane.accepted| - |lane.queue|..]
  }

  lemma TakeKeepsTail(lane: Lane, m: nat)
    requires QueueIsTail(lane)
    ensures QueueIsTail(Take(lane, m))
    ensures lane.queue != [] ==> QueueIsTail(lane.(queue := lane.queue[1..]))
  {
  }

  lemma NextTails(policy: Policy, capacity: nat, s: State, a: Action)
    requires Possible(capacity, s, a) && forall t | 0 <= t < |s.lanes| :: QueueIsTail(s.lanes[t])
    ensures var n := Next(policy, capacity, s, a);
            |n.lanes| == |s.lanes| && forall t | 0 <= t < |n.lanes| :: QueueIsTail(n.lanes[t])
  {
    forall t | 0 <= t < |s.lanes|
      ensures QueueIsTail(Next(policy, capacity, s, a).lanes[t])
    {
      TakeKeepsTail(s.lanes[t], Current(s));
    }
  }

  lemma {:induction false} ReachTails(policy: Policy, capacity: nat, s: State, actions: seq<Action>)
    requires Reach(policy, capacity, s, actions).Some?
    requires forall t | 0 <= t < |s.lanes| :: QueueIsTail(s.lanes[t])
    ensures var r := Reach(policy, capacity, s, actions).value;
            |r.lanes| == |s.lanes| && forall t | 0 <= t < |s.lanes| :: QueueIsTail(r.lanes[t])
    decreases |actions|
  {
    if actions != [] {
      NextTails(policy, capacity, s, actions[0]);
      ReachTails(policy, capacity, Next(policy, capacity, s, actions[0]), actions[1..]);
    }
  }

  /** Under every policy a target consumes in order: its queue is always the end of what it accepted. */
  lemma QueueHoldsNewest(policy: Policy, capacity: nat, targets: nat, actions: seq<Action>, t: nat)
    requires t < targets && Reach(policy, capacity, Launch(targets), actions).Some?
    ensures var s := Reach(policy, capacity, Launch(targets), actions).value;
            |s.lanes| == targets && QueueIsTail(s.lanes[t])
  {
    ReachTails(policy, capacity, Launch(targets), actions);
  }
}
