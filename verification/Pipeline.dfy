/** One phase of generation: the producer loop of `run_phase_multi` interleaved with the worker
    pools of all targets (distributions other than broadcast).

    The producer is cut at its await points, so cancellation, the deadline and every worker step
    may fall anywhere between two of its own steps. */
module Pipeline {
  import opened Basics
  import Dispatch
  import opened WorkerPool

  /** `drops` stands for the packet-loss decision, a function of the sequence number. */
  datatype Config = Config(
    capacity: nat,
    dispatch: seq<nat>,
    total: Option<nat>,
    hasDeadline: bool,
    drops: nat -> bool)

  datatype Producer =
    | Top                  // about to test the stop conditions
    | Pacing               // waiting for its rate slot or for cancellation
    | Sending(target: nat) // holds the last generated message for this target
    | Leaving(next: nat)   // after the loop, dropping the senders one by one

  /** `made` is the loop's sequence counter: the messages generated so far are 1..made. */
  datatype State = State(pools: seq<Pool>, producer: Producer, made: nat, cancelled: bool, expired: bool)

  datatype Action =
    | Cancel
    | Expire
    | Test
    | Pace(go: bool)
    | Deliver
    | DropSender
    | Work(target: nat, step: Step)

  predicate WellFormed(cfg: Config, targets: nat) {
    cfg.dispatch != [] && forall i | 0 <= i < |cfg.dispatch| :: cfg.dispatch[i] < targets
  }

  function Route(cfg: Config, m: nat): nat
    requires cfg.dispatch != [] && m > 0
  {
    Dispatch.Pick(cfg.dispatch, m)
  }

  predicate Stops(cfg: Config, s: State) {
    || s.cancelled
    || s.expired
    || (cfg.total.Some? && s.made >= cfg.total.value)
    || (!cfg.hasDeadline && cfg.total.None? && s.made >= 1)
  }

  predicate Possible(cfg: Config, s: State, a: Action) {
    match a
    case Cancel => true
    case Expire => cfg.hasDeadline
    case Test => s.producer.Top?
    case Pace(go) => s.producer.Pacing? && (go || s.cancelled)
    case Deliver =>
      s.producer.Sending? && s.producer.target < |s.pools|
      && Enabled(s.pools[s.producer.target], cfg.capacity, Send(s.made))
    case DropSender =>
      s.producer.Leaving? && s.producer.next < |s.pools| && s.pools[s.producer.next].open
    case Work(t, step) =>
      t < |s.pools| && !step.Send? && !step.Close? && Enabled(s.pools[t], cfg.capacity, step)
  }

  function Advance(cfg: Config, s: State, t: nat, step: Step): State
    requires t < |s.pools| && Enabled(s.pools[t], cfg.capacity, step)
  {
    s.(pools := s.pools[t := Apply(s.pools[t], cfg.capacity, step)])
  }

  function Next(cfg: Config, s: State, a: Action): State
    requires cfg.dispatch != [] && Possible(cfg, s, a)
  {
    match a
    case Cancel => s.(cancelled := true)
    case Expire => s.(expired := true)
    case Test => s.(producer := if Stops(cfg, s) then Leaving(0) else Pacing)
    case Pace(go) =>
      if !go then s.(producer := Leaving(0))
      else
        var m := s.made + 1;
        s.(made := m, producer := if cfg.drops(m) then Top else Sending(Route(cfg, m)))
    case Deliver => Advance(cfg, s, s.producer.target, Send(s.made)).(producer := Top)
    case DropSender => Advance(cfg, s, s.producer.next, Close).(producer := Leaving(s.producer.next + 1))
    case Work(t, step) => Advance(cfg, s, t, step)
  }

  /** Before the loop: every target has an empty queue and an idle pool of the given size. */
  function Launch(sizes: seq<nat>): State {
    State(seq(|sizes|, i requires 0 <= i < |sizes| => Start(sizes[i])), Top, 0, false, false)
  }

  /** `s` can be reached by some interleaving. */
  function Reach(cfg: Config, s: State, actions: seq<Action>): Option<State>
    requires cfg.dispatch != []
    decreases |actions|
  {
    if actions == [] then Some(s)
    else if Possible(cfg, s, actions[0]) then Reach(cfg, Next(cfg, s, actions[0]), actions[1..])
    else None
  }

  // ----- The invariant -----

  /** Message `m` survives packet loss and is meant for target `t`. */
  predicate Takes(cfg: Config, t: nat, m: nat)
    requires cfg.dispatch != []
  {
    m > 0 && !cfg.drops(m) && Route(cfg, m) == t
  }

  /** The messages among 1..k that are meant for target `t`, in generation order. */
  function Routed(cfg: Config, t: nat, k: nat): seq<nat>
    requires cfg.dispatch != []
  {
    if k == 0 then []
    else Routed(cfg, t, k - 1) + if Takes(cfg, t, k) then [k] else []
  }

  /** The messages the producer no longer holds are 1..Settled. */
  function Settled(s: State): nat {
    if s.producer.Sending? && s.made > 0 then s.made - 1 else s.made
  }

  ghost predicate ProducerOk(cfg: Config, s: State)
    requires cfg.dispatch != []
  {
    && (s.producer.Sending? ==> s.made > 0 && !cfg.drops(s.made) && s.producer.target == Route(cfg, s.made))
    && (s.producer.Leaving? ==> s.producer.next <= |s.pools|)
    && (forall t | 0 <= t < |s.pools| :: s.pools[t].open <==> !(s.producer.Leaving? && t < s.producer.next))
    && (cfg.total.Some? ==> s.made <= cfg.total.value)
    && (!cfg.hasDeadline && cfg.total.None? ==> s.made <= 1)
    && (s.producer.Pacing? && cfg.total.Some? ==> s.made < cfg.total.value)
    && (s.producer.Pacing? && !cfg.hasDeadline && cfg.total.None? ==> s.made == 0)
    && (s.expired ==> cfg.hasDeadline)
    && (s.producer.Leaving? && !s.cancelled && !s.expired ==> AllMade(cfg, s.made))
  }

  /** The phase has generated all it should: its total, or one message when nothing limits it. */
  predicate AllMade(cfg: Config, made: nat) {
    if cfg.total.Some? then made == cfg.total.value else !cfg.hasDeadline && made == 1
  }

  ghost predicate PoolsOk(cfg: Config, s: State)
    requires cfg.dispatch != []
  {
    forall t | 0 <= t < |s.pools| ::
      Valid(s.pools[t], cfg.capacity) && s.pools[t].accepted == Routed(cfg, t, Settled(s))
  }

  ghost predicate Invariant(cfg: Config, s: State) {
    && WellFormed(cfg, |s.pools|)
    && ProducerOk(cfg, s)
    && PoolsOk(cfg, s)
  }

  lemma LaunchInvariant(cfg: Config, sizes: seq<nat>)
    requires WellFormed(cfg, |sizes|)
    ensures Invariant(cfg, Launch(sizes))
  {
    forall t | 0 <= t < |sizes| ensures Valid(Launch(sizes).pools[t], cfg.capacity) {
      StartValid(sizes[t], cfg.capacity);
    }
  }

  lemma ControlInvariant(cfg: Config, s: State, a: Action)
    requires Invariant(cfg, s) && Possible(cfg, s, a) && (a.Cancel? || a.Expire? || a.Test?)
    ensures Invariant(cfg, Next(cfg, s, a))
  {
  }

  lemma PaceInvariant(cfg: Config, s: State, passed: bool)
    requires Invariant(cfg, s) && Possible(cfg, s, Pace(passed))
    ensures Invariant(cfg, Next(cfg, s, Pace(passed)))
  {
    var m := s.made + 1;
    if passed && cfg.drops(m) {
      assert forall t | 0 <= t < |s.pools| :: Routed(cfg, t, m) == Routed(cfg, t, s.made);
    }
  }

  lemma DeliverInvariant(cfg: Config, s: State)
    requires Invariant(cfg, s) && Possible(cfg, s, Deliver)
    ensures Invariant(cfg, Next(cfg, s, Deliver))
  {
    var n, target := Next(cfg, s, Deliver), s.producer.target;
    StepValid(s.pools[target], cfg.capacity, Send(s.made));
    forall t | 0 <= t < |s.pools| ensures n.pools[t].accepted == Routed(cfg, t, s.made) {
      assert Routed(cfg, t, s.made) == Routed(cfg, t, s.made - 1) + if t == target then [s.made] else [];
    }
  }

  /** Only the pool of target `t` changes, and neither what it accepted nor whether it is open. */
  lemma PoolReplaced(cfg: Config, s: State, t: nat, q: Pool)
    requires Invariant(cfg, s) && t < |s.pools| && Valid(q, cfg.capacity)
    requires q.accepted == s.pools[t].accepted && q.open == s.pools[t].open
    ensures Invariant(cfg, s.(pools := s.pools[t := q]))
  {
  }

  lemma WorkInvariant(cfg: Config, s: State, t: nat, step: Step)
    requires Invariant(cfg, s) && Possible(cfg, s, Work(t, step))
    ensures Invariant(cfg, Next(cfg, s, Work(t, step)))
  {
    StepValid(s.pools[t], cfg.capacity, step);
    PoolReplaced(cfg, s, t, Apply(s.pools[t], cfg.capacity, step));
  }

  lemma DropSenderInvariant(cfg: Config, s: State)
    requires Invariant(cfg, s) && Possible(cfg, s, DropSender)
    ensures Invariant(cfg, Next(cfg, s, DropSender))
  {
    StepValid(s.pools[s.producer.next], cfg.capacity, Close);
  }

  lemma NextInvariant(cfg: Config, s: State, a: Action)
    requires Invariant(cfg, s) && Possible(cfg, s, a)
    ensures Invariant(cfg, Next(cfg, s, a))
  {
    match a {
      case Deliver => DeliverInvariant(cfg, s);
      case DropSender => DropSenderInvariant(cfg, s);
      case Work(t, step) => WorkInvariant(cfg, s, t, step);
      case Pace(go) => PaceInvariant(cfg, s, go);
      case _ => ControlInvariant(cfg, s, a);
    }
  }

  lemma {:induction false} ReachInvariant(cfg: Config, s: State, actions: seq<Action>)
    requires Invariant(cfg, s) && Reach(cfg, s, actions).Some?
    ensures Invariant(cfg, Reach(cfg, s, actions).value)
    ensures |Reach(cfg, s, actions).value.pools| == |s.pools|
    decreases |actions|
  {
    if actions != [] {
      NextInvariant(cfg, s, actions[0]);
      ReachInvariant(cfg, Next(cfg, s, actions[0]), actions[1..]);
    }
  }

  // ----- What the invariant means -----

  /** In how many places of one target message `m` is: its queue, its workers' hands, its output. */
  function PlacesInPool(p: Pool, m: nat): nat {
    multiset(p.queue)[m] + Held(p.workers, m) + multiset(p.finished)[m]
  }

  function PlacesInPools(pools: seq<Pool>, m: nat): nat {
    if pools == [] then 0 else PlacesInPool(pools[0], m) + PlacesInPools(pools[1..], m)
  }

  /** All places of message `m`: lost by the packet-loss anomaly, being sent, or at some target. */
  function Places(cfg: Config, s: State, m: nat): nat {
    (if 1 <= m <= s.made && cfg.drops(m) then 1 else 0)
    + (if s.producer.Sending? && m == s.made then 1 else 0)
    + PlacesInPools(s.pools, m)
  }

  lemma {:induction false} RoutedCount(cfg: Config, t: nat, k: nat, m: nat)
    requires cfg.dispatch != []
    ensures multiset(Routed(cfg, t, k))[m] == if m <= k && Takes(cfg, t, m) then 1 else 0
  {
    if k > 0 {
      RoutedCount(cfg, t, k - 1, m);
      var taken := Takes(cfg, t, k);
      var last := if taken then [k] else [];
      assert Routed(cfg, t, k) == Routed(cfg, t, k - 1) + last;
      assert multiset(last)[m] == if taken && m == k then 1 else 0;
    }
  }

  lemma PoolPlaces(p: Pool, capacity: nat, m: nat)
    requires Valid(p, capacity)
    ensures PlacesInPool(p, m) == multiset(p.accepted)[m]
  {
    assert multiset(p.accepted) == multiset(p.taken) + multiset(p.queue);
  }

  /** Only the target a message is routed to ever has it. */
  lemma {:induction false} PoolsPlaces(cfg: Config, s: State, m: nat, from: nat)
    requires Invariant(cfg, s) && from <= |s.pools|
    ensures PlacesInPools(s.pools[from..], m)
         == if 1 <= m <= Settled(s) && !cfg.drops(m) && Route(cfg, m) >= from then 1 else 0
    decreases |s.pools| - from
  {
    if from < |s.pools| {
      assert s.pools[from..][0] == s.pools[from] && s.pools[from..][1..] == s.pools[from + 1..];
      PoolsPlaces(cfg, s, m, from + 1);
      PoolPlaces(s.pools[from], cfg.capacity, m);
      RoutedCount(cfg, from, Settled(s), m);
    } else if m > 0 {
      assert Route(cfg, m) < |s.pools|;
    }
  }

  /** In every interleaving each generated message is in exactly one place, and no other message
      is anywhere. */
  lemma ExactlyOnePlace(cfg: Config, sizes: seq<nat>, actions: seq<Action>, m: nat)
    requires WellFormed(cfg, |sizes|) && Reach(cfg, Launch(sizes), actions).Some?
    ensures var s := Reach(cfg, Launch(sizes), actions).value;
            Places(cfg, s, m) == if 1 <= m <= s.made then 1 else 0
  {
    var s := Reach(cfg, Launch(sizes), actions).value;
    LaunchInvariant(cfg, sizes);
    ReachInvariant(cfg, Launch(sizes), actions);
    PoolsPlaces(cfg, s, m, 0);
    assert s.pools[0..] == s.pools;
  }

  ghost predicate Increasing(ms: seq<nat>) {
    forall i, j | 0 <= i < j < |ms| :: ms[i] < ms[j]
  }

  lemma {:induction false} RoutedIncreasing(cfg: Config, t: nat, k: nat)
    requires cfg.dispatch != []
    ensures Increasing(Routed(cfg, t, k))
    ensures forall i | 0 <= i < |Routed(cfg, t, k)| :: Routed(cfg, t, k)[i] <= k
  {
    if k > 0 {
      RoutedIncreasing(cfg, t, k - 1);
    }
  }

  /** No queue outgrows its capacity; polls and the queue split the routed messages in order, so
      workers take messages in sequence order and the queue keeps it. */
  lemma QueuesBoundedAndOrdered(cfg: Config, sizes: seq<nat>, actions: seq<Action>, t: nat)
    requires WellFormed(cfg, |sizes|) && t < |sizes| && Reach(cfg, Launch(sizes), actions).Some?
    ensures var s := Reach(cfg, Launch(sizes), actions).value;
            && |s.pools| == |sizes|
            && |s.pools[t].queue| <= cfg.capacity
            && s.pools[t].taken + s.pools[t].queue == Routed(cfg, t, Settled(s))
            && Increasing(s.pools[t].taken + s.pools[t].queue)
  {
    var s := Reach(cfg, Launch(sizes), actions).value;
    LaunchInvariant(cfg, sizes);
    ReachInvariant(cfg, Launch(sizes), actions);
    RoutedIncreasing(cfg, t, Settled(s));
  }

  /** The count limit holds at every moment; a phase that ends without a cancellation or its deadline has
      made its whole count, and one limited by neither count nor time exactly one message. */
  lemma GenerationBounded(cfg: Config, sizes: seq<nat>, actions: seq<Action>)
    requires WellFormed(cfg, |sizes|) && Reach(cfg, Launch(sizes), actions).Some?
    ensures var s := Reach(cfg, Launch(sizes), actions).value;
            && (cfg.total.Some? ==> s.made <= cfg.total.value)
            && (cfg.total.None? && !cfg.hasDeadline ==> s.made <= 1)
            && (s.producer.Leaving? && !s.cancelled && !s.expired ==> AllMade(cfg, s.made))
  {
    LaunchInvariant(cfg, sizes);
    ReachInvariant(cfg, Launch(sizes), actions);
  }

  /** Once the token is cancelled or the deadline has passed, whatever follows, no message is generated but
      the one whose pacing had already begun. */
  lemma {:induction false} StopEndsGeneration(cfg: Config, s: State, actions: seq<Action>)
    requires cfg.dispatch != [] && Reach(cfg, s, actions).Some? && (s.cancelled || s.expired)
    ensures var r := Reach(cfg, s, actions).value;
            (r.cancelled || r.expired) && r.made <= s.made + if s.producer.Pacing? then 1 else 0
    decreases |actions|
  {
    if actions != [] {
      StopEndsGeneration(cfg, Next(cfg, s, actions[0]), actions[1..]);
    }
  }

  lemma {:induction false} RoutedPicks(cfg: Config, t: nat, k: nat)
    requires cfg.dispatch != [] && forall m | 1 <= m <= k :: !cfg.drops(m)
    ensures |Routed(cfg, t, k)| == Dispatch.Picks(cfg.dispatch, t, 1, k)
  {
    if k > 0 {
      RoutedPicks(cfg, t, k - 1);
    }
  }

  /** In every interleaving of a phase without packet loss the targets share the messages by weight: target `t` has
      accepted its weight (at least one) for each full cycle of the table, and for a cycle begun at most that. */
  lemma LoadShared(cfg: Config, weights: seq<nat>, weighted: bool, sizes: seq<nat>, actions: seq<Action>, t: nat)
    requires t < |weights| == |sizes| && cfg.dispatch == Dispatch.Table(weights, weighted)
    requires cfg.dispatch != [] && Reach(cfg, Launch(sizes), actions).Some? && forall m: nat :: !cfg.drops(m)
    ensures var s := Reach(cfg, Launch(sizes), actions).value;
            var share := if weighted && weights[t] > 0 then weights[t] else 1;
            && |s.pools| == |sizes|
            && Settled(s) / |cfg.dispatch| * share <= |s.pools[t].accepted|
            && |s.pools[t].accepted| <= Dispatch.CeilDiv(Settled(s), |cfg.dispatch|) * share
  {
    var s := Reach(cfg, Launch(sizes), actions).value;
    Dispatch.TableShares(weights, weighted);
    LaunchInvariant(cfg, sizes);
    ReachInvariant(cfg, Launch(sizes), actions);
    RoutedPicks(cfg, t, Settled(s));
    Dispatch.FairShare(weights, weighted, t, 1, Settled(s));
    assert s.pools[t].accepted == Routed(cfg, t, Settled(s));
  }

  /** When a phase is over, what target `t` was meant to get is what its workers wrote (in some
      order) followed by what was left in its queue. */
  lemma PhaseOutcome(cfg: Config, sizes: seq<nat>, actions: seq<Action>, t: nat)
    requires WellFormed(cfg, |sizes|) && t < |sizes| && Reach(cfg, Launch(sizes), actions).Some?
    requires var s := Reach(cfg, Launch(sizes), actions).value;
             t < |s.pools| && Complete(s.pools[t])
    ensures var s := Reach(cfg, Launch(sizes), actions).value;
            && Routed(cfg, t, s.made) == s.pools[t].taken + s.pools[t].queue
            && multiset(s.pools[t].finished) == multiset(s.pools[t].taken)
  {
    var s := Reach(cfg, Launch(sizes), actions).value;
    LaunchInvariant(cfg, sizes);
    ReachInvariant(cfg, Launch(sizes), actions);
    var p := s.pools[t];
    forall m: nat ensures multiset(p.finished)[m] == multiset(p.taken)[m] {
      HeldNothing(p.workers, m);
    }
  }
}
