/** The producer loop of one phase as it runs: its counters and queues updated in place, the workers,
    signals and the deadline acting at its await points.  Every execution is a run of the step system. */
module PhaseLoop {
  import opened Basics
  import opened Pipeline
  import opened WorkerPool

  /** What happens while the loop waits once, and whether a pacing delay wins over a cancellation. */
  datatype Pause = Pause(others: seq<Action>, go: bool)

  lemma {:induction false} ReachSnoc(cfg: Config, s: State, actions: seq<Action>, a: Action)
    requires cfg.dispatch != [] && Reach(cfg, s, actions).Some? && Possible(cfg, Reach(cfg, s, actions).value, a)
    ensures Reach(cfg, s, actions + [a]) == Some(Next(cfg, Reach(cfg, s, actions).value, a))
    decreases |actions|
  {
    if actions == [] {
      EmptySides([a]);
      assert [a][1..] == [];
    } else {
      HeadTail(actions, [a]);
      ReachSnoc(cfg, Next(cfg, s, actions[0]), actions[1..], a);
    }
  }

  /** A run up to any of its moments at which a stop was signalled: at most one message came after it. */
  lemma {:induction false} StoppedRun(cfg: Config, s: State, actions: seq<Action>, k: nat)
    requires cfg.dispatch != [] && Reach(cfg, s, actions).Some? && k <= |actions|
    ensures var at := Reach(cfg, s, actions[..k]);
            at.Some? && (at.value.cancelled || at.value.expired ==>
              Reach(cfg, s, actions).value.made <= at.value.made + if at.value.producer.Pacing? then 1 else 0)
    decreases |actions|
  {
    if k == 0 {
      if s.cancelled || s.expired {
        StopEndsGeneration(cfg, s, actions);
      }
    } else {
      assert actions[..k][1..] == actions[1..][..k - 1];
      StoppedRun(cfg, Next(cfg, s, actions[0]), actions[1..], k - 1);
    }
  }

  /** What the signals, the deadline and the workers make of a state; what is not possible does not happen. */
  function AtAwait(cfg: Config, s: State, others: seq<Action>): State
    requires cfg.dispatch != []
  {
    if others == [] then s
    else
      var before, a := AtAwait(cfg, s, others[..|others| - 1]), others[|others| - 1];
      if (a.Cancel? || a.Expire? || a.Work?) && Possible(cfg, before, a) then Next(cfg, before, a) else before
  }

  lemma {:induction false} AwaitFlags(cfg: Config, s: State, others: seq<Action>)
    requires cfg.dispatch != []
    ensures var n := AtAwait(cfg, s, others);
            && n.producer == s.producer && n.made == s.made
            && (n.cancelled <==> s.cancelled || Cancel in others)
            && (n.expired <==> s.expired || (cfg.hasDeadline && Expire in others))
  {
    if others != [] {
      var front, a := others[..|others| - 1], others[|others| - 1];
      AwaitFlags(cfg, s, front);
      assert others == front + [a];
    }
  }

  class Loop {
    const cfg: Config
    ghost const sizes: seq<nat>
    var pools: seq<Pool>
    var seqNo: nat
    var cancelled: bool
    var expired: bool
    ghost var trace: seq<Action>

    ghost function StateAt(place: Producer): State
      reads this
    {
      State(pools, place, seqNo, cancelled, expired)
    }

    /** The fields are a state of the step system, reached by the recorded actions. */
    ghost predicate At(place: Producer)
      reads this
    {
      WellFormed(cfg, |sizes|) && |pools| == |sizes|
      && Reach(cfg, Launch(sizes), trace) == Some(StateAt(place))
    }

    constructor (cfg: Config, sizes: seq<nat>)
      requires WellFormed(cfg, |sizes|)
      ensures At(Top) && this.cfg == cfg && this.sizes == sizes && seqNo == 0
    {
      this.cfg, this.sizes := cfg, sizes;
      pools := Launch(sizes).pools;
      seqNo, cancelled, expired, trace := 0, false, false, [];
    }

    /** Wherever the loop stands: since any earlier moment at which a stop was signalled, at most the message then
        being paced was generated. */
    lemma OneMoreAtMost(place: Producer, k: nat)
      requires At(place) && k <= |trace|
      ensures var at := Reach(cfg, Launch(sizes), trace[..k]);
              at.Some? && (at.value.cancelled || at.value.expired ==>
                seqNo <= at.value.made + if at.value.producer.Pacing? then 1 else 0)
    {
      StoppedRun(cfg, Launch(sizes), trace, k);
    }

    ghost method Record(from: Producer, a: Action)
      requires WellFormed(cfg, |sizes|) && Reach(cfg, Launch(sizes), trace).Some?
      requires Possible(cfg, Reach(cfg, Launch(sizes), trace).value, a)
      modifies this`trace
      ensures Reach(cfg, Launch(sizes), trace) == Some(Next(cfg, Reach(cfg, Launch(sizes), old(trace)).value, a))
    {
      ReachSnoc(cfg, Launch(sizes), trace, a);
      trace := trace + [a];
    }

    /** An await point: signals, the deadline and the workers act; what is not possible does not happen. */
    method Interleave(others: seq<Action>, ghost place: Producer)
      requires At(place)
      modifies this`pools, this`cancelled, this`expired, this`trace
      ensures At(place) && StateAt(place) == AtAwait(cfg, old(StateAt(place)), others)
      ensures cancelled <==> old(cancelled) || Cancel in others
      ensures expired <==> old(expired) || (cfg.hasDeadline && Expire in others)
    {
      ghost var start := StateAt(place);
      for i := 0 to |others|
        invariant At(place) && StateAt(place) == AtAwait(cfg, start, others[..i])
      {
        var a := others[i];
        assert others[..i + 1][..i] == others[..i];
        match a {
          case Cancel =>
            Record(place, a);
            cancelled := true;
          case Expire =>
            if cfg.hasDeadline {
              Record(place, a);
              expired := true;
            }
          case Work(t, step) =>
            if t < |pools| && !step.Send? && !step.Close? && Enabled(pools[t], cfg.capacity, step) {
              Record(place, a);
              pools := pools[t := Apply(pools[t], cfg.capacity, step)];
            }
          case _ =>
        }
      }
      assert others[..|others|] == others;
      AwaitFlags(cfg, start, others);
    }

    /** The test of the stop conditions at the top of the loop. */
    method MustStop() returns (stop: bool)
      requires At(Top)
      modifies this`trace
      ensures At(if stop then Leaving(0) else Pacing)
      ensures cancelled || expired ==> stop
      ensures !cancelled && !expired && cfg.hasDeadline && cfg.total.None? ==> !stop
    {
      var bounded := cfg.hasDeadline || cfg.total.Some?;
      Record(Top, Test);
      stop := cancelled || expired || (cfg.total.Some? && seqNo >= cfg.total.value) || (!bounded && seqNo >= 1);
    }

    /** The wait for the rate, then the next sequence number and its packet-loss decision: `place` is where
        the loop goes on. */
    method Generate(pause: Pause) returns (place: Producer)
      requires At(Pacing)
      modifies this
      ensures At(place) && (place.Top? || place == Leaving(0) || (place.Sending? && place.target < |pools|))
      ensures if !pause.go && (old(cancelled) || Cancel in pause.others) then place == Leaving(0) && seqNo == old(seqNo)
              else seqNo == old(seqNo) + 1
    {
      Interleave(pause.others, Pacing);
      var go := pause.go || !cancelled;
      Record(Pacing, Pace(go));
      if !go {
        return Leaving(0);
      }
      seqNo := seqNo + 1;
      if cfg.drops(seqNo) {
        return Top;
      }
      return Sending(cfg.dispatch[(seqNo - 1) % |cfg.dispatch|]);
    }

    /** The send waits for room; it gives up only when `pauses` runs out. */
    method Send(index: nat, pauses: seq<Pause>, from: nat) returns (sent: bool, i: nat)
      requires At(Sending(index)) && index < |pools| && from <= |pauses|
      modifies this
      ensures from <= i <= |pauses| && At(if sent then Top else Sending(index))
      ensures !sent ==> i == |pauses| && (!pools[index].open || |pools[index].queue| >= cfg.capacity)
    {
      i := from;
      while i < |pauses| && !Enabled(pools[index], cfg.capacity, WorkerPool.Send(seqNo))
        invariant from <= i <= |pauses| && At(Sending(index)) && index < |pools|
        decreases |pauses| - i
      {
        Interleave(pauses[i].others, Sending(index));
        i := i + 1;
      }
      sent := Enabled(pools[index], cfg.capacity, WorkerPool.Send(seqNo));
      if sent {
        Record(Sending(index), Deliver);
        pools := pools[index := Apply(pools[index], cfg.capacity, WorkerPool.Send(seqNo))];
      }
    }

    /** The loop, then the drop of the senders.  It ends early, where `place` tells, when `pauses` runs out
        while it still waits. */
    method Run(pauses: seq<Pause>) returns (place: Producer)
      requires At(Top)
      modifies this
      ensures At(place)
      ensures place.Leaving? ==> place.next == |pools|
      ensures pauses != [] && old(cancelled || expired) ==> place.Leaving? && seqNo == old(seqNo)
    {
      var i := 0;
      place := Top;
      while i < |pauses|
        invariant 0 <= i <= |pauses| && place == Top && At(Top)
        invariant old(cancelled || expired) ==> i == 0 && seqNo == old(seqNo) && (cancelled || expired)
        decreases |pauses| - i
      {
        var stop := MustStop();
        if stop {
          place := DropSenders();
          return;
        }
        place := Generate(pauses[i]);
        i := i + 1;
        if place.Leaving? {
          place := DropSenders();
          return;
        }
        if place.Sending? {
          var sent;
          sent, i := Send(place.target, pauses, i);
          if !sent {
            return;
          }
          place := Top;
        }
      }
    }

    method DropSenders() returns (place: Producer)
      requires At(Leaving(0))
      modifies this`pools, this`trace
      ensures place == Leaving(|pools|) && At(place)
    {
      for t := 0 to |pools|
        invariant At(Leaving(t))
      {
        LaunchInvariant(cfg, sizes);
        ReachInvariant(cfg, Launch(sizes), trace);
        Record(Leaving(t), DropSender);
        pools := pools[t := Apply(pools[t], cfg.capacity, Close)];
      }
      place := Leaving(|pools|);
    }
  }
}
