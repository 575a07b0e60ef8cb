/** A whole profile: its phases one after another, interleaved with signals, deadlines and the
    sender tasks of every phase started so far.

    Delivery and queues are left to `Pipeline`; here a sender task may end at any moment, well or
    badly, which only adds behaviours. */
module ProfileRun {
  import opened Basics

  datatype PhaseConfig = PhaseConfig(total: Option<nat>, hasDeadline: bool)

  /** `senders` is the number of sender tasks each phase spawns. */
  datatype Profile = Profile(phases: seq<PhaseConfig>, senders: nat, drains: bool)

  datatype Stage =
    | Setup                 // the phase is about to spawn its senders
    | Top                   // about to test the stop conditions
    | Pacing
    | Delivering
    | Left                  // past the loop, senders' channels dropped
    | Draining(next: nat)   // awaiting this handle
    | Over                  // every phase ran
    | Failed                // the run returned an error
    | Exited                // hard exit on the second signal

  datatype Event =
    | Started(phase: nat)
    | Made(phase: nat)
    | Cancelled(phase: nat)
    | Expired(phase: nat)
    | SenderDone(phase: nat, sender: nat, ok: bool)
    | DrainFailed(phase: nat)
    | HardExit

  /** `done[k][w]` tells whether sender `w` of the k-th started phase has ended, and how. */
  datatype State = State(
    phase: nat,
    stage: Stage,
    made: nat,
    expired: bool,
    signals: nat,
    done: seq<seq<Option<bool>>>,
    history: seq<Event>)

  datatype Action =
    | Signal
    | Expire
    | Spawn
    | Test
    | Pace(go: bool)
    | Deliver
    | Leave
    | Await
    | TimeOut
    | SenderEnds(phase: nat, sender: nat, ok: bool)

  predicate Live(s: State) { !s.stage.Over? && !s.stage.Failed? && !s.stage.Exited? }

  predicate Stops(pc: PhaseConfig, s: State) {
    || s.signals > 0
    || s.expired
    || (pc.total.Some? && s.made >= pc.total.value)
    || (!pc.hasDeadline && pc.total.None? && s.made >= 1)
  }

  predicate Possible(p: Profile, s: State, a: Action) {
    match a
    case Signal => !s.stage.Exited?
    case Expire => Live(s) && s.phase < |p.phases| && p.phases[s.phase].hasDeadline
    case Spawn => s.stage.Setup? && s.phase < |p.phases|
    case Test => s.stage.Top? && s.phase < |p.phases|
    case Pace(go) => s.stage.Pacing? && (go || s.signals > 0)
    case Deliver => s.stage.Delivering?
    case Leave => s.stage.Left?
    case Await =>
      s.stage.Draining? && (s.stage.next < p.senders ==>
        s.phase < |s.done| && s.stage.next < |s.done[s.phase]| && s.done[s.phase][s.stage.next].Some?)
    case TimeOut => s.stage.Draining?
    case SenderEnds(k, w, _) =>
      !s.stage.Exited? && k < |s.done| && w < |s.done[k]| && s.done[k][w].None?
  }

  function Log(s: State, e: Event): State { s.(history := s.history + [e]) }

  /** The phase returned without an error: go on to the next one, if any. */
  function NextPhase(p: Profile, s: State): State {
    if s.phase + 1 < |p.phases| then s.(phase := s.phase + 1, stage := Setup, made := 0, expired := false)
    else s.(stage := Over)
  }

  function Next(p: Profile, s: State, a: Action): State
    requires Possible(p, s, a)
  {
    match a
    case Signal =>
      if s.signals == 0 then Log(s.(signals := 1), Cancelled(s.phase))
      else Log(s.(signals := s.signals + 1, stage := Exited), HardExit)
    case Expire => Log(s.(expired := true), Expired(s.phase))
    case Spawn => Log(s.(stage := Top, done := s.done + [seq(p.senders, i => None)]), Started(s.phase))
    case Test => s.(stage := if Stops(p.phases[s.phase], s) then Left else Pacing)
    case Pace(go) =>
      if go then Log(s.(stage := Delivering, made := s.made + 1), Made(s.phase)) else s.(stage := Left)
    case Deliver => s.(stage := Top)
    case Leave => if p.drains then s.(stage := Draining(0)) else NextPhase(p, s)
    case Await =>
      if s.stage.next >= p.senders then NextPhase(p, s)
      else if s.done[s.phase][s.stage.next].value then s.(stage := Draining(s.stage.next + 1))
      else Log(s.(stage := Failed), DrainFailed(s.phase))
    case TimeOut => Log(s.(stage := Failed), DrainFailed(s.phase))
    case SenderEnds(k, w, ok) =>
      Log(s.(done := s.done[k := s.done[k][w := Some(ok)]]), SenderDone(k, w, ok))
  }

  function Launch(p: Profile): State {
    State(0, if p.phases == [] then Over else Setup, 0, false, 0, [], [])
  }

  function Reach(p: Profile, s: State, actions: seq<Action>): Option<State>
    decreases |actions|
  {
    if actions == [] then Some(s)
    else if Possible(p, s, actions[0]) then Reach(p, Next(p, s, actions[0]), actions[1..])
    else None
  }

  // ----- Reading a history -----

  function MadeIn(history: seq<Event>, k: nat): nat {
    if history == [] then 0
    else MadeIn(history[..|history| - 1], k) + if history[|history| - 1] == Made(k) then 1 else 0
  }

  predicate HasCancel(history: seq<Event>) {
    exists i | 0 <= i < |history| :: history[i].Cancelled?
  }

  /** How many messages the history records after the token was cancelled. */
  function MadeAfterCancel(history: seq<Event>): nat {
    if history == [] then 0
    else
      var front := history[..|history| - 1];
      MadeAfterCancel(front) + if history[|history| - 1].Made? && HasCancel(front) then 1 else 0
  }

  /** The message at position `i` comes after the good end of sender `w` of the phase before its own. */
  predicate WaitedFor(history: seq<Event>, i: nat, w: nat)
    requires i < |history| && history[i].Made? && history[i].phase > 0
  {
    SenderDone(history[i].phase - 1, w, true) in history[..i]
  }

  /** A message of phase `k` is preceded by the good end of every sender of phase `k - 1`. */
  ghost predicate DrainedBefore(p: Profile, history: seq<Event>) {
    forall i, w | 0 <= i < |history| && 0 <= w < p.senders && history[i].Made? && history[i].phase > 0 ::
      WaitedFor(history, i, w)
  }

  /** After a failed drain nothing is started or generated. */
  ghost predicate NothingAfterFailure(history: seq<Event>) {
    forall i, j | 0 <= i < j < |history| && history[i].DrainFailed? ::
      !history[j].Started? && !history[j].Made? && !history[j].DrainFailed?
  }

  /** A message made after the cancellation belongs to the phase that was cancelled. */
  ghost predicate LateInCancelledPhase(history: seq<Event>) {
    forall i, j | 0 <= i < j < |history| && history[i].Cancelled? && history[j].Made? ::
      history[j].phase == history[i].phase
  }

  ghost predicate NothingAfterExit(history: seq<Event>) {
    forall i | 0 <= i < |history| && history[i].HardExit? :: i == |history| - 1
  }

  // ----- Invariants, one group per theorem -----

  ghost predicate CancelInv(s: State) {
    && (s.signals > 0 <==> HasCancel(s.history))
    && MadeAfterCancel(s.history) <= 1
    && (s.signals == 0 ==> MadeAfterCancel(s.history) == 0)
    && (s.stage.Pacing? ==> MadeAfterCancel(s.history) == 0)
    && LateInCancelledPhase(s.history)
    && (s.stage.Pacing? ==>
          forall i | 0 <= i < |s.history| && s.history[i].Cancelled? :: s.history[i].phase == s.phase)
  }

  ghost predicate CountInv(p: Profile, s: State) {
    && (Live(s) ==> s.phase < |p.phases|)
    && (forall k :: k > s.phase ==> MadeIn(s.history, k) == 0)
    && MadeIn(s.history, s.phase) == s.made
    && (forall k | 0 <= k < |p.phases| ::
          && (p.phases[k].total.Some? ==> MadeIn(s.history, k) <= p.phases[k].total.value)
          && (p.phases[k].total.None? && !p.phases[k].hasDeadline ==> MadeIn(s.history, k) <= 1))
    && (s.stage.Pacing? ==>
          && s.phase < |p.phases|
          && (p.phases[s.phase].total.Some? ==> s.made < p.phases[s.phase].total.value)
          && (p.phases[s.phase].total.None? && !p.phases[s.phase].hasDeadline ==> s.made == 0))
  }

  /** Sender `w` of phase `k` is on record as having ended well. */
  predicate EndedWell(s: State, k: nat, w: nat) {
    SenderDone(k, w, true) in s.history
  }

  ghost predicate DrainInv(p: Profile, s: State) {
    && (forall k, w | 0 <= k < |s.done| && 0 <= w < |s.done[k]| && s.done[k][w] == Some(true) :: EndedWell(s, k, w))
    && (forall k | 0 <= k < |s.done| :: |s.done[k]| == p.senders)
    && (Live(s) ==> |s.done| == if s.stage.Setup? then s.phase else s.phase + 1)
    && (!p.drains ==> !s.stage.Draining? && !s.stage.Failed?)
    && (p.drains ==>
          && (s.stage.Draining? ==> forall w | 0 <= w < p.senders && w < s.stage.next :: EndedWell(s, s.phase, w))
          && (forall k, w | 0 <= k < s.phase && 0 <= w < p.senders :: EndedWell(s, k, w))
          && DrainedBefore(p, s.history))
  }

  ghost predicate FailureInv(s: State) {
    && NothingAfterFailure(s.history)
    && (forall i | 0 <= i < |s.history| && s.history[i].DrainFailed? :: !Live(s) && !s.stage.Over?)
    && NothingAfterExit(s.history)
    && (s.stage.Exited? || forall i | 0 <= i < |s.history| :: !s.history[i].HardExit?)
  }

  lemma CancelSnoc(history: seq<Event>, e: Event)
    ensures var h := history + [e];
            && (HasCancel(h) <==> HasCancel(history) || e.Cancelled?)
            && MadeAfterCancel(h) == MadeAfterCancel(history) + if e.Made? && HasCancel(history) then 1 else 0
  {
    var h := history + [e];
    assert h[..|h| - 1] == history && h[|history|] == e;
    if HasCancel(history) {
      var i :| 0 <= i < |history| && history[i].Cancelled?;
      assert h[i].Cancelled?;
    }
  }

  /** A message generated: the state was pacing, so every cancellation so far is of the current phase. */
  lemma CancelPace(p: Profile, s: State)
    requires CancelInv(s) && Possible(p, s, Pace(true))
    ensures CancelInv(Next(p, s, Pace(true)))
  {
    CancelSnoc(s.history, Made(s.phase));
  }

  /** The first signal: there was no cancellation before, and no message comes after it yet. */
  lemma CancelFirst(s: State, n: State)
    requires CancelInv(s) && s.signals == 0 && n == Log(s.(signals := 1), Cancelled(s.phase))
    ensures CancelInv(n)
  {
    CancelSnoc(s.history, Cancelled(s.phase));
    assert forall i | 0 <= i < |s.history| :: !s.history[i].Cancelled?;
  }

  /** An event that is neither a message nor a cancellation. */
  lemma CancelOther(s: State, n: State, e: Event)
    requires CancelInv(s) && n.history == s.history + [e] && !e.Made? && !e.Cancelled?
    requires (n.signals > 0 <==> s.signals > 0) && (n.stage.Pacing? ==> s.stage.Pacing? && n.phase == s.phase)
    ensures CancelInv(n)
  {
    CancelSnoc(s.history, e);
  }

  lemma CancelQuiet(p: Profile, s: State, a: Action)
    requires CancelInv(s) && Possible(p, s, a) && Next(p, s, a).history == s.history
    ensures CancelInv(Next(p, s, a))
  {
  }

  lemma CancelStep(p: Profile, s: State, a: Action)
    requires CancelInv(s) && Possible(p, s, a)
    ensures CancelInv(Next(p, s, a))
  {
    var n := Next(p, s, a);
    if a == Pace(true) {
      CancelPace(p, s);
    } else if a.Signal? && s.signals == 0 {
      CancelFirst(s, n);
    } else if |n.history| > |s.history| {
      CancelOther(s, n, n.history[|s.history|]);
    } else {
      CancelQuiet(p, s, a);
    }
  }

  lemma MadeInSnoc(history: seq<Event>, e: Event, k: nat)
    ensures MadeIn(history + [e], k) == MadeIn(history, k) + if e == Made(k) then 1 else 0
  {
    assert (history + [e])[..|history|] == history;
  }

  lemma OtherEventsUncounted(history: seq<Event>, e: Event)
    requires !e.Made?
    ensures forall k: nat :: MadeIn(history + [e], k) == MadeIn(history, k)
  {
    forall k: nat
      ensures MadeIn(history + [e], k) == MadeIn(history, k)
    {
      MadeInSnoc(history, e, k);
    }
  }

  lemma CountPace(p: Profile, s: State)
    requires CountInv(p, s) && Possible(p, s, Pace(true))
    ensures CountInv(p, Next(p, s, Pace(true)))
  {
    forall k: nat
      ensures MadeIn(s.history + [Made(s.phase)], k) == MadeIn(s.history, k) + if k == s.phase then 1 else 0
    {
      MadeInSnoc(s.history, Made(s.phase), k);
    }
  }

  lemma CountOther(p: Profile, s: State, n: State, e: Event)
    requires CountInv(p, s) && n.history == s.history + [e] && !e.Made?
    requires n.phase == s.phase && n.made == s.made && (n.stage.Pacing? ==> s.stage.Pacing?) && (Live(n) ==> Live(s))
    ensures CountInv(p, n)
  {
    OtherEventsUncounted(s.history, e);
  }

  lemma CountQuiet(p: Profile, s: State, a: Action)
    requires CountInv(p, s) && Possible(p, s, a) && Next(p, s, a).history == s.history
    ensures CountInv(p, Next(p, s, a))
  {
  }

  lemma CountStep(p: Profile, s: State, a: Action)
    requires CountInv(p, s) && Possible(p, s, a)
    ensures CountInv(p, Next(p, s, a))
  {
    var n := Next(p, s, a);
    if a == Pace(true) {
      CountPace(p, s);
    } else if |n.history| > |s.history| {
      CountOther(p, s, n, n.history[|s.history|]);
    } else {
      CountQuiet(p, s, a);
    }
  }

  lemma FailureStep(p: Profile, s: State, a: Action)
    requires FailureInv(s) && Possible(p, s, a)
    ensures FailureInv(Next(p, s, a))
  {
    var n := Next(p, s, a);
    if |n.history| > |s.history| {
      assert n.history == s.history + [n.history[|s.history|]];
    }
  }

  lemma DrainRecords(p: Profile, s: State, a: Action)
    requires DrainInv(p, s) && Possible(p, s, a)
    ensures var n := Next(p, s, a);
            && (forall k, w | 0 <= k < |n.done| && 0 <= w < |n.done[k]| && n.done[k][w] == Some(true) ::
                  EndedWell(n, k, w))
            && (forall k | 0 <= k < |n.done| :: |n.done[k]| == p.senders)
            && (Live(n) ==> |n.done| == if n.stage.Setup? then n.phase else n.phase + 1)
  {
    var n := Next(p, s, a);
    assert s.history <= n.history;
    forall k, w | 0 <= k < |n.done| && 0 <= w < |n.done[k]| && n.done[k][w] == Some(true) ensures EndedWell(n, k, w) {
      if k < |s.done| && s.done[k][w] == Some(true) {
        assert EndedWell(s, k, w);
      } else {
        assert n.history[|s.history|] == SenderDone(k, w, true);
      }
    }
  }

  lemma DrainHistory(p: Profile, s: State, e: Event)
    requires p.drains && DrainedBefore(p, s.history)
    requires forall k, w | 0 <= k < s.phase && 0 <= w < p.senders :: EndedWell(s, k, w)
    requires e.Made? ==> e.phase == s.phase
    ensures DrainedBefore(p, s.history + [e])
  {
    var h := s.history + [e];
    forall i, w | 0 <= i < |h| && 0 <= w < p.senders && h[i].Made? && h[i].phase > 0
      ensures WaitedFor(h, i, w)
    {
      assert h[..i] == s.history[..i];
      if i == |s.history| {
        assert h[..i] == s.history && EndedWell(s, s.phase - 1, w);
      } else {
        assert WaitedFor(s.history, i, w);
      }
    }
  }

  lemma DrainStep(p: Profile, s: State, a: Action)
    requires DrainInv(p, s) && Possible(p, s, a)
    ensures DrainInv(p, Next(p, s, a))
  {
    var n := Next(p, s, a);
    DrainRecords(p, s, a);
    assert s.history <= n.history;
    forall k: nat, w: nat | EndedWell(s, k, w) ensures EndedWell(n, k, w) {}
    if p.drains && |n.history| > |s.history| {
      var e := n.history[|s.history|];
      assert n.history == s.history + [e];
      DrainHistory(p, s, e);
    }
  }

  // ----- How phases start and end -----

  /** The phases started, in order. */
  function Starts(history: seq<Event>): seq<nat> {
    if history == [] then []
    else
      var e := history[|history| - 1];
      Starts(history[..|history| - 1]) + if e.Started? then [e.phase] else []
  }

  function UpTo(n: nat): (r: seq<nat>)
    ensures |r| == n && forall i :: 0 <= i < n ==> r[i] == i
  {
    if n == 0 then [] else UpTo(n - 1) + [n - 1]
  }

  lemma StartsSnoc(history: seq<Event>, e: Event)
    ensures Starts(history + [e]) == Starts(history) + if e.Started? then [e.phase] else []
  {
    assert (history + [e])[..|history|] == history;
  }

  /** All the messages of a phase: its count, or one when nothing limits it. */
  predicate MadeAll(pc: PhaseConfig, made: nat) {
    if pc.total.Some? then made == pc.total.value else !pc.hasDeadline && made == 1
  }

  /** The history shows why phase `k` may end: a signal, its deadline, or all its messages made. */
  predicate MayEnd(p: Profile, history: seq<Event>, k: nat)
    requires k < |p.phases|
  {
    || HasCancel(history)
    || Expired(k) in history
    || MadeAll(p.phases[k], MadeIn(history, k))
  }

  /** The loop of phase `k` is behind. */
  predicate Behind(s: State, k: nat) {
    k < s.phase || (k == s.phase && (s.stage.Left? || s.stage.Draining? || s.stage.Over?))
  }

  ghost predicate EndInv(p: Profile, s: State) {
    && (s.expired ==> Expired(s.phase) in s.history)
    && (forall k | 0 <= k < |p.phases| && Behind(s, k) :: MayEnd(p, s.history, k))
  }

  ghost predicate StartInv(p: Profile, s: State) {
    && Starts(s.history) == UpTo(|s.done|)
    && (s.stage.Over? ==> |s.done| == |p.phases| <= s.phase + 1)
  }

  ghost predicate Inv(p: Profile, s: State) {
    CancelInv(s) && CountInv(p, s) && DrainInv(p, s) && FailureInv(s) && EndInv(p, s) && StartInv(p, s)
  }

  lemma MayEndSnoc(p: Profile, history: seq<Event>, e: Event, k: nat)
    requires k < |p.phases| && MayEnd(p, history, k) && e != Made(k)
    ensures MayEnd(p, history + [e], k)
  {
    MadeInSnoc(history, e, k);
    CancelSnoc(history, e);
  }

  /** The state after a step, whose event is no message of a phase left behind. */
  lemma EndOther(p: Profile, s: State, n: State, e: Event)
    requires EndInv(p, s) && n.history == s.history + [e]
    requires forall k | 0 <= k < |p.phases| && Behind(n, k) :: Behind(s, k) && e != Made(k)
    requires n.expired ==> (s.expired && n.phase == s.phase) || e == Expired(n.phase)
    ensures EndInv(p, n)
  {
    forall k | 0 <= k < |p.phases| && Behind(n, k)
      ensures MayEnd(p, n.history, k)
    {
      MayEndSnoc(p, s.history, e, k);
    }
    assert forall f :: f in s.history ==> f in n.history;
    assert e in n.history;
  }

  /** Leaving the loop: the stop conditions held, or the pacing was cancelled. */
  lemma EndLeft(p: Profile, s: State, a: Action)
    requires EndInv(p, s) && CancelInv(s) && CountInv(p, s) && Possible(p, s, a) && (a.Test? || a == Pace(false))
    ensures EndInv(p, Next(p, s, a))
  {
  }

  lemma EndStep(p: Profile, s: State, a: Action)
    requires EndInv(p, s) && CancelInv(s) && CountInv(p, s) && Possible(p, s, a)
    ensures EndInv(p, Next(p, s, a))
  {
    var n := Next(p, s, a);
    if a.Test? || a == Pace(false) {
      EndLeft(p, s, a);
    } else if |n.history| > |s.history| {
      EndOther(p, s, n, n.history[|s.history|]);
    } else {
      assert forall k: nat :: Behind(n, k) ==> Behind(s, k);
    }
  }

  lemma StartSpawn(p: Profile, s: State)
    requires StartInv(p, s) && Possible(p, s, Spawn) && |s.done| == s.phase
    ensures StartInv(p, Next(p, s, Spawn))
  {
    StartsSnoc(s.history, Started(s.phase));
  }

  lemma StartOther(p: Profile, s: State, n: State, e: Event)
    requires StartInv(p, s) && n.history == s.history + [e] && !e.Started? && |n.done| == |s.done|
    requires n.stage.Over? ==> |n.done| == |p.phases| <= n.phase + 1
    ensures StartInv(p, n)
  {
    StartsSnoc(s.history, e);
  }

  /** A step without an event may be the end of the last phase. */
  lemma StartQuiet(p: Profile, s: State, a: Action)
    requires StartInv(p, s) && Possible(p, s, a) && Next(p, s, a).history == s.history
    requires Live(s) ==> s.phase < |p.phases| && |s.done| == if s.stage.Setup? then s.phase else s.phase + 1
    ensures StartInv(p, Next(p, s, a))
  {
  }

  lemma StartStep(p: Profile, s: State, a: Action)
    requires StartInv(p, s) && DrainInv(p, s) && CountInv(p, s) && Possible(p, s, a)
    ensures StartInv(p, Next(p, s, a))
  {
    var n := Next(p, s, a);
    if a.Spawn? {
      StartSpawn(p, s);
    } else if |n.history| > |s.history| {
      StartOther(p, s, n, n.history[|s.history|]);
    } else {
      StartQuiet(p, s, a);
    }
  }

  lemma {:induction false} ReachInv(p: Profile, s: State, actions: seq<Action>)
    requires Inv(p, s) && Reach(p, s, actions).Some?
    ensures Inv(p, Reach(p, s, actions).value)
    decreases |actions|
  {
    if actions != [] {
      CancelStep(p, s, actions[0]);
      CountStep(p, s, actions[0]);
      DrainStep(p, s, actions[0]);
      FailureStep(p, s, actions[0]);
      EndStep(p, s, actions[0]);
      StartStep(p, s, actions[0]);
      ReachInv(p, Next(p, s, actions[0]), actions[1..]);
    }
  }

  // ----- The theorems, about every run -----

  /** At most one message is generated after the token is cancelled, none of it in a later phase. */
  lemma CancellationStopsGeneration(p: Profile, actions: seq<Action>)
    requires Reach(p, Launch(p), actions).Some?
    ensures var h := Reach(p, Launch(p), actions).value.history;
            MadeAfterCancel(h) <= 1 && LateInCancelledPhase(h)
  {
    ReachInv(p, Launch(p), actions);
  }

  /** The bound is tight: a cancellation during pacing can still let one message through. */
  lemma OneLateMessage()
    ensures exists p: Profile, actions: seq<Action> ::
              var r := Reach(p, Launch(p), actions);
              r.Some? && MadeAfterCancel(r.value.history) == 1
  {
    var p := Profile([PhaseConfig(Some(5), false)], 0, false);
    var s0 := Launch(p);
    var s1 := Next(p, s0, Spawn);
    var s2 := Next(p, s1, Test);
    var s3 := Next(p, s2, Signal);
    var s4 := Next(p, s3, Pace(true));
    var a4, a3 := [Pace(true)], [Signal, Pace(true)];
    var a2, a1 := [Test] + a3, [Spawn] + ([Test] + a3);
    FirstStep(p, s3, Pace(true), []);
    FirstStep(p, s2, Signal, a4);
    assert [Signal] + a4 == a3 && [Pace(true)] + [] == a4;
    FirstStep(p, s1, Test, a3);
    FirstStep(p, s0, Spawn, a2);
    assert Reach(p, s0, a1) == Some(s4);
    LateHistory(s4.history);
  }

  lemma FirstStep(p: Profile, s: State, a: Action, rest: seq<Action>)
    requires Possible(p, s, a)
    ensures Reach(p, s, [a] + rest) == Reach(p, Next(p, s, a), rest)
  {
    SplitAt([a], rest);
  }

  lemma LateHistory(h: seq<Event>)
    requires h == [Started(0), Cancelled(0), Made(0)]
    ensures MadeAfterCancel(h) == 1
  {
    var f := h[..2];
    assert f == [Started(0), Cancelled(0)] && f[1].Cancelled?;
    assert f[..1] == [Started(0)] && f[..1][..0] == [] && MadeAfterCancel(f[..1]) == 0;
    assert MadeAfterCancel(f) == 0;
  }

  /** No phase exceeds its message count; one limited by neither count nor time makes one message. */
  lemma CountsRespected(p: Profile, actions: seq<Action>, k: nat)
    requires Reach(p, Launch(p), actions).Some? && k < |p.phases|
    ensures var h := Reach(p, Launch(p), actions).value.history;
            && (p.phases[k].total.Some? ==> MadeIn(h, k) <= p.phases[k].total.value)
            && (p.phases[k].total.None? && !p.phases[k].hasDeadline ==> MadeIn(h, k) <= 1)
  {
    ReachInv(p, Launch(p), actions);
  }

  /** Phase `k` has seen its deadline pass or a signal, or is over. */
  predicate Stopped(s: State, k: nat) { s.phase > k || (s.phase == k && (s.expired || s.signals > 0)) }

  function PacedIn(s: State, k: nat): nat { if s.stage.Pacing? && s.phase == k then 1 else 0 }

  lemma StopKept(p: Profile, s: State, a: Action, k: nat)
    requires Stopped(s, k) && Possible(p, s, a)
    ensures Stopped(Next(p, s, a), k)
    ensures PacedIn(Next(p, s, a), k) <= PacedIn(s, k)
  {
  }

  lemma OtherUncounted(p: Profile, s: State, a: Action, k: nat)
    requires Possible(p, s, a) && a != Pace(true)
    ensures MadeIn(Next(p, s, a).history, k) == MadeIn(s.history, k)
  {
    var n := Next(p, s, a);
    if |n.history| > |s.history| {
      MadeInSnoc(s.history, n.history[|s.history|], k);
    }
  }

  lemma StopStep(p: Profile, s: State, a: Action, k: nat)
    requires Stopped(s, k) && Possible(p, s, a)
    ensures var n := Next(p, s, a);
            Stopped(n, k) && MadeIn(n.history, k) + PacedIn(n, k) <= MadeIn(s.history, k) + PacedIn(s, k)
  {
    StopKept(p, s, a, k);
    if a == Pace(true) {
      MadeInSnoc(s.history, Made(s.phase), k);
    } else {
      OtherUncounted(p, s, a, k);
    }
  }

  /** Once a phase is stopped, whatever follows, it generates no message but the one whose pacing had already begun. */
  lemma {:induction false} StopEndsPhase(p: Profile, s: State, actions: seq<Action>, k: nat)
    requires s.phase > k || (s.phase == k && (s.expired || s.signals > 0))
    requires Reach(p, s, actions).Some?
    ensures MadeIn(Reach(p, s, actions).value.history, k)
         <= MadeIn(s.history, k) + if s.stage.Pacing? && s.phase == k then 1 else 0
    decreases |actions|
  {
    if actions != [] {
      StopStep(p, s, actions[0], k);
      StopEndsPhase(p, Next(p, s, actions[0]), actions[1..], k);
    }
  }

  lemma PhaseBehind(p: Profile, s: State, k: nat)
    requires EndInv(p, s) && s.stage.Over? && k < |p.phases| <= s.phase + 1 && !HasCancel(s.history)
    ensures Expired(k) in s.history || MadeAll(p.phases[k], MadeIn(s.history, k))
  {
    assert Behind(s, k);
  }

  /** Phases start one by one in order, and a run that ends as complete has started all of them; without a
      signal each of them made all its messages, or its deadline passed. */
  lemma CompletedRun(p: Profile, actions: seq<Action>)
    requires Reach(p, Launch(p), actions).Some?
    ensures var s := Reach(p, Launch(p), actions).value;
            && Starts(s.history) == UpTo(|s.done|)
            && (s.stage.Over? ==> |s.done| == |p.phases|)
            && (s.stage.Over? && !HasCancel(s.history) ==>
                  forall k | 0 <= k < |p.phases| ::
                    Expired(k) in s.history || MadeAll(p.phases[k], MadeIn(s.history, k)))
  {
    ReachInv(p, Launch(p), actions);
    var s := Reach(p, Launch(p), actions).value;
    if s.stage.Over? && !HasCancel(s.history) {
      forall k | 0 <= k < |p.phases|
        ensures Expired(k) in s.history || MadeAll(p.phases[k], MadeIn(s.history, k))
      {
        PhaseBehind(p, s, k);
      }
    }
  }

  /** The second signal, and nothing else, ends the process. */
  lemma {:induction false} SecondSignalExits(p: Profile, s: State, actions: seq<Action>)
    requires (s.stage.Exited? <==> s.signals > 1) && Reach(p, s, actions).Some?
    ensures var r := Reach(p, s, actions).value; r.stage.Exited? <==> r.signals > 1
    decreases |actions|
  {
    if actions != [] {
      SecondSignalExits(p, Next(p, s, actions[0]), actions[1..]);
    }
  }

  /** With draining, a phase generates only after every sender of the phase before it has ended
      without error, and after a failed or late drain nothing is started or generated; without draining no run waits
      for senders or fails. */
  lemma DrainSeparatesPhases(p: Profile, actions: seq<Action>)
    requires Reach(p, Launch(p), actions).Some?
    ensures var r := Reach(p, Launch(p), actions).value;
            && (if p.drains then DrainedBefore(p, r.history) else !r.stage.Draining? && !r.stage.Failed?)
            && NothingAfterFailure(r.history) && NothingAfterExit(r.history)
  {
    ReachInv(p, Launch(p), actions);
  }
}
