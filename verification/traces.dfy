/** Arbitrary interleavings of employee actions and sweeps: the bookkeeping
    invariant and append-only segments hold after any of them, and "one
    active session per user" holds after any run without a resume. */
module Traces {
  import opened Results
  import opened Minutes
  import opened Sessions
  import opened SessionRoutes
  import opened SessionInvariants
  import AutoStop

  datatype Action =
    | DoStart(user: UserId, start: StartRequest, projects: map<ProjectId, string>, clock: Clock)
    | DoPause(user: UserId, machine: MachineFields, now: int)
    | DoResume(user: UserId, machine: MachineFields, now: int)
    | DoStop(user: UserId, stop: StopRequest, now: int)
    | DoSweep(now: int, timeoutMin: int)

  predicate WellFormed(a: Action) {
    a.DoStart? ==> a.clock.Valid()
  }

  /** The store after one action; a refused action leaves it unchanged. */
  function Step(store: Store, a: Action): Store
    requires WellFormed(a)
  {
    match a
    case DoStart(u, req, projects, clock) =>
      var r := Start(store, u, req, projects, clock);
      if r.Ok? then r.value.store else store
    case DoPause(u, req, now) =>
      var r := Pause(store, u, req, now);
      if r.Ok? then r.value.store else store
    case DoResume(u, req, now) =>
      var r := Resume(store, u, req, now);
      if r.Ok? then r.value.store else store
    case DoStop(u, req, now) =>
      var r := Stop(store, u, req, now);
      if r.Ok? then r.value.store else store
    case DoSweep(now, timeoutMin) => AutoStop.Sweep(store, now, timeoutMin)
  }

  lemma GrowsReflexive(store: Store)
    ensures Grows(store, store)
  {
  }

  /** One action keeps the invariants. */
  lemma StepKeepsInvariants(store: Store, a: Action)
    requires WellFormed(a) && AllValid(store)
    ensures AllValid(Step(store, a)) && Grows(store, Step(store, a))
    ensures SingleActive(store) && !a.DoResume? ==> SingleActive(Step(store, a))
  {
    GrowsReflexive(store);
    match a
    case DoStart(u, req, projects, clock) =>
      if Start(store, u, req, projects, clock).Ok? {
        StartKeepsInvariants(store, u, req, projects, clock);
      }
    case DoPause(u, req, now) =>
      if Pause(store, u, req, now).Ok? {
        PauseKeepsInvariants(store, u, req, now);
      }
    case DoResume(u, req, now) =>
      if Resume(store, u, req, now).Ok? {
        ResumeKeepsInvariants(store, u, req, now);
      }
    case DoStop(u, req, now) =>
      if Stop(store, u, req, now).Ok? {
        StopKeepsInvariants(store, u, req, now);
      }
    case DoSweep(now, timeoutMin) =>
      AutoStop.SweepKeepsInvariants(store, now, timeoutMin);
  }

  /** The store after a run of actions, in order. */
  function Run(store: Store, actions: seq<Action>): Store
    requires forall k :: 0 <= k < |actions| ==> WellFormed(actions[k])
    decreases |actions|
  {
    if |actions| == 0 then store else Run(Step(store, actions[0]), actions[1..])
  }

  /** Any run keeps every session valid and only ever appends segments and
      sessions; a run without resume keeps one active session per user. */
  lemma {:induction false} RunKeepsInvariants(store: Store, actions: seq<Action>)
    requires forall k :: 0 <= k < |actions| ==> WellFormed(actions[k])
    requires AllValid(store)
    ensures AllValid(Run(store, actions))
    ensures Grows(store, Run(store, actions))
    ensures SingleActive(store) && (forall k :: 0 <= k < |actions| ==> !actions[k].DoResume?)
      ==> SingleActive(Run(store, actions))
    decreases |actions|
  {
    if |actions| == 0 {
      GrowsReflexive(store);
    } else {
      var next := Step(store, actions[0]);
      StepKeepsInvariants(store, actions[0]);
      RunKeepsInvariants(next, actions[1..]);
      GrowsTransitive(store, next, Run(next, actions[1..]));
    }
  }

  /** No action writes `lastHeartbeatAt`: `start` creates sessions without
      it and every other action keeps it. */
  lemma StepKeepsNoHeartbeats(store: Store, a: Action)
    requires WellFormed(a) && AllValid(store) && NoHeartbeats(store)
    ensures NoHeartbeats(Step(store, a))
  {
    StepKeepsInvariants(store, a);
    var after := Step(store, a);
    forall i | 0 <= i < |after|
      ensures after[i].lastHeartbeatAt.None?
    {
      if i < |store| {
        assert Extends(store[i], after[i]);
      } else {
        match a
        case DoStart(u, req, projects, clock) =>
          assert after[i] == Start(store, u, req, projects, clock).value.reply.session;
        case DoPause(u, req, now) =>
        case DoResume(u, req, now) =>
        case DoStop(u, req, now) =>
        case DoSweep(now, timeoutMin) =>
      }
    }
  }

  /** From an empty store, no run ever produces a session with a heartbeat. */
  lemma {:induction false} RunKeepsNoHeartbeats(store: Store, actions: seq<Action>)
    requires forall k :: 0 <= k < |actions| ==> WellFormed(actions[k])
    requires AllValid(store) && NoHeartbeats(store)
    ensures NoHeartbeats(Run(store, actions))
    decreases |actions|
  {
    if |actions| > 0 {
      StepKeepsInvariants(store, actions[0]);
      StepKeepsNoHeartbeats(store, actions[0]);
      RunKeepsNoHeartbeats(Step(store, actions[0]), actions[1..]);
    }
  }

  /** On every store the actions can reach from an empty one, the sweep's
      heartbeat timeout has no effect: it stops exactly the running sessions
      past the grace window. */
  lemma SweepTimeoutIrrelevant(actions: seq<Action>, now: int, timeoutA: int, timeoutB: int)
    requires forall k :: 0 <= k < |actions| ==> WellFormed(actions[k])
    ensures var store := Run([], actions);
      && AutoStop.Sweep(store, now, timeoutA) == AutoStop.Sweep(store, now, timeoutB)
      && forall i :: 0 <= i < |store| ==>
           (AutoStop.Eligible(store[i], now, timeoutA) <==>
              (Running(store[i]) && store[i].createdAt < now - AutoStop.GraceMinutes * MsPerMinute))
  {
    RunKeepsNoHeartbeats([], actions);
    var store := Run([], actions);
    AutoStop.SweepIgnoresTimeout(store, now, timeoutA, timeoutB);
    forall i | 0 <= i < |store|
      ensures AutoStop.Eligible(store[i], now, timeoutA) <==>
                (Running(store[i]) && store[i].createdAt < now - AutoStop.GraceMinutes * MsPerMinute)
    {
      AutoStop.EligibleWithoutHeartbeat(store[i], now, timeoutA);
    }
  }

  /** The credited total of a prefix of segments is at most that of the whole. */
  lemma SegmentsTotalPrefix(a: seq<Segment>, b: seq<Segment>)
    requires a <= b
    ensures SegmentsTotal(a) <= SegmentsTotal(b)
  {
    assert b == a + b[|a|..];
    SegmentsTotalAppend(a, b[|a|..]);
  }

  /** Between valid stores that grow, no session's accumulated time decreases. */
  lemma AccumulatedNeverDecreases(before: Store, after: Store)
    requires AllValid(before) && AllValid(after) && Grows(before, after)
    ensures forall i :: 0 <= i < |before| ==> before[i].accumulatedMs <= after[i].accumulatedMs
  {
    forall i | 0 <= i < |before|
      ensures before[i].accumulatedMs <= after[i].accumulatedMs
    {
      assert Valid(before[i]) && Valid(after[i]);
      SegmentsTotalPrefix(before[i].segments, after[i].segments);
    }
  }
}
