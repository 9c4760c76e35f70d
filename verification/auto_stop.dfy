/** `autoStopAbandonedSessions`, the sweep that force-stops running sessions
    past the grace window, sparing sessions younger than it. */
module AutoStop {
  import opened Results
  import opened Minutes
  import opened Sessions

  /** Sessions younger than this many minutes are never touched. */
  const GraceMinutes: int := 2

  /** `HEARTBEAT_TIMEOUT_MIN` when the environment does not set it. */
  const DefaultHeartbeatTimeoutMin: int := 10

  const AutoStopNote: string := "Auto-stopped (no heartbeat)"

  /** The sweep's query: running, older than the grace window, and without
      a heartbeat since the timeout cutoff. */
  predicate Eligible(s: Session, now: int, timeoutMin: int) {
    && s.status == Active
    && s.currentStart.Some?
    && s.createdAt < now - GraceMinutes * MsPerMinute
    && (s.lastHeartbeatAt.None? || s.lastHeartbeatAt.value < now - timeoutMin * MsPerMinute)
  }

  /** Prior remarks are kept and the note appended after a separator; empty
      remarks become the note alone. */
  function AutoStopRemarks(remarks: string): (r: string)
    ensures remarks == "" ==> r == AutoStopNote
    ensures remarks != "" ==> |r| == |remarks| + 3 + |AutoStopNote|
    ensures remarks != "" ==> r[..|remarks|] == remarks && r[|remarks|..] == " | " + AutoStopNote
  {
    if remarks != "" then remarks + " | " + AutoStopNote else AutoStopNote
  }

  /** The per-session force-stop: close the interval at `now` as pause and
      stop do, end the session and annotate its remarks. */
  function ForceStop(s: Session, now: int): (r: Session)
    requires s.currentStart.Some?
    ensures Extends(s, r)
    ensures r.segments == s.segments + [Segment(s.currentStart.value, now)]
    ensures r.accumulatedMs == s.accumulatedMs + Credit(s.currentStart.value, now)
    ensures r.currentStart.None? && r.status == Stopped
    ensures r.remarks == AutoStopRemarks(s.remarks)
    ensures r.machineId == s.machineId && r.machineInfo == s.machineInfo
  {
    CloseInterval(s, now).(status := Stopped, remarks := AutoStopRemarks(s.remarks))
  }

  /** The indices, in store order, of the sessions the query returns. */
  function Select(store: Store, now: int, timeoutMin: int): (ix: seq<nat>)
    ensures forall k :: 0 <= k < |ix| ==> ix[k] < |store| && Eligible(store[ix[k]], now, timeoutMin)
    ensures forall i :: 0 <= i < |store| && Eligible(store[i], now, timeoutMin) ==> i in ix
    ensures forall k, l :: 0 <= k < l < |ix| ==> ix[k] < ix[l]
  {
    if |store| == 0 then []
    else
      var front := Select(store[..|store| - 1], now, timeoutMin);
      assert forall k :: 0 <= k < |front| ==> store[front[k]] == store[..|store| - 1][front[k]];
      if Eligible(store[|store| - 1], now, timeoutMin) then front + [|store| - 1] else front
  }

  /** The store after a sweep at `now`: every selected session force-stopped,
      every other session as it was. */
  function Sweep(store: Store, now: int, timeoutMin: int): (after: Store)
    ensures |after| == |store|
    ensures forall i :: 0 <= i < |store| && Eligible(store[i], now, timeoutMin) ==> after[i] == ForceStop(store[i], now)
    ensures forall i :: 0 <= i < |store| && !Eligible(store[i], now, timeoutMin) ==> after[i] == store[i]
  {
    seq(|store|, i requires 0 <= i < |store| =>
      if Eligible(store[i], now, timeoutMin) then ForceStop(store[i], now) else store[i])
  }

  /** `autoStopAbandonedSessions`: find the eligible sessions, then
      force-stop and save each in turn; `count` is the number logged. */
  method AutoStopAbandonedSessions(store: Store, now: int, timeoutMin: int) returns (after: Store, count: nat)
    ensures after == Sweep(store, now, timeoutMin)
    ensures count == |Select(store, now, timeoutMin)|
    ensures count == 0 <==> forall i :: 0 <= i < |store| ==> !Eligible(store[i], now, timeoutMin)
  {
    var sessions := Select(store, now, timeoutMin);
    after := store;
    ghost var done: set<nat> := {};
    var k := 0;
    while k < |sessions|
      invariant 0 <= k <= |sessions|
      invariant |after| == |store|
      invariant done == set l | 0 <= l < k :: sessions[l]
      invariant forall i :: 0 <= i < |store| ==> after[i] == (if i in done then ForceStop(store[i], now) else store[i])
    {
      var i := sessions[k];
      after := after[i := ForceStop(after[i], now)];
      done := done + {i};
      k := k + 1;
    }
    forall i | 0 <= i < |store|
      ensures after[i] == Sweep(store, now, timeoutMin)[i]
    {
      if Eligible(store[i], now, timeoutMin) {
        assert i in sessions;
        var l :| 0 <= l < |sessions| && sessions[l] == i;
        assert i in done;
      }
    }
    count := |sessions|;
    if count > 0 {
      assert Eligible(store[sessions[0]], now, timeoutMin);
    }
  }

  /** A sweep keeps every session valid, only appends segments, and never
      creates a second active session. */
  lemma SweepKeepsInvariants(store: Store, now: int, timeoutMin: int)
    requires AllValid(store)
    ensures AllValid(Sweep(store, now, timeoutMin))
    ensures Grows(store, Sweep(store, now, timeoutMin))
    ensures SingleActive(store) ==> SingleActive(Sweep(store, now, timeoutMin))
  {
    var after := Sweep(store, now, timeoutMin);
    forall i | 0 <= i < |store|
      ensures Valid(after[i]) && Extends(store[i], after[i])
    {
      if Eligible(store[i], now, timeoutMin) {
        var s := store[i];
        assert after[i].segments[..|s.segments|] == s.segments;
      }
    }
  }

  /** A session changes in a sweep exactly when the query selects it. */
  lemma SweepChangesExactlyEligible(store: Store, now: int, timeoutMin: int, i: nat)
    requires i < |store|
    ensures Sweep(store, now, timeoutMin)[i] != store[i] <==> Eligible(store[i], now, timeoutMin)
  {
  }

  /** Sessions created within the grace window are left exactly as they
      are, whatever their heartbeat. */
  lemma GraceWindowUntouched(store: Store, now: int, timeoutMin: int, i: nat)
    requires i < |store| && store[i].createdAt >= now - GraceMinutes * MsPerMinute
    ensures Sweep(store, now, timeoutMin)[i] == store[i]
  {
  }

  /** A session with a heartbeat at or after the timeout cutoff is left as it is. */
  lemma FreshHeartbeatUntouched(store: Store, now: int, timeoutMin: int, i: nat)
    requires i < |store| && store[i].lastHeartbeatAt.Some?
    requires store[i].lastHeartbeatAt.value >= now - timeoutMin * MsPerMinute
    ensures Sweep(store, now, timeoutMin)[i] == store[i]
  {
  }

  /** Without a recorded heartbeat the `{ lastHeartbeatAt: null }` branch of
      the query matches, so only the running state and the grace window
      decide. */
  lemma EligibleWithoutHeartbeat(s: Session, now: int, timeoutMin: int)
    requires s.lastHeartbeatAt.None?
    ensures Eligible(s, now, timeoutMin) <==> Running(s) && s.createdAt < now - GraceMinutes * MsPerMinute
  {
  }

  /** On a store where no session carries a heartbeat, the timeout has no
      effect on what a sweep does. */
  lemma SweepIgnoresTimeout(store: Store, now: int, timeoutA: int, timeoutB: int)
    requires NoHeartbeats(store)
    ensures Sweep(store, now, timeoutA) == Sweep(store, now, timeoutB)
  {
    var a := Sweep(store, now, timeoutA);
    var b := Sweep(store, now, timeoutB);
    forall i | 0 <= i < |store|
      ensures a[i] == b[i]
    {
      EligibleWithoutHeartbeat(store[i], now, timeoutA);
      EligibleWithoutHeartbeat(store[i], now, timeoutB);
    }
  }

  /** Sweeping again at the same instant changes nothing more: nothing a
      sweep leaves behind is still running and selectable. */
  lemma SweepIdempotent(store: Store, now: int, timeoutMin: int)
    ensures Sweep(Sweep(store, now, timeoutMin), now, timeoutMin) == Sweep(store, now, timeoutMin)
  {
    var once := Sweep(store, now, timeoutMin);
    forall i | 0 <= i < |once|
      ensures !Eligible(once[i], now, timeoutMin)
    {
    }
  }

  /** The two sweep scenarios: a session created one minute ago without any
      heartbeat is spared; one created five minutes ago whose last heartbeat
      was fifteen minutes ago is stopped with exactly one closing segment. */
  lemma SweepScenarios(now: int)
    ensures
      var young := Session("u", "p", "d", Active, [], 0, Some(now - 60000), "", None, None, now - 60000, None);
      var quiet := Session("v", "p", "d", Active, [], 0, Some(now - 300000), "", None, None, now - 300000, Some(now - 900000));
      var after := Sweep([young, quiet], now, DefaultHeartbeatTimeoutMin);
      && after[0] == young
      && after[1].status == Stopped
      && after[1].segments == [Segment(now - 300000, now)]
      && after[1].accumulatedMs == 300000
      && after[1].remarks == AutoStopNote
  {
    var young := Session("u", "p", "d", Active, [], 0, Some(now - 60000), "", None, None, now - 60000, None);
    var quiet := Session("v", "p", "d", Active, [], 0, Some(now - 300000), "", None, None, now - 300000, Some(now - 900000));
    assert !Eligible(young, now, DefaultHeartbeatTimeoutMin);
    assert Eligible(quiet, now, DefaultHeartbeatTimeoutMin);
    var after := Sweep([young, quiet], now, DefaultHeartbeatTimeoutMin);
    assert after[1] == ForceStop(quiet, now);
  }
}
