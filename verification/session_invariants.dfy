/** What the employee actions preserve: the bookkeeping invariant of every
    session, append-only segments, and (except for resume) at most one
    active session per user. */
module SessionInvariants {
  import opened Results
  import opened Minutes
  import opened Sessions
  import opened SessionRoutes

  /** Replacing one session by a valid one keeps the store valid. */
  lemma ReplaceKeepsValid(store: Store, i: nat, s: Session)
    requires AllValid(store) && i < |store| && Valid(s)
    ensures AllValid(store[i := s])
  {
  }

  /** Replacing one session by one that is not active cannot create a
      second active session for anyone. */
  lemma ReplaceByInactiveKeepsSingleActive(store: Store, i: nat, s: Session)
    requires SingleActive(store) && i < |store| && s.status != Active
    ensures SingleActive(store[i := s])
  {
    var after := store[i := s];
    forall a, b | 0 <= a < b < |after| && after[a].user == after[b].user && after[a].status == Active
      ensures after[b].status != Active
    {
      if b != i {
        assert a != i;
        assert store[a].user == store[b].user && store[a].status == Active;
      }
    }
  }

  /** Replacing one session by an extension of it makes the store grow. */
  lemma ReplaceGrows(store: Store, i: nat, s: Session)
    requires i < |store| && Extends(store[i], s)
    ensures Grows(store, store[i := s])
  {
  }

  /** A closed interval keeps the accumulated total equal to the segment sum. */
  lemma ClosedAtKeepsValid(before: Session, after: Session, now: int)
    requires before.currentStart.Some? && ClosedAt(before, after, now)
    requires before.accumulatedMs == SegmentsTotal(before.segments)
    ensures after.accumulatedMs == SegmentsTotal(after.segments)
  {
    assert after.segments[..|before.segments|] == before.segments;
  }

  /** A successful start keeps every session valid, only appends, leaves
      the user exactly one active session (the new one), and keeps the
      one-active-session-per-user property. */
  lemma StartKeepsInvariants(store: Store, user: UserId, req: StartRequest,
                             projects: map<ProjectId, string>, clock: Clock)
    requires clock.Valid() && AllValid(store)
    requires Start(store, user, req, projects, clock).Ok?
    ensures var after := Start(store, user, req, projects, clock).value.store;
      && AllValid(after)
      && Grows(store, after)
      && (forall j :: 0 <= j < |after| && after[j].user == user && after[j].status == Active ==> j == |store|)
      && (SingleActive(store) ==> SingleActive(after))
  {
    var after := Start(store, user, req, projects, clock).value.store;
    assert !HasActive(store, user);
    forall i | 0 <= i < |after|
      ensures Valid(after[i])
    {
      if i < |store| {
        assert after[i] == after[..|store|][i];
      }
    }
    forall i | 0 <= i < |store|
      ensures Extends(store[i], after[i])
    {
      assert after[i] == after[..|store|][i];
    }
    forall j | 0 <= j < |store|
      ensures after[j] == store[j]
    {
      assert after[j] == after[..|store|][j];
    }
  }

  /** A successful pause keeps every session valid, only appends a segment,
      and cannot create a second active session. */
  lemma PauseKeepsInvariants(store: Store, user: UserId, req: MachineFields, now: int)
    requires AllValid(store)
    requires Pause(store, user, req, now).Ok?
    ensures var after := Pause(store, user, req, now).value.store;
      && AllValid(after)
      && Grows(store, after)
      && (SingleActive(store) ==> SingleActive(after))
  {
    var i := FindFirst(store, user, {Active}).value;
    var s := Pause(store, user, req, now).value.reply.session;
    assert Pause(store, user, req, now).value.store == store[i := s];
    ClosedAtKeepsValid(store[i], s, now);
    assert Valid(s);
    ReplaceKeepsValid(store, i, s);
    assert store[i].segments <= s.segments;
    ReplaceGrows(store, i, s);
    if SingleActive(store) {
      ReplaceByInactiveKeepsSingleActive(store, i, s);
    }
  }

  /** On a valid store pause never answers "No running segment to pause.":
      an active session always has its interval open. */
  lemma PauseOnValidStore(store: Store, user: UserId, req: MachineFields, now: int)
    requires AllValid(store)
    ensures Pause(store, user, req, now).Err? ==> Pause(store, user, req, now).error == NoActiveSession
  {
    var f := FindFirst(store, user, {Active});
    if f.Some? {
      assert Valid(store[f.value]);
    }
  }

  /** A successful resume keeps every session valid and leaves segments and
      totals as they were. */
  lemma ResumeKeepsInvariants(store: Store, user: UserId, req: MachineFields, now: int)
    requires AllValid(store)
    requires Resume(store, user, req, now).Ok?
    ensures var after := Resume(store, user, req, now).value.store;
      && AllValid(after)
      && Grows(store, after)
      && |after| == |store|
      && (forall j :: 0 <= j < |store| ==> after[j].segments == store[j].segments
                                           && after[j].accumulatedMs == store[j].accumulatedMs)
  {
    var i := FindFirst(store, user, {Paused}).value;
    var s := Resume(store, user, req, now).value.reply.session;
    ReplaceKeepsValid(store, i, s);
    ReplaceGrows(store, i, s);
  }

  /** Resume does not keep "one active session per user": a user with a
      running session and an older paused one ends up with two running. */
  lemma ResumeMayBreakSingleActive()
    ensures exists store: Store, user: UserId, req: MachineFields, now: int ::
      && AllValid(store)
      && SingleActive(store)
      && Resume(store, user, req, now).Ok?
      && !SingleActive(Resume(store, user, req, now).value.store)
  {
    var paused := Session("u", "p", "2024-01-01", Paused, [], 0, None, "", None, None, 0, None);
    var active := Session("u", "p", "2024-01-01", Active, [], 0, Some(5), "", None, None, 5, None);
    var store := [paused, active];
    var req := MachineFields(None, None);
    assert FindFirst(store, "u", {Paused}) == Some(0);
    var after := Resume(store, "u", req, 10).value.store;
    assert after[0].status == Active && after[1].status == Active;
    assert !SingleActive(after);
    assert AllValid(store) && SingleActive(store);
  }

  /** A successful stop keeps every session valid, only appends a segment,
      and cannot create a second active session. */
  lemma StopKeepsInvariants(store: Store, user: UserId, req: StopRequest, now: int)
    requires AllValid(store)
    requires Stop(store, user, req, now).Ok?
    ensures var after := Stop(store, user, req, now).value.store;
      && AllValid(after)
      && Grows(store, after)
      && (SingleActive(store) ==> SingleActive(after))
  {
    var i := FindFirst(store, user, {Active, Paused}).value;
    var s := Stop(store, user, req, now).value.reply.session;
    assert Stop(store, user, req, now).value.store == store[i := s];
    if Running(store[i]) {
      ClosedAtKeepsValid(store[i], s, now);
      assert store[i].segments <= s.segments;
    }
    assert Valid(s);
    ReplaceKeepsValid(store, i, s);
    ReplaceGrows(store, i, s);
    if SingleActive(store) {
      ReplaceByInactiveKeepsSingleActive(store, i, s);
    }
  }

  /** The worked example: start at 09:00, pause at 09:30, resume at 09:45,
      stop at 10:00 leaves two segments and 45 minutes. */
  lemma WorkedExample()
    ensures
      var clock := Clock(9 * 3600000, 2024, 0, 15);
      var none := MachineFields(None, None);
      var s0 := Start([], "x", StartRequest(Some("P"), None, None, None), map["P" := "Project P"], clock);
      && s0.Ok?
      && var s1 := Pause(s0.value.store, "x", none, 9 * 3600000 + 30 * 60000);
      && s1.Ok?
      && var s2 := Resume(s1.value.store, "x", none, 9 * 3600000 + 45 * 60000);
      && s2.Ok?
      && var s3 := Stop(s2.value.store, "x", StopRequest(None, none), 10 * 3600000);
      && s3.Ok?
      && s3.value.reply.session.segments
           == [Segment(9 * 3600000, 9 * 3600000 + 30 * 60000), Segment(9 * 3600000 + 45 * 60000, 10 * 3600000)]
      && s3.value.reply.session.accumulatedMs == 45 * MsPerMinute
      && s3.value.reply.totalCenti == 4500
  {
    var clock := Clock(9 * 3600000, 2024, 0, 15);
    var none := MachineFields(None, None);
    var s0 := Start([], "x", StartRequest(Some("P"), None, None, None), map["P" := "Project P"], clock);
    assert !HasActive([], "x");
    var st0 := s0.value.store;
    assert FindFirst(st0, "x", {Active}) == Some(0);
    var s1 := Pause(st0, "x", none, 9 * 3600000 + 30 * 60000);
    var st1 := s1.value.store;
    assert FindFirst(st1, "x", {Paused}) == Some(0);
    var s2 := Resume(st1, "x", none, 9 * 3600000 + 45 * 60000);
    var st2 := s2.value.store;
    assert FindFirst(st2, "x", {Active, Paused}) == Some(0);
    var s3 := Stop(st2, "x", StopRequest(None, none), 10 * 3600000);
    CentiMinutesExact(4500);
  }
}
