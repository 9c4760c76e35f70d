/** The employee actions on work sessions: start, pause, resume and stop,
    each a guarded transition of the session store. */
module SessionRoutes {
  import opened Results
  import opened Minutes
  import opened Sessions
  import Dates

  /** Why a transition is refused. */
  datatype SessionError =
    | ProjectIdRequired
    | ProjectNotFound
    | ActiveSessionExists
    | NoActiveSession
    | NoRunningSegment
    | NoPausedSession
    | NoOpenSession

  /** The refusals caused by a record the handler looked up and did not find. */
  predicate NotFound(e: SessionError) {
    e.ProjectNotFound? || e.NoActiveSession? || e.NoPausedSession? || e.NoOpenSession?
  }

  /** The status code of a refusal: 404 for a missing record, 400 for a
      request that cannot be carried out as it stands. */
  function HttpStatus(e: SessionError): (code: int)
    ensures code == 404 <==> NotFound(e)
    ensures code == 400 <==> !NotFound(e)
  {
    match e
    case ProjectIdRequired => 400
    case ProjectNotFound => 404
    case ActiveSessionExists => 400
    case NoActiveSession => 404
    case NoRunningSegment => 400
    case NoPausedSession => 404
    case NoOpenSession => 404
  }

  /** The `error` text of a refusal. */
  function Message(e: SessionError): (m: string)
    ensures |m| > 0
  {
    match e
    case ProjectIdRequired => "projectId is required"
    case ProjectNotFound => "Project not found"
    case ActiveSessionExists => "An active session already exists."
    case NoActiveSession => "No active session found."
    case NoRunningSegment => "No running segment to pause."
    case NoPausedSession => "No paused session found."
    case NoOpenSession => "No active/paused session found."
  }

  /** A client can tell every refusal apart by its text alone. */
  lemma MessagesDistinct(a: SessionError, b: SessionError)
    ensures Message(a) == Message(b) <==> a == b
  {
    if a != b {
      match a
      case ProjectIdRequired => assert Message(a)[0] == 'p';
      case ProjectNotFound => assert Message(a)[0] == 'P';
      case ActiveSessionExists => assert Message(a)[0] == 'A';
      case NoActiveSession => assert Message(a)[3] == 'a';
      case NoRunningSegment => assert Message(a)[3] == 'r';
      case NoPausedSession => assert Message(a)[3] == 'p';
      case NoOpenSession => assert Message(a)[3] == 'a' && Message(a)[9] == '/';
    }
  }

  /** The server's clock at request time: epoch milliseconds and the local
      calendar date. */
  datatype Clock = Clock(nowMs: int, year: nat, month0: nat, day: nat) {
    predicate Valid() {
      month0 < 12 && 1 <= day <= 31
    }

    /** The day key `ymd(new Date())`. */
    function Today(): string
      requires Valid()
    {
      Dates.Ymd(year, month0, day)
    }
  }

  datatype StartRequest = StartRequest(
    projectId: Option<string>,
    remarks: Option<string>,
    machineId: Option<string>,
    machineInfo: Option<string>)

  datatype MachineFields = MachineFields(machineId: Option<string>, machineInfo: Option<string>)

  datatype StopRequest = StopRequest(remarks: Option<string>, machine: MachineFields)

  /** A successful answer: the saved session, `round2` of its stored total in
      hundredths of a minute, and (for start) the project's name. */
  datatype Reply = Reply(session: Session, totalCenti: int, projectName: Option<string>)

  datatype Outcome = Outcome(store: Store, reply: Reply)

  predicate HasActive(store: Store, user: UserId) {
    exists i :: 0 <= i < |store| && store[i].user == user && store[i].status == Active
  }

  /** The machine fields of `after` follow the request: overwritten when
      supplied, kept otherwise. */
  predicate MachineRule(before: Session, after: Session, m: MachineFields) {
    && after.machineId == (if Truthy(m.machineId) then m.machineId else before.machineId)
    && after.machineInfo == (if Truthy(m.machineInfo) then m.machineInfo else before.machineInfo)
  }

  /** `after` is `before` with its running interval closed at `now`: one
      segment `{currentStart, now}` appended and its non-negative duration
      credited. */
  predicate ClosedAt(before: Session, after: Session, now: int)
    requires before.currentStart.Some?
  {
    && after.segments == before.segments + [Segment(before.currentStart.value, now)]
    && after.accumulatedMs == before.accumulatedMs + Credit(before.currentStart.value, now)
    && after.currentStart.None?
  }

  /** The session a fresh start creates. */
  predicate FreshSession(s: Session, user: UserId, req: StartRequest, clock: Clock)
    requires clock.Valid() && req.projectId.Some?
  {
    && s.user == user
    && s.project == req.projectId.value
    && s.date == clock.Today()
    && s.status == Active
    && s.segments == []
    && s.accumulatedMs == 0
    && s.currentStart == Some(clock.nowMs)
    && s.remarks == req.remarks.GetOr("")
    && s.machineId == (if Truthy(req.machineId) then req.machineId else None)
    && s.machineInfo == (if Truthy(req.machineInfo) then req.machineInfo else None)
    && s.createdAt == clock.nowMs
    && s.lastHeartbeatAt.None?
  }

  /** POST /start: requires a known project and no active session of the
      user (on any day), then appends a new running session. */
  function Start(store: Store, user: UserId, req: StartRequest, projects: map<ProjectId, string>, clock: Clock)
    : (r: Result<Outcome, SessionError>)
    requires clock.Valid()
    ensures !Truthy(req.projectId) ==> r == Err(ProjectIdRequired)
    ensures Truthy(req.projectId) && req.projectId.value !in projects ==> r == Err(ProjectNotFound)
    ensures Truthy(req.projectId) && req.projectId.value in projects && HasActive(store, user)
      ==> r == Err(ActiveSessionExists)
    ensures r.Ok? <==> Truthy(req.projectId) && req.projectId.value in projects && !HasActive(store, user)
    ensures r.Ok? ==>
      && |r.value.store| == |store| + 1
      && r.value.store[..|store|] == store
      && r.value.store[|store|] == r.value.reply.session
      && FreshSession(r.value.reply.session, user, req, clock)
      && r.value.reply.totalCenti == 0
      && r.value.reply.projectName == Some(projects[req.projectId.value])
  {
    if !Truthy(req.projectId) then Err(ProjectIdRequired)
    else if req.projectId.value !in projects then Err(ProjectNotFound)
    else if FindFirst(store, user, {Active}).Some? then Err(ActiveSessionExists)
    else
      var s := Session(
        user, req.projectId.value, clock.Today(), Active, [], 0, Some(clock.nowMs),
        req.remarks.GetOr(""),
        if Truthy(req.machineId) then req.machineId else None,
        if Truthy(req.machineInfo) then req.machineInfo else None,
        clock.nowMs, None);
      CentiMinutesExact(0);
      Ok(Outcome(store + [s], Reply(s, CentiMinutes(s.accumulatedMs), Some(projects[req.projectId.value]))))
  }

  /** POST /pause: closes the running interval of the user's first active
      session and marks it paused. */
  function Pause(store: Store, user: UserId, req: MachineFields, now: int): (r: Result<Outcome, SessionError>)
    ensures FindFirst(store, user, {Active}).None? ==> r == Err(NoActiveSession)
    ensures FindFirst(store, user, {Active}).Some? ==>
      var i := FindFirst(store, user, {Active}).value;
      if store[i].currentStart.None? then r == Err(NoRunningSegment)
      else
        && r.Ok?
        && r.value.store == store[i := r.value.reply.session]
        && var after := r.value.reply.session;
        && SameIdentity(store[i], after)
        && ClosedAt(store[i], after, now)
        && after.status == Paused
        && after.remarks == store[i].remarks
        && MachineRule(store[i], after, req)
        && r.value.reply.totalCenti == CentiMinutes(after.accumulatedMs)
        && r.value.reply.projectName.None?
  {
    match FindFirst(store, user, {Active})
    case None => Err(NoActiveSession)
    case Some(i) =>
      if store[i].currentStart.None? then Err(NoRunningSegment)
      else
        var s := WithMachine(CloseInterval(store[i], now).(status := Paused), req.machineId, req.machineInfo);
        Ok(Outcome(store[i := s], Reply(s, CentiMinutes(s.accumulatedMs), None)))
  }

  /** POST /resume: reopens the user's first paused session. It does not
      look for another active session of the same user. */
  function Resume(store: Store, user: UserId, req: MachineFields, now: int): (r: Result<Outcome, SessionError>)
    ensures FindFirst(store, user, {Paused}).None? ==> r == Err(NoPausedSession)
    ensures FindFirst(store, user, {Paused}).Some? ==>
      var i := FindFirst(store, user, {Paused}).value;
      && r.Ok?
      && r.value.store == store[i := r.value.reply.session]
      && var after := r.value.reply.session;
      && SameIdentity(store[i], after)
      && after.status == Active
      && after.currentStart == Some(now)
      && after.segments == store[i].segments
      && after.accumulatedMs == store[i].accumulatedMs
      && after.remarks == store[i].remarks
      && MachineRule(store[i], after, req)
      && r.value.reply.totalCenti == CentiMinutes(store[i].accumulatedMs)
      && r.value.reply.projectName.None?
  {
    match FindFirst(store, user, {Paused})
    case None => Err(NoPausedSession)
    case Some(i) =>
      var s := WithMachine(store[i].(status := Active, currentStart := Some(now)), req.machineId, req.machineInfo);
      Ok(Outcome(store[i := s], Reply(s, CentiMinutes(s.accumulatedMs), None)))
  }

  /** POST /stop: ends the user's first active or paused session, closing
      its interval first when it is running, and replaces its remarks. */
  function Stop(store: Store, user: UserId, req: StopRequest, now: int): (r: Result<Outcome, SessionError>)
    ensures FindFirst(store, user, {Active, Paused}).None? ==> r == Err(NoOpenSession)
    ensures FindFirst(store, user, {Active, Paused}).Some? ==>
      var i := FindFirst(store, user, {Active, Paused}).value;
      && r.Ok?
      && r.value.store == store[i := r.value.reply.session]
      && var after := r.value.reply.session;
      && SameIdentity(store[i], after)
      && (Running(store[i]) ==> ClosedAt(store[i], after, now))
      && (!Running(store[i]) ==>
            && after.segments == store[i].segments
            && after.accumulatedMs == store[i].accumulatedMs
            && after.currentStart == store[i].currentStart)
      && after.status == Stopped
      && after.remarks == req.remarks.GetOr("")
      && MachineRule(store[i], after, req.machine)
      && r.value.reply.totalCenti == CentiMinutes(after.accumulatedMs)
      && r.value.reply.projectName.None?
  {
    match FindFirst(store, user, {Active, Paused})
    case None => Err(NoOpenSession)
    case Some(i) =>
      var closed := if Running(store[i]) then CloseInterval(store[i], now) else store[i];
      var s := WithMachine(closed.(status := Stopped, remarks := req.remarks.GetOr("")),
                           req.machine.machineId, req.machine.machineInfo);
      Ok(Outcome(store[i := s], Reply(s, CentiMinutes(s.accumulatedMs), None)))
  }
}
