/** The work-session record, its bookkeeping invariant, the close-the-interval
    step shared by pause, stop and the idle sweep, and the live minute total. */
module Sessions {
  import opened Results
  import opened Minutes

  type UserId = string
  type ProjectId = string

  datatype Status = Active | Paused | Stopped

  /** The string stored in the `status` path. */
  function StatusName(s: Status): string {
    match s
    case Active => "active"
    case Paused => "paused"
    case Stopped => "stopped"
  }

  /** How the schema casts a stored `status`: absent means the default
      `active`; any other string must be one of the three enum values. */
  function CastStatus(raw: Option<string>): (r: Result<Status, string>)
    ensures raw.None? ==> r == Ok(Active)
    ensures raw.Some? ==> (r.Ok? <==> raw.value in {"active", "paused", "stopped"})
    ensures raw.Some? && r.Ok? ==> StatusName(r.value) == raw.value
    ensures r.Err? ==> r.error == raw.value
  {
    match raw
    case None => Ok(Active)
    case Some(v) =>
      if v == "active" then Ok(Active)
      else if v == "paused" then Ok(Paused)
      else if v == "stopped" then Ok(Stopped)
      else Err(v)
  }

  /** Every status is stored under a name that casts back to it. */
  lemma StatusNameRoundTrip(s: Status)
    ensures CastStatus(Some(StatusName(s))) == Ok(s)
  {
  }

  /** A closed interval of work, epoch milliseconds. */
  datatype Segment = Segment(start: int, end: int)

  /** A work session. `accumulatedMs` stands for `accumulatedMinutes`
      (kept exact, in milliseconds); `currentStart` is the start of the
      running interval, if any. */
  datatype Session = Session(
    user: UserId,
    project: ProjectId,
    date: string,
    status: Status,
    segments: seq<Segment>,
    accumulatedMs: int,
    currentStart: Option<int>,
    remarks: string,
    machineId: Option<string>,
    machineInfo: Option<string>,
    createdAt: int,
    lastHeartbeatAt: Option<int>)

  type Store = seq<Session>

  /** The credited duration of one closed segment. */
  function SegmentCredit(g: Segment): nat {
    Credit(g.start, g.end)
  }

  /** The sum of the credited durations of a list of segments. */
  function SegmentsTotal(segs: seq<Segment>): nat {
    if |segs| == 0 then 0
    else SegmentsTotal(segs[..|segs| - 1]) + SegmentCredit(segs[|segs| - 1])
  }

  /** The bookkeeping invariant of a session: an interval is open exactly
      while it is active, and the running total is the sum of the credited
      durations of its closed segments. */
  predicate Valid(s: Session) {
    && (s.currentStart.Some? <==> s.status == Active)
    && s.accumulatedMs == SegmentsTotal(s.segments)
  }

  predicate AllValid(store: Store) {
    forall i :: 0 <= i < |store| ==> Valid(store[i])
  }

  /** The fields no transition writes. */
  predicate SameIdentity(a: Session, b: Session) {
    && a.user == b.user
    && a.project == b.project
    && a.date == b.date
    && a.createdAt == b.createdAt
    && a.lastHeartbeatAt == b.lastHeartbeatAt
  }

  /** `after` extends `before`: same identity, segments only appended. */
  predicate Extends(before: Session, after: Session) {
    && SameIdentity(before, after)
    && before.segments <= after.segments
  }

  /** The close-the-interval step: append `{currentStart, now}` and credit
      its duration, leaving no interval open. */
  function CloseInterval(s: Session, now: int): (r: Session)
    requires s.currentStart.Some?
    ensures Extends(s, r)
    ensures r.segments == s.segments + [Segment(s.currentStart.value, now)]
    ensures r.accumulatedMs - s.accumulatedMs == Credit(s.currentStart.value, now)
    ensures r.accumulatedMs - SegmentsTotal(r.segments) == s.accumulatedMs - SegmentsTotal(s.segments)
    ensures r.currentStart.None?
    ensures r.status == s.status && r.remarks == s.remarks
    ensures r.machineId == s.machineId && r.machineInfo == s.machineInfo
  {
    var g := Segment(s.currentStart.value, now);
    assert (s.segments + [g])[..|s.segments|] == s.segments;
    s.(segments := s.segments + [g],
       accumulatedMs := s.accumulatedMs + Credit(g.start, g.end),
       currentStart := None)
  }

  /** Overwrites the machine identity only with the values the request
      actually supplies (`if (machineId) ...`). */
  function WithMachine(s: Session, machineId: Option<string>, machineInfo: Option<string>): (r: Session)
    ensures r.machineId == (if Truthy(machineId) then machineId else s.machineId)
    ensures r.machineInfo == (if Truthy(machineInfo) then machineInfo else s.machineInfo)
    ensures r == s.(machineId := r.machineId, machineInfo := r.machineInfo)
  {
    var s1 := if Truthy(machineId) then s.(machineId := machineId) else s;
    if Truthy(machineInfo) then s1.(machineInfo := machineInfo) else s1
  }

  /** Whether the session has an interval running at `now` for the live total. */
  predicate Running(s: Session) {
    s.status == Active && s.currentStart.Some?
  }

  /** `totalMinutesNow()`, in hundredths of a minute: the stored total plus,
      for a running session, the (unclamped) time since `currentStart`,
      rounded half-up. The routes that list and export sessions compute the
      same value inline. */
  function TotalMinutesNow(s: Session, now: int): (c: int)
    ensures Running(s) ==>
      c * MsPerCentiMinute - 300 <= s.accumulatedMs + (now - s.currentStart.value) < c * MsPerCentiMinute + 300
    ensures !Running(s) ==>
      c * MsPerCentiMinute - 300 <= s.accumulatedMs < c * MsPerCentiMinute + 300
  {
    var total := s.accumulatedMs + (if Running(s) then now - s.currentStart.value else 0);
    CentiMinutes(total)
  }

  /** The total as the `/my`, `/admin/list` and `/export` routes compute it
      inline: start from the stored total and add the time since
      `currentStart` when the session is active with an open interval. */
  function ListedTotal(s: Session, now: int): (c: int)
    ensures Running(s) ==>
      c * MsPerCentiMinute - 300 <= s.accumulatedMs + (now - s.currentStart.value) < c * MsPerCentiMinute + 300
    ensures !Running(s) ==>
      c * MsPerCentiMinute - 300 <= s.accumulatedMs < c * MsPerCentiMinute + 300
  {
    var total := s.accumulatedMs;
    if s.status == Active && s.currentStart.Some? then CentiMinutes(total + (now - s.currentStart.value))
    else CentiMinutes(total)
  }

  /** The routes report the same total as `totalMinutesNow()`. */
  lemma ListedTotalAgrees(s: Session, now: int)
    ensures ListedTotal(s, now) == TotalMinutesNow(s, now)
  {
  }

  /** A paused or stopped session reports its stored total, rounded. */
  lemma TotalOfIdleSession(s: Session, now: int)
    requires !Running(s)
    ensures TotalMinutesNow(s, now) == CentiMinutes(s.accumulatedMs)
  {
  }

  /** The live total of a running session never goes down as time passes. */
  lemma TotalMinutesNowMonotone(s: Session, t1: int, t2: int)
    requires t1 <= t2
    ensures TotalMinutesNow(s, t1) <= TotalMinutesNow(s, t2)
  {
    if Running(s) {
      CentiMinutesMonotone(s.accumulatedMs + (t1 - s.currentStart.value),
                           s.accumulatedMs + (t2 - s.currentStart.value));
    }
  }

  /** Closing the interval at `now` does not change the total reported at
      `now` when the clock has not run backwards: the live term becomes
      stored time. */
  lemma CloseIntervalKeepsTotal(s: Session, now: int)
    requires Running(s) && s.currentStart.value <= now
    ensures TotalMinutesNow(CloseInterval(s, now).(status := Paused), now) == TotalMinutesNow(s, now)
  {
  }

  /** The total appended segments contribute. */
  lemma {:induction false} SegmentsTotalAppend(a: seq<Segment>, b: seq<Segment>)
    ensures SegmentsTotal(a + b) == SegmentsTotal(a) + SegmentsTotal(b)
    decreases |b|
  {
    if |b| > 0 {
      var b' := b[..|b| - 1];
      assert (a + b)[..|a + b| - 1] == a + b';
      SegmentsTotalAppend(a, b');
    } else {
      assert a + b == a;
    }
  }

  /** The first session in store order that belongs to `user` and has one of
      the given statuses (the `findOne` lookup). */
  function FindFirst(store: Store, user: UserId, statuses: set<Status>): (r: Option<nat>)
    ensures r.Some? ==> r.value < |store| && store[r.value].user == user && store[r.value].status in statuses
    ensures r.Some? ==> forall j :: 0 <= j < r.value ==> !(store[j].user == user && store[j].status in statuses)
    ensures r.None? ==> forall j :: 0 <= j < |store| ==> !(store[j].user == user && store[j].status in statuses)
  {
    FindFrom(store, user, statuses, 0)
  }

  function FindFrom(store: Store, user: UserId, statuses: set<Status>, k: nat): (r: Option<nat>)
    requires k <= |store|
    ensures r.Some? ==> k <= r.value < |store| && store[r.value].user == user && store[r.value].status in statuses
    ensures r.Some? ==> forall j :: k <= j < r.value ==> !(store[j].user == user && store[j].status in statuses)
    ensures r.None? ==> forall j :: k <= j < |store| ==> !(store[j].user == user && store[j].status in statuses)
    decreases |store| - k
  {
    if k == |store| then None
    else if store[k].user == user && store[k].status in statuses then Some(k)
    else FindFrom(store, user, statuses, k + 1)
  }

  /** At most one active session per user. */
  predicate SingleActive(store: Store) {
    forall i, j :: 0 <= i < j < |store| && store[i].user == store[j].user && store[i].status == Active
      ==> store[j].status != Active
  }

  /** No session carries a `lastHeartbeatAt`. */
  predicate NoHeartbeats(store: Store) {
    forall i :: 0 <= i < |store| ==> store[i].lastHeartbeatAt.None?
  }

  /** Every session of `before` survives in `after` at the same position,
      possibly with more segments; new sessions can only be appended. */
  predicate Grows(before: Store, after: Store) {
    && |before| <= |after|
    && forall i :: 0 <= i < |before| ==> Extends(before[i], after[i])
  }

  lemma GrowsTransitive(a: Store, b: Store, c: Store)
    requires Grows(a, b) && Grows(b, c)
    ensures Grows(a, c)
  {
  }
}
