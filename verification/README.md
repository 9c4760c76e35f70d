# ProjectTrack work-session core, in Dafny

This project models the time-tracking core of the ProjectTrack backend, an
Express/Mongoose service. Employees start, pause, resume and stop work
sessions on projects. A sweep function, `autoStopAbandonedSessions`,
force-stops running sessions that are older than a two-minute grace
window. It is exported from cron/autoStopSessions.js; nothing in the
modelled code schedules or calls it.

The model covers:

- **Session record** (`Sessions`). A status (`active`, `paused` or
  `stopped`), an append-only list of closed `{start, end}` segments, the
  accumulated total and `currentStart`, the start of the running interval.
  Two facts make up its bookkeeping invariant (`Valid`):
  - `currentStart` is set exactly while the session is active;
  - the accumulated total equals the sum of the non-negative segment
    durations.
- **Employee actions** (`SessionRoutes`). `start`, `pause`, `resume` and
  `stop` are pure functions from a session store (a sequence in store
  order) to a `Result`. A refused action returns the error and no store.
  `findOne` is modelled as the first matching session in store order.
- **Idle sweep** (`AutoStop`). `autoStopAbandonedSessions` selects running
  sessions that are past the 2-minute grace window and whose
  `lastHeartbeatAt` is missing or older than the timeout cutoff (default 10
  minutes). Each selected session gets its interval closed, is stopped, and
  has a note appended to its remarks.
  - `lastHeartbeatAt` is not a path of the WorkSession schema
    (models/WorkSession.js:6-21), and no session operation writes it. The
    agent's heartbeat, `POST /api/machines/ping`, refreshes the machine's
    `lastSeenAt` and touches no session.
  - So the `{ lastHeartbeatAt: null }` branch of the query
    (cron/autoStopSessions.js:24) matches every session. As written, when it
    runs, the sweep stops every running session created more than two minutes
    earlier, whether or not its agent is still pinging, and the timeout
    has no effect. `Traces.SweepTimeoutIrrelevant` proves this for every
    store the actions can reach from an empty one.
- **Live total** (`Sessions.TotalMinutesNow`). The read-side minute total,
  rounded to hundredths. The `/my`, `/admin/list` and `/export` routes
  compute the same formula inline.
- **Invariants** (`SessionInvariants`, `Traces`). Every action and the
  sweep, and any run of them, keep every session valid. Segments and
  sessions are only ever appended. Runs without `resume` keep at most one
  active session per user.
- **Smaller pure parts**:
  - the `YYYY-MM-DD` day key (`Dates`);
  - the CSV field escaper and line assembly, with a quote-aware reader
    that gets the exported values back (`Csv`);
  - the machine registry: register with create-or-merge, heartbeat ping,
    and filter-option labels (`Machines`);
  - the bearer-token and role guards (`Auth`).

Units:

- Time is integer epoch milliseconds.
- `accumulatedMinutes` is kept as exact accumulated milliseconds. The
  source's `ms / 60000` float becomes an exact conversion.
- `round2` (`Math.round(n * 100) / 100`) becomes a whole number of
  hundredths of a minute, `(ms + 300) div 600`. That is the nearest
  hundredth, with halves rounded up, as `Math.round` does.
- The clock, the random token bytes, JWT verification and the user lookup
  are parameters.

Behaviour of the code worth knowing:

- `start` refuses when the user has an active session on **any** day. It
  neither checks per day nor reconciles sessions left over from earlier
  days.
- `resume` does not check for another active session.
  `SessionInvariants.ResumeMayBreakSingleActive` exhibits a valid store with
  one active session per user that `resume` turns into two for the same
  user.
- The sweep has no continue-on-error: a failing save ends the loop.

## Model

| member | source | states |
|---|---|---|
| Minutes.Credit | routes/workSessions.js:66-67 | an interval is credited its elapsed milliseconds, or zero when the end precedes the start |
| Minutes.CentiMinutes | routes/workSessions.js:9 | `round2` yields the hundredth of a minute within half a hundredth of the exact total, ties rounding up |
| Minutes.CentiMinutesUnique | models/WorkSession.js:29 | that hundredth is the only one satisfying the bound, so the rounding is determined |
| Minutes.CentiMinutesMonotone | models/WorkSession.js:29 | a larger exact total never rounds to fewer hundredths |
| Dates.NatToString | routes/workSessions.js:12-13 | `String(n)` is a non-empty run of digits without a leading zero, one digit exactly below 10 and two exactly from 10 to 99 |
| Dates.NatToStringRoundTrip | routes/workSessions.js:12-13 | reading the decimal digits back gives the number |
| Dates.PadStart | routes/workSessions.js:12 | `padStart` leaves strings at or over the width alone and otherwise fills on the left to exactly the width, keeping the string as suffix |
| Dates.Pad2 | routes/workSessions.js:12 | month and day numbers become exactly two digits that still denote the number |
| Dates.Ymd | routes/workSessions.js:11-14 | the day key is the year, a dash, two month digits, a dash and two day digits; ten characters for a four-digit year |
| Dates.YmdRoundTrip | routes/workSessions.js:11-14 | the day key parses back to the year, `getMonth() + 1` and the day |
| Sessions.CastStatus | models/WorkSession.js:11 | a missing status defaults to active; a stored string is accepted exactly when it is one of the three enum values, and then names the status |
| Sessions.StatusNameRoundTrip | models/WorkSession.js:11 | every status is stored under a name that casts back to it |
| Sessions.CloseInterval | routes/workSessions.js:62-70 | closing appends exactly the segment `{currentStart, now}`, credits its clamped duration, clears `currentStart`, keeps the gap between total and segment sum, and leaves identity and earlier segments alone |
| Sessions.WithMachine | routes/workSessions.js:73-74 | machine id and info are overwritten only when the request supplies a non-empty value; nothing else changes |
| Sessions.TotalMinutesNow | models/WorkSession.js:24-30 | the reported total is within half a hundredth of the stored total plus, for an active session with an open interval, the unclamped time since it opened |
| Sessions.ListedTotal | routes/workSessions.js:148-152 | the `/my` total is within half a hundredth of a minute of the stored total plus, for an active session with `currentStart`, the time since it |
| Sessions.ListedTotalAgrees | routes/workSessions.js:148-152 | the inline total of `/my` (the same code sits in `/admin/list` and `/export`) equals `totalMinutesNow()` for every session and instant |
| Sessions.TotalOfIdleSession | models/WorkSession.js:25-29 | a paused or stopped session, or an active one with no open interval, reports `round2` of its stored total |
| Sessions.TotalMinutesNowMonotone | models/WorkSession.js:26-29 | the live total never goes down as the clock advances |
| Sessions.CloseIntervalKeepsTotal | routes/workSessions.js:62-71 | pausing at `now` with a forward clock does not change the total reported at `now` |
| Sessions.SegmentsTotalAppend | models/WorkSession.js:12-13 | the credited total of concatenated segment lists is the sum of their totals |
| Sessions.FindFirst | routes/workSessions.js:56 | the lookup returns a session of the user with a wanted status and no earlier such session, or reports that none exists |
| SessionRoutes.Start | routes/workSessions.js:20-51 | refused when `projectId` is missing, the project is unknown or the user has any active session, in that order; otherwise appends one session: active, no segments, zero total, opened now, filed under today's key, remarks defaulting to empty; replies with total 0 and the project name |
| SessionRoutes.Pause | routes/workSessions.js:54-78 | refused without an active session or without an open interval; otherwise the first active session gets its interval closed at `now` and becomes paused, and no other session changes |
| SessionRoutes.Resume | routes/workSessions.js:81-94 | refused without a paused session; otherwise the first paused session becomes active, opened now, with segments and total unchanged; the reply carries no project name |
| SessionRoutes.Stop | routes/workSessions.js:97-124 | refused without an active or paused session; otherwise the first such session is stopped, its interval closed first only when running, and its remarks replaced by the request's; the reply carries no project name |
| SessionRoutes.HttpStatus | routes/workSessions.js:22-103 | a refusal is answered 404 exactly when a record it looked up is missing (project, active, paused, or active-or-paused session), and 400 otherwise |
| SessionRoutes.Message | routes/workSessions.js:22-103 | every refusal carries a non-empty `error` text |
| SessionRoutes.MessagesDistinct | routes/workSessions.js:22-103 | two refusals have the same text exactly when they are the same refusal |
| SessionInvariants.ClosedAtKeepsValid | routes/workSessions.js:62-70 | the close step keeps the total equal to the segment sum |
| SessionInvariants.StartKeepsInvariants | routes/workSessions.js:29-44 | after a start every session is valid, the store only grew, the user has exactly one active session (the new one), and one-active-per-user is kept |
| SessionInvariants.PauseKeepsInvariants | routes/workSessions.js:62-71 | pause keeps every session valid, only appends a segment, and keeps one-active-per-user |
| SessionInvariants.PauseOnValidStore | routes/workSessions.js:56-60 | on valid sessions "No running segment to pause." cannot occur |
| SessionInvariants.ResumeKeepsInvariants | routes/workSessions.js:83-87 | resume keeps every session valid and no session's segments or total change |
| SessionInvariants.ResumeMayBreakSingleActive | routes/workSessions.js:83-87 | some valid store with one active session per user is turned by resume into one with two active sessions for the same user |
| SessionInvariants.StopKeepsInvariants | routes/workSessions.js:99-117 | stop keeps every session valid, only appends a segment, and keeps one-active-per-user |
| SessionInvariants.WorkedExample | routes/workSessions.js:20-124 | start 09:00, pause 09:30, resume 09:45, stop 10:00 yields the two segments 09:00-09:30 and 09:45-10:00 and a total of 45.00 minutes |
| AutoStop.AutoStopRemarks | cron/autoStopSessions.js:41-43 | prior remarks are kept as a prefix, followed by a bar separator and "Auto-stopped (no heartbeat)"; empty remarks become the note alone |
| AutoStop.ForceStop | cron/autoStopSessions.js:30-43 | a selected session gains exactly the segment `{currentStart, now}` and its clamped duration, and ends stopped with no open interval |
| AutoStop.Select | cron/autoStopSessions.js:15-26 | the query returns, in store order and without repeats, exactly the sessions that are active, have an open interval, were created before the grace cutoff and have no heartbeat or one before the timeout cutoff |
| AutoStop.Sweep | cron/autoStopSessions.js:15-46 | after the sweep each selected session is force-stopped and every other session is as it was |
| AutoStop.AutoStopAbandonedSessions | cron/autoStopSessions.js:6-51 | the find-then-save loop produces the sweep's store, and the logged count is the number selected, zero exactly when nothing is eligible |
| AutoStop.SweepKeepsInvariants | cron/autoStopSessions.js:29-46 | the sweep keeps every session valid, only appends segments, and keeps one-active-per-user |
| AutoStop.SweepChangesExactlyEligible | cron/autoStopSessions.js:15-46 | a session changes exactly when it is selected |
| AutoStop.GraceWindowUntouched | cron/autoStopSessions.js:9-20 | sessions created within the last two minutes are never modified, whatever their heartbeat |
| AutoStop.FreshHeartbeatUntouched | cron/autoStopSessions.js:4-25 | a session with a heartbeat at or after the timeout cutoff is not modified (no store the actions can reach has such a session; see `Traces.SweepTimeoutIrrelevant`) |
| AutoStop.EligibleWithoutHeartbeat | cron/autoStopSessions.js:15-26 | a session without `lastHeartbeatAt` is selected exactly when it is running and was created before the grace cutoff |
| AutoStop.SweepIgnoresTimeout | cron/autoStopSessions.js:4-26 | on a store where no session has a heartbeat, the sweep does the same for every timeout value |
| AutoStop.SweepIdempotent | cron/autoStopSessions.js:15-39 | sweeping again at the same instant changes nothing |
| AutoStop.SweepScenarios | cron/autoStopSessions.js:9-39 | a session one minute old with no heartbeat is spared; one five minutes old with a fifteen-minute-old heartbeat is stopped with exactly one closing segment of five minutes |
| Csv.DoubleQuotes | routes/workSessions.js:406 | doubling quotes never shortens the text and leaves quote-free text unchanged |
| Csv.UndoubleDouble | routes/workSessions.js:406 | un-doubling undoes quote doubling |
| Csv.Esc | routes/workSessions.js:402-408 | null becomes the empty field; text without a quote, comma or newline is unchanged; other text is wrapped in quotes |
| Csv.EscRoundTrip | routes/workSessions.js:402-408 | stripping the outer quotes and un-doubling gives back the escaped text |
| Csv.FieldRoundTrip | routes/workSessions.js:402-408 | an escaped field followed by a comma, newline or the end reads back as its value, null as empty |
| Csv.LineRoundTrip | routes/workSessions.js:411-413 | a comma-joined line of escaped fields reads back as the field values |
| Csv.LinesRoundTrip | routes/workSessions.js:410-415 | newline-joined lines read back record by record, even when fields contain commas, quotes or newlines |
| Csv.DocumentRoundTrip | routes/workSessions.js:384-415 | the export text reads back as the header names followed by each row's values |
| Machines.Hex | routes/machines.js:25 | `toString("hex")` gives two lower-case hex digits per byte |
| Machines.HexRoundTrip | routes/machines.js:25 | the token string determines the random bytes it was made from |
| Machines.FreshTokenShape | routes/machines.js:23-25 | a newly registered machine gets a 48-hex-digit token |
| Machines.Merge | routes/machines.js:34-38 | a supplied value, even an empty one, replaces the stored one; a null or undefined value keeps it |
| Machines.Register | routes/machines.js:16-53 | refused without a machine id; an unknown id gains one record with a fresh token and the request's details; a known id keeps its token and id, merges each detail, and is marked seen now; no other record changes |
| Machines.RegisterKeepsWellKeyed | models/Machine.js:6 | register keeps at most one record per machine id |
| Machines.ReRegisterKeepsToken | routes/machines.js:33-41 | registering a machine again returns the token it was first given |
| Machines.Ping | routes/machines.js:61-73 | refused with `MachineIdRequired` without a machine id, `MachineNotFound` for an unknown one, and succeeds for every known one; on success only that machine's `lastSeenAt` changes, and the reply carries the new value |
| Machines.PingKeepsWellKeyed | routes/machines.js:65-69 | ping keeps at most one record per machine id |
| Machines.HttpStatus | routes/machines.js:18-70 | a missing machine id is answered 400 and an unknown machine 404, and no other refusal exists |
| Machines.Message | routes/machines.js:18-70 | every refusal carries a non-empty `error` text |
| Machines.MessagesDistinct | routes/machines.js:18-70 | the two refusals have different texts |
| Machines.OptionOf | routes/machines.js:95-99 | the option label is the hostname when non-empty, else the machine id, so it is empty only for an empty id; the hint joins platform and user; `lastSeenAt` is the machine's |
| Machines.Options | routes/machines.js:88-102 | one option per machine row |
| Auth.BearerToken | middleware/auth.js:5-10 | a token is found exactly when the header starts with `"Bearer "` and has more after it, and then `"Bearer " + token` is the header |
| Auth.BearerTokenOfPrefixed | middleware/auth.js:6 | the token of `"Bearer " + t` is `t` |
| Auth.FallbackUser | middleware/auth.js:35-39 | the fallback user carries the token's id, its role or `"employee"`, and its name or `"User"` |
| Auth.RequireAuth | middleware/auth.js:4-42 | a missing token gives 401 "Missing token"; a failed verification gives 401 "Token expired" for `TokenExpiredError` and "Invalid token" otherwise; a verified token passes with the looked-up user or the fallback |
| Auth.RequireRole | middleware/auth.js:44-49 | the request passes exactly when a user is attached and has the required role, else 403 "Forbidden" |
| Auth.GuardedPassesExactly | middleware/auth.js:4-49 | an admin-guarded route is reached exactly with a verified bearer token whose resulting user has the role |
| Auth.FallbackNeverAdmin | middleware/auth.js:35-48 | when the lookup finds nothing and the token has no role, the request is refused with 403 on an admin route |
| Traces.StepKeepsInvariants | routes/workSessions.js:20-124 | any single action or sweep keeps every session valid and only appends; anything but resume keeps one-active-per-user |
| Traces.RunKeepsInvariants | routes/workSessions.js:20-124 | any run of actions and sweeps keeps every session valid and only appends segments and sessions; a run without resume keeps one-active-per-user |
| Traces.StepKeepsNoHeartbeats | models/WorkSession.js:6-21 | no action or sweep gives a session a `lastHeartbeatAt`: the schema has no such path, `start` creates sessions without it, and the other actions keep it |
| Traces.RunKeepsNoHeartbeats | models/WorkSession.js:6-21 | no run of actions and sweeps from a heartbeat-free valid store produces a session with a heartbeat |
| Traces.SweepTimeoutIrrelevant | cron/autoStopSessions.js:15-26 | on every store reachable from an empty one, the sweep selects exactly the running sessions created before the grace cutoff, and its result does not depend on the timeout |
| Traces.AccumulatedNeverDecreases | routes/workSessions.js:65-68 | between valid stores where segments only grew, no session's accumulated total went down |

## Left out

- Mongo queries, `populate`, `sort`, `save()` and HTTP response plumbing. The store is a sequence in store order, and `findOne` picks the first match.
- The filter building of `/my`, `/admin/list` and `/export`: date ranges, user, project, company, category and machine filters.
- The shaping of each export row: `toLocaleTimeString` segment text, `toISOString` timestamps, project and user names, and turning the `TotalMinutes` number into text. The CSV part models escaping and line assembly over given field values.
- Floating-point minutes. Totals are exact milliseconds, and binary rounding effects of `ms / 60000` and `n * 100` are not modelled.
- Clocks. `Date.now()` and `new Date()` are one `now` parameter per request or sweep, although the source reads the clock several times:
  - `start` reads it for the date key and again for `currentStart`;
  - the sweep reads it for each cutoff and for each session's end time.
- `Dates.Ymd`: the local year, zero-based month and day are integers passed in (timezone and locale are not modelled), and the year is taken as non-negative.
- Foreign calls:
  - `crypto.randomBytes(24)` becomes a 24-byte parameter;
  - `jwt.verify` (and its secret) and `User.findById` become function parameters; a lookup that throws is the same as one that finds nothing.
- Mongoose ObjectId validation and cast errors. A project id that is not a valid ObjectId is treated as an unknown project.
- Loosely typed values:
  - `machineInfo` (a Mixed value) is an optional string, supplied when non-empty;
  - `remarks` of `null` and of `undefined` both default to the empty string;
  - the stored total is always a number, so `|| 0` and `?? 0` agree.
- The WorkSession schema has no `lastHeartbeatAt` path (models/WorkSession.js:6-21), and no modelled operation writes it. It is kept as an optional field so that the sweep's query can be stated as written.
- Running the sweep: no modelled file schedules or calls `autoStopAbandonedSessions`, so it is modelled as a function of the store and a `now`. Also left out are the parsing of `HEARTBEAT_TIMEOUT_MIN` from the environment (an integer parameter here, default 10), and its log line.
- AutoStop.AutoStopAbandonedSessions: every save succeeds. A failing save, which aborts the rest of the loop in the source, is not modelled.
- Concurrency: the race between the sweep and live requests, and the check-then-act gap in `start`. The model is sequential.
- Machines.Options: rows are taken in the order given. The query's sort by hostname is not modelled.
- Schema defaults. Every modelled creation sets the status, segments and total explicitly, so the defaults of `accumulatedMinutes` (0) and `segments` (empty) are never used; the `status` default is modelled by `Sessions.CastStatus`.
- The `updatedAt`/`createdAt` timestamps that Mongoose maintains. A new session's `createdAt` is the start time, and a machine's `firstSeenAt` is its registration time.
- `GET /api/machines`, a plain read, and the rest of the repository: reports, users, projects, companies, timesheets, manual remarks, login, seeding and server setup. These are lookups and writes with no logic of their own. `routes/categories.js` and `models/Category.js` are not part of this model.
