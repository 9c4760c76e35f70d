/** The desktop-agent machine registry: register (create or merge),
    heartbeat ping, and the labels of the admin filter options. The
    registry is a map keyed by `machineId`, which the schema keeps unique. */
module Machines {
  import opened Results

  newtype Byte = b: int | 0 <= b < 256

  /** Length in bytes of a fresh machine token before hex encoding. */
  const TokenBytes: nat := 24

  predicate IsHexDigit(c: char) {
    '0' <= c <= '9' || 'a' <= c <= 'f'
  }

  /** The lower-case hex digit of a nibble. */
  function HexDigit(v: nat): (c: char)
    requires v < 16
    ensures IsHexDigit(c)
  {
    if v < 10 then ('0' as int + v) as char else ('a' as int + v - 10) as char
  }

  function HexValue(c: char): (v: nat)
    requires IsHexDigit(c)
    ensures v < 16 && HexDigit(v) == c
  {
    if '0' <= c <= '9' then c as int - '0' as int
    else c as int - 'a' as int + 10
  }

  /** `buf.toString("hex")`: two lower-case hex digits per byte, high nibble first. */
  function Hex(bytes: seq<Byte>): (s: string)
    ensures |s| == 2 * |bytes|
    ensures forall i :: 0 <= i < |s| ==> IsHexDigit(s[i])
  {
    if |bytes| == 0 then ""
    else
      var b := bytes[0] as int;
      [HexDigit(b / 16), HexDigit(b % 16)] + Hex(bytes[1..])
  }

  /** Reads an even-length string of hex digits back into bytes. */
  function Unhex(s: string): seq<Byte>
    requires |s| % 2 == 0
    requires forall i :: 0 <= i < |s| ==> IsHexDigit(s[i])
  {
    if |s| == 0 then []
    else [(HexValue(s[0]) * 16 + HexValue(s[1])) as Byte] + Unhex(s[2..])
  }

  /** The token string determines the random bytes it was made from. */
  lemma {:induction false} HexRoundTrip(bytes: seq<Byte>)
    ensures Unhex(Hex(bytes)) == bytes
  {
    if |bytes| > 0 {
      var s := Hex(bytes);
      HexRoundTrip(bytes[1..]);
      assert s[2..] == Hex(bytes[1..]);
      var b := bytes[0] as int;
      assert HexValue(s[0]) == b / 16 && HexValue(s[1]) == b % 16;
      assert bytes == [bytes[0]] + bytes[1..];
    }
  }

  datatype Machine = Machine(
    machineId: string,
    machineToken: string,
    hostname: Option<string>,
    platform: Option<string>,
    user: Option<string>,
    mac: Option<string>,
    agentVersion: Option<string>,
    lastSeenAt: int,
    firstSeenAt: int,
    note: Option<string>)

  type Registry = map<string, Machine>

  /** Every record sits under its own `machineId`, so there is at most one
      record per machine. */
  predicate WellKeyed(reg: Registry) {
    forall k :: k in reg ==> reg[k].machineId == k
  }

  datatype RegisterRequest = RegisterRequest(
    machineId: Option<string>,
    hostname: Option<string>,
    platform: Option<string>,
    user: Option<string>,
    mac: Option<string>,
    agentVersion: Option<string>)

  datatype MachineError = MachineIdRequired | MachineNotFound

  /** 400 when the request names no machine, 404 when it names an unknown one. */
  function HttpStatus(e: MachineError): (code: int)
    ensures code == 400 <==> e.MachineIdRequired?
    ensures code == 404 <==> e.MachineNotFound?
  {
    match e
    case MachineIdRequired => 400
    case MachineNotFound => 404
  }

  /** The `error` text of a refusal. */
  function Message(e: MachineError): (m: string)
    ensures |m| > 0
  {
    match e
    case MachineIdRequired => "machineId is required"
    case MachineNotFound => "machine not found"
  }

  /** The two refusals read differently. */
  lemma MessagesDistinct(a: MachineError, b: MachineError)
    ensures Message(a) == Message(b) <==> a == b
  {
    if a != b {
      assert Message(MachineIdRequired)[1] == 'a' && Message(MachineNotFound)[1] == 'a';
      assert Message(MachineIdRequired)[7] != Message(MachineNotFound)[7];
    }
  }

  /** The body of a successful register. `isDisabled` is not a schema
      path, so `!!mach.isDisabled` is always false. */
  datatype RegisterReply = RegisterReply(
    machineId: string,
    machineToken: string,
    hostname: Option<string>,
    platform: Option<string>,
    user: Option<string>,
    mac: Option<string>,
    isDisabled: bool,
    lastSeenAt: int)

  /** `incoming ?? current`: a supplied value (even empty) replaces the old one. */
  function Merge(incoming: Option<string>, current: Option<string>): (r: Option<string>)
    ensures incoming.Some? ==> r == incoming
    ensures incoming.None? ==> r == current
  {
    if incoming.Some? then incoming else current
  }

  function ReplyOf(m: Machine): RegisterReply {
    RegisterReply(m.machineId, m.machineToken, m.hostname, m.platform, m.user, m.mac, false, m.lastSeenAt)
  }

  /** POST /register: creates the machine with a fresh token when unknown,
      otherwise merges the supplied details into the existing record. */
  function Register(reg: Registry, req: RegisterRequest, now: int, random: seq<Byte>)
    : (r: Result<(Registry, RegisterReply), MachineError>)
    requires |random| == TokenBytes
    ensures !Truthy(req.machineId) ==> r == Err(MachineIdRequired)
    ensures Truthy(req.machineId) ==> r.Ok?
    ensures r.Ok? ==>
      var id := req.machineId.value;
      var after := r.value.0;
      && after.Keys == reg.Keys + {id}
      && (forall k :: k in reg && k != id ==> after[k] == reg[k])
      && after[id].machineId == id
      && after[id].lastSeenAt == now
      && r.value.1 == ReplyOf(after[id])
      && (id !in reg ==>
            && after[id].machineToken == Hex(random)
            && after[id].hostname == req.hostname
            && after[id].platform == req.platform
            && after[id].user == req.user
            && after[id].mac == req.mac
            && after[id].agentVersion == req.agentVersion
            && after[id].firstSeenAt == now
            && after[id].note.None?)
      && (id in reg ==>
            && after[id].machineToken == reg[id].machineToken
            && after[id].hostname == Merge(req.hostname, reg[id].hostname)
            && after[id].platform == Merge(req.platform, reg[id].platform)
            && after[id].user == Merge(req.user, reg[id].user)
            && after[id].mac == Merge(req.mac, reg[id].mac)
            && after[id].agentVersion == Merge(req.agentVersion, reg[id].agentVersion)
            && after[id].firstSeenAt == reg[id].firstSeenAt
            && after[id].note == reg[id].note)
  {
    if !Truthy(req.machineId) then Err(MachineIdRequired)
    else
      var id := req.machineId.value;
      var m :=
        if id !in reg then
          Machine(id, Hex(random), req.hostname, req.platform, req.user, req.mac, req.agentVersion, now, now, None)
        else
          var prev := reg[id];
          prev.(machineId := id,
               hostname := Merge(req.hostname, prev.hostname),
               platform := Merge(req.platform, prev.platform),
               user := Merge(req.user, prev.user),
               mac := Merge(req.mac, prev.mac),
               agentVersion := Merge(req.agentVersion, prev.agentVersion),
               lastSeenAt := now);
      Ok((reg[id := m], ReplyOf(m)))
  }

  datatype PingRequest = PingRequest(machineId: Option<string>)

  /** POST /ping: refreshes `lastSeenAt` of a known machine and nothing else. */
  function Ping(reg: Registry, req: PingRequest, now: int): (r: Result<(Registry, int), MachineError>)
    ensures !Truthy(req.machineId) ==> r == Err(MachineIdRequired)
    ensures Truthy(req.machineId) && req.machineId.value !in reg ==> r == Err(MachineNotFound)
    ensures Truthy(req.machineId) && req.machineId.value in reg ==> r.Ok?
    ensures r.Ok? ==>
      var id := req.machineId.value;
      && Truthy(req.machineId) && id in reg
      && r.value.0 == reg[id := reg[id].(lastSeenAt := now)]
      && r.value.1 == now
  {
    if !Truthy(req.machineId) then Err(MachineIdRequired)
    else
      var id := req.machineId.value;
      if id !in reg then Err(MachineNotFound)
      else Ok((reg[id := reg[id].(lastSeenAt := now)], now))
  }

  /** Register keeps one record per machine id. */
  lemma RegisterKeepsWellKeyed(reg: Registry, req: RegisterRequest, now: int, random: seq<Byte>)
    requires WellKeyed(reg) && |random| == TokenBytes
    requires Register(reg, req, now, random).Ok?
    ensures WellKeyed(Register(reg, req, now, random).value.0)
  {
  }

  /** Ping keeps one record per machine id. */
  lemma PingKeepsWellKeyed(reg: Registry, req: PingRequest, now: int)
    requires WellKeyed(reg)
    requires Ping(reg, req, now).Ok?
    ensures WellKeyed(Ping(reg, req, now).value.0)
  {
  }

  /** Once a machine is registered its token never changes: registering it
      again, at any time and with any details, returns the first token. */
  lemma ReRegisterKeepsToken(reg: Registry, first: RegisterRequest, again: RegisterRequest,
                             t1: int, t2: int, r1: seq<Byte>, r2: seq<Byte>)
    requires |r1| == TokenBytes && |r2| == TokenBytes
    requires Truthy(first.machineId) && again.machineId == first.machineId
    ensures var reg1 := Register(reg, first, t1, r1).value.0;
      Register(reg1, again, t2, r2).value.1.machineToken == Register(reg, first, t1, r1).value.1.machineToken
  {
  }

  /** A fresh token is 48 hex digits. */
  lemma FreshTokenShape(reg: Registry, req: RegisterRequest, now: int, random: seq<Byte>)
    requires |random| == TokenBytes && Truthy(req.machineId) && req.machineId.value !in reg
    ensures var tok := Register(reg, req, now, random).value.1.machineToken;
      |tok| == 48 && forall i :: 0 <= i < |tok| ==> IsHexDigit(tok[i])
  {
  }

  /** One entry of GET /options. */
  datatype MachineOption = MachineOption(value: string, labelText: string, hint: string, lastSeenAt: int)

  /** The label is the hostname when it is non-empty, else the machine id;
      the hint joins platform and user with a bullet. */
  function OptionOf(m: Machine): (o: MachineOption)
    ensures o.value == m.machineId
    ensures Truthy(m.hostname) ==> o.labelText == m.hostname.value
    ensures !Truthy(m.hostname) ==> o.labelText == m.machineId
    ensures o.labelText == "" ==> m.machineId == ""
    ensures o.hint == OrElse(m.platform, "") + " • " + OrElse(m.user, "")
    ensures o.lastSeenAt == m.lastSeenAt
  {
    MachineOption(m.machineId, OrElse(m.hostname, m.machineId),
                  OrElse(m.platform, "") + " • " + OrElse(m.user, ""), m.lastSeenAt)
  }

  /** The options list, one entry per machine row in the order given. */
  function Options(rows: seq<Machine>): (opts: seq<MachineOption>)
    ensures |opts| == |rows|
    ensures forall i :: 0 <= i < |rows| ==> opts[i] == OptionOf(rows[i])
  {
    seq(|rows|, i requires 0 <= i < |rows| => OptionOf(rows[i]))
  }
}
