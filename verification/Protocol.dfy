/** The text protocol as the broker sees it: parsing of one command, the effect of that
    command on the client table, and the text of the reply. */
module Protocol {
  import opened Clock
  import opened CText
  import opened Table

  const CMD_SIZE := 128
  const CMD_REGISTER := "REGISTER "
  const CMD_PING := "PING "
  const CMD_UNREGISTER := "UNREGISTER "
  const CMD_REBOOT := "REBOOT"
  const CMD_STATUS := "STATUS"
  const CMD_VERSION := "VERSION"
  const PACKAGE_VERSION := "2.1.0"
  const SOCKET_PROT_VERSION := "1.0"

  /** Peer credentials of the socket. */
  datatype Creds = Creds(pid: Pid, uid: nat)

  datatype Fault =
    | RegisterSyntax | BadTimeout | BadName | Rejected
    | Syntax | IdLength | IdFormat
    | WrongPid | UnknownId | NoPermission | UnknownCommand
    | NoInput | NoCreds

  datatype Reply =
    | OkId(id: string)
    | Ok
    | OkReboot(seconds: int)
    | StatusReport(cfg: Config, slots: seq<Slot>)
    | VersionReport
    | Error(fault: Fault)

  datatype Request =
    | Register(name: string, timeout: nat, checkPid: bool)
    | Ping(id: string)
    | Unregister(id: string)
    | Reboot
    | Status
    | Version
    | Refused(fault: Fault)

  function FaultText(f: Fault): string {
    match f
    case RegisterSyntax => "invalid REGISTER syntax"
    case BadTimeout => "invalid timeout"
    case BadName => "invalid client name"
    case Rejected => "rejected"
    case Syntax => "invalid syntax"
    case IdLength => "invalid clientID length"
    case IdFormat => "invalid clientID format"
    case WrongPid => "wrong PID"
    case UnknownId => "unknown clientID"
    case NoPermission => "no permission"
    case UnknownCommand => "unknown command"
    case NoInput => "no input"
    case NoCreds => "reading peercred"
  }

  // ----- parsing -----

  predicate ValidTimeout(ms: int) {
    TIMEOUT_MIN_MS <= ms <= TIMEOUT_MAX_MS
  }

  predicate CleanName(name: string) {
    forall i | 0 <= i < |name| :: IsPrint(name[i]) && !IsSpace(name[i])
  }

  /** The names REGISTER can carry. */
  predicate ValidName(name: string) {
    0 < |name| < NAME_SIZE && CleanName(name)
  }

  /** The names any occupied slot can bear, announced ones included: non-empty, short enough, on one
      line, and not starting with a blank. */
  predicate LineName(name: string) {
    0 < |name| < NAME_SIZE && !IsSpace(name[0]) && '\n' !in name
  }

  /** The character loop over a scanned name. */
  method CheckName(name: string) returns (clean: bool)
    ensures clean <==> CleanName(name)
  {
    for i := 0 to |name|
      invariant CleanName(name[..i])
    {
      if !IsPrint(name[i]) || IsSpace(name[i]) {
        assert !CleanName(name);
        return false;
      }
      assert name[..i + 1] == name[..i] + [name[i]];
    }
    assert name[..|name|] == name;
    return true;
  }

  function CheckedRegister(name: string, timeout: nat, checkPid: bool): (r: Request)
    requires 0 < |name| < NAME_SIZE
    ensures r.Register? || r.Refused?
    ensures r.Register? ==> ValidName(r.name) && ValidTimeout(r.timeout)
  {
    if !ValidTimeout(timeout) then Refused(BadTimeout)
    else if !CleanName(name) then Refused(BadName)
    else Register(name, timeout, checkPid)
  }

  /** The optional third field, and the rejection of a fourth. */
  function ParseFlag(name: string, timeout: nat, r: string): (q: Request)
    requires 0 < |name| < NAME_SIZE
    ensures q.Register? || q.Refused?
    ensures q.Register? ==> ValidName(q.name) && ValidTimeout(q.timeout)
  {
    match ScanWord(r, 15)
    case None => CheckedRegister(name, timeout, true)
    case Some((flag, rest)) =>
      if ScanWord(rest, 15).Some? || flag != "ignorepid" then Refused(RegisterSyntax)
      else CheckedRegister(name, timeout, false)
  }

  function ParseTimeout(name: string, r: string): (q: Request)
    requires 0 < |name| < NAME_SIZE
    ensures q.Register? || q.Refused?
    ensures q.Register? ==> ValidName(q.name) && ValidTimeout(q.timeout)
  {
    match ScanNumeral(r)
    case None => Refused(RegisterSyntax)
    case Some((num, rest)) => ParseFlag(name, AsUInt32(num), rest)
  }

  /** "%63s %u %15s %15s" and the checks behind it. */
  function ParseRegister(s: string): (q: Request)
    ensures q.Register? || q.Refused?
    ensures q.Register? ==> ValidName(q.name) && ValidTimeout(q.timeout)
  {
    match ScanWord(s, NAME_SIZE - 1)
    case None => Refused(RegisterSyntax)
    case Some((name, rest)) => ParseTimeout(name, rest)
  }

  datatype IdScan = GoodId(id: string) | BadId(fault: Fault)

  /** parse_clientID: "%16s %15s", exactly one field of sixteen hex digits, lower-cased. */
  function ParseId(s: string): (r: IdScan)
    ensures r.GoodId? ==> IsId(r.id)
  {
    match ScanWord(s, ID_LEN)
    case None => BadId(Syntax)
    case Some((word, rest)) =>
      if ScanWord(rest, 15).Some? then BadId(Syntax)
      else if |word| != ID_LEN then BadId(IdLength)
      else if exists i | 0 <= i < |word| :: !IsXDigit(word[i]) then BadId(IdFormat)
      else GoodId(seq(|word|, i requires 0 <= i < |word| => ToLower(word[i])))
  }

  /** The loop of parse_clientID over the scanned word, writing the caller's buffer. */
  method LowerId(word: string, out: array<char>) returns (ok: bool)
    requires |word| == ID_LEN && out.Length == ID_LEN + 1
    modifies out
    ensures ok <==> forall i | 0 <= i < |word| :: IsXDigit(word[i])
    ensures ok ==> out[..ID_LEN] == seq(|word|, i requires 0 <= i < |word| => ToLower(word[i])) && out[ID_LEN] == '\0'
  {
    for i := 0 to |word|
      invariant forall j | 0 <= j < i :: IsXDigit(word[j]) && out[j] == ToLower(word[j])
    {
      if !IsXDigit(word[i]) {
        return false;
      }
      out[i] := ToLower(word[i]);
    }
    out[ID_LEN] := '\0';
    return true;
  }

  function ByIdRequest(s: string, make: string -> Request): Request {
    match ParseId(s)
    case GoodId(id) => make(id)
    case BadId(f) => Refused(f)
  }

  function NoArgument(s: string, width: nat, r: Request): Request {
    if ScanWord(s, width).Some? then Refused(Syntax) else r
  }

  /** The command dispatch of handle_command on the text it has read. */
  function Parse(buf: string): (r: Request)
    ensures r.Register? ==> ValidName(r.name) && ValidTimeout(r.timeout)
    ensures r.Ping? || r.Unregister? ==> IsId(r.id)
  {
    if StartsWith(buf, CMD_REGISTER) then ParseRegister(buf[|CMD_REGISTER|..])
    else if StartsWith(buf, CMD_PING) then ByIdRequest(buf[|CMD_PING|..], id => Ping(id))
    else if StartsWith(buf, CMD_UNREGISTER) then ByIdRequest(buf[|CMD_UNREGISTER|..], id => Unregister(id))
    else if StartsWith(buf, CMD_REBOOT) then NoArgument(buf[|CMD_REBOOT|..], 15, Reboot)
    else if StartsWith(buf, CMD_STATUS) then NoArgument(buf[|CMD_STATUS|..], 31, Status)
    else if StartsWith(buf, CMD_VERSION) then NoArgument(buf[|CMD_VERSION|..], 31, Version)
    else Refused(UnknownCommand)
  }

  /** What parsing guarantees about the requests it lets through. */
  predicate WellFormedRequest(r: Request) {
    && (r.Register? ==> ValidName(r.name) && ValidTimeout(r.timeout))
    && (r.Ping? || r.Unregister? ==> IsId(r.id))
  }

  type GoodRequest = r: Request | WellFormedRequest(r) witness Status

  /** handle_command's reading of one received message: at most 127 bytes, none is "no input". */
  function RequestOf(text: string): GoodRequest {
    if text == "" then Refused(NoInput) else Parse(Clip(text, CMD_SIZE))
  }

  // ----- STATUS -----

  function BoolText(b: bool): string {
    if b then "true" else "false"
  }

  function SignedDec(n: int): string {
    if n < 0 then "-" + Dec(-n) else Dec(n)
  }

  function Header(cfg: Config, t: seq<Slot>): seq<string> {
    [ "daemon_version=" + PACKAGE_VERSION,
      "protocol_version=" + SOCKET_PROT_VERSION,
      "wd_timeout_s=" + SignedDec(cfg.wdTimeout),
      "reboot_timeout_s=" + SignedDec(cfg.rebootTimeout),
      "strict_clients=" + BoolText(cfg.strict),
      "unique_clients=" + BoolText(cfg.unique),
      "active_clients=" + Dec(Count(t, Active)) ]
  }

  function Row(s: Slot): string {
    s.id + " " + Dec(s.pid) + " " + s.name + " " + Dec(s.timeout) + " " + (if s.checkPid then "1" else "0")
  }

  /** The occupied slots in table order. */
  function Listed(t: seq<Slot>): seq<Slot> {
    if t == [] then []
    else Listed(t[..|t| - 1]) + if Occupied(t[|t| - 1]) then [t[|t| - 1]] else []
  }

  function Rows(ss: seq<Slot>): (r: seq<string>)
    ensures |r| == |ss| && forall i | 0 <= i < |ss| :: r[i] == Row(ss[i])
  {
    seq(|ss|, i requires 0 <= i < |ss| => Row(ss[i]))
  }

  function StatusText(cfg: Config, t: seq<Slot>): string {
    Lines(Header(cfg, t) + Rows(Listed(t)))
  }

  function VersionText(): string {
    Lines(["wd-broker_version=" + PACKAGE_VERSION, "protocol_version=" + SOCKET_PROT_VERSION])
  }

  /** The text written back to the peer. */
  function Render(r: Reply): string {
    match r
    case OkId(id) => "OK " + id + "\n"
    case Ok => "OK\n"
    case OkReboot(s) => "OK, " + SignedDec(s) + "\n"
    case StatusReport(cfg, t) => StatusText(cfg, t)
    case VersionReport => VersionText()
    case Error(f) => "ERROR " + FaultText(f) + "\n"
  }

  // ----- effect -----

  /** `stop` is set by an accepted REBOOT: running becomes false and reboot true. */
  datatype Outcome = Outcome(slots: seq<Slot>, reply: Reply, stop: bool)

  function Freed(s: Slot): Slot {
    s.(active := false, announced := false)
  }

  predicate PidAccepted(s: Slot, pid: Pid) {
    !s.checkPid || s.pid == pid
  }

  /** handle_command after parsing: `now` is the clock reading taken when the command is
      accepted, `raw` the random bytes make_clientID would draw. */
  function Exec(cfg: Config, t: seq<Slot>, req: Request, cr: Creds, now: Time, raw: RawId): Outcome
  {
    match req
    case Register(name, timeout, checkPid) =>
      (match Select(cfg, t, name)
       case None => Outcome(t, Error(Rejected), false)
       case Some(i) =>
         var id := if t[i].announced then t[i].id else HexId(raw);
         Outcome(t[i := Slot(id, name, cr.pid, timeout, now, true, false, checkPid)], OkId(id), false))
    case Ping(id) =>
      var i := First(t, ById(id));
      if i == |t| then Outcome(t, Error(UnknownId), false)
      else if PidAccepted(t[i], cr.pid) then Outcome(t[i := t[i].(lastPing := now)], Ok, false)
      else Outcome(t, Error(WrongPid), false)
    case Unregister(id) =>
      var i := First(t, ById(id));
      if i == |t| then Outcome(t, Error(UnknownId), false)
      else if PidAccepted(t[i], cr.pid) then
        if cfg.strict && cr.uid != 0 then Outcome(t, Error(Rejected), false)
        else Outcome(t[i := Freed(t[i])], Ok, false)
      else if cr.uid == 0 then Outcome(t[i := Freed(t[i])], Ok, false)
      else Outcome(t, Error(NoPermission), false)
    case Reboot =>
      if cr.uid != 0 then Outcome(t, Error(NoPermission), false)
      else Outcome(t, OkReboot(cfg.rebootTimeout), true)
    case Status =>
      if cr.pid != 0 && cr.uid != 0 then Outcome(t, Error(NoPermission), false)
      else Outcome(t, StatusReport(cfg, t), false)
    case Version => Outcome(t, VersionReport, false)
    case Refused(f) => Outcome(t, Error(f), false)
  }
}
