/** libwd-client: the commands it prints, the replies it reads, and what it keeps in the caller's
    record. */
module Client {
  import opened Clock
  import opened CText
  import opened Table
  import opened Protocol
  import opened Wire

  const WD_CLIENT_OK := 0
  const WD_CLIENT_ERR := -1
  const WD_CLIENT_EPARAM := -2
  const WD_CLIENT_ETIMEOUT := -3
  const WD_CLIENT_EVERSION := -4

  const REPLY_SIZE := 128
  const SHORT_SIZE := 64

  // ----- printing -----

  function FlagText(ignorePid: bool): string {
    if ignorePid then " ignorepid" else ""
  }

  function RegisterLine(name: string, timeout: nat, ignorePid: bool): string {
    CMD_REGISTER + RegisterArgs(name, timeout, ignorePid)
  }

  function RegisterArgs(name: string, timeout: nat, ignorePid: bool): string {
    name + (" " + Dec(timeout) + (FlagText(ignorePid) + "\n"))
  }

  function RegisterText(name: string, timeout: nat, ignorePid: bool): string {
    Clip(RegisterLine(name, timeout, ignorePid), CMD_SIZE)
  }

  function PingText(id: string): string {
    Clip(CMD_PING + (id + "\n"), SHORT_SIZE)
  }

  function UnregisterText(id: string): string {
    Clip(CMD_UNREGISTER + (id + "\n"), SHORT_SIZE)
  }

  // ----- reading -----

  /** The 16-byte copy of what follows "OK ". */
  function IdFromReply(reply: string): Option<string> {
    if StartsWith(reply, "OK ") then Some(Clip(reply[3..], ID_LEN + 1)) else None
  }

  /** strstr */
  function Find(s: string, pat: string): (r: Option<nat>)
    ensures r.Some? ==> r.value <= |s| && pat <= s[r.value..] && forall i | 0 <= i < r.value :: !(pat <= s[i..])
    ensures r.None? ==> forall i | 0 <= i <= |s| :: !(pat <= s[i..])
  {
    if pat <= s then Some(0)
    else if s == "" then None
    else
      var r := Find(s[1..], pat);
      assert forall i | 1 <= i <= |s| :: s[i..] == s[1..][i - 1..];
      if r.None? then None else Some(r.value + 1)
  }

  /** wd_client_check_prot_version on the reply it has read. */
  function CheckVersion(reply: string): int {
    var prefix := "protocol_version=";
    match Find(reply, prefix)
    case None => WD_CLIENT_ERR
    case Some(i) => if StartsWith(reply[i + |prefix|..], SOCKET_PROT_VERSION) then WD_CLIENT_OK else WD_CLIENT_EVERSION
  }

  /** The codes with which connecting fails are all negative. */
  type Failure = c: int | c < 0 witness -1

  /** What the socket yields for one command. */
  datatype Link = ConnectFails(code: Failure) | WriteFails | ReadFails | TimesOut | Answered(reply: string)

  /** The return code of a command whose success is a reply starting with `ok`. */
  function Verdict(link: Link, size: nat, ok: string): int
    requires size > 0
  {
    match link
    case ConnectFails(code) => code
    case WriteFails => WD_CLIENT_ERR
    case ReadFails => WD_CLIENT_ERR
    case TimesOut => WD_CLIENT_ETIMEOUT
    case Answered(reply) => if StartsWith(Clip(reply, size), ok) then WD_CLIENT_OK else WD_CLIENT_ERR
  }

  /** wd_client_t without its socket path and status text. */
  class WdClient {
    var name: string
    var clientID: string

    constructor (name: string)
      ensures this.name == name && clientID == ""
    {
      this.name, clientID := name, "";
    }

    /** wd_client_register: `version` and `link` are what the two connections yield. */
    method Register(timeout: nat, ignorePid: bool, version: Link, link: Link) returns (ret: int, sent: Option<string>)
      modifies this`clientID
      ensures sent == if name == "" || !ValidTimeout(timeout) || !VersionAgreed(version) || link.ConnectFails? then None
                      else Some(RegisterText(name, timeout, ignorePid))
      ensures ret == if name == "" || !ValidTimeout(timeout) then WD_CLIENT_EPARAM
                     else if !VersionAgreed(version) then VersionVerdict(version)
                     else Verdict(link, REPLY_SIZE, "OK ")
      ensures clientID == if sent.Some? && ret == WD_CLIENT_OK && link.Answered?
                          then IdFromReply(Clip(link.reply, REPLY_SIZE)).value else old(clientID)
    {
      if name == "" || timeout < TIMEOUT_MIN_MS || timeout > TIMEOUT_MAX_MS {
        return WD_CLIENT_EPARAM, None;
      }
      ret := VersionVerdict(version);
      if ret != WD_CLIENT_OK {
        return ret, None;
      }
      if link.ConnectFails? {
        return link.code, None;
      }
      sent := Some(RegisterText(name, timeout, ignorePid));
      match link {
        case WriteFails => ret := WD_CLIENT_ERR;
        case ReadFails => ret := WD_CLIENT_ERR;
        case TimesOut => ret := WD_CLIENT_ETIMEOUT;
        case Answered(text) =>
          var reply := Clip(text, REPLY_SIZE);
          if StartsWith(reply, "OK ") {
            clientID := Clip(reply[3..], ID_LEN + 1);
            ret := WD_CLIENT_OK;
          } else {
            ret := WD_CLIENT_ERR;
          }
      }
    }

    /** wd_client_ping and wd_client_unregister differ in the command only. */
    method Send(unregister: bool, link: Link) returns (ret: int, sent: Option<string>)
      ensures sent == if clientID == "" || link.ConnectFails? then None
                      else Some(if unregister then UnregisterText(clientID) else PingText(clientID))
      ensures ret == if clientID == "" then WD_CLIENT_EPARAM else Verdict(link, SHORT_SIZE, "OK")
    {
      if clientID == "" {
        return WD_CLIENT_EPARAM, None;
      }
      if link.ConnectFails? {
        return link.code, None;
      }
      sent := Some(if unregister then UnregisterText(clientID) else PingText(clientID));
      match link {
        case WriteFails => ret := WD_CLIENT_ERR;
        case ReadFails => ret := WD_CLIENT_ERR;
        case TimesOut => ret := WD_CLIENT_ETIMEOUT;
        case Answered(text) => ret := if StartsWith(Clip(text, SHORT_SIZE), "OK") then WD_CLIENT_OK else WD_CLIENT_ERR;
      }
    }
  }

  /** The result of the version check that precedes REGISTER. */
  function VersionVerdict(version: Link): int {
    match version
    case ConnectFails(code) => code
    case Answered(reply) => CheckVersion(Clip(reply, REPLY_SIZE))
    case _ => WD_CLIENT_ERR
  }

  predicate VersionAgreed(version: Link) {
    VersionVerdict(version) == WD_CLIENT_OK
  }

  // ----- round trips -----

  lemma FlagRoundTrip(ignorePid: bool)
    ensures var tail := FlagText(ignorePid) + "\n";
            && !IsDigit(tail[0])
            && ScanWord(tail, 15) == (if ignorePid then Some(("ignorepid", "\n")) else None)
            && ScanWord("\n", 15) == None
  {
    SkipAll("\n");
    if ignorePid {
      assert FlagText(true) + "\n" == " " + "ignorepid" + "\n";
      ScanPrintedWord("ignorepid", "\n", 15);
    } else {
      assert FlagText(false) + "\n" == "\n";
    }
  }

  lemma FlagArgument(name: string, timeout: nat, ignorePid: bool)
    requires ValidName(name) && ValidTimeout(timeout)
    ensures ParseFlag(name, timeout, FlagText(ignorePid) + "\n") == Register(name, timeout, !ignorePid)
  {
    FlagRoundTrip(ignorePid);
  }

  lemma TimeoutArgument(name: string, timeout: nat, tail: string)
    requires 0 < |name| < NAME_SIZE && timeout < U32
    requires tail == "" || !IsDigit(tail[0])
    ensures ParseTimeout(name, " " + Dec(timeout) + tail) == ParseFlag(name, timeout, tail)
  {
    ScanPrintedNumber(timeout, tail);
    SmallUInt32(timeout);
  }

  lemma RegisterArgument(name: string, timeout: nat, ignorePid: bool)
    requires ValidName(name) && ValidTimeout(timeout)
    ensures ParseRegister(RegisterArgs(name, timeout, ignorePid)) == Register(name, timeout, !ignorePid)
  {
    var tail := FlagText(ignorePid) + "\n";
    ScanPrintedWord(name, " " + Dec(timeout) + tail, NAME_SIZE - 1);
    FlagRoundTrip(ignorePid);
    TimeoutArgument(name, timeout, tail);
    FlagArgument(name, timeout, ignorePid);
  }

  lemma RegisterLineFits(name: string, timeout: nat, ignorePid: bool)
    requires ValidName(name) && ValidTimeout(timeout)
    ensures |RegisterLine(name, timeout, ignorePid)| < CMD_SIZE
  {
    assert Pow10(6) == 1000000;
    DecLength(timeout, 6, 1000000);
  }

  /** REGISTER round trip: every valid name, timeout and flag fit both 128-byte buffers and reach the
      broker unchanged. */
  lemma RegisterRoundTrip(name: string, timeout: nat, ignorePid: bool)
    requires ValidName(name) && ValidTimeout(timeout)
    ensures var text := RegisterText(name, timeout, ignorePid);
            && text == RegisterLine(name, timeout, ignorePid) && |text| < CMD_SIZE
            && Parse(Clip(text, CMD_SIZE)) == Register(name, timeout, !ignorePid)
  {
    RegisterLineFits(name, timeout, ignorePid);
    RegisterArgument(name, timeout, ignorePid);
    RegisterCommand(RegisterArgs(name, timeout, ignorePid));
  }

  /** An identifier followed by a newline is read back as itself. */
  lemma IdRoundTrip(id: string)
    requires IsId(id)
    ensures ParseId(id + "\n") == GoodId(id)
  {
    ScanPrintedWord(id, "\n", ID_LEN);
    SkipAll("\n");
    assert forall i | 0 <= i < |id| :: IsXDigit(id[i]) && ToLower(id[i]) == id[i];
  }

  lemma PingRoundTrip(id: string)
    requires IsId(id)
    ensures PingText(id) == CMD_PING + (id + "\n") && Parse(Clip(PingText(id), CMD_SIZE)) == Ping(id)
  {
    IdRoundTrip(id);
    PingCommand(id + "\n");
  }

  lemma UnregisterRoundTrip(id: string)
    requires IsId(id)
    ensures UnregisterText(id) == CMD_UNREGISTER + (id + "\n")
    ensures Parse(Clip(UnregisterText(id), CMD_SIZE)) == Unregister(id)
  {
    IdRoundTrip(id);
    UnregisterCommand(id + "\n");
  }

  /** The client's 16-byte copy of an OK reply is the identifier the broker stored. */
  lemma ReplyIdRoundTrip(id: string)
    requires IsId(id)
    ensures IdFromReply(Clip(Render(OkId(id)), REPLY_SIZE)) == Some(id)
  {
    var s := Render(OkId(id));
    assert s[3..] == id + "\n";
    assert (id + "\n")[..ID_LEN] == id;
  }

  lemma FindIs(s: string, pat: string, n: nat)
    requires n <= |s| && pat <= s[n..] && forall i | 0 <= i < n :: !(pat <= s[i..])
    ensures Find(s, pat) == Some(n)
  {
    assert Find(s, pat).Some?;
    assert !(Find(s, pat).value < n) && !(n < Find(s, pat).value);
  }

  lemma VersionLines()
    ensures VersionText() ==
            ("wd-broker_version=" + PACKAGE_VERSION + "\n") + ("protocol_version=" + (SOCKET_PROT_VERSION + "\n"))
  {
    var a, b := "wd-broker_version=" + PACKAGE_VERSION, "protocol_version=" + SOCKET_PROT_VERSION;
    assert Lines([]) == "" && [b][1..] == [] && [a, b][1..] == [b];
    assert Lines([b]) == b + "\n" + "";
    assert b + "\n" == "protocol_version=" + (SOCKET_PROT_VERSION + "\n");
  }

  /** The broker's VERSION reply passes the client's version check. */
  lemma VersionAccepted()
    ensures VersionVerdict(Answered(VersionText())) == WD_CLIENT_OK
  {
    VersionLines();
    var a, p, v := "wd-broker_version=" + PACKAGE_VERSION + "\n", "protocol_version=", SOCKET_PROT_VERSION + "\n";
    VersionFound(a, p, v);
  }

  lemma VersionFound(a: string, p: string, v: string)
    requires a != "" && p != "" && |a + (p + v)| < REPLY_SIZE
    requires forall i | 0 <= i < |a| :: a[i] != p[0]
    ensures Clip(a + (p + v), REPLY_SIZE) == a + (p + v)
    ensures Find(a + (p + v), p) == Some(|a|) && (a + (p + v))[|a| + |p|..] == v
  {
    var s := a + (p + v);
    assert s[|a|..] == p + v;
    forall i | 0 <= i < |a|
      ensures !(p <= s[i..])
    {
      assert s[i..][0] == a[i];
    }
    FindIs(s, p, |a|);
    assert s[|a| + |p|..] == v;
  }

  /** Every refusal of the broker is an error to all three calls, so no refusal text is ever taken for a
      clientID. */
  lemma RefusalIsError(f: Fault)
    ensures Verdict(Answered(Render(Error(f))), REPLY_SIZE, "OK ") == WD_CLIENT_ERR
    ensures Verdict(Answered(Render(Error(f))), SHORT_SIZE, "OK") == WD_CLIENT_ERR
    ensures IdFromReply(Clip(Render(Error(f)), REPLY_SIZE)) == None
  {
    RefusalIsNoSuccess(f);
    assert "OK "[0] == 'O' && "OK"[0] == 'O';
  }

  /** What each outcome of the connection means to the caller. */
  lemma CodesTell(link: Link, size: nat, ok: string)
    requires size > 0
    ensures Verdict(link, size, ok) == WD_CLIENT_OK <==> link.Answered? && ok <= Clip(link.reply, size)
    ensures link.TimesOut? ==> Verdict(link, size, ok) == WD_CLIENT_ETIMEOUT
    ensures link.WriteFails? || link.ReadFails? ==> Verdict(link, size, ok) == WD_CLIENT_ERR
    ensures link.ConnectFails? ==> Verdict(link, size, ok) == link.code
    ensures link.Answered? && !(ok <= Clip(link.reply, size)) ==> Verdict(link, size, ok) == WD_CLIENT_ERR
  {
  }

  lemma VersionAt(a: string, p: string, v: string)
    requires p == "protocol_version=" && a != "" && |a + (p + v)| < REPLY_SIZE
    requires forall i | 0 <= i < |a| :: a[i] != p[0]
    ensures VersionVerdict(Answered(a + (p + v))) == if "1.0" <= v then WD_CLIENT_OK else WD_CLIENT_EVERSION
  {
    VersionFound(a, p, v);
  }

  /** A broker of another protocol version is refused with a code of its own, before any REGISTER. */
  lemma ForeignVersion(v: string)
    requires |v| < 60
    ensures var reply := ("wd-broker_version=" + PACKAGE_VERSION + "\n") + ("protocol_version=" + (v + "\n"));
            VersionVerdict(Answered(reply)) == if "1.0" <= v then WD_CLIENT_OK else WD_CLIENT_EVERSION
  {
    var a, p := "wd-broker_version=" + PACKAGE_VERSION + "\n", "protocol_version=";
    VersionAt(a, p, v + "\n");
    NewlineEnds(v);
  }

  lemma NewlineEnds(v: string)
    ensures "1.0" <= v + "\n" <==> "1.0" <= v
  {
    assert forall i | 0 <= i < |v| :: (v + "\n")[i] == v[i];
    assert "1.0"[0] == '1' && "1.0"[1] == '.' && "1.0"[2] == '0';
  }

  /** A reply without a version, and no reply at all, is an error. */
  lemma NoVersion(reply: string)
    requires |reply| < REPLY_SIZE && forall i | 0 <= i <= |reply| :: !("protocol_version=" <= reply[i..])
    ensures VersionVerdict(Answered(reply)) == WD_CLIENT_ERR
    ensures VersionVerdict(TimesOut) == VersionVerdict(ReadFails) == VersionVerdict(WriteFails) == WD_CLIENT_ERR
  {
  }
}
