/** The broker itself: the slot array and flags it updates in place, one method per C function,
    each proved against the state machine. */
module Broker {
  import opened Clock
  import opened CText
  import opened Table
  import opened Protocol
  import opened Registry
  import opened Device
  import opened Machine

  // ----- reading one command -----

  /** parse_clientID. */
  method ReadId(arg: string) returns (r: IdScan)
    ensures r == ParseId(arg)
  {
    match ScanWord(arg, ID_LEN) {
      case None => r := BadId(Syntax);
      case Some((word, rest)) =>
        if ScanWord(rest, 15).Some? {
          r := BadId(Syntax);
        } else if |word| != ID_LEN {
          r := BadId(IdLength);
        } else {
          var out := new char[ID_LEN + 1];
          var ok := LowerId(word, out);
          r := if ok then GoodId(out[..ID_LEN]) else BadId(IdFormat);
        }
    }
  }

  /** The REGISTER branch of handle_command up to the slot lookup. */
  method ReadRegister(arg: string) returns (r: Request)
    ensures r == ParseRegister(arg)
  {
    var name, timeout, checkPid := "", 0, true;
    match ScanWord(arg, NAME_SIZE - 1) {
      case None => return Refused(RegisterSyntax);
      case Some((word, r1)) =>
        name := word;
        match ScanNumeral(r1) {
          case None => return Refused(RegisterSyntax);
          case Some((num, r2)) =>
            timeout := AsUInt32(num);
            match ScanWord(r2, 15) {
              case None =>
              case Some((flag, r3)) =>
                if ScanWord(r3, 15).Some? || flag != "ignorepid" {
                  return Refused(RegisterSyntax);
                }
                checkPid := false;
            }
        }
    }
    if timeout < TIMEOUT_MIN_MS || timeout > TIMEOUT_MAX_MS {
      return Refused(BadTimeout);
    }
    var clean := CheckName(name);
    if !clean {
      return Refused(BadName);
    }
    return Register(name, timeout, checkPid);
  }

  /** The command dispatch. */
  method ReadRequest(text: string) returns (r: Request)
    ensures r == RequestOf(text)
  {
    if text == "" {
      return Refused(NoInput);
    }
    var buf := Clip(text, CMD_SIZE);
    if StartsWith(buf, CMD_REGISTER) {
      r := ReadRegister(buf[|CMD_REGISTER|..]);
    } else if StartsWith(buf, CMD_PING) {
      var id := ReadId(buf[|CMD_PING|..]);
      r := if id.GoodId? then Ping(id.id) else Refused(id.fault);
    } else if StartsWith(buf, CMD_UNREGISTER) {
      var id := ReadId(buf[|CMD_UNREGISTER|..]);
      r := if id.GoodId? then Unregister(id.id) else Refused(id.fault);
    } else {
      r := Parse(buf);
    }
  }

  /** One snprintf at the current offset of the message: line k of the whole text. */
  method PutLine(msg: string, ghost all: seq<string>, ghost k: nat, line: string) returns (r: string)
    requires k < |all| && msg == Lines(all[..k]) && line == all[k]
    ensures r == Lines(all[..k + 1])
  {
    LinesSnoc(all[..k], line);
    assert all[..k + 1] == all[..k] + [line];
    r := msg + line + "\n";
  }

  lemma NextRow(h: seq<string>, t: seq<Slot>, i: nat)
    requires i < |t|
    ensures var done, all := h + Rows(Listed(t[..i])), h + Rows(Listed(t[..i + 1]));
            if Occupied(t[i]) then all == done + [Row(t[i])] && all[..|all| - 1] == done && all[..|all|] == all
            else all == done
  {
    assert t[..i + 1][..i] == t[..i];
    assert Listed(t[..i + 1]) == Listed(t[..i]) + if Occupied(t[i]) then [t[i]] else [];
  }

  /** The message received in the pass is this text. */
  predicate Carries(p: Pass, text: string) {
    p.conn.Message? ==> p.conn.req == RequestOf(text)
  }

  /** What the peer of the pass, if there is one, reads back. */
  function Written(cfg: Config, t: seq<Slot>, c: Connection): string {
    match c
    case Message(req, creds, at, raw) => Render(Exec(cfg, t, req, creds, at, raw).reply)
    case NoCredentials => "ERROR " + "reading peercred" + "\n"
    case Silent => "ERROR " + "no input" + "\n"
    case _ => ""
  }

  lemma PlainRefusals()
    ensures Render(Error(NoCreds)) == "ERROR " + "reading peercred" + "\n"
    ensures Render(Error(NoInput)) == "ERROR " + "no input" + "\n"
  {
  }

  datatype Lookup = Identified | PidMismatch | NotFound

  class Broker {
    const cfg: Config
    const enabled: bool
    const slots: array<Slot>
    var running: bool
    var reboot: bool
    var allOk: bool
    var proc: Proc
    ghost var ops: seq<Op>
    ghost var history: seq<Exchange>
    ghost var checked: nat -> Time
    ghost var lastRead: Time
    ghost var clock: Time

    ghost function Su(): Setup {
      Setup(cfg, slots.Length, enabled)
    }

    /** The state as the state machine sees it. */
    ghost function View(): World
      reads this, slots
    {
      World(slots[..], running, reboot, allOk, proc, ops, history, checked, lastRead, clock)
    }

    /** main up to the loop: the table is the one parse_config has filled. */
    constructor (cfg: Config, enabled: bool, clients: array<Slot>, ghost timerAt: Time, ghost openAt: Time)
      ensures slots == clients && this.cfg == cfg && this.enabled == enabled
      ensures View() == Start(Su(), clients[..], timerAt, openAt)
    {
      this.cfg, this.enabled, slots := cfg, enabled, clients;
      running, reboot, allOk, proc := true, false, true, Serving;
      var w := Start(Setup(cfg, clients.Length, enabled), clients[..], timerAt, openAt);
      ops, history, checked, lastRead, clock := w.ops, w.history, w.checked, w.lastRead, w.clock;
    }

    /** get_clientInstance_by_name: -1 stands for NULL. */
    method FindByName(name: string) returns (idx: int)
      ensures match Select(cfg, slots[..], name)
              case None => idx == -1
              case Some(i) => idx == i
    {
      ghost var t := slots[..];
      if cfg.unique {
        for i := 0 to slots.Length
          invariant forall j | 0 <= j < i :: !Matches(ActiveAs(name), t[j])
        {
          if slots[i].active && slots[i].name == name {
            FirstIs(t, ActiveAs(name), i);
            return -1;
          }
        }
      }
      var free, announced, i := -1, -1, 0;
      while i < slots.Length && announced == -1
        invariant 0 <= i <= slots.Length
        invariant announced == -1 ==> forall j | 0 <= j < i :: !Matches(AnnouncedAs(name), t[j])
        invariant announced != -1 ==> 0 <= announced < |t| && First(t, AnnouncedAs(name)) == announced
        invariant free == -1 && announced == -1 ==> forall j | 0 <= j < i :: !Matches(FreeSlot, t[j])
        invariant free != -1 ==> 0 <= free < |t| && First(t, FreeSlot) == free
        decreases slots.Length - i, announced == -1
      {
        if slots[i].announced && !slots[i].active && slots[i].name == name {
          FirstIs(t, AnnouncedAs(name), i);
          announced := i;
        } else {
          if !slots[i].announced && !slots[i].active && free == -1 {
            FirstIs(t, FreeSlot, i);
            free := i;
          }
          i := i + 1;
        }
      }
      if cfg.strict {
        return announced;
      } else if announced != -1 {
        return announced;
      } else {
        return free;
      }
    }

    /** get_clientInstance_by_clientID. */
    method FindById(id: string, pid: Pid) returns (code: Lookup, idx: int)
      ensures var i := First(slots[..], ById(id));
              if i == slots.Length then code == NotFound
              else idx == i && code == if PidAccepted(slots[i], pid) then Identified else PidMismatch
    {
      ghost var t := slots[..];
      for i := 0 to slots.Length
        invariant forall j | 0 <= j < i :: !Matches(ById(id), t[j])
      {
        if (slots[i].active || slots[i].announced) && slots[i].id == id {
          FirstIs(t, ById(id), i);
          if !slots[i].checkPid || slots[i].pid == pid {
            return Identified, i;
          } else {
            return PidMismatch, i;
          }
        }
      }
      return NotFound, -1;
    }

    method CountActive() returns (n: nat)
      ensures n == Count(slots[..], Active)
    {
      n := 0;
      for i := 0 to slots.Length
        invariant n == Count(slots[..i], Active)
      {
        assert slots[..i + 1][..i] == slots[..i];
        if slots[i].active {
          n := n + 1;
        }
      }
      assert slots[..slots.Length] == slots[..];
    }

    method BuildHeader() returns (msg: string)
      ensures msg == Lines(Header(cfg, slots[..]))
    {
      var active := CountActive();
      ghost var h := Header(cfg, slots[..]);
      msg := PutLine("", h, 0, "daemon_version=" + PACKAGE_VERSION);
      msg := PutLine(msg, h, 1, "protocol_version=" + SOCKET_PROT_VERSION);
      msg := PutLine(msg, h, 2, "wd_timeout_s=" + SignedDec(cfg.wdTimeout));
      msg := PutLine(msg, h, 3, "reboot_timeout_s=" + SignedDec(cfg.rebootTimeout));
      msg := PutLine(msg, h, 4, "strict_clients=" + BoolText(cfg.strict));
      msg := PutLine(msg, h, 5, "unique_clients=" + BoolText(cfg.unique));
      msg := PutLine(msg, h, 6, "active_clients=" + Dec(active));
      assert h[..7] == h;
    }

    /** The STATUS branch: header, then one row per occupied slot, appended to one message. */
    method BuildStatus() returns (msg: string)
      ensures msg == StatusText(cfg, slots[..])
    {
      ghost var t := slots[..];
      ghost var h := Header(cfg, t);
      msg := BuildHeader();
      assert h + Rows(Listed(t[..0])) == h;
      for i := 0 to slots.Length
        invariant msg == Lines(h + Rows(Listed(t[..i])))
      {
        NextRow(h, t, i);
        if slots[i].active || slots[i].announced {
          ghost var all := h + Rows(Listed(t[..i + 1]));
          msg := PutLine(msg, all, |all| - 1, Row(slots[i]));
        }
      }
      assert t[..slots.Length] == t;
    }

    /** The REGISTER branch once the text is parsed. */
    method DoRegister(name: string, timeout: nat, checkPid: bool, creds: Creds, at: Time, raw: RawId)
      returns (reply: Reply)
      modifies slots
      ensures var o := Exec(cfg, old(slots[..]), Register(name, timeout, checkPid), creds, at, raw);
              slots[..] == o.slots && reply == o.reply
    {
      var i := FindByName(name);
      if i < 0 {
        return Error(Rejected);
      }
      var id := slots[i].id;
      if !slots[i].announced {
        var buf := new char[ID_LEN + 1];
        MakeClientId(raw, buf);
        id := buf[..ID_LEN];
      }
      slots[i] := Slot(id, name, creds.pid, timeout, at, true, false, checkPid);
      return OkId(id);
    }

    /** The PING branch. */
    method DoPing(id: string, creds: Creds, at: Time, raw: RawId) returns (reply: Reply)
      modifies slots
      ensures var o := Exec(cfg, old(slots[..]), Ping(id), creds, at, raw);
              slots[..] == o.slots && reply == o.reply
    {
      var code, i := FindById(id, creds.pid);
      match code {
        case Identified =>
          slots[i] := slots[i].(lastPing := at);
          reply := Ok;
        case PidMismatch => reply := Error(WrongPid);
        case NotFound => reply := Error(UnknownId);
      }
    }

    /** The UNREGISTER branch. */
    method DoUnregister(id: string, creds: Creds, at: Time, raw: RawId) returns (reply: Reply)
      modifies slots
      ensures var o := Exec(cfg, old(slots[..]), Unregister(id), creds, at, raw);
              slots[..] == o.slots && reply == o.reply
    {
      var code, i := FindById(id, creds.pid);
      match code {
        case Identified =>
          if cfg.strict && creds.uid != 0 {
            reply := Error(Rejected);
          } else {
            slots[i] := slots[i].(active := false, announced := false);
            reply := Ok;
          }
        case PidMismatch =>
          if creds.uid == 0 {
            slots[i] := slots[i].(active := false, announced := false);
            reply := Ok;
          } else {
            reply := Error(NoPermission);
          }
        case NotFound => reply := Error(UnknownId);
      }
    }

    /** The REBOOT branch. */
    method DoReboot(creds: Creds) returns (reply: Reply)
      modifies this`running, this`reboot
      ensures running == (old(running) && creds.uid != 0) && reboot == (old(reboot) || creds.uid == 0)
      ensures reply == if creds.uid == 0 then OkReboot(cfg.rebootTimeout) else Error(NoPermission)
    {
      if creds.uid != 0 {
        return Error(NoPermission);
      }
      running := false;
      reboot := true;
      return OkReboot(cfg.rebootTimeout);
    }

    /** The STATUS branch. */
    method DoStatus(creds: Creds) returns (reply: Reply, out: string)
      ensures reply == if creds.pid != 0 && creds.uid != 0 then Error(NoPermission) else StatusReport(cfg, slots[..])
      ensures out == Render(reply)
    {
      if creds.pid != 0 && creds.uid != 0 {
        return Error(NoPermission), Render(Error(NoPermission));
      }
      out := BuildStatus();
      reply := StatusReport(cfg, slots[..]);
    }

    /** The branches of handle_command on a parsed request. */
    method Dispatch(req: GoodRequest, creds: Creds, at: Time, raw: RawId) returns (reply: Reply, out: string)
      modifies this`running, this`reboot, slots
      ensures var o := Exec(cfg, old(slots[..]), req, creds, at, raw);
              && slots[..] == o.slots && reply == o.reply && out == Render(reply)
              && running == (old(running) && !o.stop) && reboot == (old(reboot) || o.stop)
    {
      match req {
        case Register(name, timeout, checkPid) => reply := DoRegister(name, timeout, checkPid, creds, at, raw);
        case Ping(id) => reply := DoPing(id, creds, at, raw);
        case Unregister(id) => reply := DoUnregister(id, creds, at, raw);
        case Reboot => reply := DoReboot(creds);
        case Status =>
          reply, out := DoStatus(creds);
          return;
        case Version => reply := VersionReport;
        case Refused(f) => reply := Error(f);
      }
      out := Render(reply);
    }

    /** handle_command for a peer that has sent a message: updates the table and the flags and
        returns the text written back. */
    method HandleCommand(text: string, creds: Creds, at: Time, raw: RawId) returns (out: string)
      modifies this`running, this`reboot, this`history, slots
      ensures View() == Command(Su(), old(View()), Message(RequestOf(text), creds, at, raw))
      ensures out == Render(Exec(cfg, old(slots[..]), RequestOf(text), creds, at, raw).reply)
    {
      ghost var t := slots[..];
      var req := ReadRequest(text);
      var reply;
      reply, out := Dispatch(req, creds, at, raw);
      history := history + [Exchange(req, creds, reply, at)];
    }

    /** The heartbeat scan of one pass. */
    method CheckClients(checks: nat -> Time)
      modifies this`allOk, this`checked
      ensures View() == Scan(old(View()), checks)
    {
      checked := checks;
      var i := 0;
      while i < slots.Length
        invariant 0 <= i <= slots.Length
        invariant FirstMiss(slots[..], checks, 0) == FirstMiss(slots[..], checks, i)
        invariant View() == old(View()).(checked := checks)
      {
        if slots[i].active || slots[i].announced {
          if Age32(checks(i), slots[i].lastPing) > slots[i].timeout {
            allOk := false;
            return;
          }
        }
        i := i + 1;
      }
    }

    /** What the listening socket yields. */
    method ServeConnection(c: Connection, text: string) returns (out: string)
      requires c.Message? ==> c.req == RequestOf(text)
      modifies this`running, this`reboot, this`history, this`allOk, slots
      ensures View() == Command(Su(), old(View()), c)
      ensures out == Written(cfg, old(slots[..]), c)
    {
      out := "";
      PlainRefusals();
      match c {
        case Message(_, creds, at, raw) => out := HandleCommand(text, creds, at, raw);
        case AcceptFailed => allOk := false;
        case NoCredentials => out := Render(Error(NoCreds));
        case Silent => out := Render(Error(NoInput));
        case _ =>
      }
    }

    /** Reading the timer and feeding the watchdog. */
    method FeedIfDue(t: Timer)
      modifies this`proc, this`ops, this`lastRead
      ensures View() == Feed(Su(), old(View()), t)
    {
      match t {
        case Quiet =>
        case Unreadable => proc := Died;
        case Due(readAt, feedAt, feedOk) =>
          lastRead := readAt;
          if allOk && enabled {
            if feedOk {
              ops := ops + [Write('\0', feedAt)];
            } else {
              proc := Died;
            }
          }
      }
    }

    /** The body of the main loop. */
    method OnePass(p: Pass, text: string) returns (out: string)
      requires Looping(View()) && Carries(p, text)
      modifies this, slots
      ensures View() == Machine.OnePass(Su(), old(View()), p)
      ensures out == if p.select.Ready? then Written(cfg, old(slots[..]), p.conn) else ""
    {
      out := "";
      match p.select {
        case Ready =>
          out := ServeConnection(p.conn, text);
          CheckClients(p.checks);
          FeedIfDue(p.timer);
        case Interrupted =>
        case SelectFailed => allOk := false;
      }
      clock := p.end;
    }

    /** From the end of the loop to the return of main. */
    method Shutdown(at: Time)
      modifies this`proc, this`ops, this`clock
      ensures View() == Machine.Shutdown(Su(), old(View()), at)
    {
      if enabled {
        if reboot {
          ops := ops + [SetTimeout(cfg.rebootTimeout, at)] + [Write('\0', at)];
        } else {
          ops := ops + [Write('V', at)] + [Disable(at)];
        }
        ops := ops + [Close(at)];
      }
      proc := Returned;
      clock := at;
    }

    /** main from its loop on, driven by the events the operating system delivers: passes while the
        loop is entered, signals at any time, and the shutdown path once `running` is false. */
    method Serve(es: seq<Event>, texts: seq<string>)
      requires |texts| == |es| && forall k | 0 <= k < |es| && es[k].Loop? :: Carries(es[k].pass, texts[k])
      modifies this, slots
      ensures View() == Run(Su(), old(View()), es)
    {
      for k := 0 to |es|
        invariant View() == Run(Su(), old(View()), es[..k])
      {
        assert es[..k + 1][..k] == es[..k];
        match es[k] {
          case Loop(p) =>
            if proc == Serving && running && allOk {
              var out := OnePass(p, texts[k]);
            }
          case Signal =>
            if proc == Serving {
              running := false;
            }
          case Finish(at) =>
            if proc == Serving && !running {
              Shutdown(at);
            }
        }
      }
      assert es[..|es|] == es;
    }
  }
}
