/** Results that need both ends of the socket, the configuration file and the running broker. */
module EndToEnd {
  import opened Clock
  import opened CText
  import opened Table
  import opened Protocol
  import opened Registry
  import opened Machine
  import opened Supervision
  import opened Wire
  import C = Client
  import Ctrl
  import ConfigFile
  import B = Broker

  // ----- register, then ping -----

  /** A registration that was not taken back is found by its ID, and its own process may ping it. */
  lemma PingFindsClient(
    su: Setup, t: seq<Slot>, timerAt: Time, openAt: Time, es: seq<Event>, k: nat, id: string, cr: Creds)
    returns (i: nat)
    requires ConfiguredTable(su, t) && DistinctIds(t) && FreshRun(su, Start(su, t, timerAt, openAt), es)
    requires var h := Run(su, Start(su, t, timerAt, openAt), es).history;
             && k < |h| && AcceptsRegister(h[k], id)
             && (forall l | k < l < |h| :: !AcceptsUnregister(h[l], id))
             && (h[k].req.checkPid ==> cr.pid == h[k].creds.pid)
    ensures var w := Run(su, Start(su, t, timerAt, openAt), es);
            && i < |w.slots| && First(w.slots, ById(id)) == i && PidAccepted(w.slots[i], cr.pid)
            && w.slots[i].active && IsId(id)
            && w.slots[i].name == w.history[k].req.name && w.slots[i].timeout == w.history[k].req.timeout
  {
    var w := Run(su, Start(su, t, timerAt, openAt), es);
    var h := w.history;
    RunRefinesModel(su, t, timerAt, openAt, es);
    InvInRun(su, t, timerAt, openAt, es);
    forall l | k < l < |h|
      ensures !AcceptsRegister(h[l], id)
    {
      NotRegisteredTwice(su.cfg, su.capacity, Abs(t), h, k, l, id);
    }
    var j := RegisteredIsAlive(Abs(t), h, k, id);
    i := AbsHolder(w.slots, id);
    AbsAt(w.slots, i);
    assert GoodSlot(w.slots[i]);
  }

  /** The broker serves a ping on the slot it finds: only that slot's deadline moves. */
  lemma PingServed(cfg: Config, t: seq<Slot>, i: nat, cr: Creds, at: Time, raw: RawId)
    requires i < |t| && First(t, ById(t[i].id)) == i && PidAccepted(t[i], cr.pid)
    ensures Exec(cfg, t, Ping(t[i].id), cr, at, raw) == Outcome(t[i := t[i].(lastPing := at)], Ok, false)
  {
  }

  lemma OkIsSuccess()
    ensures C.Verdict(C.Answered(Render(Ok)), C.SHORT_SIZE, "OK") == C.WD_CLIENT_OK
  {
    assert Render(Ok) == "OK\n";
    assert "OK" <= "OK\n";
  }

  /** The client's ping on slot i, in text: printed, parsed, executed, answered, read. */
  lemma ClientPingServed(cfg: Config, t: seq<Slot>, i: nat, cr: Creds, at: Time, raw: RawId)
    requires i < |t| && IsId(t[i].id) && First(t, ById(t[i].id)) == i && PidAccepted(t[i], cr.pid)
    ensures var o := Exec(cfg, t, RequestOf(C.PingText(t[i].id)), cr, at, raw);
            && o.slots == t[i := t[i].(lastPing := at)]
            && C.Verdict(C.Answered(Render(o.reply)), C.SHORT_SIZE, "OK") == C.WD_CLIENT_OK
  {
    assert RequestOf(C.PingText(t[i].id)) == Ping(t[i].id) by { C.PingRoundTrip(t[i].id); }
    PingServed(cfg, t, i, cr, at, raw);
    OkIsSuccess();
  }

  /** Register-then-ping across both programs: the text printed by wd_client_register registers the
      client; the ID copied from the reply and printed by wd_client_ping is the stored one; and in
      every run with fresh IDs in which the client was not unregistered, whatever others do in
      between, the ping is answered OK, refreshes exactly that slot, and the client sees success. */
  lemma RegisterThenPing(su: Setup, t: seq<Slot>, timerAt: Time, openAt: Time, es: seq<Event>, k: nat,
                         name: string, timeout: nat, ignorePid: bool, cr: Creds, at: Time, raw: RawId)
    returns (i: nat)
    requires ConfiguredTable(su, t) && DistinctIds(t) && FreshRun(su, Start(su, t, timerAt, openAt), es)
    requires ValidName(name) && ValidTimeout(timeout)
    requires var h := Run(su, Start(su, t, timerAt, openAt), es).history;
             && k < |h| && h[k].req == RequestOf(C.RegisterText(name, timeout, ignorePid)) && h[k].reply.OkId?
             && (forall l | k < l < |h| :: !AcceptsUnregister(h[l], h[k].reply.id))
             && (ignorePid || cr.pid == h[k].creds.pid)
    ensures var w := Run(su, Start(su, t, timerAt, openAt), es);
            && i < |w.slots| && w.slots[i].active && w.slots[i].name == name && w.slots[i].timeout == timeout
            && C.IdFromReply(Clip(Render(w.history[k].reply), C.REPLY_SIZE)) == Some(w.slots[i].id)
            && var o := Exec(su.cfg, w.slots, RequestOf(C.PingText(w.slots[i].id)), cr, at, raw);
            && o.slots == w.slots[i := w.slots[i].(lastPing := at)]
            && C.Verdict(C.Answered(Render(o.reply)), C.SHORT_SIZE, "OK") == C.WD_CLIENT_OK
  {
    var w := Run(su, Start(su, t, timerAt, openAt), es);
    var x := w.history[k];
    assert x.req == Register(name, timeout, !ignorePid) by { C.RegisterRoundTrip(name, timeout, ignorePid); }
    i := PingFindsClient(su, t, timerAt, openAt, es, k, x.reply.id, cr);
    assert w.slots[i].id == x.reply.id;
    C.ReplyIdRoundTrip(x.reply.id);
    ClientPingServed(su.cfg, w.slots, i, cr, at, raw);
  }

  // ----- reservation, in text -----

  /** A client whose valid name is still reserved is always let in by the text it prints. */
  lemma ReservedClientRegisters(su: Setup, t: seq<Slot>, timerAt: Time, openAt: Time, es: seq<Event>, i: nat,
                                timeout: nat, ignorePid: bool, cr: Creds, at: Time, raw: RawId)
    returns (o: Outcome)
    requires ConfiguredTable(su, t) && ValidTimeout(timeout)
    requires var w := Run(su, Start(su, t, timerAt, openAt), es);
             i < |w.slots| && w.slots[i].announced && ValidName(w.slots[i].name)
    ensures var w := Run(su, Start(su, t, timerAt, openAt), es);
            && o == Exec(su.cfg, w.slots, RequestOf(C.RegisterText(w.slots[i].name, timeout, ignorePid)), cr, at, raw)
            && o.reply.OkId? && |o.slots| == |w.slots|
            && (su.cfg.unique ==> o.reply.id == w.slots[i].id && o.slots[i].active && o.slots[i].timeout == timeout)
  {
    var w := Run(su, Start(su, t, timerAt, openAt), es);
    var name := w.slots[i].name;
    assert RequestOf(C.RegisterText(name, timeout, ignorePid)) == Register(name, timeout, !ignorePid) by {
      C.RegisterRoundTrip(name, timeout, ignorePid);
    }
    InvInRun(su, t, timerAt, openAt, es);
    o := Exec(su.cfg, w.slots, RequestOf(C.RegisterText(name, timeout, ignorePid)), cr, at, raw);
    ReservationHonoured(su, w, i, Register(name, timeout, !ignorePid), cr, at, raw);
  }

  /** A name can be registered by some message exactly if it is printable, free of blanks and 1 to 63
      characters long. The configuration file also accepts names with blanks: such a client can never
      register, and its deadline runs out unless somebody pings or unregisters its ID. */
  lemma RegistrableIff(name: string)
    ensures (exists text: string :: RequestOf(text).Register? && RequestOf(text).name == name) <==> ValidName(name)
  {
    if ValidName(name) {
      C.RegisterRoundTrip(name, TIMEOUT_MIN_MS, false);
      assert RequestOf(C.RegisterText(name, TIMEOUT_MIN_MS, false)).name == name;
    }
  }

  /** Every documented name with a blank inside is accepted by the file and refused by every REGISTER. */
  lemma BlankNameNeverRegisters(name: string)
    requires 0 < |name| < NAME_SIZE && (forall i | 0 <= i < |name| :: IsPrint(name[i]))
    requires ']' !in name && '=' !in name && name[0] != ' ' && ' ' in name
    ensures ConfigFile.Classify(ConfigFile.SectionText(name)) == ConfigFile.Section(name)
    ensures forall text: string :: !(RequestOf(text).Register? && RequestOf(text).name == name)
  {
    ConfigFile.SectionRoundTripIff(name);
    assert !CleanName(name);
  }

  // ----- strict mode: every configured client -----

  /** In strict mode without an UNREGISTER by root, every feed certifies every configured client. */
  lemma StrictFeedCertifiesConfigured(
    su: Setup, t: seq<Slot>, timerAt: Time, openAt: Time, es: seq<Event>, p: Pass, gapMs: nat, i: nat)
    requires Supervised(su, t, timerAt, openAt, es + [Loop(p)], gapMs)
    requires su.cfg.strict && NoRootUnregister(es + [Loop(p)])
    requires Feeds(su, Run(su, Start(su, t, timerAt, openAt), es), p)
    requires i < |t| && t[i].announced
    ensures var v := Run(su, Start(su, t, timerAt, openAt), es + [Loop(p)]);
            && |v.slots| == |t| && Occupied(v.slots[i])
            && v.slots[i].id == t[i].id && v.slots[i].name == t[i].name
            && OnTime(v.slots[i], p.checks(i)) && Ns(p.checks(i)) <= Ns(p.timer.feedAt)
  {
    SupervisedPrefix(su, t, timerAt, openAt, es, Loop(p), gapMs);
    StrictKeepsConfigured(su, t, timerAt, openAt, es + [Loop(p)]);
    var w := Run(su, Start(su, t, timerAt, openAt), es);
    VerdictsExact(su, w, p, gapMs, i);
    assert !Misses(Command(su, w, p.conn).slots[i], p.checks(i));
  }

  // ----- commands without an argument, across the programs -----

  lemma FixedTexts()
    ensures RequestOf("VERSION\n") == Version && RequestOf("REBOOT") == Reboot && RequestOf("STATUS") == Status
  {
    assert "VERSION\n" == "VERSION" + "\n" && "REBOOT" == "REBOOT" + "" && "STATUS" == "STATUS" + "";
    VersionMeaning("\n");
    RebootMeaning("");
    StatusMeaning("");
    LongMessage("VERSION\n");
    LongMessage("REBOOT");
    LongMessage("STATUS");
  }

  /** The version check that precedes every registration: libwd-client's text is answered to anybody,
      changes nothing, and the answer is accepted. */
  lemma VersionHandshake(cfg: Config, t: seq<Slot>, cr: Creds, at: Time, raw: RawId)
    ensures var o := Exec(cfg, t, RequestOf("VERSION\n"), cr, at, raw);
            o.slots == t && !o.stop && C.VersionAgreed(C.Answered(Render(o.reply)))
  {
    FixedTexts();
    ExecVersion(cfg, t, cr, at, raw);
    C.VersionAccepted();
  }

  lemma ExecVersion(cfg: Config, t: seq<Slot>, cr: Creds, at: Time, raw: RawId)
    ensures var o := Exec(cfg, t, Version, cr, at, raw);
            o.slots == t && !o.stop && Render(o.reply) == VersionText()
  {
  }

  /** `wd-ctrl reboot`: root's text stops the broker, and the seconds shown are those of the configuration. */
  lemma RebootHandshake(cfg: Config, t: seq<Slot>, cr: Creds, at: Time, raw: RawId)
    requires cr.uid == 0 && 10 <= cfg.rebootTimeout <= 300
    ensures var o := Exec(cfg, t, RequestOf("REBOOT"), cr, at, raw);
            && o.stop && o.slots == t
            && StartsWith(Render(o.reply), "OK") && Atoi(Render(o.reply)[3..]) == cfg.rebootTimeout
  {
    FixedTexts();
    Ctrl.RebootReplyRoundTrip(cfg.rebootTimeout);
  }

  /** The text wd-ctrl sends first is answered to root with the report on the current table. */
  lemma StatusHandshake(cfg: Config, t: seq<Slot>, cr: Creds, at: Time, raw: RawId)
    requires cr.uid == 0
    ensures var o := Exec(cfg, t, RequestOf("STATUS"), cr, at, raw);
            o.slots == t && !o.stop && Render(o.reply) == StatusText(cfg, t)
  {
    FixedTexts();
  }

  // ----- the whole broker process -----

  /** main: read the configuration, then serve. What comes out is the run of the state machine from the
      configured table, and every premise the results about runs need of the start is met. */
  method WdBroker(lines: seq<string>, capacity: nat, o: ConfigFile.Oracle, enabled: bool,
                  es: seq<Event>, texts: seq<string>, ghost timerAt: Time, ghost openAt: Time)
    returns (complaint: Option<ConfigFile.Complaint>, broker: B.Broker?)
    requires forall k | 0 <= k < |lines| :: ConfigFile.NoNul(lines[k]) && ConfigFile.OneLine(lines[k])
    requires |texts| == |es| && forall k | 0 <= k < |es| && es[k].Loop? :: B.Carries(es[k].pass, texts[k])
    requires ConfigFile.GoodOracle(o, |lines|, timerAt) && Ns(timerAt) <= Ns(openAt)
    ensures complaint.None? <==> broker != null
    ensures broker != null ==> fresh(broker) && fresh(broker.slots)
    ensures match ConfigFile.Configured(capacity, lines, o)
            case Fatal(c) => complaint == Some(c)
            case Draft(cfg, t, _) =>
              var su := Setup(cfg, capacity, enabled);
              && complaint == None
              && broker.View() == Run(su, Start(su, t, timerAt, openAt), es)
              && ConfiguredTable(su, t) && DistinctIds(t) && TimedStart(t, timerAt, openAt)
  {
    var clients := new Slot[capacity](_ => ZERO_SLOT);
    var cfg;
    cfg, complaint := ConfigFile.ParseConfig(lines, clients, o);
    broker := null;
    if complaint == None {
      ConfigFile.AcceptedFileStarts(capacity, lines, o, timerAt, openAt, enabled);
      broker := new B.Broker(cfg, enabled, clients, timerAt, openAt);
      broker.Serve(es, texts);
    }
  }
}
