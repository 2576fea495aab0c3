/** The broker process as a state machine: the main loop, its exits, the shutdown path.
    Runs are folds of events; the operating system enters through the events only. */
module Machine {
  import opened Clock
  import opened CText
  import opened Table
  import opened Protocol
  import opened Registry
  import opened Device

  /** The accepted configuration, WD_MAX_CLIENTS, and whether /dev/watchdog was opened. */
  datatype Setup = Setup(cfg: Config, capacity: nat, enabled: bool)

  datatype Proc = Serving | Returned | Died

  datatype World = World(
    slots: seq<Slot>, running: bool, reboot: bool, allOk: bool, proc: Proc,
    ops: seq<Op>, history: seq<Exchange>,
    checked: nat -> Time, lastRead: Time, clock: Time)

  datatype SelectResult = Ready | Interrupted | SelectFailed

  /** What the listening socket yields in one pass; a message is named by the request its text
      denotes (Protocol.RequestOf). */
  datatype Connection =
    | NoConnection
    | AcceptRetry
    | AcceptFailed
    | NoCredentials
    | Silent
    | Message(req: GoodRequest, creds: Creds, at: Time, raw: RawId)

  /** The timer descriptor after select, and the outcome of read and of a possible feed. */
  datatype Timer = Quiet | Unreadable | Due(readAt: Time, feedAt: Time, feedOk: bool)

  /** One pass of the main loop: `checks(i)` is the clock reading for slot i. */
  datatype Pass = Pass(
    begin: Time, wake: Time, select: SelectResult, conn: Connection,
    checks: nat -> Time, timer: Timer, end: Time)

  datatype Event = Loop(pass: Pass) | Signal | Finish(at: Time)

  // ----- one pass -----

  function Handle(cfg: Config, t: seq<Slot>, c: Connection): Outcome
    requires c.Message?
  {
    Exec(cfg, t, c.req, c.creds, c.at, c.raw)
  }

  function ExchangeOf(cfg: Config, t: seq<Slot>, c: Connection): Exchange
    requires c.Message?
  {
    Told(c.req, c.creds, Handle(cfg, t, c), c.at)
  }

  function Command(su: Setup, w: World, c: Connection): World {
    match c
    case Message(_, _, _, _) =>
      var o := Handle(su.cfg, w.slots, c);
      w.(slots := o.slots, running := w.running && !o.stop, reboot := w.reboot || o.stop,
         history := w.history + [ExchangeOf(su.cfg, w.slots, c)])
    case AcceptFailed => w.(allOk := false)
    case _ => w
  }

  predicate Misses(s: Slot, now: Time) {
    Occupied(s) && Missed(now, s.lastPing, s.timeout)
  }

  /** Where the heartbeat scan stops. */
  function FirstMiss(t: seq<Slot>, checks: nat -> Time, from: nat): (i: nat)
    requires from <= |t|
    ensures from <= i <= |t|
    ensures forall j | from <= j < i :: !Misses(t[j], checks(j))
    ensures i < |t| ==> Misses(t[i], checks(i))
    decreases |t| - from
  {
    if from == |t| || Misses(t[from], checks(from)) then from else FirstMiss(t, checks, from + 1)
  }

  function Scan(w: World, checks: nat -> Time): World {
    w.(allOk := w.allOk && FirstMiss(w.slots, checks, 0) == |w.slots|, checked := checks)
  }

  function Feed(su: Setup, w: World, t: Timer): World {
    match t
    case Quiet => w
    case Unreadable => w.(proc := Died)
    case Due(readAt, feedAt, feedOk) =>
      if w.allOk && su.enabled then
        if feedOk then w.(lastRead := readAt, ops := w.ops + [Write('\0', feedAt)])
        else w.(lastRead := readAt, proc := Died)
      else w.(lastRead := readAt)
  }

  predicate Looping(w: World) {
    w.proc == Serving && w.running && w.allOk
  }

  function Scanned(su: Setup, w: World, p: Pass): World {
    Scan(Command(su, w, p.conn), p.checks)
  }

  function OnePass(su: Setup, w: World, p: Pass): World {
    match p.select
    case Ready => Feed(su, Scanned(su, w, p), p.timer).(clock := p.end)
    case Interrupted => w.(clock := p.end)
    case SelectFailed => w.(allOk := false, clock := p.end)
  }

  /** The pass writes the watchdog. */
  predicate Feeds(su: Setup, w: World, p: Pass) {
    Looping(w) && p.select.Ready? && p.timer.Due? && p.timer.feedOk && su.enabled && Scanned(su, w, p).allOk
  }

  /** From the end of the loop to the return of main, device calls succeeding. */
  function Shutdown(su: Setup, w: World, at: Time): World {
    var last :=
      if !su.enabled then []
      else if w.reboot then [SetTimeout(su.cfg.rebootTimeout, at), Write('\0', at), Close(at)]
      else [Write('V', at), Disable(at), Close(at)];
    w.(proc := Returned, ops := w.ops + last, clock := at)
  }

  /** Events that the state does not enable change nothing. A loop left with `running` still
      true waits for a signal; only then does the process reach its shutdown path. */
  function Step(su: Setup, w: World, e: Event): World {
    match e
    case Loop(p) => if Looping(w) then OnePass(su, w, p) else w
    case Signal => if w.proc == Serving then w.(running := false) else w
    case Finish(at) => if w.proc == Serving && !w.running then Shutdown(su, w, at) else w
  }

  function Run(su: Setup, w0: World, es: seq<Event>): World {
    if es == [] then w0 else Step(su, Run(su, w0, es[..|es| - 1]), es[|es| - 1])
  }

  // ----- startup -----

  /** What parse_config leaves behind (proved in ConfigFile). */
  ghost predicate ConfiguredTable(su: Setup, t: seq<Slot>) {
    && |t| == su.capacity
    && (forall i | 0 <= i < |t| :: !t[i].active && (t[i].announced ==> GoodSlot(t[i])))
    && (su.cfg.unique ==> DistinctNames(t))
  }

  function Start(su: Setup, t: seq<Slot>, timerAt: Time, openAt: Time): World {
    var ops := if su.enabled then [Open(openAt), SetTimeout(su.cfg.wdTimeout, openAt)] else [];
    World(t, true, false, true, Serving, ops, [],
          (i: nat) => if i < |t| && t[i].announced then t[i].lastPing else timerAt, timerAt, openAt)
  }

  // ----- invariants of every reachable state -----

  ghost predicate GoodSlot(s: Slot) {
    && !(s.active && s.announced)
    && (Occupied(s) ==> IsId(s.id) && ValidTimeout(s.timeout))
    && (s.active ==> ValidName(s.name))
    && (s.announced ==> !s.checkPid && s.pid == 0 && LineName(s.name))
  }

  ghost predicate GoodTable(cfg: Config, t: seq<Slot>) {
    && (forall i | 0 <= i < |t| :: GoodSlot(t[i]))
    && (cfg.unique ==> DistinctNames(t))
  }

  ghost predicate Inv(su: Setup, w: World) {
    && |w.slots| == su.capacity
    && GoodTable(su.cfg, w.slots)
    && (w.reboot ==> !w.running)
  }

  /** A REGISTER in unique mode never duplicates a name: active ones are rejected up front, and a
      name reserved by an announced slot goes to that slot. */
  lemma RegisterKeepsNamesDistinct(cfg: Config, t: seq<Slot>, name: string, i: nat, s: Slot)
    requires GoodTable(cfg, t) && cfg.unique
    requires Select(cfg, t, name) == Some(i) && s.name == name
    ensures DistinctNames(t[i := s])
  {
    SelectMeetsDecisionTable(cfg, t, name);
    forall j | 0 <= j < |t| && j != i && Occupied(t[j])
      ensures t[j].name != name
    {
      assert !t[j].active || t[j].name != name;
      assert Matches(AnnouncedAs(name), t[j]) ==> t[i].announced && t[i].name == name;
    }
  }

  lemma ExecKeepsTable(cfg: Config, t: seq<Slot>, req: Request, cr: Creds, now: Time, raw: RawId)
    requires GoodTable(cfg, t)
    requires WellFormedRequest(req)
    ensures var o := Exec(cfg, t, req, cr, now, raw);
            |o.slots| == |t| && GoodTable(cfg, o.slots) && (o.stop ==> req.Reboot? && cr.uid == 0)
  {
    match req {
      case Register(name, timeout, checkPid) =>
        match Select(cfg, t, name) {
          case None =>
          case Some(i) =>
            var id := if t[i].announced then t[i].id else HexId(raw);
            var s := Slot(id, name, cr.pid, timeout, now, true, false, checkPid);
            if cfg.unique { RegisterKeepsNamesDistinct(cfg, t, name, i, s); }
        }
      case _ =>
    }
  }

  lemma StepKeepsInv(su: Setup, w: World, e: Event)
    requires Inv(su, w)
    ensures Inv(su, Step(su, w, e))
  {
    if e.Loop? && Looping(w) && e.pass.select.Ready? && e.pass.conn.Message? {
      var c := e.pass.conn;
      ExecKeepsTable(su.cfg, w.slots, c.req, c.creds, c.at, c.raw);
    }
  }

  /** Unique names, one role per slot, timeouts in range, valid names and IDs, and the reboot flag
      hold in every reachable state, with no assumption on the environment. */
  lemma {:induction false} InvInRun(su: Setup, t: seq<Slot>, timerAt: Time, openAt: Time, es: seq<Event>)
    requires ConfiguredTable(su, t)
    ensures Inv(su, Run(su, Start(su, t, timerAt, openAt), es))
  {
    if es != [] {
      var n := |es| - 1;
      InvInRun(su, t, timerAt, openAt, es[..n]);
      StepKeepsInv(su, Run(su, Start(su, t, timerAt, openAt), es[..n]), es[n]);
    }
  }

  /** The event is a pass that serves a message. */
  predicate Serves(w: World, e: Event) {
    e.Loop? && Looping(w) && e.pass.select.Ready? && e.pass.conn.Message?
  }

  lemma PassTouches(su: Setup, w: World, p: Pass)
    ensures var v := OnePass(su, w, p);
            if p.select.Ready? then
              var c := Command(su, w, p.conn);
              v.slots == c.slots && v.history == c.history && v.running == c.running && v.reboot == c.reboot
            else
              v.slots == w.slots && v.history == w.history && v.running == w.running && v.reboot == w.reboot
  {
  }

  /** Slots and history change through served messages only. */
  lemma ServedOrUntouched(su: Setup, w: World, e: Event)
    ensures var v := Step(su, w, e);
            if Serves(w, e) then
              && v.slots == Handle(su.cfg, w.slots, e.pass.conn).slots
              && v.history == w.history + [ExchangeOf(su.cfg, w.slots, e.pass.conn)]
            else
              v.slots == w.slots && v.history == w.history
  {
    if e.Loop? { PassTouches(su, w, e.pass); }
  }

  // ----- reservation -----

  /** In unique mode nobody uses a reserved name, and it is reserved once. */
  lemma ReservedNameIsFree(cfg: Config, t: seq<Slot>, i: nat)
    requires GoodTable(cfg, t) && cfg.unique && i < |t| && t[i].announced
    ensures First(t, ActiveAs(t[i].name)) == |t| && First(t, AnnouncedAs(t[i].name)) == i
  {
    assert GoodSlot(t[i]);
    forall j | 0 <= j < |t| && j != i && Occupied(t[j])
      ensures t[j].name != t[i].name
    {
    }
    assert forall j | 0 <= j < |t| :: !Matches(ActiveAs(t[i].name), t[j]);
    FirstIs(t, AnnouncedAs(t[i].name), i);
  }

  /** However many clients have registered, and in all four modes, a REGISTER with the name of a
      still-announced slot succeeds; in unique mode it gets exactly that slot. */
  lemma ReservationHonoured(su: Setup, w: World, i: nat, req: Request, cr: Creds, now: Time, raw: RawId)
    requires Inv(su, w) && i < |w.slots| && w.slots[i].announced
    requires req.Register? && req.name == w.slots[i].name
    ensures var o := Exec(su.cfg, w.slots, req, cr, now, raw);
            exists j | 0 <= j <= i ::
              && w.slots[j].announced && w.slots[j].name == req.name
              && o.reply == OkId(w.slots[j].id)
              && o.slots[j].active && o.slots[j].pid == cr.pid && o.slots[j].timeout == req.timeout
              && (su.cfg.unique ==> j == i)
  {
    var t := w.slots;
    assert GoodSlot(t[i]) && Matches(AnnouncedAs(req.name), t[i]);
    if su.cfg.unique { ReservedNameIsFree(su.cfg, t, i); }
    assert Select(su.cfg, t, req.name) == Some(First(t, AnnouncedAs(req.name)));
  }

  // ----- ownership -----

  /** The command is one the owner of a PID-checked slot, or root, may use on it. */
  predicate Entitled(s: Slot, req: Request, cr: Creds) {
    || (cr.pid == s.pid && (req == Ping(s.id) || req == Unregister(s.id)))
    || (cr.uid == 0 && req == Unregister(s.id))
  }

  lemma OnlyEntitledChange(cfg: Config, t: seq<Slot>, i: nat, req: Request, cr: Creds, now: Time, raw: RawId)
    requires i < |t| && t[i].active && t[i].checkPid
    ensures var o := Exec(cfg, t, req, cr, now, raw);
            && |o.slots| == |t|
            && (o.slots[i] != t[i] ==>
                  && Entitled(t[i], req, cr)
                  && o.slots[i] == if req.Ping? then t[i].(lastPing := now) else Freed(t[i]))
  {
  }

  /** No message of the run is an UNREGISTER that may free the slot. */
  ghost predicate NotReleased(s: Slot, es: seq<Event>) {
    forall k | 0 <= k < |es| && es[k].Loop? && es[k].pass.conn.Message? ::
      !(es[k].pass.conn.req.Unregister? && Entitled(s, es[k].pass.conn.req, es[k].pass.conn.creds))
  }

  /** Event k is a PING of the slot's ID by the slot's own process. */
  predicate OwnPing(s: Slot, e: Event) {
    e.Loop? && e.pass.conn.Message? && e.pass.conn.req == Ping(s.id) && e.pass.conn.creds.pid == s.pid
  }

  /** Event k of the run is a PING by the slot's own process that was served at that time. */
  ghost predicate ServedOwnPing(su: Setup, w: World, es: seq<Event>, s: Slot, k: int, time: Time) {
    && 0 <= k < |es| && OwnPing(s, es[k]) && Serves(Run(su, w, es[..k]), es[k])
    && es[k].pass.conn.at == time
  }

  lemma ServedStays(su: Setup, w: World, pre: seq<Event>, e: Event, s: Slot, k: int, time: Time)
    requires ServedOwnPing(su, w, pre, s, k, time)
    ensures ServedOwnPing(su, w, pre + [e], s, k, time)
  {
    assert (pre + [e])[..k] == pre[..k] && (pre + [e])[k] == pre[k];
  }

  lemma OwnedStep(su: Setup, u: World, e: Event, i: nat)
    requires i < |u.slots| && u.slots[i].active && u.slots[i].checkPid
    requires NotReleased(u.slots[i], [e])
    ensures var v := Step(su, u, e);
            && |v.slots| == |u.slots|
            && (v.slots[i] == u.slots[i] ||
                (Serves(u, e) && OwnPing(u.slots[i], e) && v.slots[i] == u.slots[i].(lastPing := e.pass.conn.at)))
  {
    ServedOrUntouched(su, u, e);
    if Serves(u, e) {
      var c := e.pass.conn;
      assert [e][0] == e;
      OnlyEntitledChange(su.cfg, u.slots, i, c.req, c.creds, c.at, c.raw);
    }
  }

  /** Over whole runs: until its own process or root unregisters it, a PID-checked client's slot stays
      as it is but for its heartbeat, and that is moved by served PINGs of its own process only, to the
      times at which they were accepted. No assumption on the distinctness of IDs. */
  lemma {:induction false} OwnedSlotKept(su: Setup, w: World, es: seq<Event>, i: nat)
    requires i < |w.slots| && w.slots[i].active && w.slots[i].checkPid
    requires NotReleased(w.slots[i], es)
    ensures var v := Run(su, w, es);
            && |v.slots| == |w.slots|
            && v.slots[i] == w.slots[i].(lastPing := v.slots[i].lastPing)
            && (v.slots[i].lastPing == w.slots[i].lastPing ||
                exists k :: ServedOwnPing(su, w, es, w.slots[i], k, v.slots[i].lastPing))
  {
    if es != [] {
      var n := |es| - 1;
      var pre, e := es[..n], es[n];
      assert es == pre + [e];
      OwnedSlotKept(su, w, pre, i);
      var u, v := Run(su, w, pre), Run(su, w, es);
      OwnedStep(su, u, e, i);
      if v.slots[i] != u.slots[i] {
        assert ServedOwnPing(su, w, es, w.slots[i], n, v.slots[i].lastPing);
      } else if u.slots[i].lastPing != w.slots[i].lastPing {
        var k :| ServedOwnPing(su, w, pre, w.slots[i], k, u.slots[i].lastPing);
        ServedStays(su, w, pre, e, w.slots[i], k, u.slots[i].lastPing);
      }
    }
  }

  // ----- strict mode -----

  function Rank(t: seq<Slot>): nat {
    2 * Count(t, Announced) + Count(t, Active)
  }

  predicate AcceptedRegister(req: Request, o: Outcome) {
    req.Register? && o.reply.OkId?
  }

  predicate AcceptedUnregister(req: Request, o: Outcome) {
    req.Unregister? && o.reply == Ok
  }

  /** The only moves of a slot in strict mode. */
  predicate StrictMove(s: Slot, s': Slot) {
    || (s.announced == s'.announced && s.active == s'.active)
    || (s.announced && !s'.announced)
    || (s.active && !Occupied(s'))
  }

  /** The slot a command may change in strict mode. */
  function StrictTarget(t: seq<Slot>, req: Request): nat {
    match req
    case Register(name, _, _) => First(t, AnnouncedAs(name))
    case Ping(id) => First(t, ById(id))
    case Unregister(id) => First(t, ById(id))
    case _ => |t|
  }

  lemma StrictChange(cfg: Config, t: seq<Slot>, req: Request, cr: Creds, now: Time, raw: RawId)
    requires cfg.strict && GoodTable(cfg, t)
    ensures var o, i := Exec(cfg, t, req, cr, now, raw), StrictTarget(t, req);
            && (i == |t| ==> o.slots == t && !AcceptedRegister(req, o) && !AcceptedUnregister(req, o))
            && (i < |t| ==>
                  && |o.slots| == |t| && o.slots == t[i := o.slots[i]] && GoodSlot(t[i])
                  && StrictMove(t[i], o.slots[i])
                  && (AcceptedRegister(req, o) ==> t[i].announced && o.slots[i].active && !o.slots[i].announced)
                  && (AcceptedUnregister(req, o) ==> Occupied(t[i]) && !Occupied(o.slots[i]))
                  && (Occupied(o.slots[i]) ==> Occupied(t[i])))
  {
    if StrictTarget(t, req) < |t| { assert GoodSlot(t[StrictTarget(t, req)]); }
  }

  lemma StrictCommand(cfg: Config, t: seq<Slot>, req: Request, cr: Creds, now: Time, raw: RawId)
    requires cfg.strict && GoodTable(cfg, t)
    ensures var o := Exec(cfg, t, req, cr, now, raw);
            && |o.slots| == |t|
            && (forall i | 0 <= i < |t| :: StrictMove(t[i], o.slots[i]) && (Occupied(o.slots[i]) ==> Occupied(t[i])))
            && (AcceptedRegister(req, o) || AcceptedUnregister(req, o) ==> Rank(o.slots) < Rank(t))
            && Count(o.slots, Announced) <= Count(t, Announced) - (if AcceptedRegister(req, o) then 1 else 0)
            && Rank(o.slots) <= Rank(t)
  {
    StrictChange(cfg, t, req, cr, now, raw);
    var i := StrictTarget(t, req);
    if i < |t| {
      var s := Exec(cfg, t, req, cr, now, raw).slots[i];
      CountUpdate(t, i, s, Announced);
      CountUpdate(t, i, s, Active);
    }
  }

  function Registers(h: seq<Exchange>): nat {
    if h == [] then 0
    else Registers(h[..|h| - 1]) + if h[|h| - 1].req.Register? && h[|h| - 1].reply.OkId? then 1 else 0
  }

  lemma RegistersAppend(h: seq<Exchange>, x: Exchange)
    ensures Registers(h + [x]) == Registers(h) + if x.req.Register? && x.reply.OkId? then 1 else 0
  {
    assert (h + [x])[..|h|] == h;
  }

  /** In strict mode the occupied set never grows, and a run never accepts more REGISTERs than
      there are [client] sections. */
  lemma {:induction false} StrictBudget(su: Setup, t: seq<Slot>, timerAt: Time, openAt: Time, es: seq<Event>)
    requires ConfiguredTable(su, t) && su.cfg.strict
    ensures var w := Run(su, Start(su, t, timerAt, openAt), es);
            && |w.slots| == |t|
            && (forall i | 0 <= i < |t| :: Occupied(w.slots[i]) ==> Occupied(t[i]))
            && Registers(w.history) + Count(w.slots, Announced) <= Count(t, Announced)
            && Rank(w.slots) <= Rank(t)
  {
    if es != [] {
      var n := |es| - 1;
      StrictBudget(su, t, timerAt, openAt, es[..n]);
      InvInRun(su, t, timerAt, openAt, es[..n]);
      var v := Run(su, Start(su, t, timerAt, openAt), es[..n]);
      ServedOrUntouched(su, v, es[n]);
      if Serves(v, es[n]) {
        var c := es[n].pass.conn;
        StrictCommand(su.cfg, v.slots, c.req, c.creds, c.at, c.raw);
        RegistersAppend(v.history, ExchangeOf(su.cfg, v.slots, c));
      }
    }
  }

  /** No message of the run is an UNREGISTER by root. */
  ghost predicate NoRootUnregister(es: seq<Event>) {
    forall k | 0 <= k < |es| && es[k].Loop? && es[k].pass.conn.Message? ::
      !(es[k].pass.conn.req.Unregister? && es[k].pass.conn.creds.uid == 0)
  }

  lemma StrictCommandKeeps(cfg: Config, t: seq<Slot>, req: Request, cr: Creds, now: Time, raw: RawId)
    requires cfg.strict && GoodTable(cfg, t) && !(req.Unregister? && cr.uid == 0)
    ensures var o := Exec(cfg, t, req, cr, now, raw);
            && |o.slots| == |t|
            && forall i | 0 <= i < |t| ::
                 Occupied(o.slots[i]) == Occupied(t[i]) && o.slots[i].id == t[i].id && o.slots[i].name == t[i].name
  {
  }

  /** In strict mode, without an UNREGISTER by root, exactly the configured clients stay
      supervised, under their configured IDs and names. */
  lemma {:induction false} StrictKeepsConfigured(su: Setup, t: seq<Slot>, timerAt: Time, openAt: Time, es: seq<Event>)
    requires ConfiguredTable(su, t) && su.cfg.strict && NoRootUnregister(es)
    ensures var w := Run(su, Start(su, t, timerAt, openAt), es);
            && |w.slots| == |t|
            && forall i | 0 <= i < |t| ::
                 && Occupied(w.slots[i]) == Occupied(t[i])
                 && w.slots[i].id == t[i].id && w.slots[i].name == t[i].name
  {
    if es != [] {
      var n := |es| - 1;
      StrictKeepsConfigured(su, t, timerAt, openAt, es[..n]);
      InvInRun(su, t, timerAt, openAt, es[..n]);
      var v := Run(su, Start(su, t, timerAt, openAt), es[..n]);
      ServedOrUntouched(su, v, es[n]);
      if Serves(v, es[n]) {
        var c := es[n].pass.conn;
        StrictCommandKeeps(su.cfg, v.slots, c.req, c.creds, c.at, c.raw);
      }
    }
  }

  // ----- exits -----

  ghost predicate RebootAccepted(h: seq<Exchange>) {
    exists k | 0 <= k < |h| :: AcceptsReboot(h[k])
  }

  /** The reboot flag is exactly "root has asked for it", and while the process serves the device
      is armed at the configured timeout. */
  ghost predicate ExitInv(su: Setup, w: World) {
    && (w.reboot <==> RebootAccepted(w.history))
    && (w.proc != Returned ==>
          if su.enabled then After(w.ops).armed && After(w.ops).timeout == su.cfg.wdTimeout && !After(w.ops).expectClose
          else w.ops == [])
    && (w.proc == Returned ==>
          if su.enabled then
            && After(w.ops).armed == w.reboot
            && (w.reboot ==> After(w.ops).timeout == su.cfg.rebootTimeout)
          else w.ops == [])
  }

  lemma RebootFlag(su: Setup, w: World, c: Connection)
    requires w.reboot <==> RebootAccepted(w.history)
    ensures var v := Command(su, w, c);
            v.reboot <==> RebootAccepted(v.history)
  {
    if c.Message? {
      var x := ExchangeOf(su.cfg, w.slots, c);
      var h := w.history;
      assert forall k | 0 <= k < |h| :: (h + [x])[k] == h[k];
      assert (h + [x])[|h|] == x;
      assert Handle(su.cfg, w.slots, c).stop <==> AcceptsReboot(x);
    }
  }

  lemma FeedKeepsExit(su: Setup, w: World, t: Timer)
    requires ExitInv(su, w) && w.proc == Serving
    ensures ExitInv(su, Feed(su, w, t))
  {
    if t.Due? { AfterAppend(w.ops, Write('\0', t.feedAt)); }
  }

  lemma CommandKeepsExit(su: Setup, w: World, c: Connection)
    requires ExitInv(su, w) && w.proc == Serving
    ensures ExitInv(su, Command(su, w, c)) && Command(su, w, c).proc == Serving
  {
    RebootFlag(su, w, c);
  }

  lemma PassKeepsExit(su: Setup, w: World, p: Pass)
    requires ExitInv(su, w) && Looping(w)
    ensures ExitInv(su, OnePass(su, w, p))
  {
    if p.select.Ready? {
      CommandKeepsExit(su, w, p.conn);
      FeedKeepsExit(su, Scanned(su, w, p), p.timer);
    }
  }

  lemma ShutdownKeepsExit(su: Setup, w: World, at: Time)
    requires ExitInv(su, w) && w.proc == Serving
    ensures ExitInv(su, Shutdown(su, w, at))
  {
    if su.enabled {
      var a, b := if w.reboot then SetTimeout(su.cfg.rebootTimeout, at) else Write('V', at),
                  if w.reboot then Write('\0', at) else Disable(at);
      AfterAppend(w.ops, a);
      AfterAppend(w.ops + [a], b);
      AfterAppend(w.ops + [a] + [b], Close(at));
      assert Shutdown(su, w, at).ops == w.ops + [a] + [b] + [Close(at)];
    }
  }

  lemma StepKeepsExit(su: Setup, w: World, e: Event)
    requires ExitInv(su, w)
    ensures ExitInv(su, Step(su, w, e))
  {
    match e {
      case Loop(p) => if Looping(w) { PassKeepsExit(su, w, p); }
      case Signal =>
      case Finish(at) => if w.proc == Serving && !w.running { ShutdownKeepsExit(su, w, at); }
    }
  }

  lemma StartExit(su: Setup, t: seq<Slot>, timerAt: Time, openAt: Time)
    ensures ExitInv(su, Start(su, t, timerAt, openAt))
  {
    if su.enabled {
      AfterAppend([], Open(openAt));
      AfterAppend([Open(openAt)], SetTimeout(su.cfg.wdTimeout, openAt));
      assert [] + [Open(openAt)] == [Open(openAt)];
      assert [Open(openAt)] + [SetTimeout(su.cfg.wdTimeout, openAt)] == Start(su, t, timerAt, openAt).ops;
    }
  }

  /** End state of every run: when main has returned, the device is left armed, at the reboot
      timeout, exactly if a REBOOT by root was accepted; otherwise it is disarmed. */
  lemma {:induction false} DeviceEndState(su: Setup, t: seq<Slot>, timerAt: Time, openAt: Time, es: seq<Event>)
    ensures ExitInv(su, Run(su, Start(su, t, timerAt, openAt), es))
  {
    if es == [] {
      StartExit(su, t, timerAt, openAt);
    } else {
      var n := |es| - 1;
      DeviceEndState(su, t, timerAt, openAt, es[..n]);
      StepKeepsExit(su, Run(su, Start(su, t, timerAt, openAt), es[..n]), es[n]);
    }
  }

  // ----- what ends the loop -----

  /** A served pass finds every client in time. */
  ghost predicate AllInTime(su: Setup, w: World, p: Pass) {
    var t := Command(su, w, p.conn).slots;
    forall i | 0 <= i < |t| && Occupied(t[i]) :: !Misses(t[i], p.checks(i))
  }

  /** No system call of the pass fails in a way that clears `all_ok`. */
  predicate NoFailure(p: Pass) {
    && !p.select.SelectFailed?
    && (p.select.Ready? ==> !p.conn.AcceptFailed?)
  }

  /** Exactly what keeps `all_ok` through one pass. A client that misses clears it; so does a failing
      accept or select, with every client alive. */
  lemma PassOutcome(su: Setup, w: World, p: Pass)
    requires Looping(w)
    ensures OnePass(su, w, p).allOk <==> NoFailure(p) && (p.select.Ready? ==> AllInTime(su, w, p))
  {
    var t := Command(su, w, p.conn).slots;
    var m := FirstMiss(t, p.checks, 0);
    if m < |t| {
      assert Occupied(t[m]) && Misses(t[m], p.checks(m));
    }
  }

  /** The pass serves an accepted REBOOT. */
  predicate Reboots(p: Pass) {
    p.select.Ready? && p.conn.Message? && p.conn.req.Reboot? && p.conn.creds.uid == 0
  }

  /** Reading the timer and, where it is due, writing the device succeed. */
  predicate DeviceWorks(su: Setup, p: Pass) {
    p.select.Ready? ==> !p.timer.Unreadable? && (p.timer.Due? && su.enabled ==> p.timer.feedOk)
  }

  /** The loop goes on after this event. */
  ghost predicate Survives(su: Setup, w: World, e: Event) {
    match e
    case Loop(p) =>
      && NoFailure(p) && !Reboots(p) && DeviceWorks(su, p)
      && (p.select.Ready? ==> AllInTime(su, w, p))
    case Signal => false
    case Finish(_) => true
  }

  lemma StopsIffReboots(cfg: Config, t: seq<Slot>, req: Request, cr: Creds, now: Time, raw: RawId)
    ensures Exec(cfg, t, req, cr, now, raw).stop <==> req.Reboot? && cr.uid == 0
  {
  }

  lemma PassContinuesIff(su: Setup, w: World, p: Pass)
    requires Looping(w)
    ensures Looping(OnePass(su, w, p)) <==> Survives(su, w, Loop(p))
  {
    PassOutcome(su, w, p);
    PassTouches(su, w, p);
    if p.conn.Message? {
      StopsIffReboots(su.cfg, w.slots, p.conn.req, p.conn.creds, p.conn.at, p.conn.raw);
    }
  }

  ghost predicate AllSurvive(su: Setup, w0: World, es: seq<Event>) {
    forall k | 0 <= k < |es| :: Survives(su, Run(su, w0, es[..k]), es[k])
  }

  lemma StepContinuesIff(su: Setup, w: World, e: Event)
    ensures Looping(Step(su, w, e)) <==> Looping(w) && Survives(su, w, e)
  {
    if e.Loop? && Looping(w) { PassContinuesIff(su, w, e.pass); }
  }

  lemma AllSurviveNext(su: Setup, w0: World, pre: seq<Event>, e: Event)
    ensures AllSurvive(su, w0, pre + [e]) <==> AllSurvive(su, w0, pre) && Survives(su, Run(su, w0, pre), e)
  {
    var es := pre + [e];
    assert es[..|pre|] == pre && es[|pre|] == e;
    forall k | 0 <= k < |pre|
      ensures es[..k] == pre[..k] && es[k] == pre[k]
    {
    }
  }

  /** Exactly which runs stay in the main loop: no signal, no accepted REBOOT, no failing system call,
      and every client in time at every check. */
  lemma {:induction false} LoopingIff(su: Setup, w0: World, es: seq<Event>)
    requires Looping(w0)
    ensures Looping(Run(su, w0, es)) <==> AllSurvive(su, w0, es)
  {
    if es != [] {
      var pre, e := es[..|es| - 1], es[|es| - 1];
      assert es == pre + [e];
      LoopingIff(su, w0, pre);
      AllSurviveNext(su, w0, pre, e);
      StepContinuesIff(su, Run(su, w0, pre), e);
    }
  }

  /** The way out: a process that has been stopped returns, and leaves the device armed, with the whole
      reboot timeout ahead of it, exactly if a REBOOT by root was accepted, and disarmed otherwise. */
  lemma StoppedReturns(su: Setup, t: seq<Slot>, timerAt: Time, openAt: Time, es: seq<Event>, at: Time)
    requires var w := Run(su, Start(su, t, timerAt, openAt), es);
             w.proc == Serving && !w.running
    ensures var w := Run(su, Start(su, t, timerAt, openAt), es);
            var v := Run(su, Start(su, t, timerAt, openAt), es + [Finish(at)]);
            && v.proc == Returned && v.slots == w.slots && v.history == w.history && v.clock == at
            && (!su.enabled ==> v.ops == [])
            && (su.enabled ==>
                  if RebootAccepted(w.history) then
                    After(v.ops).armed && FireTime(After(v.ops)) == Ns(at) + su.cfg.rebootTimeout * NS_PER_SEC
                  else !After(v.ops).armed)
  {
    var all := es + [Finish(at)];
    var w := Run(su, Start(su, t, timerAt, openAt), es);
    assert all[..|es|] == es;
    DeviceEndState(su, t, timerAt, openAt, es);
    DeviceEndState(su, t, timerAt, openAt, all);
    if su.enabled && w.reboot { RebootKick(su, w, at); }
  }

  lemma RebootKick(su: Setup, w: World, at: Time)
    requires su.enabled && w.reboot
    ensures After(Shutdown(su, w, at).ops).kicked == at
    ensures After(Shutdown(su, w, at).ops).timeout == su.cfg.rebootTimeout
  {
    var a, b, c := SetTimeout(su.cfg.rebootTimeout, at), Write('\0', at), Close(at);
    AfterAppend(w.ops, a);
    AfterAppend(w.ops + [a], b);
    AfterAppend(w.ops + [a] + [b], c);
    assert Shutdown(su, w, at).ops == w.ops + [a] + [b] + [c];
  }

  /** A signal stops a serving process for good, in the loop as well as while a reset is pending. */
  lemma SignalReturns(su: Setup, t: seq<Slot>, timerAt: Time, openAt: Time, es: seq<Event>, at: Time)
    requires Run(su, Start(su, t, timerAt, openAt), es).proc == Serving
    ensures Run(su, Start(su, t, timerAt, openAt), es + [Signal] + [Finish(at)]).proc == Returned
  {
    SignalStops(su, Start(su, t, timerAt, openAt), es);
    StoppedReturns(su, t, timerAt, openAt, es + [Signal], at);
  }

  lemma SignalStops(su: Setup, w0: World, es: seq<Event>)
    requires Run(su, w0, es).proc == Serving
    ensures Run(su, w0, es + [Signal]) == Run(su, w0, es).(running := false)
  {
    assert (es + [Signal])[..|es|] == es;
  }

  /** Without a reboot the device is disarmed twice over: the closing 'V' suffices where the driver does
      not know the disable call, and the disable call where it ignores the 'V'. */
  lemma EitherWayDisarms(su: Setup, w: World, at: Time)
    requires su.enabled && !w.reboot
    ensures Shutdown(su, w, at).ops == w.ops + [Write('V', at)] + [Disable(at)] + [Close(at)]
    ensures !After(w.ops + [Disable(at)] + [Close(at)]).armed
    ensures !After(w.ops + [Write('V', at)] + [Close(at)]).armed
  {
    AfterAppend(w.ops, Disable(at));
    AfterAppend(w.ops + [Disable(at)], Close(at));
    AfterAppend(w.ops, Write('V', at));
    AfterAppend(w.ops + [Write('V', at)], Close(at));
  }

  /** A failing accept is as final as a dead client: the loop ends, and until a signal nothing is
      written to the device any more, whatever the clients do. */
  lemma AcceptFailureIsFinal(su: Setup, w: World, p: Pass, es: seq<Event>)
    requires Looping(w) && p.select.Ready? && p.conn.AcceptFailed?
    requires forall k | 0 <= k < |es| :: !es[k].Signal?
    ensures var v := OnePass(su, w, p);
            && !Looping(v) && v.slots == w.slots && v.ops == w.ops && Run(su, v, es) == v
            && forall q: Pass :: !Feeds(su, Run(su, v, es), q)
  {
    PassOutcome(su, w, p);
    ResetPending(su, OnePass(su, w, p), es);
  }

  /** After a miss with `running` still true nothing is written to the device, and nothing else
      happens either, until a signal arrives. */
  lemma {:induction false} ResetPending(su: Setup, w: World, es: seq<Event>)
    requires !w.allOk && w.running
    requires forall k | 0 <= k < |es| :: !es[k].Signal?
    ensures Run(su, w, es) == w
  {
    if es != [] {
      ResetPending(su, w, es[..|es| - 1]);
    }
  }

  /** A failed heartbeat is final: no later event of any run feeds from the main loop again. */
  lemma {:induction false} MissIsFinal(su: Setup, w: World, es: seq<Event>)
    requires !w.allOk
    ensures !Run(su, w, es).allOk
    ensures forall p: Pass :: !Feeds(su, Run(su, w, es), p)
  {
    if es != [] {
      MissIsFinal(su, w, es[..|es| - 1]);
    }
  }
}
