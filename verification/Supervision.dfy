/** What supervision means over whole runs: the history of exchanges is a legal trace of the
    reference model, no slot is lost or invented, every feed certifies every live client, and
    no client is given up without cause. */
module Supervision {
  import opened Clock
  import opened Table
  import opened Protocol
  import opened Registry
  import opened Device
  import opened Machine

  // ----- the history is a legal trace of the reference model -----

  /** Every identifier drawn while serving a message differs from those in use. */
  ghost predicate FreshRun(su: Setup, w0: World, es: seq<Event>) {
    es == [] ||
    (var n := |es| - 1;
     var w := Run(su, w0, es[..n]);
     FreshRun(su, w0, es[..n]) && (Serves(w, es[n]) ==> FreshFor(w.slots, es[n].pass.conn.raw)))
  }

  ghost predicate LegalTrace(cfg: Config, capacity: nat, m0: Clients, h: seq<Exchange>) {
    forall k | 0 <= k < |h| :: Allowed(cfg, capacity, Alive(m0, h[..k]), h[k])
  }

  ghost predicate MapInv(su: Setup, m0: Clients, w: World) {
    && DistinctIds(w.slots)
    && Abs(w.slots) == Alive(m0, w.history)
    && LegalTrace(su.cfg, su.capacity, m0, w.history)
  }

  lemma AliveAppend(m0: Clients, h: seq<Exchange>, x: Exchange)
    ensures Alive(m0, h + [x]) == Observe(Alive(m0, h), x)
  {
    assert (h + [x])[..|h|] == h;
  }

  lemma LegalAppend(cfg: Config, capacity: nat, m0: Clients, h: seq<Exchange>, x: Exchange)
    requires LegalTrace(cfg, capacity, m0, h) && Allowed(cfg, capacity, Alive(m0, h), x)
    ensures LegalTrace(cfg, capacity, m0, h + [x])
  {
    var g := h + [x];
    forall k | 0 <= k < |g|
      ensures Allowed(cfg, capacity, Alive(m0, g[..k]), g[k])
    {
      if k < |h| {
        assert g[..k] == h[..k] && g[k] == h[k];
      } else {
        assert g[..k] == h && g[k] == x;
      }
    }
  }

  lemma StepKeepsMap(su: Setup, m0: Clients, w: World, e: Event)
    requires Inv(su, w) && MapInv(su, m0, w)
    requires Serves(w, e) ==> FreshFor(w.slots, e.pass.conn.raw)
    ensures MapInv(su, m0, Step(su, w, e))
  {
    ServedOrUntouched(su, w, e);
    if Serves(w, e) {
      var c := e.pass.conn;
      var x := ExchangeOf(su.cfg, w.slots, c);
      assert OneRole(w.slots) by {
        assert forall i | 0 <= i < |w.slots| :: GoodSlot(w.slots[i]);
      }
      ExecRefines(su.cfg, w.slots, c.req, c.creds, c.at, c.raw);
      AliveAppend(m0, w.history, x);
      LegalAppend(su.cfg, su.capacity, m0, w.history, x);
    }
  }

  /** The slot table refines the reference model along every run with fresh IDs: the table stands
      for exactly the clients the history says are alive, and every reply was an allowed one. */
  lemma {:induction false} RunRefinesModel(su: Setup, t: seq<Slot>, timerAt: Time, openAt: Time, es: seq<Event>)
    requires ConfiguredTable(su, t) && DistinctIds(t)
    requires FreshRun(su, Start(su, t, timerAt, openAt), es)
    ensures MapInv(su, Abs(t), Run(su, Start(su, t, timerAt, openAt), es))
  {
    if es != [] {
      var n := |es| - 1;
      RunRefinesModel(su, t, timerAt, openAt, es[..n]);
      InvInRun(su, t, timerAt, openAt, es[..n]);
      StepKeepsMap(su, Abs(t), Run(su, Start(su, t, timerAt, openAt), es[..n]), es[n]);
    }
  }

  /** In a legal trace a live registration is not given out again. */
  lemma NotRegisteredTwice(cfg: Config, capacity: nat, m0: Clients, h: seq<Exchange>, k: nat, l: nat, id: string)
    requires LegalTrace(cfg, capacity, m0, h)
    requires k < l < |h| && AcceptsRegister(h[k], id)
    requires forall j | k < j < |h| :: !AcceptsUnregister(h[j], id)
    ensures !AcceptsRegister(h[l], id)
    decreases l
  {
    forall j | k < j < l
      ensures !AcceptsRegister(h[j], id)
    {
      NotRegisteredTwice(cfg, capacity, m0, h, k, j, id);
    }
    var g := h[..l];
    assert g[k] == h[k] && forall j | k < j < |g| :: g[j] == h[j];
    var j := RegisteredIsAlive(m0, g, k, id);
    assert Allowed(cfg, capacity, Alive(m0, g), h[l]);
  }

  // ----- conservation -----

  datatype Tally = Tally(registered: nat, claimed: nat, revoked: nat, dropped: nat)

  /** From the history alone: accepted REGISTERs, those among them that claimed an announced ID,
      accepted UNREGISTERs of registered clients and of announced ones. */
  function TallyOf(m0: Clients, h: seq<Exchange>): Tally {
    if h == [] then Tally(0, 0, 0, 0)
    else
      var n := |h| - 1;
      var y, m, x := TallyOf(m0, h[..n]), Alive(m0, h[..n]), h[n];
      if x.req.Register? && x.reply.OkId? then
        y.(registered := y.registered + 1, claimed := y.claimed + if x.reply.id in m then 1 else 0)
      else if x.req.Unregister? && x.reply == Ok && x.req.id in m then
        if m[x.req.id].registered then y.(revoked := y.revoked + 1) else y.(dropped := y.dropped + 1)
      else y
  }

  ghost predicate Conserved(t: seq<Slot>, now: seq<Slot>, y: Tally) {
    && |now| == |t|
    && Count(now, Active) == y.registered - y.revoked
    && Count(now, Announced) == Count(t, Announced) - y.claimed - y.dropped
    && Count(now, Free) + Count(now, Announced) + Count(now, Active) == |t|
    && (forall i | 0 <= i < |t| && now[i].announced :: t[i].announced)
  }

  /** The counts move from `t` to `u` exactly as the tally moves. */
  ghost predicate Balanced(t: seq<Slot>, u: seq<Slot>, y: Tally, y': Tally) {
    && |u| == |t|
    && Count(u, Active) - Count(t, Active) == (y'.registered - y'.revoked) - (y.registered - y.revoked)
    && Count(u, Announced) - Count(t, Announced) == (y.claimed + y.dropped) - (y'.claimed + y'.dropped)
    && forall i | 0 <= i < |t| && u[i].announced :: t[i].announced
  }

  lemma UpdateBalances(t: seq<Slot>, i: nat, s: Slot, y: Tally, y': Tally)
    requires i < |t| && (s.announced ==> t[i].announced)
    requires (y'.registered - y'.revoked) - (y.registered - y.revoked)
          == (if s.active then 1 else 0) - (if t[i].active then 1 else 0)
    requires (y.claimed + y.dropped) - (y'.claimed + y'.dropped)
          == (if s.announced then 1 else 0) - (if t[i].announced then 1 else 0)
    ensures Balanced(t, t[i := s], y, y')
  {
    CountUpdate(t, i, s, Active);
    CountUpdate(t, i, s, Announced);
  }

  lemma RegisterConserves(cfg: Config, t: seq<Slot>, x: Exchange, raw: RawId, m0: Clients, h: seq<Exchange>)
    requires x.req.Register? && DistinctIds(t) && FreshFor(t, raw) && Abs(t) == Alive(m0, h)
    requires x == Told(x.req, x.creds, Exec(cfg, t, x.req, x.creds, x.time, raw), x.time)
    ensures Balanced(t, Exec(cfg, t, x.req, x.creds, x.time, raw).slots, TallyOf(m0, h), TallyOf(m0, h + [x]))
  {
    var y, y' := TallyOf(m0, h), TallyOf(m0, h + [x]);
    assert (h + [x])[..|h|] == h;
    match Select(cfg, t, x.req.name) {
      case None =>
      case Some(i) =>
        var o := Exec(cfg, t, x.req, x.creds, x.time, raw);
        AbsLookup(t, o.slots[i].id);
        if t[i].announced { AbsAt(t, i); }
        SelectMeetsDecisionTable(cfg, t, x.req.name);
        UpdateBalances(t, i, o.slots[i], y, y');
    }
  }

  lemma UnregisterConserves(cfg: Config, t: seq<Slot>, x: Exchange, raw: RawId, m0: Clients, h: seq<Exchange>)
    requires x.req.Unregister? && GoodTable(cfg, t) && DistinctIds(t) && Abs(t) == Alive(m0, h)
    requires x == Told(x.req, x.creds, Exec(cfg, t, x.req, x.creds, x.time, raw), x.time)
    ensures Balanced(t, Exec(cfg, t, x.req, x.creds, x.time, raw).slots, TallyOf(m0, h), TallyOf(m0, h + [x]))
  {
    var y, y' := TallyOf(m0, h), TallyOf(m0, h + [x]);
    assert (h + [x])[..|h|] == h;
    AbsLookup(t, x.req.id);
    var i := First(t, ById(x.req.id));
    if i < |t| && x.reply == Ok {
      assert GoodSlot(t[i]);
      UpdateBalances(t, i, Freed(t[i]), y, y');
    }
  }

  lemma CommandConserves(cfg: Config, t: seq<Slot>, c: Connection, m0: Clients, h: seq<Exchange>)
    requires c.Message? && GoodTable(cfg, t) && DistinctIds(t) && FreshFor(t, c.raw) && Abs(t) == Alive(m0, h)
    ensures Balanced(t, Handle(cfg, t, c).slots, TallyOf(m0, h), TallyOf(m0, h + [ExchangeOf(cfg, t, c)]))
  {
    var x := ExchangeOf(cfg, t, c);
    if x.req.Register? {
      RegisterConserves(cfg, t, x, c.raw, m0, h);
    } else if x.req.Unregister? {
      UnregisterConserves(cfg, t, x, c.raw, m0, h);
    } else {
      var y, y' := TallyOf(m0, h), TallyOf(m0, h + [x]);
      assert (h + [x])[..|h|] == h;
      if x.req.Ping? {
        var i := First(t, ById(x.req.id));
        if i < |t| { UpdateBalances(t, i, t[i].(lastPing := c.at), y, y'); }
      }
    }
  }

  lemma {:induction false} NoneActive(t: seq<Slot>)
    requires forall i | 0 <= i < |t| :: !t[i].active
    ensures Count(t, Active) == 0
  {
    if t != [] { NoneActive(t[..|t| - 1]); }
  }

  /** No slot is lost or invented over any run: active slots are the accepted registrations minus
      the revoked ones, announced slots only ever get fewer, and with the free ones they fill the table. */
  lemma {:induction false} SlotsConserved(su: Setup, t: seq<Slot>, timerAt: Time, openAt: Time, es: seq<Event>)
    requires ConfiguredTable(su, t) && DistinctIds(t)
    requires FreshRun(su, Start(su, t, timerAt, openAt), es)
    ensures var w := Run(su, Start(su, t, timerAt, openAt), es);
            Conserved(t, w.slots, TallyOf(Abs(t), w.history))
  {
    var w := Run(su, Start(su, t, timerAt, openAt), es);
    InvInRun(su, t, timerAt, openAt, es);
    assert forall i | 0 <= i < |w.slots| :: GoodSlot(w.slots[i]);
    CountsPartition(w.slots);
    if es == [] {
      NoneActive(t);
    } else {
      var n := |es| - 1;
      SlotsConserved(su, t, timerAt, openAt, es[..n]);
      InvInRun(su, t, timerAt, openAt, es[..n]);
      RunRefinesModel(su, t, timerAt, openAt, es[..n]);
      var v := Run(su, Start(su, t, timerAt, openAt), es[..n]);
      ServedOrUntouched(su, v, es[n]);
      if Serves(v, es[n]) {
        CommandConserves(su.cfg, v.slots, es[n].pass.conn, Abs(t), v.history);
      }
    }
  }

  // ----- feed safety -----

  /** Clock readings of one pass are ordered, and each slot is checked at most `gapMs` after its
      previous check. */
  ghost predicate Timed(su: Setup, w: World, p: Pass, gapMs: nat) {
    && Ns(w.clock) <= Ns(p.begin) <= Ns(p.wake) <= Ns(p.end)
    && (p.conn.Message? ==> Ns(p.wake) <= Ns(p.conn.at) <= Ns(p.end))
    && (p.timer.Due? ==> Ns(p.wake) <= Ns(p.timer.feedAt) <= Ns(p.end))
    && forall i: nat | i < su.capacity ::
         && Ns(p.wake) <= Ns(p.checks(i)) <= Ns(p.end)
         && (p.conn.Message? ==> Ns(p.conn.at) <= Ns(p.checks(i)))
         && (p.timer.Due? ==> Ns(p.checks(i)) <= Ns(p.timer.feedAt))
         && Ns(p.checks(i)) <= Ns(w.checked(i)) + gapMs * NS_PER_MS
  }

  ghost predicate TimedRun(su: Setup, w0: World, es: seq<Event>, gapMs: nat) {
    es == [] ||
    (var n := |es| - 1;
     var w := Run(su, w0, es[..n]);
     && TimedRun(su, w0, es[..n], gapMs)
     && (es[n].Loop? && Looping(w) ==>
           && Ns(w.clock) <= Ns(es[n].pass.end)
           && (es[n].pass.select.Ready? ==> Timed(su, w, es[n].pass, gapMs)))
     && (es[n].Finish? ==> Ns(w.clock) <= Ns(es[n].at)))
  }

  ghost predicate TimedStart(t: seq<Slot>, timerAt: Time, openAt: Time) {
    && Ns(timerAt) <= Ns(openAt)
    && forall i | 0 <= i < |t| && t[i].announced :: Ns(t[i].lastPing) <= Ns(timerAt)
  }

  /** No wrap: the previous check of an occupied slot was within its timeout, so the next one
      comes before its age can reach 2^32 ms. */
  ghost predicate TimeInv(su: Setup, w: World) {
    && |w.slots| == su.capacity
    && (forall i: nat | i < su.capacity :: Ns(w.checked(i)) <= Ns(w.clock))
    && forall i | 0 <= i < |w.slots| && Occupied(w.slots[i]) ::
         && Ns(w.slots[i].lastPing) <= Ns(w.clock)
         && (w.allOk ==> OnTime(w.slots[i], w.checked(i)))
  }

  /** Less than timeout + 1 ms since the last heartbeat. */
  ghost predicate OnTime(s: Slot, now: Time) {
    Ns(now) < Ns(s.lastPing) + (s.timeout + 1) * NS_PER_MS
  }

  lemma ExecTouches(cfg: Config, t: seq<Slot>, req: Request, cr: Creds, now: Time, raw: RawId)
    ensures var o := Exec(cfg, t, req, cr, now, raw);
            && |o.slots| == |t|
            && forall i | 0 <= i < |t| && Occupied(o.slots[i]) && o.slots[i] != t[i] :: o.slots[i].lastPing == now
  {
  }

  /** Up to the scan of one pass: every occupied slot's heartbeat precedes its check, and the 32-bit
      verdict on it is exact up to one millisecond. */
  lemma VerdictsExact(su: Setup, w: World, p: Pass, gapMs: nat, i: nat)
    requires Inv(su, w) && TimeInv(su, w) && Looping(w) && p.select.Ready?
    requires Timed(su, w, p, gapMs) && TIMEOUT_MAX_MS + 1 + gapMs < U32
    requires i < su.capacity && Occupied(Command(su, w, p.conn).slots[i])
    ensures var s := Command(su, w, p.conn).slots[i];
            && Ns(s.lastPing) <= Ns(p.checks(i))
            && Age32(p.checks(i), s.lastPing) == RawAge(p.checks(i), s.lastPing)
            && (Ns(p.checks(i)) <= Ns(s.lastPing) + s.timeout * NS_PER_MS ==> !Misses(s, p.checks(i)))
            && (!Misses(s, p.checks(i)) ==> OnTime(s, p.checks(i)))
            && (Misses(s, p.checks(i)) <==>
                  Ns(p.checks(i)) - Ns(s.lastPing) + Carry(p.checks(i), s.lastPing) >= (s.timeout + 1) * NS_PER_MS)
  {
    var v := Command(su, w, p.conn);
    var s := v.slots[i];
    if p.conn.Message? {
      var c := p.conn;
      ExecTouches(su.cfg, w.slots, c.req, c.creds, c.at, c.raw);
      ExecKeepsTable(su.cfg, w.slots, c.req, c.creds, c.at, c.raw);
    }
    assert GoodSlot(s);
    assert Ns(w.checked(i)) < Ns(s.lastPing) + (s.timeout + 1) * NS_PER_MS;
    MissedIsExact(p.checks(i), s.lastPing, s.timeout);
    MissedIff(p.checks(i), s.lastPing, s.timeout);
    AgeUnwrapped(p.checks(i), s.lastPing);
  }

  lemma PassKeepsTime(su: Setup, w: World, p: Pass, gapMs: nat)
    requires Inv(su, w) && TimeInv(su, w) && Looping(w) && p.select.Ready?
    requires Timed(su, w, p, gapMs) && TIMEOUT_MAX_MS + 1 + gapMs < U32
    ensures TimeInv(su, OnePass(su, w, p))
  {
    var v := Command(su, w, p.conn);
    StepKeepsInv(su, w, Loop(p));
    forall i | 0 <= i < |v.slots| && Occupied(v.slots[i])
      ensures Ns(v.slots[i].lastPing) <= Ns(p.end)
      ensures FirstMiss(v.slots, p.checks, 0) == |v.slots| ==> OnTime(v.slots[i], p.checks(i))
    {
      VerdictsExact(su, w, p, gapMs, i);
    }
  }

  lemma {:induction false} TimeInvInRun(
    su: Setup, t: seq<Slot>, timerAt: Time, openAt: Time, es: seq<Event>, gapMs: nat)
    requires ConfiguredTable(su, t) && TimedStart(t, timerAt, openAt)
    requires TimedRun(su, Start(su, t, timerAt, openAt), es, gapMs) && TIMEOUT_MAX_MS + 1 + gapMs < U32
    ensures TimeInv(su, Run(su, Start(su, t, timerAt, openAt), es))
  {
    if es == [] {
      assert forall i | 0 <= i < |t| && t[i].announced :: GoodSlot(t[i]);
    } else {
      var n := |es| - 1;
      TimeInvInRun(su, t, timerAt, openAt, es[..n], gapMs);
      InvInRun(su, t, timerAt, openAt, es[..n]);
      var w := Run(su, Start(su, t, timerAt, openAt), es[..n]);
      if es[n].Loop? && Looping(w) && es[n].pass.select.Ready? {
        PassKeepsTime(su, w, es[n].pass, gapMs);
      }
    }
  }

  /** The premises under which a pass of a run is looked at. */
  ghost predicate Supervised(su: Setup, t: seq<Slot>, timerAt: Time, openAt: Time, es: seq<Event>, gapMs: nat) {
    && ConfiguredTable(su, t) && DistinctIds(t) && TimedStart(t, timerAt, openAt)
    && TIMEOUT_MAX_MS + 1 + gapMs < U32
    && TimedRun(su, Start(su, t, timerAt, openAt), es, gapMs)
    && FreshRun(su, Start(su, t, timerAt, openAt), es)
  }

  lemma SupervisedPrefix(su: Setup, t: seq<Slot>, timerAt: Time, openAt: Time, es: seq<Event>, e: Event, gapMs: nat)
    requires Supervised(su, t, timerAt, openAt, es + [e], gapMs)
    ensures Supervised(su, t, timerAt, openAt, es, gapMs)
    ensures var w := Run(su, Start(su, t, timerAt, openAt), es);
            && Inv(su, w) && TimeInv(su, w) && MapInv(su, Abs(t), w)
            && (e.Loop? && Looping(w) && e.pass.select.Ready? ==> Timed(su, w, e.pass, gapMs))
            && (Serves(w, e) ==> FreshFor(w.slots, e.pass.conn.raw))
            && Run(su, Start(su, t, timerAt, openAt), es + [e]) == Step(su, w, e)
  {
    assert (es + [e])[..|es|] == es;
    InvInRun(su, t, timerAt, openAt, es);
    TimeInvInRun(su, t, timerAt, openAt, es, gapMs);
    RunRefinesModel(su, t, timerAt, openAt, es);
  }

  /** Feed safety: whenever the main loop writes the watchdog, every client that the history of
      exchanges says is alive was checked in that very pass, no later than the write, less than
      its timeout + 1 ms after its last accepted heartbeat. */
  lemma FeedCertifiesEveryClient(
    su: Setup, t: seq<Slot>, timerAt: Time, openAt: Time, es: seq<Event>, p: Pass, gapMs: nat, id: string)
    returns (i: nat)
    requires Supervised(su, t, timerAt, openAt, es + [Loop(p)], gapMs)
    requires Feeds(su, Run(su, Start(su, t, timerAt, openAt), es), p)
    requires id in Alive(Abs(t), Run(su, Start(su, t, timerAt, openAt), es + [Loop(p)]).history)
    ensures i < su.capacity
    ensures var v := Run(su, Start(su, t, timerAt, openAt), es + [Loop(p)]);
            var c := Alive(Abs(t), v.history)[id];
            && v.ops == Run(su, Start(su, t, timerAt, openAt), es).ops + [Write('\0', p.timer.feedAt)]
            && |v.slots| == su.capacity && v.slots[i].id == id
            && Ns(c.beat) <= Ns(p.checks(i)) <= Ns(p.timer.feedAt)
            && Ns(p.checks(i)) < Ns(c.beat) + (c.timeout + 1) * NS_PER_MS
  {
    SupervisedPrefix(su, t, timerAt, openAt, es, Loop(p), gapMs);
    var w := Run(su, Start(su, t, timerAt, openAt), es);
    StepKeepsMap(su, Abs(t), w, Loop(p));
    StepKeepsInv(su, w, Loop(p));
    var v := Step(su, w, Loop(p));
    i := AbsHolder(v.slots, id);
    VerdictsExact(su, w, p, gapMs, i);
    assert !Misses(v.slots[i], p.checks(i));
  }

  /** Feed safety told on the trace, for registered clients: an accepted REGISTER that was not
      taken back is followed by a heartbeat less than timeout + 1 ms before the client's check. */
  lemma FeedImpliesRecentHeartbeat(
    su: Setup, t: seq<Slot>, timerAt: Time, openAt: Time, es: seq<Event>, p: Pass, gapMs: nat, k: nat,
    id: string)
    returns (j: nat, i: nat)
    requires Supervised(su, t, timerAt, openAt, es + [Loop(p)], gapMs)
    requires Feeds(su, Run(su, Start(su, t, timerAt, openAt), es), p)
    requires var h := Run(su, Start(su, t, timerAt, openAt), es + [Loop(p)]).history;
             k < |h| && AcceptsRegister(h[k], id) && forall l | k < l < |h| :: !AcceptsUnregister(h[l], id)
    ensures var h := Run(su, Start(su, t, timerAt, openAt), es + [Loop(p)]).history;
            && k <= j < |h| && Beats(h[j], id) && i < su.capacity
            && Ns(h[j].time) <= Ns(p.checks(i)) <= Ns(p.timer.feedAt)
            && Ns(p.checks(i)) < Ns(h[j].time) + (h[k].req.timeout + 1) * NS_PER_MS
  {
    var v := Run(su, Start(su, t, timerAt, openAt), es + [Loop(p)]);
    var h := v.history;
    RunRefinesModel(su, t, timerAt, openAt, es + [Loop(p)]);
    forall l | k < l < |h|
      ensures !AcceptsRegister(h[l], id)
    {
      NotRegisteredTwice(su.cfg, su.capacity, Abs(t), h, k, l, id);
    }
    j := RegisteredIsAlive(Abs(t), h, k, id);
    i := FeedCertifiesEveryClient(su, t, timerAt, openAt, es, p, gapMs, id);
  }

  /** Feed safety told on the trace, for announced clients that have neither registered nor been
      unregistered: startup, or an accepted PING on their ID, is recent enough. */
  lemma FeedImpliesRecentAnnouncement(
    su: Setup, t: seq<Slot>, timerAt: Time, openAt: Time, es: seq<Event>, p: Pass, gapMs: nat, id: string)
    returns (j: int, i: nat)
    requires Supervised(su, t, timerAt, openAt, es + [Loop(p)], gapMs)
    requires Feeds(su, Run(su, Start(su, t, timerAt, openAt), es), p)
    requires id in Abs(t) && !Abs(t)[id].registered
    requires Unclaimed(Run(su, Start(su, t, timerAt, openAt), es + [Loop(p)]).history, id)
    ensures var h := Run(su, Start(su, t, timerAt, openAt), es + [Loop(p)]).history;
            && -1 <= j < |h| && (j >= 0 ==> AcceptsPing(h[j], id)) && i < su.capacity
            && Ns(p.checks(i)) <= Ns(p.timer.feedAt)
            && Ns(p.checks(i)) < Ns(if j < 0 then Abs(t)[id].beat else h[j].time) + (Abs(t)[id].timeout + 1) * NS_PER_MS
  {
    var h := Run(su, Start(su, t, timerAt, openAt), es + [Loop(p)]).history;
    j := AnnouncedIsAlive(Abs(t), h, id);
    i := FeedCertifiesEveryClient(su, t, timerAt, openAt, es, p, gapMs, id);
  }

  /** No false alarm: the loop gives up only because accept or select failed, or because a client has
      really been silent for longer than its timeout. */
  lemma MissIsReal(
    su: Setup, t: seq<Slot>, timerAt: Time, openAt: Time, es: seq<Event>, p: Pass, gapMs: nat)
    requires Supervised(su, t, timerAt, openAt, es + [Loop(p)], gapMs)
    requires Looping(Run(su, Start(su, t, timerAt, openAt), es))
    requires !Run(su, Start(su, t, timerAt, openAt), es + [Loop(p)]).allOk
    ensures var v := Run(su, Start(su, t, timerAt, openAt), es + [Loop(p)]);
            !NoFailure(p) ||
            exists i | 0 <= i < |v.slots| && Occupied(v.slots[i]) ::
              Ns(p.checks(i)) > Ns(v.slots[i].lastPing) + v.slots[i].timeout * NS_PER_MS
  {
    SupervisedPrefix(su, t, timerAt, openAt, es, Loop(p), gapMs);
    var w := Run(su, Start(su, t, timerAt, openAt), es);
    PassOutcome(su, w, p);
    PassTouches(su, w, p);
    StepKeepsInv(su, w, Loop(p));
    if NoFailure(p) {
      var c := Command(su, w, p.conn).slots;
      var i :| 0 <= i < |c| && Occupied(c[i]) && Misses(c[i], p.checks(i));
      VerdictsExact(su, w, p, gapMs, i);
    }
  }
}
