/** The two deadlines of the hardware watchdog: a dead client lets it fire within a bound, and
    as long as clients are punctual and system calls succeed it is written in time, whatever
    wd_timeout_s is configured. */
module Deadlines {
  import opened Clock
  import opened Table
  import opened Registry
  import opened Device
  import opened Machine
  import opened Supervision

  // ----- a dead client leads to a reset -----

  /** `delayNs` bounds the time from a client's check to the write in the same pass. */
  ghost predicate CheckToFeed(p: Pass, capacity: nat, delayNs: nat) {
    p.timer.Due? ==> forall i: nat | i < capacity :: Ns(p.timer.feedAt) <= Ns(p.checks(i)) + delayNs
  }

  ghost predicate NoSignal(es: seq<Event>) {
    forall k | 0 <= k < |es| :: !es[k].Signal?
  }

  ghost predicate DelayedRun(es: seq<Event>, capacity: nat, delayNs: nat) {
    forall k | 0 <= k < |es| && es[k].Loop? :: CheckToFeed(es[k].pass, capacity, delayNs)
  }

  /** The latest instant a write may follow the heartbeat in slot `s`. */
  function LastFeedBound(s: Slot, delayNs: nat): int {
    Ns(s.lastPing) + (s.timeout + 1) * NS_PER_MS + delayNs
  }

  ghost predicate KickInv(su: Setup, w: World, openAt: Time, delayNs: nat) {
    && Ns(openAt) <= Ns(After(w.ops).kicked) <= Ns(w.clock)
    && (Ns(After(w.ops).kicked) == Ns(openAt) ||
        forall i | 0 <= i < |w.slots| && Occupied(w.slots[i]) ::
          Ns(After(w.ops).kicked) < LastFeedBound(w.slots[i], delayNs))
  }

  lemma FeedKeepsKick(su: Setup, w: World, p: Pass, gapMs: nat, openAt: Time, delayNs: nat)
    requires Inv(su, w) && TimeInv(su, w) && KickInv(su, w, openAt, delayNs)
    requires Timed(su, w, p, gapMs) && TIMEOUT_MAX_MS + 1 + gapMs < U32 && CheckToFeed(p, su.capacity, delayNs)
    requires Feeds(su, w, p)
    ensures KickInv(su, OnePass(su, w, p), openAt, delayNs)
  {
    var c, v := Command(su, w, p.conn), OnePass(su, w, p);
    StepKeepsInv(su, w, Loop(p));
    AfterAppend(w.ops, Write('\0', p.timer.feedAt));
    assert v.slots == c.slots && |c.slots| == su.capacity;
    forall i | 0 <= i < |c.slots| && Occupied(c.slots[i])
      ensures Ns(p.timer.feedAt) < LastFeedBound(c.slots[i], delayNs)
    {
      VerdictsExact(su, w, p, gapMs, i);
      assert !Misses(c.slots[i], p.checks(i));
    }
  }

  lemma CommandKeepsKick(su: Setup, w: World, c: Connection, openAt: Time, delayNs: nat)
    requires KickInv(su, w, openAt, delayNs)
    requires c.Message? ==> Ns(w.clock) <= Ns(c.at)
    ensures KickInv(su, Command(su, w, c), openAt, delayNs)
  {
    if c.Message? {
      ExecTouches(su.cfg, w.slots, c.req, c.creds, c.at, c.raw);
      var v := Command(su, w, c);
      assert v.ops == w.ops && |v.slots| == |w.slots|;
      forall i | 0 <= i < |v.slots| && Occupied(v.slots[i]) && Ns(After(w.ops).kicked) != Ns(openAt)
        ensures Ns(After(w.ops).kicked) < LastFeedBound(v.slots[i], delayNs)
      {
        if v.slots[i] != w.slots[i] { assert v.slots[i].lastPing == c.at; }
      }
    }
  }

  lemma OpsUnlessFeeds(su: Setup, w: World, p: Pass)
    requires Looping(w) && p.select.Ready? && !Feeds(su, w, p)
    ensures OnePass(su, w, p).ops == w.ops && OnePass(su, w, p).clock == p.end
  {
  }

  lemma PassKeepsKick(su: Setup, w: World, p: Pass, gapMs: nat, openAt: Time, delayNs: nat)
    requires Inv(su, w) && TimeInv(su, w) && KickInv(su, w, openAt, delayNs) && Looping(w) && p.select.Ready?
    requires Timed(su, w, p, gapMs) && TIMEOUT_MAX_MS + 1 + gapMs < U32 && CheckToFeed(p, su.capacity, delayNs)
    ensures KickInv(su, OnePass(su, w, p), openAt, delayNs)
  {
    if Feeds(su, w, p) {
      FeedKeepsKick(su, w, p, gapMs, openAt, delayNs);
    } else {
      CommandKeepsKick(su, w, p.conn, openAt, delayNs);
      OpsUnlessFeeds(su, w, p);
      PassTouches(su, w, p);
    }
  }

  lemma StartKick(su: Setup, t: seq<Slot>, timerAt: Time, openAt: Time)
    requires su.enabled
    ensures After(Start(su, t, timerAt, openAt).ops) == Watchdog(true, su.cfg.wdTimeout, openAt, false)
  {
    AfterAppend([], Open(openAt));
    AfterAppend([Open(openAt)], SetTimeout(su.cfg.wdTimeout, openAt));
    assert [] + [Open(openAt)] == [Open(openAt)];
    assert [Open(openAt)] + [SetTimeout(su.cfg.wdTimeout, openAt)] == Start(su, t, timerAt, openAt).ops;
  }

  lemma StopsOnlyOnDemand(su: Setup, w: World, e: Event)
    requires !e.Signal? && !Step(su, w, e).reboot
    ensures !w.reboot
    ensures w.running && w.proc != Returned ==> Step(su, w, e).running && Step(su, w, e).proc != Returned
  {
  }

  /** Without a signal or an accepted REBOOT the process never reaches its shutdown path. */
  lemma {:induction false} KeepsRunning(su: Setup, t: seq<Slot>, timerAt: Time, openAt: Time, es: seq<Event>)
    requires NoSignal(es) && !Run(su, Start(su, t, timerAt, openAt), es).reboot
    ensures var w := Run(su, Start(su, t, timerAt, openAt), es);
            w.running && w.proc != Returned
  {
    if es != [] {
      var n := |es| - 1;
      StopsOnlyOnDemand(su, Run(su, Start(su, t, timerAt, openAt), es[..n]), es[n]);
      KeepsRunning(su, t, timerAt, openAt, es[..n]);
    }
  }

  lemma {:induction false} KickInvInRun(
    su: Setup, t: seq<Slot>, timerAt: Time, openAt: Time, es: seq<Event>, gapMs: nat, delayNs: nat)
    requires su.enabled && Supervised(su, t, timerAt, openAt, es, gapMs)
    requires NoSignal(es) && !Run(su, Start(su, t, timerAt, openAt), es).reboot
    requires DelayedRun(es, su.capacity, delayNs)
    ensures KickInv(su, Run(su, Start(su, t, timerAt, openAt), es), openAt, delayNs)
  {
    if es == [] {
      StartKick(su, t, timerAt, openAt);
    } else {
      var n := |es| - 1;
      var pre, e := es[..n], es[n];
      assert es == pre + [e];
      SupervisedPrefix(su, t, timerAt, openAt, pre, e, gapMs);
      KickInvInRun(su, t, timerAt, openAt, pre, gapMs, delayNs);
      KeepsRunning(su, t, timerAt, openAt, pre);
      var w := Run(su, Start(su, t, timerAt, openAt), pre);
      if e.Loop? && Looping(w) && e.pass.select.Ready? {
        PassKeepsKick(su, w, e.pass, gapMs, openAt, delayNs);
      }
    }
  }

  /** End-to-end reset bound: in every run without REBOOT or signal, if a client's registration was
      not taken back and its last accepted heartbeat is exchange j, then the device stays armed and
      fires no later than timeout + 1 ms + delay + wd_timeout_s after that heartbeat (or, if the
      loop has never written, wd_timeout_s after the device was opened). */
  lemma DeadClientForcesReset(
    su: Setup, t: seq<Slot>, timerAt: Time, openAt: Time, es: seq<Event>, gapMs: nat, delayNs: nat, k: nat,
    id: string)
    returns (j: nat)
    requires su.enabled && su.cfg.wdTimeout >= 0 && Supervised(su, t, timerAt, openAt, es, gapMs)
    requires NoSignal(es) && !RebootAccepted(Run(su, Start(su, t, timerAt, openAt), es).history)
    requires DelayedRun(es, su.capacity, delayNs)
    requires var h := Run(su, Start(su, t, timerAt, openAt), es).history;
             k < |h| && AcceptsRegister(h[k], id) && forall l | k < l < |h| :: !AcceptsUnregister(h[l], id)
    ensures k <= j < |Run(su, Start(su, t, timerAt, openAt), es).history|
    ensures var w := Run(su, Start(su, t, timerAt, openAt), es);
            var h := w.history;
            var bound := Ns(h[j].time) + (h[k].req.timeout + 1) * NS_PER_MS + delayNs;
            && Beats(h[j], id) && (forall l | j < l < |h| :: !Beats(h[l], id))
            && After(w.ops).armed
            && FireTime(After(w.ops)) <=
                 (if Ns(openAt) < bound then bound else Ns(openAt)) + su.cfg.wdTimeout * NS_PER_SEC
  {
    var w := Run(su, Start(su, t, timerAt, openAt), es);
    var h := w.history;
    RunRefinesModel(su, t, timerAt, openAt, es);
    DeviceEndState(su, t, timerAt, openAt, es);
    KickInvInRun(su, t, timerAt, openAt, es, gapMs, delayNs);
    KeepsRunning(su, t, timerAt, openAt, es);
    forall l | k < l < |h|
      ensures !AcceptsRegister(h[l], id)
    {
      NotRegisteredTwice(su.cfg, su.capacity, Abs(t), h, k, l, id);
    }
    j := RegisteredIsAlive(Abs(t), h, k, id);
    var i := AbsHolder(w.slots, id);
    assert Ns(w.slots[i].lastPing) == Ns(h[j].time) && w.slots[i].timeout == h[k].req.timeout;
  }

  /** The same for a client that was announced and has neither registered nor been unregistered: its
      time runs from startup or from the last accepted PING on its ID. */
  lemma AbsentClientForcesReset(
    su: Setup, t: seq<Slot>, timerAt: Time, openAt: Time, es: seq<Event>, gapMs: nat, delayNs: nat, id: string)
    returns (j: int)
    requires su.enabled && su.cfg.wdTimeout >= 0 && Supervised(su, t, timerAt, openAt, es, gapMs)
    requires NoSignal(es) && !RebootAccepted(Run(su, Start(su, t, timerAt, openAt), es).history)
    requires DelayedRun(es, su.capacity, delayNs)
    requires id in Abs(t) && !Abs(t)[id].registered
    requires Unclaimed(Run(su, Start(su, t, timerAt, openAt), es).history, id)
    ensures -1 <= j < |Run(su, Start(su, t, timerAt, openAt), es).history|
    ensures var w := Run(su, Start(su, t, timerAt, openAt), es);
            var h := w.history;
            var beat := if j < 0 then Abs(t)[id].beat else h[j].time;
            var bound := Ns(beat) + (Abs(t)[id].timeout + 1) * NS_PER_MS + delayNs;
            && (j >= 0 ==> AcceptsPing(h[j], id)) && (forall l | j < l < |h| :: !AcceptsPing(h[l], id))
            && After(w.ops).armed
            && FireTime(After(w.ops)) <=
                 (if Ns(openAt) < bound then bound else Ns(openAt)) + su.cfg.wdTimeout * NS_PER_SEC
  {
    var w := Run(su, Start(su, t, timerAt, openAt), es);
    RunRefinesModel(su, t, timerAt, openAt, es);
    DeviceEndState(su, t, timerAt, openAt, es);
    KickInvInRun(su, t, timerAt, openAt, es, gapMs, delayNs);
    KeepsRunning(su, t, timerAt, openAt, es);
    j := AnnouncedIsAlive(Abs(t), w.history, id);
    var i := AbsHolder(w.slots, id);
    assert w.slots[i].timeout == Abs(t)[id].timeout;
  }

  // ----- live clients never do -----

  /** Seconds between two expiries of the feed timer: integer half of the watchdog timeout. */
  function Interval(cfg: Config): int {
    cfg.wdTimeout / 2
  }

  /** The first expiry of the periodic timer, armed at `armed`, strictly after `from`. */
  function NextExpiry(armed: int, period: int, from: int): (x: int)
    requires period > 0 && armed <= from
    ensures from < x <= from + period
    ensures exists k: nat :: k > 0 && x == armed + k * period
  {
    var k := (from - armed) / period + 1;
    NextOnGrid(from - armed, period);
    armed + k * period
  }

  lemma NextOnGrid(d: int, period: int)
    requires period > 0 && d >= 0
    ensures d < (d / period + 1) * period <= d + period
    ensures d / period >= 0
  {
    var q, r := d / period, d % period;
    assert d == q * period + r && 0 <= r < period;
    assert (q + 1) * period == q * period + period;
  }

  /** The operating system's side of one pass when the machine keeps up: select returns no later
      than a timer expiry that is pending or due and reports the timer exactly when one is pending, a
      signal handler interrupts it only while none is, and the pass ends within 500 ms (the command
      read) plus `extraMs` of waking up. */
  ghost predicate Prompt(su: Setup, w: World, p: Pass, timerAt: Time, extraMs: nat)
    requires Interval(su.cfg) > 0 && Ns(timerAt) <= Ns(w.lastRead)
  {
    var next := NextExpiry(Ns(timerAt), Interval(su.cfg) * NS_PER_SEC, Ns(w.lastRead));
    && Ns(p.begin) == Ns(w.clock) <= Ns(p.wake)
    && (Ns(p.wake) <= Ns(p.begin) || Ns(p.wake) <= next)
    && Ns(p.wake) <= Ns(p.end) <= Ns(p.wake) + (READ_TIMEOUT_MS + extraMs) * NS_PER_MS
    && (p.select.Interrupted? ==> Ns(p.wake) <= next)
    && (p.select.Ready? ==>
          && (p.timer.Quiet? <==> Ns(p.wake) < next)
          && (p.timer.Due? ==> Ns(p.wake) <= Ns(p.timer.readAt) <= Ns(p.timer.feedAt) <= Ns(p.end)))
  }

  const READ_TIMEOUT_MS := 500

  ghost predicate PromptRun(su: Setup, w0: World, es: seq<Event>, timerAt: Time, extraMs: nat)
    requires Interval(su.cfg) > 0
  {
    es == [] ||
    (var n := |es| - 1;
     var w := Run(su, w0, es[..n]);
     && PromptRun(su, w0, es[..n], timerAt, extraMs)
     && (es[n].Loop? && Looping(w) ==> Ns(timerAt) <= Ns(w.lastRead) && Prompt(su, w, es[n].pass, timerAt, extraMs)))
  }

  /** Enough slack between the feed interval and the watchdog timeout for one late pass. */
  ghost predicate Slack(cfg: Config, extraMs: nat) {
    && cfg.wdTimeout >= 10
    && 2 * (READ_TIMEOUT_MS + extraMs) < 1000 * (cfg.wdTimeout - Interval(cfg))
  }

  /** The feed interval is half the watchdog timeout, rounded down, and that leaves slack for every
      timeout the configuration accepts, as long as a pass adds less than two seconds to the read. */
  lemma SlackForEveryTimeout(cfg: Config, extraMs: nat)
    requires 10 <= cfg.wdTimeout <= 60
    ensures 2 * Interval(cfg) <= cfg.wdTimeout <= 2 * Interval(cfg) + 1
    ensures extraMs < 2000 ==> Slack(cfg, extraMs)
  {
  }

  /** At the top of the loop: the device was written no earlier than the timer was last read, and
      at most one pass has gone by since the next expiry. */
  ghost predicate CadenceInv(su: Setup, w: World, timerAt: Time, extraMs: nat)
    requires Interval(su.cfg) > 0
  {
    && Ns(timerAt) <= Ns(w.lastRead) <= Ns(After(w.ops).kicked)
    && After(w.ops).timeout == su.cfg.wdTimeout
    && Ns(w.clock) <= NextExpiry(Ns(timerAt), Interval(su.cfg) * NS_PER_SEC, Ns(w.lastRead))
                      + (READ_TIMEOUT_MS + extraMs) * NS_PER_MS
  }

  /** One pass from such a state ends before the device can fire; an expiry it finds pending is at
      most two passes old by then. */
  lemma PassEndsInTime(su: Setup, w: World, p: Pass, timerAt: Time, extraMs: nat)
    requires Slack(su.cfg, extraMs)
    requires CadenceInv(su, w, timerAt, extraMs) && Prompt(su, w, p, timerAt, extraMs)
    ensures Ns(w.clock) < FireTime(After(w.ops)) && Ns(p.end) < FireTime(After(w.ops))
    ensures var next := NextExpiry(Ns(timerAt), Interval(su.cfg) * NS_PER_SEC, Ns(w.lastRead));
            && Ns(p.end) <= next + 2 * (READ_TIMEOUT_MS + extraMs) * NS_PER_MS
            && (p.select.Interrupted? || (p.select.Ready? && p.timer.Quiet?) ==>
                  Ns(p.end) <= next + (READ_TIMEOUT_MS + extraMs) * NS_PER_MS)
  {
  }

  /** What the pass leaves behind for the next one, when the loop goes on. */
  lemma PassKeepsCadence(su: Setup, w: World, p: Pass, timerAt: Time, extraMs: nat)
    requires su.enabled && Slack(su.cfg, extraMs) && Looping(w)
    requires CadenceInv(su, w, timerAt, extraMs) && Prompt(su, w, p, timerAt, extraMs)
    requires Looping(OnePass(su, w, p)) && DeviceWorks(su, p) && !p.select.SelectFailed?
    ensures CadenceInv(su, OnePass(su, w, p), timerAt, extraMs)
    ensures p.select.Ready? && p.timer.Due? ==>
              Feeds(su, w, p) && After(OnePass(su, w, p).ops).kicked == p.timer.feedAt
  {
    PassEndsInTime(su, w, p, timerAt, extraMs);
    if p.select.Ready? && p.timer.Due? {
      AfterAppend(w.ops, Write('\0', p.timer.feedAt));
    }
  }

  lemma {:induction false} CadenceInRun(
    su: Setup, t: seq<Slot>, timerAt: Time, openAt: Time, es: seq<Event>, extraMs: nat)
    requires su.enabled && Slack(su.cfg, extraMs)
    requires Ns(timerAt) <= Ns(openAt)
    requires Ns(openAt) <= Ns(timerAt) + Interval(su.cfg) * NS_PER_SEC + (READ_TIMEOUT_MS + extraMs) * NS_PER_MS
    requires PromptRun(su, Start(su, t, timerAt, openAt), es, timerAt, extraMs)
    requires Looping(Run(su, Start(su, t, timerAt, openAt), es))
    ensures CadenceInv(su, Run(su, Start(su, t, timerAt, openAt), es), timerAt, extraMs)
  {
    if es == [] {
      StartKick(su, t, timerAt, openAt);
      NextExpiryFirst(Ns(timerAt), Interval(su.cfg) * NS_PER_SEC);
    } else {
      var n := |es| - 1;
      var w := Run(su, Start(su, t, timerAt, openAt), es[..n]);
      StepContinuesIff(su, w, es[n]);
      CadenceInRun(su, t, timerAt, openAt, es[..n], extraMs);
      if es[n].Loop? {
        PassKeepsCadence(su, w, es[n].pass, timerAt, extraMs);
      }
    }
  }

  lemma NextExpiryFirst(armed: int, period: int)
    requires period > 0
    ensures NextExpiry(armed, period, armed) == armed + period
  {
  }

  /** Every client found by the pass is checked within its timeout. */
  ghost predicate ClientsPunctual(su: Setup, w: World, p: Pass) {
    var t := Command(su, w, p.conn).slots;
    forall i | 0 <= i < |t| && Occupied(t[i]) :: Ns(p.checks(i)) <= Ns(t[i].lastPing) + t[i].timeout * NS_PER_MS
  }

  /** Nothing happens that may end the main loop: clients are punctual, system calls succeed, nobody
      stops the broker. */
  ghost predicate Healthy(su: Setup, w: World, e: Event) {
    match e
    case Loop(p) =>
      && NoFailure(p) && !Reboots(p) && DeviceWorks(su, p)
      && (p.select.Ready? ==> ClientsPunctual(su, w, p))
    case Signal => false
    case Finish(_) => true
  }

  ghost predicate HealthyRun(su: Setup, w0: World, es: seq<Event>) {
    es == [] ||
    (var n := |es| - 1;
     HealthyRun(su, w0, es[..n]) && Healthy(su, Run(su, w0, es[..n]), es[n]))
  }

  /** Punctual clients pass the 32-bit check. */
  lemma PunctualInTime(su: Setup, w: World, p: Pass, gapMs: nat)
    requires Inv(su, w) && TimeInv(su, w) && Looping(w) && p.select.Ready?
    requires Timed(su, w, p, gapMs) && TIMEOUT_MAX_MS + 1 + gapMs < U32
    requires ClientsPunctual(su, w, p)
    ensures AllInTime(su, w, p)
  {
    StepKeepsInv(su, w, Loop(p));
    PassTouches(su, w, p);
    var t := Command(su, w, p.conn).slots;
    forall i | 0 <= i < |t| && Occupied(t[i])
      ensures !Misses(t[i], p.checks(i))
    {
      VerdictsExact(su, w, p, gapMs, i);
    }
  }

  /** What a run is assumed to start from, and that its clock readings are ordered. */
  ghost predicate Clocked(su: Setup, t: seq<Slot>, timerAt: Time, openAt: Time, es: seq<Event>, gapMs: nat) {
    && ConfiguredTable(su, t) && TimedStart(t, timerAt, openAt)
    && TIMEOUT_MAX_MS + 1 + gapMs < U32
    && TimedRun(su, Start(su, t, timerAt, openAt), es, gapMs)
  }

  /** A healthy run stays in the main loop. */
  lemma {:induction false} HealthyRunLoops(
    su: Setup, t: seq<Slot>, timerAt: Time, openAt: Time, es: seq<Event>, gapMs: nat)
    requires Clocked(su, t, timerAt, openAt, es, gapMs)
    requires HealthyRun(su, Start(su, t, timerAt, openAt), es)
    ensures Looping(Run(su, Start(su, t, timerAt, openAt), es))
  {
    if es != [] {
      var n := |es| - 1;
      var w := Run(su, Start(su, t, timerAt, openAt), es[..n]);
      HealthyRunLoops(su, t, timerAt, openAt, es[..n], gapMs);
      InvInRun(su, t, timerAt, openAt, es[..n]);
      TimeInvInRun(su, t, timerAt, openAt, es[..n], gapMs);
      if es[n].Loop? && es[n].pass.select.Ready? {
        PunctualInTime(su, w, es[n].pass, gapMs);
      }
      StepContinuesIff(su, w, es[n]);
    }
  }

  /** No false reset: for every configured wd_timeout_s, while clients are punctual, system calls
      succeed, nobody stops the broker and passes are prompt, the loop goes on, the device has not
      fired at the top of the loop and does not fire during the next pass; a pass that finds the timer
      expired writes the device within 2 * (500 + extra) ms of the expiry and less than wd_timeout_s
      after the previous write. Coalesced expiries and interrupted passes do no harm. */
  lemma NoFalseReset(su: Setup, t: seq<Slot>, timerAt: Time, openAt: Time, es: seq<Event>, p: Pass,
                     extraMs: nat, gapMs: nat)
    requires su.enabled && Slack(su.cfg, extraMs)
    requires Ns(timerAt) <= Ns(openAt)
    requires Ns(openAt) <= Ns(timerAt) + Interval(su.cfg) * NS_PER_SEC + (READ_TIMEOUT_MS + extraMs) * NS_PER_MS
    requires Clocked(su, t, timerAt, openAt, es + [Loop(p)], gapMs)
    requires HealthyRun(su, Start(su, t, timerAt, openAt), es + [Loop(p)])
    requires PromptRun(su, Start(su, t, timerAt, openAt), es + [Loop(p)], timerAt, extraMs)
    ensures Looping(Run(su, Start(su, t, timerAt, openAt), es))
    ensures var w := Run(su, Start(su, t, timerAt, openAt), es);
            && Looping(OnePass(su, w, p))
            && Ns(w.clock) < FireTime(After(w.ops)) && Ns(p.end) < FireTime(After(w.ops))
            && (p.select.Ready? && p.timer.Due? ==>
                  && Feeds(su, w, p)
                  && Ns(p.timer.feedAt) <= NextExpiry(Ns(timerAt), Interval(su.cfg) * NS_PER_SEC, Ns(w.lastRead))
                                           + 2 * (READ_TIMEOUT_MS + extraMs) * NS_PER_MS
                  && Ns(p.timer.feedAt) - Ns(After(w.ops).kicked) < su.cfg.wdTimeout * NS_PER_SEC)
  {
    var all := es + [Loop(p)];
    assert all[..|es|] == es;
    HealthyRunLoops(su, t, timerAt, openAt, es, gapMs);
    HealthyRunLoops(su, t, timerAt, openAt, all, gapMs);
    CadenceInRun(su, t, timerAt, openAt, es, extraMs);
    var w := Run(su, Start(su, t, timerAt, openAt), es);
    PassEndsInTime(su, w, p, timerAt, extraMs);
    PassKeepsCadence(su, w, p, timerAt, extraMs);
  }

  /** A pass in which accept fails, on a broker without any client, at the instant of its start. */
  function FailingPass(): Pass {
    Pass(At(0), At(0), Ready, AcceptFailed, (i: nat) => At(0), Quiet, At(0))
  }

  /** Without "system calls succeed" the claim is false: one prompt pass whose accept fails, with no
      client registered or announced at all, starves the device. The loop never runs again, and until
      a signal nothing is written, so the device fires wd_timeout_s after it was opened. */
  lemma AcceptFailureStarves(cfg: Config, capacity: nat, es: seq<Event>)
    requires cfg.wdTimeout >= 10
    requires forall k | 0 <= k < |es| :: !es[k].Signal?
    ensures var su := Setup(cfg, capacity, true);
            var t := seq(capacity, _ => ZERO_SLOT);
            var w := Start(su, t, At(0), At(0));
            && ConfiguredTable(su, t) && Looping(w) && PromptRun(su, w, [Loop(FailingPass())], At(0), 0)
            && AllInTime(su, w, FailingPass()) && ClientsPunctual(su, w, FailingPass())
            && var v := OnePass(su, w, FailingPass());
            && !Looping(v) && Run(su, v, es) == v
            && After(v.ops).armed && FireTime(After(v.ops)) == cfg.wdTimeout * NS_PER_SEC
  {
    var su := Setup(cfg, capacity, true);
    var t := seq(capacity, _ => ZERO_SLOT);
    var w := Start(su, t, At(0), At(0));
    var es1 := [Loop(FailingPass())];
    assert es1[..0] == [];
    assert PromptRun(su, w, [], At(0), 0);
    AcceptFailureIsFinal(su, w, FailingPass(), es);
    StartKick(su, t, At(0), At(0));
  }
}
