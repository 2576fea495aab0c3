/** A slot-free reference model of the broker: a map from client ID to client record,
    the replies the protocol allows, and what an observer of one exchange learns.
    The slot table refines it under every command. */
module Registry {
  import opened Clock
  import opened CText
  import opened Table
  import opened Protocol

  /** `registered` is false while the client is only announced. */
  datatype Client = Client(name: string, pid: Pid, timeout: nat, beat: Time, registered: bool, checkPid: bool)

  type Clients = map<string, Client>

  /** One request with the reply it got, as seen from outside. */
  datatype Exchange = Exchange(req: Request, creds: Creds, reply: Reply, time: Time)

  predicate AcceptsRegister(x: Exchange, id: string) {
    x.req.Register? && x.reply == OkId(id)
  }

  predicate AcceptsPing(x: Exchange, id: string) {
    x.req == Ping(id) && x.reply == Ok
  }

  predicate AcceptsUnregister(x: Exchange, id: string) {
    x.req == Unregister(id) && x.reply == Ok
  }

  predicate AcceptsReboot(x: Exchange) {
    x.req.Reboot? && x.creds.uid == 0
  }

  /** An accepted heartbeat of one client. */
  predicate Beats(x: Exchange, id: string) {
    AcceptsRegister(x, id) || AcceptsPing(x, id)
  }

  function Observe(m: Clients, x: Exchange): Clients {
    match x.req
    case Register(name, timeout, checkPid) =>
      if x.reply.OkId? then m[x.reply.id := Client(name, x.creds.pid, timeout, x.time, true, checkPid)] else m
    case Ping(id) => if x.reply == Ok && id in m then m[id := m[id].(beat := x.time)] else m
    case Unregister(id) => if x.reply == Ok then m - {id} else m
    case _ => m
  }

  /** The clients that are alive according to a history of exchanges. */
  function Alive(m0: Clients, h: seq<Exchange>): Clients {
    if h == [] then m0 else Observe(Alive(m0, h[..|h| - 1]), h[|h| - 1])
  }

  ghost predicate Reserved(m: Clients, name: string) {
    exists id | id in m :: !m[id].registered && m[id].name == name
  }

  ghost predicate InUse(m: Clients, name: string) {
    exists id | id in m :: m[id].registered && m[id].name == name
  }

  predicate Permits(c: Client, pid: Pid) {
    !c.checkPid || c.pid == pid
  }

  ghost predicate MayAdmit(cfg: Config, capacity: nat, m: Clients, name: string, id: string) {
    && (cfg.unique ==> !InUse(m, name))
    && (if Reserved(m, name) then id in m && !m[id].registered && m[id].name == name
        else !cfg.strict && id !in m && |m| < capacity)
  }

  ghost predicate MustReject(cfg: Config, capacity: nat, m: Clients, name: string) {
    || (cfg.unique && InUse(m, name))
    || (!Reserved(m, name) && (cfg.strict || |m| == capacity))
  }

  /** The replies the protocol allows, told without slots. `capacity` is the table size. */
  ghost predicate Allowed(cfg: Config, capacity: nat, m: Clients, x: Exchange) {
    match x.req
    case Register(name, _, _) =>
      if x.reply.OkId? then MayAdmit(cfg, capacity, m, name, x.reply.id)
      else x.reply == Error(Rejected) && MustReject(cfg, capacity, m, name)
    case Ping(id) =>
      x.reply == (if id !in m then Error(UnknownId) else if Permits(m[id], x.creds.pid) then Ok else Error(WrongPid))
    case Unregister(id) =>
      x.reply == (if id !in m then Error(UnknownId)
                  else if x.creds.uid == 0 then Ok
                  else if !Permits(m[id], x.creds.pid) then Error(NoPermission)
                  else if cfg.strict then Error(Rejected)
                  else Ok)
    case Reboot => x.reply == if x.creds.uid == 0 then OkReboot(cfg.rebootTimeout) else Error(NoPermission)
    case Status =>
      if x.creds.pid == 0 || x.creds.uid == 0 then
        x.reply.StatusReport? && x.reply.cfg == cfg && Abs(x.reply.slots) == m
      else x.reply == Error(NoPermission)
    case Version => x.reply == VersionReport
    case Refused(f) => x.reply == Error(f)
  }

  // ----- abstraction of the slot table -----

  function Entry(s: Slot): Client {
    Client(s.name, s.pid, s.timeout, s.lastPing, s.active, s.checkPid)
  }

  function Abs(t: seq<Slot>): Clients {
    if t == [] then map[]
    else
      var m, s := Abs(t[..|t| - 1]), t[|t| - 1];
      if Occupied(s) then m[s.id := Entry(s)] else m
  }

  /** With distinct IDs, looking an ID up in the map is looking it up in the table. */
  lemma {:induction false} AbsLookup(t: seq<Slot>, id: string)
    requires DistinctIds(t)
    ensures id in Abs(t) <==> First(t, ById(id)) < |t|
    ensures id in Abs(t) ==> Abs(t)[id] == Entry(t[First(t, ById(id))])
  {
    if t != [] {
      var n := |t| - 1;
      var u, s := t[..n], t[n];
      AbsLookup(u, id);
      var i := First(u, ById(id));
      if i < n {
        FirstIs(t, ById(id), i);
      } else if Occupied(s) && s.id == id {
        FirstIs(t, ById(id), n);
      } else {
        assert forall j | 0 <= j < |t| :: !Matches(ById(id), t[j]);
      }
    }
  }

  lemma AbsAt(t: seq<Slot>, i: nat)
    requires DistinctIds(t) && i < |t| && Occupied(t[i])
    ensures First(t, ById(t[i].id)) == i
    ensures t[i].id in Abs(t) && Abs(t)[t[i].id] == Entry(t[i])
  {
    AbsLookup(t, t[i].id);
    FirstIs(t, ById(t[i].id), i);
  }

  lemma AbsHolder(t: seq<Slot>, id: string) returns (i: nat)
    requires DistinctIds(t) && id in Abs(t)
    ensures i < |t| && Occupied(t[i]) && t[i].id == id && Abs(t)[id] == Entry(t[i])
  {
    AbsLookup(t, id);
    i := First(t, ById(id));
  }

  lemma {:induction false} AbsSize(t: seq<Slot>)
    requires DistinctIds(t)
    ensures |Abs(t)| == |t| - Count(t, Free)
  {
    if t != [] {
      var n := |t| - 1;
      AbsSize(t[..n]);
      if Occupied(t[n]) {
        AbsLookup(t[..n], t[n].id);
        assert t[n].id !in Abs(t[..n]);
      }
    }
  }

  lemma {:induction false} NoneFree(t: seq<Slot>)
    ensures First(t, FreeSlot) == |t| <==> Count(t, Free) == 0
  {
    if t != [] {
      var n := |t| - 1;
      NoneFree(t[..n]);
      var i := First(t[..n], FreeSlot);
      if i < n { FirstIs(t, FreeSlot, i); }
      assert !Occupied(t[n]) ==> Matches(FreeSlot, t[n]);
    }
  }

  /** The map has room exactly when the table has a free slot. */
  lemma RoomIff(t: seq<Slot>)
    requires DistinctIds(t)
    ensures |Abs(t)| <= |t|
    ensures |Abs(t)| < |t| <==> First(t, FreeSlot) < |t|
  {
    AbsSize(t);
    NoneFree(t);
  }

  /** Writing an occupied slot is writing its map entry. */
  lemma AbsWrite(t: seq<Slot>, i: nat, s: Slot)
    requires i < |t| && DistinctIds(t) && DistinctIds(t[i := s])
    requires Occupied(s) && (Occupied(t[i]) ==> t[i].id == s.id)
    ensures Abs(t[i := s]) == Abs(t)[s.id := Entry(s)]
  {
    var u := t[i := s];
    AbsAt(u, i);
    forall id | id != s.id
      ensures id in Abs(u) <==> id in Abs(t)
      ensures id in Abs(u) ==> Abs(u)[id] == Abs(t)[id]
    {
      if id in Abs(u) {
        var j := AbsHolder(u, id);
        assert j != i && t[j] == u[j];
        AbsAt(t, j);
      } else if id in Abs(t) {
        var j := AbsHolder(t, id);
        assert j != i && t[j] == u[j];
        AbsAt(u, j);
      }
    }
  }

  /** Freeing a slot removes its map entry. */
  lemma AbsErase(t: seq<Slot>, i: nat, s: Slot)
    requires i < |t| && DistinctIds(t) && Occupied(t[i]) && !Occupied(s)
    ensures DistinctIds(t[i := s])
    ensures Abs(t[i := s]) == Abs(t) - {t[i].id}
  {
    var u := t[i := s];
    AbsAt(t, i);
    forall id
      ensures id in Abs(u) <==> id in Abs(t) && id != t[i].id
      ensures id in Abs(u) ==> Abs(u)[id] == Abs(t)[id]
    {
      if id in Abs(u) {
        var j := AbsHolder(u, id);
        assert j != i && t[j] == u[j];
        AbsAt(t, j);
      } else if id in Abs(t) && id != t[i].id {
        var j := AbsHolder(t, id);
        assert j != i && t[j] == u[j];
        AbsAt(u, j);
      }
    }
  }

  lemma ReservedIff(t: seq<Slot>, name: string)
    requires DistinctIds(t) && forall i | 0 <= i < |t| :: !(t[i].active && t[i].announced)
    ensures Reserved(Abs(t), name) <==> First(t, AnnouncedAs(name)) < |t|
    ensures InUse(Abs(t), name) <==> First(t, ActiveAs(name)) < |t|
  {
    var a, b := First(t, AnnouncedAs(name)), First(t, ActiveAs(name));
    if a < |t| { AbsAt(t, a); }
    if b < |t| { AbsAt(t, b); }
    if Reserved(Abs(t), name) {
      var id :| id in Abs(t) && !Abs(t)[id].registered && Abs(t)[id].name == name;
      var i := AbsHolder(t, id);
      assert Matches(AnnouncedAs(name), t[i]);
    }
    if InUse(Abs(t), name) {
      var id :| id in Abs(t) && Abs(t)[id].registered && Abs(t)[id].name == name;
      var i := AbsHolder(t, id);
      assert Matches(ActiveAs(name), t[i]);
    }
  }

  /** The freshness assumption on the oracle behind make_clientID. */
  ghost predicate FreshFor(t: seq<Slot>, raw: RawId)
  {
    forall i | 0 <= i < |t| && Occupied(t[i]) :: t[i].id != HexId(raw)
  }

  ghost predicate OneRole(t: seq<Slot>) {
    forall i | 0 <= i < |t| :: !(t[i].active && t[i].announced)
  }

  /** The exchange an executed request amounts to. */
  function Told(req: Request, cr: Creds, o: Outcome, now: Time): Exchange {
    Exchange(req, cr, o.reply, now)
  }

  ghost predicate Refines(cfg: Config, t: seq<Slot>, o: Outcome, x: Exchange) {
    && DistinctIds(o.slots)
    && Allowed(cfg, |t|, Abs(t), x)
    && Abs(o.slots) == Observe(Abs(t), x)
  }

  lemma SelectNone(cfg: Config, t: seq<Slot>, name: string)
    requires DistinctIds(t) && OneRole(t) && Select(cfg, t, name) == None
    ensures MustReject(cfg, |t|, Abs(t), name)
  {
    ReservedIff(t, name);
    RoomIff(t);
  }

  lemma SelectReserved(cfg: Config, t: seq<Slot>, name: string, i: nat)
    requires DistinctIds(t) && OneRole(t) && Select(cfg, t, name) == Some(i) && t[i].announced
    ensures MayAdmit(cfg, |t|, Abs(t), name, t[i].id)
  {
    assert Reserved(Abs(t), name) && (cfg.unique ==> !InUse(Abs(t), name)) by { ReservedIff(t, name); }
    assert t[i].name == name && !t[i].active;
    AbsAt(t, i);
  }

  lemma SelectFree(cfg: Config, t: seq<Slot>, name: string, i: nat, newId: string)
    requires DistinctIds(t) && OneRole(t) && Select(cfg, t, name) == Some(i) && !t[i].announced
    requires First(t, ById(newId)) == |t|
    ensures MayAdmit(cfg, |t|, Abs(t), name, newId)
  {
    ReservedIff(t, name);
    RoomIff(t);
    AbsLookup(t, newId);
  }

  lemma RegisterReplyAllowed(cfg: Config, t: seq<Slot>, req: Request, cr: Creds, now: Time, raw: RawId)
    requires DistinctIds(t) && OneRole(t) && FreshFor(t, raw) && req.Register?
    ensures var o := Exec(cfg, t, req, cr, now, raw);
            Allowed(cfg, |t|, Abs(t), Told(req, cr, o, now))
  {
    match Select(cfg, t, req.name) {
      case None => SelectNone(cfg, t, req.name);
      case Some(i) =>
        if t[i].announced {
          SelectReserved(cfg, t, req.name, i);
        } else {
          SelectFree(cfg, t, req.name, i, HexId(raw));
        }
    }
  }

  lemma RegisterEffect(cfg: Config, t: seq<Slot>, req: Request, cr: Creds, now: Time, raw: RawId)
    requires DistinctIds(t) && FreshFor(t, raw) && req.Register?
    ensures var o := Exec(cfg, t, req, cr, now, raw);
            DistinctIds(o.slots) && Abs(o.slots) == Observe(Abs(t), Told(req, cr, o, now))
  {
    match Select(cfg, t, req.name) {
      case None =>
      case Some(i) =>
        var id := if t[i].announced then t[i].id else HexId(raw);
        var s := Slot(id, req.name, cr.pid, req.timeout, now, true, false, req.checkPid);
        AbsWrite(t, i, s);
    }
  }

  lemma PingRefines(cfg: Config, t: seq<Slot>, id: string, cr: Creds, now: Time, raw: RawId)
    requires DistinctIds(t)
    ensures var o := Exec(cfg, t, Ping(id), cr, now, raw);
            Refines(cfg, t, o, Told(Ping(id), cr, o, now))
  {
    AbsLookup(t, id);
    var i := First(t, ById(id));
    if i < |t| {
      var s := t[i].(lastPing := now);
      assert DistinctIds(t[i := s]);
      AbsWrite(t, i, s);
    }
  }

  lemma UnregisterRefines(cfg: Config, t: seq<Slot>, id: string, cr: Creds, now: Time, raw: RawId)
    requires DistinctIds(t)
    ensures var o := Exec(cfg, t, Unregister(id), cr, now, raw);
            Refines(cfg, t, o, Told(Unregister(id), cr, o, now))
  {
    AbsLookup(t, id);
    var i := First(t, ById(id));
    if i < |t| {
      AbsErase(t, i, Freed(t[i]));
    }
  }

  /** Every command refines the reference model: the reply is allowed and the new table
      stands for exactly what the exchange tells an observer. */
  lemma ExecRefines(cfg: Config, t: seq<Slot>, req: Request, cr: Creds, now: Time, raw: RawId)
    requires DistinctIds(t) && OneRole(t) && FreshFor(t, raw)
    ensures var o := Exec(cfg, t, req, cr, now, raw);
            Refines(cfg, t, o, Told(req, cr, o, now))
  {
    match req {
      case Register(_, _, _) =>
        RegisterReplyAllowed(cfg, t, req, cr, now, raw);
        RegisterEffect(cfg, t, req, cr, now, raw);
      case Ping(id) => PingRefines(cfg, t, id, cr, now, raw);
      case Unregister(id) => UnregisterRefines(cfg, t, id, cr, now, raw);
      case _ =>
    }
  }

  // ----- what a history says about one client -----

  /** A registration that was not taken back is alive, with a heartbeat that is the time of an
      accepted REGISTER or PING no older than the registration, and no later one exists. */
  lemma {:induction false} RegisteredIsAlive(m0: Clients, h: seq<Exchange>, k: nat, id: string) returns (j: nat)
    requires k < |h| && AcceptsRegister(h[k], id)
    requires forall l | k < l < |h| :: !AcceptsUnregister(h[l], id) && !AcceptsRegister(h[l], id)
    ensures k <= j < |h| && Beats(h[j], id)
    ensures id in Alive(m0, h) && Alive(m0, h)[id] ==
              Client(h[k].req.name, h[k].creds.pid, h[k].req.timeout, h[j].time, true, h[k].req.checkPid)
    ensures forall l | j < l < |h| :: !Beats(h[l], id)
    decreases |h|
  {
    var n := |h| - 1;
    var g := h[..n];
    if k == n {
      j := n;
    } else {
      j := RegisteredIsAlive(m0, g, k, id);
      assert !AcceptsUnregister(h[n], id) && !AcceptsRegister(h[n], id);
      if AcceptsPing(h[n], id) {
        j := n;
      }
    }
  }

  /** The ID was neither registered nor unregistered. */
  ghost predicate Unclaimed(h: seq<Exchange>, id: string) {
    forall l | 0 <= l < |h| :: !AcceptsUnregister(h[l], id) && !AcceptsRegister(h[l], id)
  }

  /** Announced at startup and since then neither registered nor unregistered: still announced,
      and its deadline runs from startup or from the last accepted PING on its ID. */
  lemma {:induction false} AnnouncedIsAlive(m0: Clients, h: seq<Exchange>, id: string) returns (j: int)
    requires id in m0 && !m0[id].registered
    requires Unclaimed(h, id)
    ensures id in Alive(m0, h) && !Alive(m0, h)[id].registered && Alive(m0, h)[id].timeout == m0[id].timeout
    ensures -1 <= j < |h|
    ensures if j == -1 then Alive(m0, h)[id].beat == m0[id].beat
            else AcceptsPing(h[j], id) && Alive(m0, h)[id].beat == h[j].time
    ensures forall l | j < l < |h| :: !AcceptsPing(h[l], id)
    decreases |h|
  {
    if h == [] {
      j := -1;
    } else {
      var n := |h| - 1;
      j := AnnouncedIsAlive(m0, h[..n], id);
      assert !AcceptsUnregister(h[n], id) && !AcceptsRegister(h[n], id);
      if AcceptsPing(h[n], id) {
        j := n;
      }
    }
  }
}
