/** The broker's fixed table of client slots: slot records, client identifiers and
    the two lookups that every command goes through. */
module Table {
  import opened Clock
  import opened CText

  const ID_LEN := 16
  const NAME_SIZE := 64
  const TIMEOUT_MIN_MS := 5000
  const TIMEOUT_MAX_MS := 300000

  /** A process ID as pid_t carries it. */
  type Pid = p: nat | p < 0x8000_0000

  datatype Slot = Slot(
    id: string, name: string, pid: Pid, timeout: nat, lastPing: Time,
    active: bool, announced: bool, checkPid: bool)

  /** A slot after memset to zero. */
  const ZERO_SLOT := Slot("", "", 0, 0, Timespec(0, 0), false, false, false)

  datatype Config = Config(socketPath: string, wdTimeout: int, rebootTimeout: int, strict: bool, unique: bool)

  predicate Occupied(s: Slot) { s.active || s.announced }

  // ----- identifiers -----

  type Byte = b: nat | b < 256

  /** The random bytes behind one identifier. */
  type RawId = r: seq<Byte> | |r| == ID_LEN / 2 witness [0, 0, 0, 0, 0, 0, 0, 0]

  function HexDigit(d: nat): (c: char)
    requires d < 16
    ensures IsLowerHex(c) && HexValue(c) == d
  {
    if d < 10 then '0' + d as char else 'a' + (d - 10) as char
  }

  function HexValue(c: char): nat
    requires IsLowerHex(c)
  {
    if IsDigit(c) then (c - '0') as nat else (c - 'a') as nat + 10
  }

  predicate IsId(s: string) {
    |s| == ID_LEN && forall i | 0 <= i < ID_LEN :: IsLowerHex(s[i])
  }

  /** The identifier made of eight raw bytes: two lower-case hex digits each. */
  function HexId(raw: RawId): (id: string)
    ensures IsId(id)
  {
    seq(ID_LEN, i requires 0 <= i < ID_LEN => HexDigit(if i % 2 == 0 then raw[i / 2] / 16 else raw[i / 2] % 16))
  }

  /** Distinct random bytes give distinct identifiers, so freshness is the oracle's business alone. */
  lemma HexIdInjective(a: RawId, b: RawId)
    requires HexId(a) == HexId(b)
    ensures a == b
  {
    forall i | 0 <= i < ID_LEN / 2
      ensures a[i] == b[i]
    {
      assert HexId(a)[2 * i] == HexId(b)[2 * i] && HexId(a)[2 * i + 1] == HexId(b)[2 * i + 1];
      assert a[i] / 16 == b[i] / 16 && a[i] % 16 == b[i] % 16;
    }
  }

  /** Each byte is written with its high digit first. */
  lemma HexIdBytes(raw: RawId, i: nat)
    requires i < ID_LEN / 2
    ensures 16 * HexValue(HexId(raw)[2 * i]) + HexValue(HexId(raw)[2 * i + 1]) == raw[i]
  {
  }

  /** make_clientID once the raw bytes are there: fills a 17-byte buffer in place. */
  method MakeClientId(raw: RawId, out: array<char>)
    requires out.Length == ID_LEN + 1
    modifies out
    ensures out[..ID_LEN] == HexId(raw) && out[ID_LEN] == '\0'
  {
    for i := 0 to |raw|
      invariant forall j | 0 <= j < 2 * i :: out[j] == HexId(raw)[j]
    {
      out[i * 2] := HexDigit(raw[i] / 16);
      out[i * 2 + 1] := HexDigit(raw[i] % 16);
    }
    out[ID_LEN] := '\0';
  }

  // ----- lookups -----

  datatype Query = ById(id: string) | AnnouncedAs(name: string) | ActiveAs(name: string) | FreeSlot

  predicate Matches(q: Query, s: Slot) {
    match q
    case ById(id) => Occupied(s) && s.id == id
    case AnnouncedAs(name) => s.announced && !s.active && s.name == name
    case ActiveAs(name) => s.active && s.name == name
    case FreeSlot => !Occupied(s)
  }

  /** The lowest matching index, or the table size. */
  function First(t: seq<Slot>, q: Query): (i: nat)
    ensures i <= |t|
    ensures forall j | 0 <= j < i :: !Matches(q, t[j])
    ensures i < |t| ==> Matches(q, t[i])
  {
    if t == [] || Matches(q, t[0]) then 0 else 1 + First(t[1..], q)
  }

  lemma FirstIs(t: seq<Slot>, q: Query, i: nat)
    requires i < |t| && Matches(q, t[i])
    requires forall j | 0 <= j < i :: !Matches(q, t[j])
    ensures First(t, q) == i
  {
    assert !(First(t, q) < i) && !(i < First(t, q));
  }

  /** The slot a REGISTER with this name is given. */
  function Select(cfg: Config, t: seq<Slot>, name: string): (r: Option<nat>)
    ensures r.Some? ==> r.value < |t| && !t[r.value].active
  {
    var reserved, free := First(t, AnnouncedAs(name)), First(t, FreeSlot);
    if cfg.unique && First(t, ActiveAs(name)) < |t| then None
    else if reserved < |t| then Some(reserved)
    else if cfg.strict || free == |t| then None
    else Some(free)
  }

  /** The decision table in the comment above get_clientInstance_by_name, for all four modes:
      which slots may be handed out, and that nothing is handed out exactly when none may be. */
  ghost predicate MayTake(cfg: Config, t: seq<Slot>, name: string, i: nat)
    requires i < |t|
  {
    && (cfg.unique ==> forall j | 0 <= j < |t| :: !(t[j].active && t[j].name == name))
    && (Matches(AnnouncedAs(name), t[i]) || (!cfg.strict && !t[i].announced && !t[i].active))
  }

  /** Select refines the documented table, prefers a reservation, and takes the lowest index. */
  lemma SelectMeetsDecisionTable(cfg: Config, t: seq<Slot>, name: string)
    ensures match Select(cfg, t, name)
            case None => forall i | 0 <= i < |t| :: !MayTake(cfg, t, name, i)
            case Some(i) =>
              && i < |t| && MayTake(cfg, t, name, i)
              && ((exists j | 0 <= j < |t| :: Matches(AnnouncedAs(name), t[j])) ==> t[i].announced)
              && forall j | 0 <= j < i :: !MayTake(cfg, t, name, j) || (t[i].announced && !t[j].announced)
  {
    var taken := First(t, ActiveAs(name));
    if cfg.unique && taken < |t| {
      assert t[taken].active && t[taken].name == name;
    } else {
      forall j | 0 <= j < |t| && cfg.unique
        ensures !(t[j].active && t[j].name == name)
      {
        assert !Matches(ActiveAs(name), t[j]);
      }
      var reserved, free := First(t, AnnouncedAs(name)), First(t, FreeSlot);
      forall j | 0 <= j < |t|
        ensures j < reserved ==> !Matches(AnnouncedAs(name), t[j])
        ensures j < free ==> !Matches(FreeSlot, t[j])
      {
      }
    }
  }

  // ----- whole-table predicates and counts -----

  ghost predicate DistinctIds(t: seq<Slot>) {
    forall i, j | 0 <= i < j < |t| && Occupied(t[i]) && Occupied(t[j]) :: t[i].id != t[j].id
  }

  ghost predicate DistinctNames(t: seq<Slot>) {
    forall i, j | 0 <= i < j < |t| && Occupied(t[i]) && Occupied(t[j]) :: t[i].name != t[j].name
  }

  datatype Kind = Announced | Active | Free

  predicate Is(k: Kind, s: Slot) {
    match k
    case Announced => s.announced
    case Active => s.active
    case Free => !Occupied(s)
  }

  function Count(t: seq<Slot>, k: Kind): nat {
    if t == [] then 0 else Count(t[..|t| - 1], k) + if Is(k, t[|t| - 1]) then 1 else 0
  }

  /** One slot update moves a count by at most that slot. */
  lemma {:induction false} CountUpdate(t: seq<Slot>, i: nat, s: Slot, k: Kind)
    requires i < |t|
    ensures Count(t[i := s], k) == Count(t, k) - (if Is(k, t[i]) then 1 else 0) + if Is(k, s) then 1 else 0
  {
    var n := |t| - 1;
    if i == n {
      assert t[i := s][..n] == t[..n];
    } else {
      assert t[i := s][..n] == t[..n][i := s];
      CountUpdate(t[..n], i, s, k);
    }
  }

  /** Free, announced and active slots partition the table when no slot is both. */
  lemma {:induction false} CountsPartition(t: seq<Slot>)
    requires forall i | 0 <= i < |t| :: !(t[i].active && t[i].announced)
    ensures Count(t, Free) + Count(t, Announced) + Count(t, Active) == |t|
  {
    if t != [] {
      CountsPartition(t[..|t| - 1]);
    }
  }
}
