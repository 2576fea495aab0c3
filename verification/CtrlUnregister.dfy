/** `wd-ctrl unregister x` from the STATUS reply to the broker's table: exactly when it frees the client
    that x denotes. */
module CtrlUnregister {
  import opened Clock
  import opened CText
  import opened Table
  import opened Protocol
  import opened Registry
  import opened Machine
  import opened Ctrl
  import C = Client
  import ConfigFile

  /** The broker's side: a table any run can reach, distinct IDs, and a STATUS reply that fits its
      buffers (Ctrl.StatusFits says when it surely does). */
  ghost predicate Reported(cfg: Config, t: seq<Slot>) {
    && GoodTable(cfg, t) && DistinctIds(t)
    && 0 <= cfg.wdTimeout < 1000 && 0 <= cfg.rebootTimeout < 1000
    && |StatusText(cfg, t)| < BUF_SIZE
  }

  /** What wd-ctrl makes of the broker's STATUS reply for the argument x. */
  function CtrlResolution(cfg: Config, t: seq<Slot>, x: string): Resolution {
    Resolve(Received(cfg, t), x)
  }

  // ----- the listing, slot by slot -----

  ghost predicate AllListable(t: seq<Slot>) {
    forall i | 0 <= i < |t| && Occupied(t[i]) :: Listable(t[i])
  }

  /** Slot i is occupied and its row is read. */
  ghost predicate Visible(t: seq<Slot>, i: int) {
    0 <= i < |t| && Occupied(t[i]) && Legible(t[i])
  }

  ghost predicate RowOf(row: Listing, s: Slot) {
    row.id == s.id && row.name == FirstWord(s.name)
  }

  /** The listing holds one row for every visible slot, in table order: row a is that of slot at[a]. */
  ghost predicate Mirrors(t: seq<Slot>, rs: seq<Listing>, at: seq<int>) {
    && |at| == |rs|
    && (forall a | 0 <= a < |rs| :: Visible(t, at[a]) && RowOf(rs[a], t[at[a]]))
    && (forall a, c | 0 <= a < c < |rs| :: at[a] < at[c])
    && (forall i | Visible(t, i) :: i in at)
  }

  lemma RowsSnoc(ss: seq<Slot>, s: Slot)
    ensures RowsOf(Rows(ss + [s])) ==
            RowsOf(Rows(ss)) + if ScanRow(Row(s)).Some? then [ScanRow(Row(s)).value] else []
  {
    assert Scans(Rows(ss + [s])) == Scans(Rows(ss)) + [ScanRow(Row(s))];
    SomesSnoc(Scans(Rows(ss)), ScanRow(Row(s)));
  }

  lemma RowIff(s: Slot)
    requires Listable(s)
    ensures ScanRow(Row(s)).Some? <==> Legible(s)
    ensures ScanRow(Row(s)).Some? ==> RowOf(ScanRow(Row(s)).value, s)
  {
    RowRoundTripIff(s);
  }

  lemma MirrorsHidden(u: seq<Slot>, s: Slot, rs: seq<Listing>, at: seq<int>)
    requires Mirrors(u, rs, at) && !(Occupied(s) && Legible(s))
    ensures Mirrors(u + [s], rs, at)
  {
    forall i | Visible(u + [s], i)
      ensures i in at
    {
      assert Visible(u, i);
    }
    assert forall a | 0 <= a < |rs| :: Visible(u, at[a]);
  }

  lemma MirrorsShown(u: seq<Slot>, s: Slot, rs: seq<Listing>, at: seq<int>, row: Listing)
    requires Mirrors(u, rs, at) && Occupied(s) && Legible(s) && RowOf(row, s)
    ensures Mirrors(u + [s], rs + [row], at + [|u|])
  {
    var t, at' := u + [s], at + [|u|];
    forall i | Visible(t, i)
      ensures i in at'
    {
      assert i == |u| || Visible(u, i);
      assert at'[|at|] == |u|;
    }
    assert forall a | 0 <= a < |rs| :: Visible(u, at[a]);
  }

  /** The rows that one more slot adds to the listing. */
  function Added(s: Slot): seq<Listing> {
    if Occupied(s) && ScanRow(Row(s)).Some? then [ScanRow(Row(s)).value] else []
  }

  lemma ListingNext(u: seq<Slot>, s: Slot)
    ensures RowsOf(Rows(Listed(u + [s]))) == RowsOf(Rows(Listed(u))) + Added(s)
  {
    assert (u + [s])[..|u|] == u;
    assert Listed(u + [s]) == Listed(u) + if Occupied(s) then [s] else [];
    if Occupied(s) {
      RowsSnoc(Listed(u), s);
    } else {
      assert Listed(u + [s]) == Listed(u);
    }
  }

  lemma MirrorsNext(u: seq<Slot>, s: Slot, rs: seq<Listing>, at: seq<int>) returns (at': seq<int>)
    requires Mirrors(u, rs, at) && (Occupied(s) ==> Listable(s))
    ensures Mirrors(u + [s], rs + Added(s), at')
  {
    if Occupied(s) { RowIff(s); }
    if Occupied(s) && Legible(s) {
      MirrorsShown(u, s, rs, at, ScanRow(Row(s)).value);
      at' := at + [|u|];
    } else {
      MirrorsHidden(u, s, rs, at);
      assert rs + Added(s) == rs;
      at' := at;
    }
  }

  lemma {:induction false} Mirrored(t: seq<Slot>) returns (at: seq<int>)
    requires AllListable(t)
    ensures Mirrors(t, RowsOf(Rows(Listed(t))), at)
  {
    if t == [] {
      at := [];
    } else {
      var u, s := t[..|t| - 1], t[|t| - 1];
      assert t == u + [s];
      at := Mirrored(u);
      ListingNext(u, s);
      at := MirrorsNext(u, s, RowsOf(Rows(Listed(u))), at);
    }
  }

  lemma ReportedListing(cfg: Config, t: seq<Slot>) returns (at: seq<int>)
    requires Reported(cfg, t)
    ensures Mirrors(t, Received(cfg, t), at)
  {
    forall i | 0 <= i < |t| && Occupied(t[i])
      ensures Listable(t[i])
    {
      assert GoodSlot(t[i]);
    }
    StatusRows(cfg, t);
    at := Mirrored(t);
  }

  // ----- the resolution, told of slots -----

  ghost predicate IdVisible(t: seq<Slot>, x: string) {
    exists i | Visible(t, i) :: t[i].id == x
  }

  /** The row of slot i is read, and the name in it is x. */
  ghost predicate Calls(t: seq<Slot>, x: string, i: int) {
    Visible(t, i) && FirstWord(t[i].name) == x
  }

  /** Slot i is the only one whose row is read with the name x. */
  ghost predicate OnlyWord(t: seq<Slot>, x: string, i: int) {
    Calls(t, x, i) && forall j | Calls(t, x, j) :: j == i
  }

  /** Two rows are read with the name x, and no slot up to the second is read with the ID x. */
  ghost predicate Doubtful(t: seq<Slot>, x: string) {
    exists i, j | Calls(t, x, i) && Calls(t, x, j) ::
      i < j && forall k | Visible(t, k) && k <= j :: t[k].id != x
  }

  lemma IdVisibleIff(t: seq<Slot>, rs: seq<Listing>, at: seq<int>, x: string)
    requires Mirrors(t, rs, at)
    ensures IdVisible(t, x) <==> ListsId(rs, x)
  {
    if IdVisible(t, x) {
      var i :| Visible(t, i) && t[i].id == x;
      var a :| 0 <= a < |at| && at[a] == i;
      assert RowOf(rs[a], t[i]);
    }
    if ListsId(rs, x) {
      var a :| 0 <= a < |rs| && rs[a].id == x;
      assert RowOf(rs[a], t[at[a]]) && Visible(t, at[a]);
    }
  }

  lemma CalledRow(t: seq<Slot>, rs: seq<Listing>, at: seq<int>, x: string, i: int) returns (a: nat)
    requires Mirrors(t, rs, at) && Calls(t, x, i)
    ensures a < |rs| && at[a] == i && rs[a].name == x
  {
    a :| 0 <= a < |at| && at[a] == i;
    assert RowOf(rs[a], t[i]);
  }

  lemma RowCalls(t: seq<Slot>, rs: seq<Listing>, at: seq<int>, x: string, a: nat)
    requires Mirrors(t, rs, at) && a < |rs|
    ensures rs[a].name == x <==> Calls(t, x, at[a])
  {
    assert RowOf(rs[a], t[at[a]]) && Visible(t, at[a]);
  }

  lemma IdsUpTo(t: seq<Slot>, rs: seq<Listing>, at: seq<int>, x: string, c: nat)
    requires Mirrors(t, rs, at) && c < |rs|
    requires forall k | Visible(t, k) && k <= at[c] :: t[k].id != x
    ensures forall l | 0 <= l <= c :: rs[l].id != x
  {
    forall l | 0 <= l <= c
      ensures rs[l].id != x
    {
      assert l == c || at[l] < at[c];
      assert Visible(t, at[l]) && RowOf(rs[l], t[at[l]]);
    }
  }

  lemma DoubtfulIsAmbiguous(t: seq<Slot>, rs: seq<Listing>, at: seq<int>, x: string, i: int, j: int)
    requires Mirrors(t, rs, at) && Calls(t, x, i) && Calls(t, x, j) && i < j
    requires forall k | Visible(t, k) && k <= j :: t[k].id != x
    ensures Ambiguous(rs, x)
  {
    var a := CalledRow(t, rs, at, x, i);
    var c := CalledRow(t, rs, at, x, j);
    assert a < c;
    IdsUpTo(t, rs, at, x, c);
  }

  lemma AmbiguousIsDoubtful(t: seq<Slot>, rs: seq<Listing>, at: seq<int>, x: string, a: nat, c: nat)
    requires Mirrors(t, rs, at) && a < c < |rs| && rs[a].name == x && rs[c].name == x
    requires forall l | 0 <= l <= c :: rs[l].id != x
    ensures Doubtful(t, x)
  {
    RowCalls(t, rs, at, x, a);
    RowCalls(t, rs, at, x, c);
    forall k | Visible(t, k) && k <= at[c]
      ensures t[k].id != x
    {
      var l :| 0 <= l < |at| && at[l] == k;
      assert l <= c && RowOf(rs[l], t[k]);
    }
  }

  lemma DoubtfulIff(t: seq<Slot>, rs: seq<Listing>, at: seq<int>, x: string)
    requires Mirrors(t, rs, at)
    ensures Doubtful(t, x) <==> Ambiguous(rs, x)
  {
    if Doubtful(t, x) {
      var i, j :| Calls(t, x, i) && Calls(t, x, j) && i < j && forall k | Visible(t, k) && k <= j :: t[k].id != x;
      DoubtfulIsAmbiguous(t, rs, at, x, i, j);
    }
    if Ambiguous(rs, x) {
      var a, c :| 0 <= a < c < |rs| && rs[a].name == x && rs[c].name == x && forall l | 0 <= l <= c :: rs[l].id != x;
      AmbiguousIsDoubtful(t, rs, at, x, a, c);
    }
  }

  lemma OnlyWordIsOnlyRow(t: seq<Slot>, rs: seq<Listing>, at: seq<int>, x: string, i: int) returns (a: nat)
    requires Mirrors(t, rs, at) && OnlyWord(t, x, i)
    ensures OnlyNamed(rs, x, a) && rs[a].id == t[i].id
  {
    a := CalledRow(t, rs, at, x, i);
    assert RowOf(rs[a], t[i]);
    forall c | 0 <= c < |rs| && c != a
      ensures rs[c].name != x
    {
      RowCalls(t, rs, at, x, c);
      assert at[c] != at[a];
    }
  }

  lemma OnlyRowIsOnlyWord(t: seq<Slot>, rs: seq<Listing>, at: seq<int>, x: string, a: nat)
    requires Mirrors(t, rs, at) && OnlyNamed(rs, x, a)
    ensures OnlyWord(t, x, at[a]) && t[at[a]].id == rs[a].id
  {
    RowCalls(t, rs, at, x, a);
    assert RowOf(rs[a], t[at[a]]);
    forall j | Calls(t, x, j)
      ensures j == at[a]
    {
      var c := CalledRow(t, rs, at, x, j);
    }
  }

  lemma SentRow(t: seq<Slot>, rs: seq<Listing>, at: seq<int>, x: string) returns (i: int)
    requires Mirrors(t, rs, at) && !ListsId(rs, x) && Resolve(rs, x).Send?
    ensures OnlyWord(t, x, i) && Resolve(rs, x) == Send(t[i].id)
  {
    ResolveSound(rs, x);
    var a: nat :| OnlyNamed(rs, x, a) && Resolve(rs, x).id == rs[a].id;
    OnlyRowIsOnlyWord(t, rs, at, x, a);
    i := at[a];
  }

  lemma SentWord(t: seq<Slot>, rs: seq<Listing>, at: seq<int>, x: string, i: int)
    requires Mirrors(t, rs, at) && !ListsId(rs, x) && OnlyWord(t, x, i)
    ensures Resolve(rs, x) == Send(t[i].id)
  {
    var a := OnlyWordIsOnlyRow(t, rs, at, x, i);
    ResolvesToOnly(rs, x, a);
  }

  /** The ambiguity error in terms of the broker's table, and a visible ID without doubt is sent. */
  lemma ResolutionOfId(cfg: Config, t: seq<Slot>, x: string)
    requires Reported(cfg, t)
    ensures CtrlResolution(cfg, t, x) == NotUnique <==> Doubtful(t, x)
    ensures IdVisible(t, x) && !Doubtful(t, x) ==> CtrlResolution(cfg, t, x) == Send(x)
  {
    var at := ReportedListing(cfg, t);
    ResolveSound(Received(cfg, t), x);
    IdVisibleIff(t, Received(cfg, t), at, x);
    DoubtfulIff(t, Received(cfg, t), at, x);
  }

  /** If no row is read with the ID x, an UNREGISTER is sent exactly if one row alone is read with the
      name x, and then it is sent for that slot. */
  lemma ResolutionOfWord(cfg: Config, t: seq<Slot>, x: string)
    requires Reported(cfg, t) && !IdVisible(t, x)
    ensures CtrlResolution(cfg, t, x).Send? ==> exists i :: OnlyWord(t, x, i)
    ensures forall i | OnlyWord(t, x, i) :: CtrlResolution(cfg, t, x) == Send(t[i].id)
  {
    var at := ReportedListing(cfg, t);
    var rs := Received(cfg, t);
    IdVisibleIff(t, rs, at, x);
    if Resolve(rs, x).Send? {
      var i := SentRow(t, rs, at, x);
    }
    forall i | OnlyWord(t, x, i)
      ensures Resolve(rs, x) == Send(t[i].id)
    {
      SentWord(t, rs, at, x, i);
    }
  }

  // ----- when the right client is freed -----

  ghost predicate HasId(t: seq<Slot>, x: string) {
    exists i | 0 <= i < |t| && Occupied(t[i]) :: t[i].id == x
  }

  ghost predicate HasName(t: seq<Slot>, x: string) {
    exists i | 0 <= i < |t| && Occupied(t[i]) :: t[i].name == x
  }

  /** The client that x denotes: the one with the clientID x; if there is none, the only one named x. */
  ghost predicate Denotes(t: seq<Slot>, x: string, i: nat) {
    && i < |t| && Occupied(t[i])
    && if HasId(t, x) then t[i].id == x
       else t[i].name == x && forall j | 0 <= j < |t| && j != i && Occupied(t[j]) :: t[j].name != x
  }

  /** The argument can lead wd-ctrl to the right client: if it is a clientID, the row of that client is
      read; otherwise it is somebody's name. */
  ghost predicate Addressable(t: seq<Slot>, x: string) {
    if HasId(t, x) then IdVisible(t, x) else HasName(t, x)
  }

  lemma RootUnregisterFrees(cfg: Config, t: seq<Slot>, i: nat, cr: Creds, at: Time, raw: RawId)
    requires DistinctIds(t) && i < |t| && Occupied(t[i]) && IsId(t[i].id) && cr.uid == 0
    ensures var o := Exec(cfg, t, RequestOf(UnregisterText(t[i].id)), cr, at, raw);
            o.reply == Ok && o.slots == t[i := Freed(t[i])]
  {
    C.UnregisterRoundTrip(t[i].id);
    assert UnregisterText(t[i].id) == C.UnregisterText(t[i].id);
    AbsAt(t, i);
  }

  lemma NamedIsCalled(t: seq<Slot>, x: string, i: int)
    requires 0 <= i < |t| && Occupied(t[i]) && t[i].name == x && NoSpace(x)
    ensures Calls(t, x, i)
  {
    FirstWordIs(x);
  }

  /** If x is the name read in one row alone, then it is nobody's name but possibly that slot's. */
  lemma WordIsName(t: seq<Slot>, x: string, i: int)
    requires OnlyWord(t, x, i)
    ensures forall j | 0 <= j < |t| && j != i && Occupied(t[j]) :: t[j].name != x
    ensures HasName(t, x) <==> t[i].name == x
  {
    assert NoSpace(x);
    forall j | 0 <= j < |t| && Occupied(t[j])
      ensures t[j].name == x ==> j == i
    {
      if t[j].name == x { NamedIsCalled(t, x, j); }
    }
  }

  lemma SentById(t: seq<Slot>, x: string) returns (i: nat)
    requires DistinctIds(t) && IdVisible(t, x)
    ensures i < |t| && Occupied(t[i]) && t[i].id == x && Denotes(t, x, i) && Addressable(t, x)
  {
    var k :| Visible(t, k) && t[k].id == x;
    i := k;
    assert HasId(t, x);
  }

  lemma SentByWord(t: seq<Slot>, x: string, i: nat)
    requires DistinctIds(t) && OnlyWord(t, x, i) && !IdVisible(t, x)
    ensures Denotes(t, x, i) <==> Addressable(t, x)
  {
    WordIsName(t, x, i);
    assert Visible(t, i);
    assert t[i].id != x;
  }

  /** The slot behind the ID that is sent, and whether it is the right one. */
  lemma ResolvedSlot(cfg: Config, t: seq<Slot>, x: string) returns (i: nat)
    requires Reported(cfg, t) && CtrlResolution(cfg, t, x).Send?
    ensures i < |t| && Occupied(t[i]) && t[i].id == CtrlResolution(cfg, t, x).id
    ensures Denotes(t, x, i) <==> Addressable(t, x)
  {
    if IdVisible(t, x) {
      ResolutionOfId(cfg, t, x);
      i := SentById(t, x);
    } else {
      ResolutionOfWord(cfg, t, x);
      var k :| OnlyWord(t, x, k);
      i := k;
      SentByWord(t, x, i);
    }
  }

  /** `wd-ctrl unregister x` end to end: if on the listing it reads it sends an UNREGISTER at all, the
      broker frees exactly one slot, and that is the client x denotes if and only if x is addressable:
      when x is a clientID, the row of that client is read; otherwise somebody is named x. */
  lemma CtrlUnregistersExactlyOne(cfg: Config, t: seq<Slot>, x: string, cr: Creds, at: Time, raw: RawId)
    returns (i: nat)
    requires Reported(cfg, t) && cr.uid == 0
    requires CtrlResolution(cfg, t, x).Send?
    ensures i < |t| && Occupied(t[i]) && t[i].id == CtrlResolution(cfg, t, x).id
    ensures var o := Exec(cfg, t, RequestOf(UnregisterText(t[i].id)), cr, at, raw);
            o.reply == Ok && o.slots == t[i := Freed(t[i])]
    ensures Denotes(t, x, i) <==> Addressable(t, x)
  {
    i := ResolvedSlot(cfg, t, x);
    assert GoodSlot(t[i]);
    RootUnregisterFrees(cfg, t, i, cr, at, raw);
  }

  /** With names free of white space every argument on which an UNREGISTER is sent is addressable, so
      that wd-ctrl is always right. */
  lemma CleanNamesAreSafe(cfg: Config, t: seq<Slot>, x: string)
    requires Reported(cfg, t) && CtrlResolution(cfg, t, x).Send?
    requires forall i | 0 <= i < |t| && Occupied(t[i]) :: NoSpace(t[i].name)
    ensures Addressable(t, x)
  {
    if HasId(t, x) {
      var i :| 0 <= i < |t| && Occupied(t[i]) && t[i].id == x;
      assert Visible(t, i);
    } else {
      assert !IdVisible(t, x);
      ResolutionOfWord(cfg, t, x);
      var i :| OnlyWord(t, x, i);
      FirstWordIs(t[i].name);
    }
  }

  lemma IdVisibleOwn(t: seq<Slot>, i: nat)
    requires DistinctIds(t) && i < |t| && Occupied(t[i])
    ensures IdVisible(t, t[i].id) <==> Legible(t[i])
  {
    assert Legible(t[i]) ==> Visible(t, i);
    if IdVisible(t, t[i].id) {
      var j :| Visible(t, j) && t[j].id == t[i].id;
      assert j == i;
    }
  }

  /** Exactly when a client can be unregistered by its clientID: its row is read, and the listing leaves
      no doubt about that ID. A client whose row is dropped cannot. */
  lemma UnregisterByIdIff(cfg: Config, t: seq<Slot>, i: nat)
    requires Reported(cfg, t) && i < |t| && Occupied(t[i])
    ensures CtrlResolution(cfg, t, t[i].id) == Send(t[i].id) <==> Legible(t[i]) && !Doubtful(t, t[i].id)
  {
    var x := t[i].id;
    IdVisibleOwn(t, i);
    ResolutionOfId(cfg, t, x);
    if !IdVisible(t, x) {
      ResolutionOfWord(cfg, t, x);
      if CtrlResolution(cfg, t, x).Send? {
        var j :| OnlyWord(t, x, j);
        assert Visible(t, j) && t[j].id != x;
      }
    }
  }

  /** Exactly when a client can be unregistered by its name, that name being no clientID: no other row is
      read with that name, and it holds no white space. */
  lemma UnregisterByNameIff(cfg: Config, t: seq<Slot>, i: nat)
    requires Reported(cfg, t) && i < |t| && Occupied(t[i]) && !HasId(t, t[i].name)
    ensures CtrlResolution(cfg, t, t[i].name) == Send(t[i].id) <==>
            NoSpace(t[i].name) && forall j | Calls(t, t[i].name, j) :: j == i
  {
    var x := t[i].name;
    assert !IdVisible(t, x);
    ResolutionOfWord(cfg, t, x);
    FirstWordIs(x);
    if CtrlResolution(cfg, t, x) == Send(t[i].id) {
      var j :| OnlyWord(t, x, j);
      assert j == i;
    }
    if NoSpace(x) {
      NamedIsCalled(t, x, i);
    }
  }

  // ----- how the wrong client is freed -----

  /** A deceptive name: if its first word x is nobody's clientID and no other row is read with that
      name, `wd-ctrl unregister x` frees the client with the deceptive name, although nobody is named x. */
  lemma DeceptiveNameMisleads(cfg: Config, t: seq<Slot>, i: nat, x: string, cr: Creds, at: Time, raw: RawId)
    requires Reported(cfg, t) && cr.uid == 0
    requires i < |t| && Deceptive(t[i].name) && OnlyWord(t, x, i) && !HasId(t, x)
    ensures CtrlResolution(cfg, t, x) == Send(t[i].id)
    ensures !HasName(t, x) && !Denotes(t, x, i)
    ensures var o := Exec(cfg, t, RequestOf(UnregisterText(t[i].id)), cr, at, raw);
            o.reply == Ok && o.slots == t[i := Freed(t[i])]
  {
    assert !IdVisible(t, x);
    ResolutionOfWord(cfg, t, x);
    WordIsName(t, x, i);
    FirstWordIs(t[i].name);
    assert GoodSlot(t[i]);
    RootUnregisterFrees(cfg, t, i, cr, at, raw);
  }

  /** A hidden clientID: client h has the clientID x but its row is dropped, and client i is the only
      visible one whose name starts with x. `wd-ctrl unregister x` frees client i, and h stays. */
  lemma HiddenIdMisleads(cfg: Config, t: seq<Slot>, h: nat, i: nat, x: string, cr: Creds, at: Time, raw: RawId)
    requires Reported(cfg, t) && cr.uid == 0
    requires h < |t| && Occupied(t[h]) && t[h].id == x && !Legible(t[h]) && OnlyWord(t, x, i)
    ensures CtrlResolution(cfg, t, x) == Send(t[i].id) && i != h
    ensures Denotes(t, x, h) && !Denotes(t, x, i)
    ensures var o := Exec(cfg, t, RequestOf(UnregisterText(t[i].id)), cr, at, raw);
            o.reply == Ok && o.slots == t[i := Freed(t[i])] && o.slots[h] == t[h]
  {
    IdVisibleOwn(t, h);
    ResolutionOfWord(cfg, t, x);
    assert HasId(t, x) && Visible(t, i);
    assert GoodSlot(t[i]);
    RootUnregisterFrees(cfg, t, i, cr, at, raw);
  }

  /** Two clients: one announced under a name, one registered under the other's clientID as its name. */
  function HiddenIdTable(name: string, hidden: RawId, other: RawId): seq<Slot> {
    [ Slot(HexId(hidden), name, 0, TIMEOUT_MAX_MS, At(0), false, true, false),
      Slot(HexId(other), HexId(hidden), 1, TIMEOUT_MAX_MS, At(0), true, false, true) ]
  }

  /** A clientID is a name that REGISTER accepts. */
  lemma IdIsName(id: string)
    requires IsId(id)
    ensures ValidName(id) && LineName(id) && NoSpace(id) && FirstWord(id) == id
  {
    FirstWordIs(id);
  }

  lemma TwoClientsReported(cfg: Config, a: Slot, b: Slot)
    requires GoodSlot(a) && GoodSlot(b) && Occupied(a) && Occupied(b) && a.id != b.id && a.name != b.name
    requires Listable(a) && Listable(b)
    requires 0 <= cfg.wdTimeout < 1000 && 0 <= cfg.rebootTimeout < 1000
    ensures Reported(cfg, [a, b])
  {
    ListedFacts([a, b]);
    StatusFits(cfg, [a, b]);
  }

  lemma HiddenIdReported(cfg: Config, name: string, hidden: RawId, other: RawId)
    requires LineName(name) && !NoSpace(name) && hidden != other
    requires 0 <= cfg.wdTimeout < 1000 && 0 <= cfg.rebootTimeout < 1000
    ensures Reported(cfg, HiddenIdTable(name, hidden, other))
  {
    var t := HiddenIdTable(name, hidden, other);
    IdIsName(HexId(hidden));
    if HexId(hidden) == HexId(other) { HexIdInjective(hidden, other); }
    TwoClientsReported(cfg, t[0], t[1]);
  }

  lemma HiddenIdCalls(name: string, hidden: RawId, other: RawId)
    requires !NoSpace(name) && !Deceptive(name)
    ensures OnlyWord(HiddenIdTable(name, hidden, other), HexId(hidden), 1)
  {
    IdIsName(HexId(hidden));
  }

  /** The hidden clientID at work, for every name whose row is dropped: two words, the second of which is
      no number, are such a name (Ctrl.TwoWordsDropped). */
  lemma HiddenIdExample(
    cfg: Config, name: string, hidden: RawId, other: RawId, cr: Creds, at: Time, raw: RawId)
    requires LineName(name) && !NoSpace(name) && !Deceptive(name) && hidden != other && cr.uid == 0
    requires 0 <= cfg.wdTimeout < 1000 && 0 <= cfg.rebootTimeout < 1000
    ensures var t, x := HiddenIdTable(name, hidden, other), HexId(hidden);
            && Reported(cfg, t) && t[0].id == x
            && CtrlResolution(cfg, t, x) == Send(t[1].id)
            && Exec(cfg, t, RequestOf(UnregisterText(t[1].id)), cr, at, raw).slots == [t[0], Freed(t[1])]
  {
    var t, x := HiddenIdTable(name, hidden, other), HexId(hidden);
    HiddenIdReported(cfg, name, hidden, other);
    HiddenIdCalls(name, hidden, other);
    HiddenIdMisleads(cfg, t, 0, 1, x, cr, at, raw);
  }

  /** Such a name at work: the section `[client a 7 x]` is accepted, and its row reads as client "a". */
  lemma DeceptiveSection()
    ensures ConfigFile.Classify(ConfigFile.SectionText("a 7 x")) == ConfigFile.Section("a 7 x")
    ensures Deceptive("a 7 x") && FirstWord("a 7 x") == "a"
  {
    NumberSeven();
    NumberedNameDeceives("a", 7, " x");
    PlainSection("a 7 x");
  }

  /** A name of up to 55 printable characters without ']' and '=' makes a section line. */
  lemma PlainSection(name: string)
    requires 0 < |name| < 56 && (forall i | 0 <= i < |name| :: IsPrint(name[i]) && name[i] != ']' && name[i] != '=')
    requires name[0] != ' '
    ensures ConfigFile.Classify(ConfigFile.SectionText(name)) == ConfigFile.Section(name)
  {
    ConfigFile.SectionRoundTripIff(name);
  }

  lemma NumberSeven()
    ensures "a" + (" " + Dec(7) + " x") == "a 7 x"
  {
    assert Dec(7) == "7";
  }
}
