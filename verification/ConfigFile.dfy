/** parse_config: the line-by-line reading of the configuration file into the global settings and
    the announced slots, against a declarative account of what the file says. */
module ConfigFile {
  import opened Clock
  import opened CText
  import opened Table
  import opened Protocol
  import opened Machine
  import opened Supervision

  const SOCKET_PATH_DEFAULT := "/run/wd-broker.sock"
  const SOCKET_PATH_SIZE := 108
  const CLIENT_TIMEOUT_DEFAULT := 300000

  datatype Complaint =
    | BadWdTimeout | BadRebootTimeout | BadStrict | BadUnique
    | TimeoutOutsideSection | BadClientTimeout | UnknownKey
    | TooManyClients | BadClientName | InvalidLine
    | NoSections | DuplicateName

  datatype Directive =
    | Nothing
    | SocketPath(path: string)
    | WdTimeout(seconds: int)
    | RebootTimeout(seconds: int)
    | StrictMode(on: bool)
    | UniqueMode(on: bool)
    | ClientTimeout(ms: nat)
    | Section(name: string)
    | Bad(complaint: Complaint)

  // ----- trim -----

  function StrLen(b: seq<char>): nat {
    Span(b, Not('\0'), |b|)
  }

  /** The C string at the start of a buffer. */
  function CStr(b: seq<char>): string {
    b[..StrLen(b)]
  }

  /** Strip drops white space only, and only at the two ends. */
  lemma StripCuts(s: string) returns (a: nat, b: nat)
    ensures a <= b <= |s| && Strip(s) == s[a..b]
    ensures forall i | 0 <= i < a :: IsSpace(s[i])
    ensures forall i | b <= i < |s| :: IsSpace(s[i])
  {
    a := Span(s, Space, |s|);
    b := a + |Strip(s)|;
    assert Strip(s) == s[a..b];
    forall i | b <= i < |s|
      ensures IsSpace(s[i])
    {
      assert s[i] == SkipSpace(s)[i - a];
    }
  }

  lemma {:induction false} RStripIs(s: string, n: nat)
    requires n <= |s| && (n > 0 ==> !IsSpace(s[n - 1]))
    requires forall i | n <= i < |s| :: IsSpace(s[i])
    ensures RStrip(s) == s[..n]
  {
    if n < |s| {
      RStripIs(s[..|s| - 1], n);
      assert s[..|s| - 1][..n] == s[..n];
    } else {
      assert s[..n] == s;
    }
  }

  /** The backward loop of trim over the text buf[start..n]: `last` is its last character kept. */
  method TrimEnd(buf: array<char>, start: nat, n: nat) returns (last: nat)
    requires start < n < buf.Length && buf[n] == '\0'
    modifies buf
    ensures start <= last < n && (last > start ==> !IsSpace(buf[last]))
    ensures forall i | 0 <= i <= last :: buf[i] == old(buf[i])
    ensures forall i | last < i <= n :: buf[i] == '\0'
    ensures forall i | last < i < n :: IsSpace(old(buf[i]))
  {
    last := n - 1;
    while last > start && IsSpace(buf[last])
      invariant start <= last < n
      invariant forall i | 0 <= i <= last :: buf[i] == old(buf[i])
      invariant forall i | last < i <= n :: buf[i] == '\0'
      invariant forall i | last < i < n :: IsSpace(old(buf[i]))
    {
      buf[last] := '\0';
      last := last - 1;
    }
  }

  lemma CutIsStrip(text: string, start: nat, last: nat)
    requires start <= last < |text| && !IsSpace(text[start]) && !IsSpace(text[last])
    requires forall i | 0 <= i < start :: IsSpace(text[i])
    requires forall i | last < i < |text| :: IsSpace(text[i])
    ensures Strip(text) == text[start..last + 1]
  {
    SpanIs(text, Space, |text|, start);
    var s := text[start..];
    RStripIs(s, last + 1 - start);
    assert s[..last + 1 - start] == text[start..last + 1];
  }

  /** The forward loop of trim. */
  method TrimStart(buf: array<char>, ghost text: string) returns (start: nat)
    requires |text| < buf.Length && buf[|text|] == '\0' && forall i | 0 <= i < |text| :: buf[i] == text[i]
    ensures start <= |text| && !IsSpace(buf[start])
    ensures forall i | 0 <= i < start :: IsSpace(text[i])
  {
    start := 0;
    while IsSpace(buf[start])
      invariant start <= |text|
      invariant forall i | 0 <= i < start :: IsSpace(text[i])
      decreases |text| - start
    {
      start := start + 1;
    }
  }

  lemma CStrIs(b: seq<char>, n: nat)
    requires n < |b| && b[n] == '\0' && forall i | 0 <= i < n :: b[i] != '\0'
    ensures StrLen(b) == n && CStr(b) == b[..n]
  {
    SpanIs(b, Not('\0'), |b|, n);
  }

  /** What the two loops of trim leave behind is the stripped text. */
  lemma TrimOutcome(b0: seq<char>, b1: seq<char>, start: nat, last: nat, n: nat)
    requires n < |b0| && n < |b1| && StrLen(b0) == n && start <= last < n
    requires !IsSpace(b0[start]) && !IsSpace(b0[last]) && b1[last + 1] == '\0'
    requires forall i | 0 <= i <= last :: b1[i] == b0[i]
    requires forall i | 0 <= i < start || last < i < n :: IsSpace(b0[i])
    ensures CStr(b1[start..]) == Strip(CStr(b0))
  {
    var k := last + 1 - start;
    CutIsStrip(CStr(b0), start, last);
    CStrIs(b1[start..], k);
    assert b1[start..][..k] == CStr(b0)[start..last + 1];
  }

  lemma TrimBlank(b: seq<char>, n: nat)
    requires n < |b| && StrLen(b) == n && b[n] == '\0' && forall i | 0 <= i < n :: IsSpace(b[i])
    ensures CStr(b[n..]) == Strip(CStr(b))
  {
    CStrIs(b[n..], 0);
    SkipAll(CStr(b));
  }

  /** trim: moves the start over leading white space and overwrites trailing white space with NULs. */
  method Trim(buf: array<char>) returns (start: nat)
    requires StrLen(buf[..]) < buf.Length
    modifies buf
    ensures start <= buf.Length
    ensures CStr(buf[start..]) == Strip(old(CStr(buf[..])))
  {
    ghost var b0 := buf[..];
    var n := StrLen(buf[..]);
    start := TrimStart(buf, b0[..n]);
    if buf[start] == '\0' {
      TrimBlank(b0, n);
    } else {
      var last := TrimEnd(buf, start, n);
      TrimOutcome(b0, buf[..], start, last, n);
      assert buf[..][start..] == buf[start..];
    }
  }

  ghost predicate NoNul(s: string) {
    forall i | 0 <= i < |s| :: s[i] != '\0'
  }

  /** trim on a fresh buffer holding `s`. */
  method Trimmed(s: string) returns (r: string)
    requires NoNul(s)
    ensures r == Strip(s)
  {
    var buf := new char[|s| + 1](i requires 0 <= i <= |s| => if i < |s| then s[i] else '\0');
    CStrIs(buf[..], |s|);
    assert CStr(buf[..]) == s;
    var p := Trim(buf);
    r := CStr(buf[p..]);
  }

  // ----- one line -----

  /** "%63[^=]=%127[^\n]" with both fields converted. */
  function KeyValue(s: string): Option<(string, string)> {
    match ScanSet(s, Not('='), 63)
    case None => None
    case Some((key, r)) =>
      if r == "" || r[0] != '=' then None
      else match ScanSet(r[1..], Not('\n'), 127)
           case None => None
           case Some((val, _)) => Some((key, val))
  }

  /** " %63[^]]" */
  function NameField(s: string): (r: Option<string>)
    ensures r.Some? ==> 0 < |r.value| < NAME_SIZE && |r.value| <= |s|
  {
    match ScanSet(SkipSpace(s), Not(']'), NAME_SIZE - 1)
    case None => None
    case Some((name, _)) => Some(name)
  }

  /** "[client %63[^]]": the closing bracket is not part of the format. */
  function SectionName(s: string): (r: Option<string>)
    ensures r.Some? ==> 0 < |r.value| < NAME_SIZE && |r.value| <= |s|
  {
    if StartsWith(s, "[client") then NameField(s[7..]) else None
  }

  predicate InRange(d: Directive) {
    && (d.WdTimeout? ==> 10 <= d.seconds <= 60)
    && (d.RebootTimeout? ==> 10 <= d.seconds <= 300)
  }

  function Setting(key: string, val: string): (d: Directive)
    ensures !d.Section? && !d.Nothing? && InRange(d)
  {
    if key == "socket_path" then SocketPath(Clip(val, SOCKET_PATH_SIZE))
    else if key == "wd_timeout_s" then
      if 10 <= Atoi(val) <= 60 then WdTimeout(Atoi(val)) else Bad(BadWdTimeout)
    else if key == "reboot_timeout_s" then
      if 10 <= Atoi(val) <= 300 then RebootTimeout(Atoi(val)) else Bad(BadRebootTimeout)
    else if key == "strict_clients" then
      if val == "true" then StrictMode(true) else if val == "false" then StrictMode(false) else Bad(BadStrict)
    else if key == "unique_clients" then
      if val == "true" then UniqueMode(true) else if val == "false" then UniqueMode(false) else Bad(BadUnique)
    else if key == "timeout_ms" then ClientTimeout(Atoi(val) % U32)
    else Bad(UnknownKey)
  }

  /** What one line says, whatever precedes it. */
  function Classify(line: string): (d: Directive)
    ensures InRange(d)
  {
    var s := Strip(line);
    if s == "" || s[0] == '#' then Nothing
    else match KeyValue(s)
         case Some((key, val)) => Setting(Strip(key), Strip(val))
         case None =>
           match SectionName(s)
           case Some(name) => if |s| - |name| > |"[client ]"| then Bad(BadClientName) else Section(name)
           case None => Bad(InvalidLine)
  }

  // ----- the whole file -----

  /** Clock readings and random bytes drawn when line k opens a section. */
  datatype Oracle = Oracle(at: nat -> Time, raw: nat -> RawId)

  function Announce(name: string, o: Oracle, k: nat): Slot {
    Slot(HexId(o.raw(k)), name, 0, CLIENT_TIMEOUT_DEFAULT, o.at(k), false, true, false)
  }

  datatype Draft = Draft(cfg: Config, slots: seq<Slot>, idx: int) | Fatal(complaint: Complaint)

  function Defaults(n: nat): (d: Draft)
    ensures d.Draft? && |d.slots| == n
  {
    Draft(Config(SOCKET_PATH_DEFAULT, 10, 60, false, false), seq(n, _ => ZERO_SLOT), -1)
  }

  /** The effect of directive number k. A full table is noticed before an overlong section line. */
  function Absorb(d: Draft, dir: Directive, o: Oracle, k: nat): (r: Draft)
    requires d.Draft? && -1 <= d.idx < |d.slots|
    ensures r.Draft? ==> |r.slots| == |d.slots| && -1 <= r.idx < |r.slots|
  {
    match dir
    case Nothing => d
    case SocketPath(p) => d.(cfg := d.cfg.(socketPath := p))
    case WdTimeout(s) => d.(cfg := d.cfg.(wdTimeout := s))
    case RebootTimeout(s) => d.(cfg := d.cfg.(rebootTimeout := s))
    case StrictMode(b) => d.(cfg := d.cfg.(strict := b))
    case UniqueMode(b) => d.(cfg := d.cfg.(unique := b))
    case ClientTimeout(ms) =>
      if d.idx == -1 then Fatal(TimeoutOutsideSection)
      else if !ValidTimeout(ms) then Fatal(BadClientTimeout)
      else d.(slots := d.slots[d.idx := d.slots[d.idx].(timeout := ms)])
    case Section(name) =>
      if d.idx + 1 >= |d.slots| then Fatal(TooManyClients)
      else d.(idx := d.idx + 1, slots := d.slots[d.idx + 1 := Announce(name, o, k)])
    case Bad(c) => Fatal(if c == BadClientName && d.idx + 1 >= |d.slots| then TooManyClients else c)
  }

  function Fold(n: nat, ds: seq<Directive>, o: Oracle): (r: Draft)
    ensures r.Draft? ==> |r.slots| == n && -1 <= r.idx < n
  {
    if ds == [] then Defaults(n)
    else
      var d := Fold(n, ds[..|ds| - 1], o);
      if d.Fatal? then d else Absorb(d, ds[|ds| - 1], o, |ds| - 1)
  }

  ghost predicate DuplicateNames(t: seq<Slot>) {
    exists i, j | 0 <= i < j < |t| :: t[i].announced && t[j].announced && t[i].name == t[j].name
  }

  /** The checks after the last line. */
  ghost function Conclude(d: Draft): Draft {
    if d.Fatal? then d
    else if d.cfg.strict && d.idx == -1 then Fatal(NoSections)
    else if d.cfg.unique && DuplicateNames(d.slots) then Fatal(DuplicateName)
    else d
  }

  function Directives(lines: seq<string>): (ds: seq<Directive>)
    ensures |ds| == |lines| && forall k | 0 <= k < |lines| :: ds[k] == Classify(lines[k])
  {
    seq(|lines|, k requires 0 <= k < |lines| => Classify(lines[k]))
  }

  ghost function Configured(n: nat, lines: seq<string>, o: Oracle): Draft {
    Conclude(Fold(n, Directives(lines), o))
  }

  // ----- what the file says, declaratively -----

  /** Line numbers of the [client] sections, in file order. */
  function SectionLines(ds: seq<Directive>): seq<nat> {
    if ds == [] then []
    else SectionLines(ds[..|ds| - 1]) + if ds[|ds| - 1].Section? then [|ds| - 1] else []
  }

  /** The last timeout_ms after line `from` and before line `to`, else five minutes. */
  function LastTimeout(ds: seq<Directive>, from: nat, to: nat): nat
    requires to <= |ds|
  {
    if to <= from + 1 then CLIENT_TIMEOUT_DEFAULT
    else if ds[to - 1].ClientTimeout? then ds[to - 1].ms
    else LastTimeout(ds, from, to - 1)
  }

  /** Where section k ends: at the next section or at the end of the file. */
  function SectionEnd(ds: seq<Directive>, k: nat): (e: nat)
    ensures e <= |ds|
  {
    var ls := SectionLines(ds);
    if k + 1 < |ls| && ls[k + 1] < |ds| then ls[k + 1] else |ds|
  }

  /** The timeout of section k. */
  function TimeoutOf(ds: seq<Directive>, k: nat): nat
    requires k < |SectionLines(ds)|
  {
    LastTimeout(ds, SectionLines(ds)[k], SectionEnd(ds, k))
  }

  /** The last value given wins. */
  function Settings(ds: seq<Directive>): Config {
    if ds == [] then Config(SOCKET_PATH_DEFAULT, 10, 60, false, false)
    else
      var c := Settings(ds[..|ds| - 1]);
      match ds[|ds| - 1]
      case SocketPath(p) => c.(socketPath := p)
      case WdTimeout(s) => c.(wdTimeout := s)
      case RebootTimeout(s) => c.(rebootTimeout := s)
      case StrictMode(b) => c.(strict := b)
      case UniqueMode(b) => c.(unique := b)
      case _ => c
  }

  ghost predicate LinesSound(ds: seq<Directive>, ls: seq<nat>) {
    && (forall k | 0 <= k < |ls| :: ls[k] < |ds| && ds[ls[k]].Section?)
    && (forall k, l | 0 <= k < l < |ls| :: ls[k] < ls[l])
    && (forall j | 0 <= j < |ds| && ds[j].Section? :: j in ls)
  }

  /** SectionLines lists exactly the section lines, in ascending order. */
  lemma {:induction false} SectionLinesSound(ds: seq<Directive>)
    ensures LinesSound(ds, SectionLines(ds))
  {
    if ds != [] {
      var m := |ds| - 1;
      var pre := ds[..m];
      SectionLinesSound(pre);
      SectionLineAppend(pre, ds[m]);
      assert ds == pre + [ds[m]];
      var ls, ms := SectionLines(pre), SectionLines(ds);
      assert forall j | 0 <= j < m :: ds[j] == pre[j];
      assert forall k | 0 <= k < |ls| :: ms[k] == ls[k];
      forall j | 0 <= j < |ds| && ds[j].Section?
        ensures j in ms
      {
        if j < m {
          assert pre[j].Section?;
        }
      }
    }
  }

  lemma SectionLineAppend(ds: seq<Directive>, d: Directive)
    ensures SectionLines(ds + [d]) == SectionLines(ds) + if d.Section? then [|ds|] else []
  {
    assert (ds + [d])[..|ds|] == ds;
  }

  /** Slot k of the table is what section k of the file says. */
  ghost predicate SlotReflects(ds: seq<Directive>, o: Oracle, s: Slot, k: nat)
    requires k < |SectionLines(ds)|
  {
    var l := SectionLines(ds)[k];
    l < |ds| && ds[l].Section? && s == Announce(ds[l].name, o, l).(timeout := TimeoutOf(ds, k))
  }

  ghost predicate Reflects(ds: seq<Directive>, o: Oracle, t: seq<Slot>) {
    && |SectionLines(ds)| <= |t|
    && (forall k | 0 <= k < |SectionLines(ds)| :: SlotReflects(ds, o, t[k], k))
    && forall k | |SectionLines(ds)| <= k < |t| :: t[k] == ZERO_SLOT
  }

  lemma {:induction false} LastTimeoutPrefix(ds: seq<Directive>, d: Directive, from: nat, to: nat)
    requires to <= |ds|
    ensures LastTimeout(ds + [d], from, to) == LastTimeout(ds, from, to)
  {
    if to > from + 1 {
      LastTimeoutPrefix(ds, d, from, to - 1);
    }
  }

  /** One more line changes the timeout of the last section only, and only if it is a timeout_ms. */
  lemma TimeoutAppend(ds: seq<Directive>, d: Directive, k: nat)
    requires k < |SectionLines(ds)|
    ensures k < |SectionLines(ds + [d])| && SectionLines(ds + [d])[k] == SectionLines(ds)[k] < |ds|
    ensures TimeoutOf(ds + [d], k) ==
            if d.ClientTimeout? && k == |SectionLines(ds)| - 1 then d.ms else TimeoutOf(ds, k)
  {
    var es := ds + [d];
    var ls := SectionLines(ds);
    SectionLineAppend(ds, d);
    SectionLinesSound(ds);
    assert ls[k] < |ds|;
    if k + 1 < |ls| {
      assert SectionEnd(es, k) == SectionEnd(ds, k) == ls[k + 1];
      LastTimeoutPrefix(ds, d, ls[k], ls[k + 1]);
    } else {
      LastTimeoutPrefix(ds, d, ls[k], |ds|);
      assert SectionEnd(ds, k) == |ds|;
      assert es[|ds|] == d;
    }
  }

  lemma SlotAppend(ds: seq<Directive>, d: Directive, o: Oracle, s: Slot, k: nat)
    requires k < |SectionLines(ds)| && SlotReflects(ds, o, s, k)
    ensures k < |SectionLines(ds + [d])|
    ensures SlotReflects(ds + [d], o,
              if d.ClientTimeout? && k == |SectionLines(ds)| - 1 then s.(timeout := d.ms) else s, k)
  {
    TimeoutAppend(ds, d, k);
  }

  lemma SectionOpens(ds: seq<Directive>, name: string, o: Oracle)
    ensures var es, k := ds + [Section(name)], |SectionLines(ds)|;
            |SectionLines(es)| == k + 1 && SlotReflects(es, o, Announce(name, o, |ds|), k)
  {
    SectionLineAppend(ds, Section(name));
  }

  lemma AbsorbReflects(ds: seq<Directive>, d: Directive, o: Oracle, f: Draft)
    requires f.Draft? && Reflects(ds, o, f.slots) && f.idx == |SectionLines(ds)| - 1
    ensures -1 <= f.idx < |f.slots|
    ensures var r := Absorb(f, d, o, |ds|);
            r.Draft? ==> Reflects(ds + [d], o, r.slots) && r.idx == |SectionLines(ds + [d])| - 1
  {
    var n := |SectionLines(ds)|;
    SectionLineAppend(ds, d);
    var r := Absorb(f, d, o, |ds|);
    if r.Draft? {
      forall k | 0 <= k < |SectionLines(ds + [d])|
        ensures SlotReflects(ds + [d], o, r.slots[k], k)
      {
        if k < n {
          SlotAppend(ds, d, o, f.slots[k], k);
        } else {
          SectionOpens(ds, d.name, o);
        }
      }
    }
  }

  lemma {:induction false} FoldReflects(n: nat, ds: seq<Directive>, o: Oracle)
    requires Fold(n, ds, o).Draft?
    ensures Reflects(ds, o, Fold(n, ds, o).slots)
    ensures Fold(n, ds, o).idx == |SectionLines(ds)| - 1
    ensures Fold(n, ds, o).cfg == Settings(ds)
  {
    if ds != [] {
      var pre, d := ds[..|ds| - 1], ds[|ds| - 1];
      assert ds == pre + [d];
      FoldReflects(n, pre, o);
      AbsorbReflects(pre, d, o, Fold(n, pre, o));
    }
  }

  ghost predicate LineFits(ds: seq<Directive>, k: nat)
    requires k < |ds|
  {
    && !ds[k].Bad?
    && (ds[k].ClientTimeout? ==> ValidTimeout(ds[k].ms) && SectionLines(ds[..k]) != [])
  }

  /** The file may be used: no line is bad, every timeout_ms follows a section and is in range,
      and the sections fit the table. */
  ghost predicate WellFormed(n: nat, ds: seq<Directive>) {
    |SectionLines(ds)| <= n && forall k | 0 <= k < |ds| :: LineFits(ds, k)
  }

  lemma WellFormedAppend(n: nat, ds: seq<Directive>, d: Directive)
    ensures WellFormed(n, ds + [d]) <==>
            && WellFormed(n, ds) && !d.Bad?
            && (d.Section? ==> |SectionLines(ds)| < n)
            && (d.ClientTimeout? ==> ValidTimeout(d.ms) && SectionLines(ds) != [])
  {
    var es := ds + [d];
    SectionLineAppend(ds, d);
    forall k | 0 <= k < |ds|
      ensures LineFits(es, k) <==> LineFits(ds, k)
    {
      assert es[..k] == ds[..k] && es[k] == ds[k];
    }
    assert es[..|ds|] == ds && es[|ds|] == d;
    assert LineFits(es, |ds|) <==> !d.Bad? && (d.ClientTimeout? ==> ValidTimeout(d.ms) && SectionLines(ds) != []);
    assert WellFormed(n, es) ==> forall k | 0 <= k < |ds| :: LineFits(es, k);
  }

  lemma {:induction false} FoldAcceptsIff(n: nat, ds: seq<Directive>, o: Oracle)
    ensures Fold(n, ds, o).Draft? <==> WellFormed(n, ds)
  {
    if ds != [] {
      var pre, d := ds[..|ds| - 1], ds[|ds| - 1];
      assert ds == pre + [d];
      FoldAcceptsIff(n, pre, o);
      WellFormedAppend(n, pre, d);
      if Fold(n, pre, o).Draft? {
        FoldReflects(n, pre, o);
      }
    }
  }

  ghost predicate DistinctSections(ds: seq<Directive>) {
    forall i, j | 0 <= i < j < |SectionLines(ds)| :: SectionNameAt(ds, i) != SectionNameAt(ds, j)
  }

  ghost function SectionNameAt(ds: seq<Directive>, i: nat): string
    requires i < |SectionLines(ds)|
  {
    var l := SectionLines(ds)[i];
    if l < |ds| && ds[l].Section? then ds[l].name else ""
  }

  lemma DuplicatesAreSections(ds: seq<Directive>, o: Oracle, t: seq<Slot>)
    requires Reflects(ds, o, t)
    ensures DuplicateNames(t) <==> !DistinctSections(ds)
  {
    var n := |SectionLines(ds)|;
    forall i | 0 <= i < |t|
      ensures t[i].announced <==> i < n
      ensures i < n ==> t[i].name == SectionNameAt(ds, i)
    {
      if i < n { assert SlotReflects(ds, o, t[i], i); }
    }
    if !DistinctSections(ds) {
      var i, j :| 0 <= i < j < n && SectionNameAt(ds, i) == SectionNameAt(ds, j);
      assert t[i].announced && t[j].announced && t[i].name == t[j].name;
    }
  }

  /** Exactly which files are accepted, and what an accepted file leaves in the settings and in the
      table: announced slots are a prefix in file order, the rest is zero. Where unique_clients
      stands relative to the sections does not matter. */
  lemma AcceptedConfig(n: nat, lines: seq<string>, o: Oracle)
    ensures var ds := Directives(lines);
            var d := Configured(n, lines, o);
            && (d.Draft? <==>
                  && WellFormed(n, ds)
                  && (Settings(ds).strict ==> SectionLines(ds) != [])
                  && (Settings(ds).unique ==> DistinctSections(ds)))
            && (d.Draft? ==> d.cfg == Settings(ds) && |d.slots| == n && Reflects(ds, o, d.slots))
  {
    var ds := Directives(lines);
    FoldAcceptsIff(n, ds, o);
    if Fold(n, ds, o).Draft? {
      FoldReflects(n, ds, o);
      DuplicatesAreSections(ds, o, Fold(n, ds, o).slots);
    }
  }

  // ----- parse_config itself -----

  /** Reading one line: trim, then the two sscanf formats in order. */
  method ReadLine(line: string) returns (d: Directive)
    requires NoNul(line)
    ensures d == Classify(line)
  {
    var s := Trimmed(line);
    if s == "" || s[0] == '#' {
      return Nothing;
    }
    ghost var a, b := StripCuts(line);
    assert NoNul(s);
    match KeyValue(s) {
      case Some((key, val)) =>
        KeyValueParts(s);
        var k := Trimmed(key);
        var v := Trimmed(val);
        d := Setting(k, v);
      case None =>
        match SectionName(s) {
          case Some(name) => d := if |s| - |name| > |"[client ]"| then Bad(BadClientName) else Section(name);
          case None => d := Bad(InvalidLine);
        }
    }
  }

  lemma KeyValueParts(s: string)
    requires NoNul(s) && KeyValue(s).Some?
    ensures NoNul(KeyValue(s).value.0) && NoNul(KeyValue(s).value.1)
  {
  }

  /** The quadratic duplicate check. */
  method HasDuplicates(clients: array<Slot>) returns (dup: bool)
    ensures dup <==> DuplicateNames(clients[..])
  {
    ghost var t := clients[..];
    for i := 0 to clients.Length
      invariant forall a, b | 0 <= a < i && a < b < |t| :: !(t[a].announced && t[b].announced && t[a].name == t[b].name)
    {
      if clients[i].announced {
        for j := i + 1 to clients.Length
          invariant forall b | i < b < j :: !(t[b].announced && t[i].name == t[b].name)
        {
          if clients[j].announced && clients[i].name == clients[j].name {
            assert t[i].announced && t[j].announced && t[i].name == t[j].name;
            return true;
          }
        }
      }
    }
    return false;
  }

  lemma {:induction false} FatalStays(n: nat, ds: seq<Directive>, o: Oracle, k: nat)
    requires k <= |ds| && Fold(n, ds[..k], o).Fatal?
    ensures Fold(n, ds, o) == Fold(n, ds[..k], o)
    decreases |ds|
  {
    if k == |ds| {
      assert ds[..k] == ds;
    } else {
      assert ds[..|ds| - 1][..k] == ds[..k];
      FatalStays(n, ds[..|ds| - 1], o, k);
    }
  }

  /** The branches of the line loop that change settings or the array. */
  method Apply(d: Directive, clients: array<Slot>, cfg: Config, idx: int, o: Oracle, k: nat)
    returns (cfg': Config, idx': int, fault: Option<Complaint>)
    requires -1 <= idx < clients.Length
    modifies clients
    ensures Reads(Absorb(Draft(cfg, old(clients[..]), idx), d, o, k), cfg', clients[..], idx', fault)
  {
    cfg', idx', fault := cfg, idx, None;
    match d {
      case Nothing =>
      case SocketPath(p) => cfg' := cfg.(socketPath := p);
      case WdTimeout(s) => cfg' := cfg.(wdTimeout := s);
      case RebootTimeout(s) => cfg' := cfg.(rebootTimeout := s);
      case StrictMode(b) => cfg' := cfg.(strict := b);
      case UniqueMode(b) => cfg' := cfg.(unique := b);
      case ClientTimeout(ms) =>
        if idx == -1 {
          fault := Some(TimeoutOutsideSection);
        } else if ms < TIMEOUT_MIN_MS || ms > TIMEOUT_MAX_MS {
          fault := Some(BadClientTimeout);
        } else {
          clients[idx] := clients[idx].(timeout := ms);
        }
      case Section(name) =>
        idx' := idx + 1;
        if idx' >= clients.Length {
          fault := Some(TooManyClients);
        } else {
          clients[idx'] := Slot(HexId(o.raw(k)), name, 0, CLIENT_TIMEOUT_DEFAULT, o.at(k), false, true, false);
        }
      case Bad(c) =>
        fault := Some(c);
        if c == BadClientName && idx + 1 >= clients.Length {
          fault := Some(TooManyClients);
        }
    }
  }

  /** The checks after the last line. */
  method FinalChecks(cfg: Config, clients: array<Slot>, idx: int) returns (complaint: Option<Complaint>)
    ensures match Conclude(Draft(cfg, clients[..], idx))
            case Fatal(c) => complaint == Some(c)
            case Draft(_, _, _) => complaint == None
  {
    if cfg.strict && idx == -1 {
      return Some(NoSections);
    }
    if cfg.unique {
      var dup := HasDuplicates(clients);
      if dup {
        return Some(DuplicateName);
      }
    }
    return None;
  }

  lemma FoldNext(n: nat, ds: seq<Directive>, o: Oracle, k: nat, d: Draft)
    requires k < |ds| && d.Draft? && Fold(n, ds[..k], o) == d
    ensures -1 <= d.idx < |d.slots| && Fold(n, ds[..k + 1], o) == Absorb(d, ds[k], o, k)
  {
    assert ds[..k + 1][..k] == ds[..k];
  }

  /** The state of parse_config after the lines: still reading, or left with a complaint. */
  ghost predicate Reads(d: Draft, cfg: Config, clients: seq<Slot>, idx: int, fault: Option<Complaint>) {
    match d
    case Fatal(c) => fault == Some(c)
    case Draft(settings, slots, i) => fault == None && cfg == settings && clients == slots && idx == i
  }

  /** parse_config up to the end of the file. */
  method ReadLines(lines: seq<string>, clients: array<Slot>, o: Oracle)
    returns (cfg: Config, idx: int, fault: Option<Complaint>)
    requires forall k | 0 <= k < |lines| :: NoNul(lines[k])
    modifies clients
    ensures Reads(Fold(clients.Length, Directives(lines), o), cfg, clients[..], idx, fault)
  {
    idx, fault := -1, None;
    forall i | 0 <= i < clients.Length {
      clients[i] := ZERO_SLOT;
    }
    cfg := Config(SOCKET_PATH_DEFAULT, 10, 60, false, false);
    ghost var n, ds := clients.Length, Directives(lines);
    assert clients[..] == Defaults(n).slots;
    for k := 0 to |lines|
      invariant Reads(Fold(n, ds[..k], o), cfg, clients[..], idx, fault) && fault == None
    {
      FoldNext(n, ds, o, k, Draft(cfg, clients[..], idx));
      var d := ReadLine(lines[k]);
      cfg, idx, fault := Apply(d, clients, cfg, idx, o, k);
      if fault.Some? {
        FatalStays(n, ds, o, k + 1);
        return;
      }
    }
    assert ds[..|lines|] == ds;
  }

  /** parse_config: resets the client array, then reads line by line, updating the settings and the
      array in place; a complaint stands for the fatal exit. */
  method ParseConfig(lines: seq<string>, clients: array<Slot>, o: Oracle)
    returns (cfg: Config, complaint: Option<Complaint>)
    requires forall k | 0 <= k < |lines| :: NoNul(lines[k])
    modifies clients
    ensures match Configured(clients.Length, lines, o)
            case Fatal(c) => complaint == Some(c)
            case Draft(settings, slots, _) => complaint == None && cfg == settings && clients[..] == slots
  {
    var idx;
    cfg, idx, complaint := ReadLines(lines, clients, o);
    if complaint == None {
      complaint := FinalChecks(cfg, clients, idx);
    }
  }

  // ----- what the rest of the program relies on -----

  lemma {:induction false} SettingsInRange(ds: seq<Directive>)
    requires forall k | 0 <= k < |ds| :: InRange(ds[k])
    ensures 10 <= Settings(ds).wdTimeout <= 60 && 10 <= Settings(ds).rebootTimeout <= 300
  {
    if ds != [] {
      SettingsInRange(ds[..|ds| - 1]);
    }
  }

  lemma {:induction false} LastTimeoutValid(ds: seq<Directive>, from: nat, to: nat)
    requires to <= |ds|
    requires forall k | 0 <= k < |ds| && ds[k].ClientTimeout? :: ValidTimeout(ds[k].ms)
    ensures ValidTimeout(LastTimeout(ds, from, to))
  {
    if to > from + 1 {
      LastTimeoutValid(ds, from, to - 1);
    }
  }

  /** The oracle's readings precede the arming of the timer, and its random bytes are distinct. */
  ghost predicate GoodOracle(o: Oracle, lines: nat, timerAt: Time) {
    && (forall k: nat | k < lines :: Ns(o.at(k)) <= Ns(timerAt))
    && (forall k: nat, l: nat | k < l < lines :: o.raw(k) != o.raw(l))
  }

  /** What one announced slot is, in the terms of the rest of the program. */
  ghost predicate AnnouncedFrom(s: Slot, o: Oracle, l: nat) {
    s.announced && !s.active && GoodSlot(s) && s.id == HexId(o.raw(l)) && s.lastPing == o.at(l)
  }

  /** What fgets delivers: a newline can only be the last character. */
  ghost predicate OneLine(line: string) {
    forall i | 0 <= i < |line| - 1 :: line[i] != '\n'
  }

  lemma StripOneLine(line: string)
    requires OneLine(line)
    ensures '\n' !in Strip(line)
  {
    var a, b := StripCuts(line);
    var s := Strip(line);
    forall i | 0 <= i < |s|
      ensures s[i] != '\n'
    {
      assert s[i] == line[a + i];
      assert i == |s| - 1 ==> !IsSpace(s[i]);
    }
  }

  lemma SectionNameShape(s: string)
    requires '\n' !in s
    ensures SectionName(s).Some? ==> LineName(SectionName(s).value)
  {
    if SectionName(s).Some? {
      var t := SkipSpace(s[7..]);
      assert forall i | 0 <= i < |t| :: t[i] in s;
      assert !IsSpace(t[0]);
    }
  }

  /** Whatever the line, an announced name has 1 to 63 characters, none of them a newline and the
      first of them no blank. */
  lemma AnnouncedNameShape(line: string)
    requires OneLine(line)
    ensures Classify(line).Section? ==> LineName(Classify(line).name)
  {
    StripOneLine(line);
    SectionNameShape(Strip(line));
  }

  ghost predicate Lined(ds: seq<Directive>) {
    forall k | 0 <= k < |ds| && ds[k].Section? :: LineName(ds[k].name)
  }

  lemma DirectivesLined(lines: seq<string>)
    requires forall k | 0 <= k < |lines| :: OneLine(lines[k])
    ensures Lined(Directives(lines))
  {
    forall k | 0 <= k < |lines| && Directives(lines)[k].Section?
      ensures LineName(Directives(lines)[k].name)
    {
      AnnouncedNameShape(lines[k]);
    }
  }

  lemma ReflectedSlot(n: nat, ds: seq<Directive>, o: Oracle, s: Slot, i: nat)
    requires WellFormed(n, ds) && Lined(ds) && i < |SectionLines(ds)| && SlotReflects(ds, o, s, i)
    ensures AnnouncedFrom(s, o, SectionLines(ds)[i])
  {
    forall k | 0 <= k < |ds| && ds[k].ClientTimeout?
      ensures ValidTimeout(ds[k].ms)
    {
      assert LineFits(ds, k);
    }
    LastTimeoutValid(ds, SectionLines(ds)[i], SectionEnd(ds, i));
  }

  lemma ReflectedTable(n: nat, ds: seq<Directive>, o: Oracle, t: seq<Slot>)
    requires WellFormed(n, ds) && Lined(ds) && Reflects(ds, o, t)
    ensures var ls := SectionLines(ds);
            forall i | 0 <= i < |t| ::
              if i < |ls| then ls[i] < |ds| && AnnouncedFrom(t[i], o, ls[i]) else t[i] == ZERO_SLOT
  {
    var ls := SectionLines(ds);
    forall i | 0 <= i < |ls|
      ensures ls[i] < |ds| && AnnouncedFrom(t[i], o, ls[i])
    {
      ReflectedSlot(n, ds, o, t[i], i);
    }
  }

  lemma ReflectedIds(n: nat, ds: seq<Directive>, o: Oracle, t: seq<Slot>, timerAt: Time)
    requires WellFormed(n, ds) && Lined(ds) && Reflects(ds, o, t) && GoodOracle(o, |ds|, timerAt)
    ensures DistinctIds(t)
    ensures forall i | 0 <= i < |t| && t[i].announced :: Ns(t[i].lastPing) <= Ns(timerAt)
  {
    ReflectedTable(n, ds, o, t);
    SectionLinesSound(ds);
    var ls := SectionLines(ds);
    forall i, j | 0 <= i < j < |t| && Occupied(t[i]) && Occupied(t[j])
      ensures t[i].id != t[j].id
    {
      if t[i].id == t[j].id {
        HexIdInjective(o.raw(ls[i]), o.raw(ls[j]));
      }
    }
  }

  lemma ReflectedNames(ds: seq<Directive>, o: Oracle, n: nat, t: seq<Slot>)
    requires WellFormed(n, ds) && Lined(ds) && Reflects(ds, o, t) && DistinctSections(ds)
    ensures DistinctNames(t)
  {
    ReflectedTable(n, ds, o, t);
    DuplicatesAreSections(ds, o, t);
    assert !DuplicateNames(t);
  }

  /** Every accepted file yields a table from which the broker may start: the premises of all
      results about runs hold, and every numeric setting is in its range. */
  lemma AcceptedFileStarts(n: nat, lines: seq<string>, o: Oracle, timerAt: Time, openAt: Time, enabled: bool)
    requires forall k | 0 <= k < |lines| :: OneLine(lines[k])
    requires Configured(n, lines, o).Draft?
    ensures var d := Configured(n, lines, o);
            && ConfiguredTable(Setup(d.cfg, n, enabled), d.slots)
            && 10 <= d.cfg.wdTimeout <= 60 && 10 <= d.cfg.rebootTimeout <= 300
            && (GoodOracle(o, |lines|, timerAt) && Ns(timerAt) <= Ns(openAt) ==>
                  DistinctIds(d.slots) && TimedStart(d.slots, timerAt, openAt))
  {
    AcceptedConfig(n, lines, o);
    var ds := Directives(lines);
    var t := Configured(n, lines, o).slots;
    DirectivesLined(lines);
    ReflectedTable(n, ds, o, t);
    if Settings(ds).unique {
      ReflectedNames(ds, o, n, t);
    }
    SettingsInRange(ds);
    if GoodOracle(o, |lines|, timerAt) {
      ReflectedIds(n, ds, o, t, timerAt);
    }
  }

  lemma KeyValueRoundTrip(key: string, val: string)
    requires 0 < |key| <= 63 && '=' !in key
    requires 0 < |val| <= 127 && '\n' !in val
    ensures KeyValue(key + "=" + val) == Some((key, val))
  {
    var s := key + "=" + val;
    SpanIs(s, Not('='), 63, |key|);
    var r := s[|key|..];
    assert s[..|key|] == key && r[1..] == val;
    SpanIs(val, Not('\n'), 127, |val|);
    assert val[..|val|] == val;
  }

  /** A setting written as `key=value` is read back as that key and that value. */
  lemma SettingRoundTrip(key: string, val: string)
    requires 0 < |key| <= 63 && '=' !in key && key[0] != '#' && !IsSpace(key[0]) && !IsSpace(key[|key| - 1])
    requires 0 < |val| <= 127 && '\n' !in val && !IsSpace(val[0]) && !IsSpace(val[|val| - 1])
    ensures Classify(key + "=" + val) == Setting(key, val)
  {
    var s := key + "=" + val;
    StripNothing(s);
    StripNothing(key);
    StripNothing(val);
    KeyValueRoundTrip(key, val);
  }

  lemma StripNothing(s: string)
    requires s != "" && !IsSpace(s[0]) && !IsSpace(s[|s| - 1])
    ensures Strip(s) == s
  {
    SkipNothing(s);
    assert RStrip(s) == s;
  }

  lemma SetsNothingKnown(key: string, val: string)
    requires |key| > 1 && key[0] == 's' && key[1] == 'e'
    ensures Setting(key, val) == Bad(UnknownKey)
  {
    assert "socket_path"[1] == 'o' && "strict_clients"[1] == 't';
    assert "wd_timeout_s"[0] == 'w' && "reboot_timeout_s"[0] == 'r';
    assert "unique_clients"[0] == 'u' && "timeout_ms"[0] == 't';
  }

  lemma SeSettingRefused(key: string, val: string)
    requires 1 < |key| <= 63 && key[0] == 's' && key[1] == 'e' && '=' !in key && !IsSpace(key[|key| - 1])
    requires 0 < |val| <= 127 && '\n' !in val && !IsSpace(val[0]) && !IsSpace(val[|val| - 1])
    ensures Classify(key + "=" + val) == Bad(UnknownKey)
  {
    SettingRoundTrip(key, val);
    SetsNothingKnown(key, val);
  }

  /** The documentation lists service_user among the options; the parser refuses it. */
  lemma ServiceUserRefused(val: string)
    requires 0 < |val| <= 127 && '\n' !in val && !IsSpace(val[0]) && !IsSpace(val[|val| - 1])
    ensures Classify("service_user" + "=" + val) == Bad(UnknownKey)
  {
    var key := "service_user";
    assert |key| == 12 && key[11] == 'r' && '=' !in key;
    SeSettingRefused(key, val);
  }

  function SectionText(name: string): string {
    "[client " + name + "]"
  }

  /** A '=' near the front turns the line into a setting with an unknown key or a bad value. */
  predicate LooksLikeSetting(name: string) {
    '=' in name[..if |name| < 56 then |name| else 56]
  }

  lemma SectionIsKeyValue(name: string)
    requires LooksLikeSetting(name) && forall i | 0 <= i < |name| :: name[i] != '\n'
    ensures KeyValue(SectionText(name)).Some?
  {
    var s := SectionText(name);
    var i :| 0 <= i < |name| && i < 56 && name[i] == '=';
    assert s[8 + i] == '=';
    var e := Span(s, Not('='), 63);
    assert 0 < e < |s| - 1 && s[e] == '=';
    var r := s[e..][1..];
    assert r[0] == s[e + 1] && (e + 1 < |s| - 1 ==> s[e + 1] == name[e - 7]);
    assert Span(r, Not('\n'), 127) > 0;
  }

  lemma SectionIsNoKeyValue(name: string)
    requires !LooksLikeSetting(name)
    ensures KeyValue(SectionText(name)).None?
  {
    var s := SectionText(name);
    forall j | 0 <= j < |s| && j < 64
      ensures s[j] != '='
    {
      if 8 <= j && j - 8 < |name| { assert name[j - 8] == s[j]; }
    }
  }

  /** The section format on a line that opens as one. */
  lemma SectionNameAfter(tail: string)
    ensures SectionName("[client " + tail) == NameField(tail)
  {
    var s := "[client " + tail;
    assert s[..7] == "[client" && s[7..] == " " + tail;
    SkipOneMore(tail);
  }

  lemma NameScan(name: string, rest: string)
    requires 0 < |name| < NAME_SIZE && ']' !in name && (rest == "" || rest[0] == ']')
    ensures NameField(name + rest) == Some(name) <==> !IsSpace(name[0])
  {
    var tail := name + rest;
    if !IsSpace(name[0]) {
      SkipNothing(tail);
      SpanIs(tail, Not(']'), NAME_SIZE - 1, |name|);
      assert tail[..|name|] == name;
    } else {
      var u := SkipSpace(tail);
      assert u == "" || !IsSpace(u[0]);
    }
  }

  lemma SectionScan(name: string)
    requires 0 < |name| < NAME_SIZE && ']' !in name
    ensures SectionName(SectionText(name)) == Some(name) <==> !IsSpace(name[0])
  {
    assert SectionText(name) == "[client " + (name + "]");
    SectionNameAfter(name + "]");
    NameScan(name, "]");
  }

  /** A trimmed line that is no setting, no comment and not too long says what its section format says. */
  lemma SectionLine(s: string, name: string)
    requires s != "" && s[0] != '#' && Strip(s) == s && KeyValue(s).None?
    requires SectionName(s) == Some(name) && |s| <= |name| + 9
    ensures Classify(s) == Section(name)
  {
  }

  lemma UnclosedText(name: string)
    requires '=' !in name
    ensures var s := "[client " + name; '=' !in s && s[0] == '[' && |s| == |name| + 8
    ensures name != "" ==> ("[client " + name)[|name| + 7] == name[|name| - 1]
  {
  }

  /** The closing bracket may be missing: a section line without it says the same. */
  lemma UnclosedSectionAccepted(name: string)
    requires 0 < |name| < NAME_SIZE && ']' !in name && '=' !in name
    requires !IsSpace(name[0]) && !IsSpace(name[|name| - 1])
    ensures Classify("[client " + name) == Section(name)
  {
    var s := "[client " + name;
    UnclosedText(name);
    SectionNameAfter(name);
    assert name + "" == name;
    NameScan(name, "");
    StripNothing(s);
    NoEqualsNoSetting(s);
    SectionLine(s, name);
  }

  lemma NoEqualsNoSetting(s: string)
    requires '=' !in s
    ensures KeyValue(s).None?
  {
    var n := Span(s, Not('='), 63);
    if n > 0 && n < |s| {
      assert s[n..][0] == s[n];
    }
  }

  /** The documentation allows every printable character but ']' in an announced name. The section
      line is read back as that name exactly when the name does not start with a blank and has no
      '=' among its first 56 characters. */
  lemma SectionRoundTripIff(name: string)
    requires 0 < |name| < NAME_SIZE && ']' !in name && forall i | 0 <= i < |name| :: IsPrint(name[i])
    ensures Classify(SectionText(name)) == Section(name) <==> name[0] != ' ' && !LooksLikeSetting(name)
  {
    StripNothing(SectionText(name));
    if LooksLikeSetting(name) {
      SectionIsKeyValue(name);
    } else {
      SectionIsNoKeyValue(name);
      SectionScan(name);
    }
  }
}
