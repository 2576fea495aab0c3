/** What a line of the configuration file says, told without the classifier: which key does what, which
    values it takes, which lines open a section, which say nothing, and what is complained of. */
module ConfigText {
  import opened Clock
  import opened CText
  import opened Table
  import opened Protocol
  import opened Wire
  import opened ConfigFile

  // ----- the parts of a line -----

  /** `core` is what remains of the line without the white space at its ends. */
  ghost predicate Core(line: string, core: string) {
    exists lead, end | Blank(lead) && Blank(end) ::
      line == lead + (core + end) && (core == "" || (!IsSpace(core[0]) && !IsSpace(core[|core| - 1])))
  }

  lemma CoreParts(line: string, lead: string, core: string, end: string)
    requires Blank(lead) && Blank(end) && line == lead + (core + end)
    requires core == "" || (!IsSpace(core[0]) && !IsSpace(core[|core| - 1]))
    ensures Core(line, core)
  {
  }

  lemma RStripParts(core: string, end: string)
    requires Blank(end) && core != "" && !IsSpace(core[|core| - 1])
    ensures RStrip(core + end) == core
  {
    RStripIs(core + end, |core|);
    assert (core + end)[..|core|] == core;
  }

  lemma StripParts(lead: string, core: string, end: string)
    requires Blank(lead) && Blank(end) && core != "" && !IsSpace(core[0]) && !IsSpace(core[|core| - 1])
    ensures Strip(lead + (core + end)) == core
  {
    BlankIff(lead);
    SkipThrough(lead, core + end);
    SkipsTo(core, end);
    RStripParts(core, end);
  }

  lemma StripBlank(s: string)
    requires Blank(s)
    ensures Strip(s) == ""
  {
    SkipAll(s);
  }

  lemma CoreFound(line: string, core: string)
    requires Core(line, core)
    ensures core == Strip(line)
  {
    var lead, end :| Blank(lead) && Blank(end) && line == lead + (core + end)
      && (core == "" || (!IsSpace(core[0]) && !IsSpace(core[|core| - 1])));
    if core == "" {
      assert line == lead + end;
      StripBlank(line);
    } else {
      StripParts(lead, core, end);
    }
  }

  lemma CoreSlice(line: string, a: nat, b: nat)
    requires a <= b <= |line|
    requires (forall i | 0 <= i < a :: IsSpace(line[i])) && (forall i | b <= i < |line| :: IsSpace(line[i]))
    requires a < b ==> !IsSpace(line[a]) && !IsSpace(line[b - 1])
    ensures Core(line, line[a..b])
  {
    assert line == line[..a] + (line[a..b] + line[b..]);
    CoreParts(line, line[..a], line[a..b], line[b..]);
  }

  lemma StripIsCore(line: string)
    ensures Core(line, Strip(line))
  {
    var a, b := StripCuts(line);
    var core := Strip(line);
    assert a < b ==> core[0] == line[a] && core[|core| - 1] == line[b - 1];
    CoreSlice(line, a, b);
  }

  /** Every line has one core, and trim finds it. */
  lemma CoreIsStrip(line: string, core: string)
    ensures Core(line, core) <==> core == Strip(line)
  {
    if Core(line, core) { CoreFound(line, core); }
    StripIsCore(line);
  }

  /** A line `key=value`, blanks around both allowed: at most 63 characters stand before the first '=',
      and no more than 127 are read after it. */
  ghost predicate SettingForm(line: string, key: string, val: string) {
    exists k, v | Core(line, k + ("=" + v)) ::
      && 0 < |k| <= 63 && '=' !in k && k[0] != '#' && v != "" && '\n' !in v
      && Core(k, key) && Core(Clip(v, 128), val)
  }

  lemma KeyValueFound(k: string, v: string)
    requires 0 < |k| <= 63 && '=' !in k && v != "" && '\n' !in v
    ensures KeyValue(k + ("=" + v)) == Some((k, Clip(v, 128)))
  {
    var s := k + ("=" + v);
    SpanIs(s, Not('='), 63, |k|);
    assert s[..|k|] == k && s[|k|..] == "=" + v && s[|k|..][1..] == v;
    if |v| < 128 {
      SpanIs(v, Not('\n'), 127, |v|);
      assert v[..|v|] == v;
    } else {
      SpanIs(v, Not('\n'), 127, 127);
    }
  }

  lemma KeyValueIn(s: string) returns (k: string, v: string)
    requires '\n' !in s && KeyValue(s).Some?
    ensures 0 < |k| <= 63 && '=' !in k && v != "" && '\n' !in v && s == k + ("=" + v)
  {
    k := KeyValue(s).value.0;
    var r := s[|k|..];
    v := r[1..];
    assert s == k + r && r == "=" + v;
    assert forall i | 0 <= i < |v| :: v[i] in s;
  }

  lemma ClassifySetting(line: string, s: string, k: string, v: string)
    requires Strip(line) == s && s != "" && s[0] != '#' && KeyValue(s) == Some((k, v))
    ensures Classify(line) == Setting(Strip(k), Strip(v))
  {
  }

  /** A setting line is read as that key with that value. */
  lemma SettingRead(line: string, key: string, val: string)
    requires SettingForm(line, key, val)
    ensures Classify(line) == Setting(key, val)
  {
    var k, v :| Core(line, k + ("=" + v)) && 0 < |k| <= 63 && '=' !in k && k[0] != '#' && v != "" && '\n' !in v
      && Core(k, key) && Core(Clip(v, 128), val);
    var s := k + ("=" + v);
    CoreIsStrip(line, s);
    CoreIsStrip(k, key);
    CoreIsStrip(Clip(v, 128), val);
    KeyValueFound(k, v);
    assert s[0] == k[0];
    ClassifySetting(line, s, k, Clip(v, 128));
  }

  // ----- one law for each key -----

  lemma KeysDiffer()
    ensures |"socket_path"| == 11 && |"wd_timeout_s"| == 12 && |"reboot_timeout_s"| == 16
    ensures |"strict_clients"| == 14 && |"unique_clients"| == 14 && |"timeout_ms"| == 10
    ensures "strict_clients"[0] == 's' && "unique_clients"[0] == 'u'
  {
  }

  lemma StrictLine(line: string, val: string)
    requires SettingForm(line, "strict_clients", val)
    ensures Classify(line) ==
            if val == "true" then StrictMode(true) else if val == "false" then StrictMode(false) else Bad(BadStrict)
  {
    SettingRead(line, "strict_clients", val);
    KeysDiffer();
  }

  lemma UniqueLine(line: string, val: string)
    requires SettingForm(line, "unique_clients", val)
    ensures Classify(line) ==
            if val == "true" then UniqueMode(true) else if val == "false" then UniqueMode(false) else Bad(BadUnique)
  {
    SettingRead(line, "unique_clients", val);
    KeysDiffer();
  }

  lemma WdTimeoutLine(line: string, val: string)
    requires SettingForm(line, "wd_timeout_s", val)
    ensures Classify(line) == if 10 <= Atoi(val) <= 60 then WdTimeout(Atoi(val)) else Bad(BadWdTimeout)
  {
    SettingRead(line, "wd_timeout_s", val);
    KeysDiffer();
  }

  lemma RebootTimeoutLine(line: string, val: string)
    requires SettingForm(line, "reboot_timeout_s", val)
    ensures Classify(line) == if 10 <= Atoi(val) <= 300 then RebootTimeout(Atoi(val)) else Bad(BadRebootTimeout)
  {
    SettingRead(line, "reboot_timeout_s", val);
    KeysDiffer();
  }

  lemma ClientTimeoutLine(line: string, val: string)
    requires SettingForm(line, "timeout_ms", val)
    ensures Classify(line) == ClientTimeout(Atoi(val) % U32)
  {
    SettingRead(line, "timeout_ms", val);
    KeysDiffer();
  }

  lemma SocketPathLine(line: string, val: string)
    requires SettingForm(line, "socket_path", val)
    ensures Classify(line) == SocketPath(if |val| <= 107 then val else val[..107])
  {
    SettingRead(line, "socket_path", val);
    KeysDiffer();
  }

  /** Every other key is unknown. */
  lemma OtherKeyLine(line: string, key: string, val: string)
    requires SettingForm(line, key, val)
    requires key != "socket_path" && key != "wd_timeout_s" && key != "reboot_timeout_s"
    requires key != "strict_clients" && key != "unique_clients" && key != "timeout_ms"
    ensures Classify(line) == Bad(UnknownKey)
  {
    SettingRead(line, key, val);
  }

  // ----- numbers as values -----

  /** atoi: the number at the start, whatever follows it, and 0 without one. */
  lemma AtoiMeaning(val: string)
    ensures forall gap, text, num, rest |
              Blank(gap) && Numerical(text, num) && (rest == "" || !IsDigit(rest[0])) && val == gap + (text + rest) ::
              Atoi(val) == AsInt32(num)
    ensures (forall gap, text, num, rest |
              Blank(gap) && Numerical(text, num) && (rest == "" || !IsDigit(rest[0])) ::
              val != gap + (text + rest)) ==> Atoi(val) == 0
  {
    forall gap, text, num, rest |
      Blank(gap) && Numerical(text, num) && (rest == "" || !IsDigit(rest[0])) && val == gap + (text + rest)
      ensures Atoi(val) == AsInt32(num)
    {
      NumberFound(gap, text, num, rest);
    }
    if ScanNumeral(val).Some? {
      var gap, text := NumberIn(val);
    }
  }

  lemma AtoiDec(n: nat)
    requires n < 0x8000_0000
    ensures Atoi(Dec(n)) == n
  {
    ScanPrintedNumber(n, "");
    assert Dec(n) + "" == Dec(n);
    SmallInt32(n);
  }

  lemma SmallNegative(n: nat)
    requires 0 < n <= 0x8000_0000
    ensures AsInt32(Numeral(true, n)) == 0 - n
  {
  }

  lemma AtoiNegative(n: nat)
    requires 0 < n <= 0x8000_0000
    ensures Atoi(['-'] + Dec(n)) == 0 - n
  {
    var text := ['-'] + Dec(n);
    DecValue(n);
    SignedNumber('-', Dec(n));
    NumberFound("", text, Numeral(true, n), "");
    assert "" + (text + "") == text;
    SmallNegative(n);
  }

  lemma CoreOfItself(s: string)
    requires s != "" && !IsSpace(s[0]) && !IsSpace(s[|s| - 1])
    ensures Core(s, s)
  {
    assert s == "" + (s + "");
    CoreParts(s, "", s, "");
  }

  /** The plain way to write a setting. */
  lemma PlainSetting(key: string, val: string)
    requires 0 < |key| <= 63 && '=' !in key && key[0] != '#' && !IsSpace(key[0]) && !IsSpace(key[|key| - 1])
    requires 0 < |val| <= 127 && '\n' !in val && !IsSpace(val[0]) && !IsSpace(val[|val| - 1])
    ensures SettingForm(key + ("=" + val), key, val)
  {
    var line := key + ("=" + val);
    assert line[|line| - 1] == val[|val| - 1];
    CoreOfItself(line);
    CoreOfItself(key);
    CoreOfItself(val);
  }

  /** The plain way to write a number, with a minus sign if it is negative. */
  function IntText(n: int): string {
    if n < 0 then ['-'] + Dec(-n) else Dec(n)
  }

  lemma IntValue(n: int)
    requires -0x8000_0000 <= n < 0x8000_0000
    ensures Atoi(IntText(n)) == n
  {
    if n < 0 { AtoiNegative(-n); } else { AtoiDec(n); }
  }

  lemma IntWidth(n: int)
    requires -0x8000_0000 <= n < 0x8000_0000
    ensures var s := IntText(n); 0 < |s| <= 127 && '\n' !in s && !IsSpace(s[0]) && !IsSpace(s[|s| - 1])
  {
    var d := Dec(if n < 0 then -n else n);
    assert Pow10(10) == 10_000_000_000;
    DecLength(if n < 0 then -n else n, 10, 10_000_000_000);
    assert forall i | 0 <= i < |d| :: IsDigit(d[i]);
    assert IntText(n)[|IntText(n)| - 1] == d[|d| - 1];
  }

  lemma NumberSetting(key: string, n: int)
    requires 0 < |key| <= 63 && '=' !in key && key[0] != '#' && !IsSpace(key[0]) && !IsSpace(key[|key| - 1])
    requires -0x8000_0000 <= n < 0x8000_0000
    ensures SettingForm(key + ("=" + IntText(n)), key, IntText(n)) && Atoi(IntText(n)) == n
  {
    IntWidth(n);
    PlainSetting(key, IntText(n));
    IntValue(n);
  }

  /** Exactly the watchdog timeouts from 10 to 60 seconds are accepted, and as written. */
  lemma WdTimeoutNumber(n: int)
    requires -0x8000_0000 <= n < 0x8000_0000
    ensures Classify("wd_timeout_s" + ("=" + IntText(n))) ==
            if 10 <= n <= 60 then WdTimeout(n) else Bad(BadWdTimeout)
  {
    NumberSetting("wd_timeout_s", n);
    WdTimeoutLine("wd_timeout_s" + ("=" + IntText(n)), IntText(n));
  }

  /** Exactly the reboot timeouts from 10 to 300 seconds are accepted, and as written. */
  lemma RebootTimeoutNumber(n: int)
    requires -0x8000_0000 <= n < 0x8000_0000
    ensures Classify("reboot_timeout_s" + ("=" + IntText(n))) ==
            if 10 <= n <= 300 then RebootTimeout(n) else Bad(BadRebootTimeout)
  {
    NumberSetting("reboot_timeout_s", n);
    RebootTimeoutLine("reboot_timeout_s" + ("=" + IntText(n)), IntText(n));
  }

  /** A client timeout in range is taken as written; one that is not, negative ones included, does not
      become a valid one. */
  lemma ClientTimeoutNumber(n: int)
    requires -0x8000_0000 <= n < 0x8000_0000
    ensures var d := Classify("timeout_ms" + ("=" + IntText(n)));
            && d.ClientTimeout? && (5000 <= d.ms <= 300000 <==> 5000 <= n <= 300000)
            && (5000 <= n <= 300000 ==> d.ms == n)
  {
    NumberSetting("timeout_ms", n);
    ClientTimeoutLine("timeout_ms" + ("=" + IntText(n)), IntText(n));
    NarrowedRange(n);
  }

  lemma NarrowedRange(n: int)
    requires -0x8000_0000 <= n < 0x8000_0000
    ensures 5000 <= n % U32 <= 300000 <==> 5000 <= n <= 300000
    ensures n >= 0 ==> n % U32 == n
  {
  }

  lemma AtoiWraps()
    ensures Atoi(Dec(U32 + 10)) == 10
  {
    ScanPrintedNumber(U32 + 10, "");
    assert Dec(U32 + 10) + "" == Dec(U32 + 10);
  }

  /** Beyond 32 bits the range check is passed by what is left of the number: 4294967306 counts as 10. */
  lemma WrappedTimeoutAccepted(line: string)
    requires SettingForm(line, "wd_timeout_s", Dec(U32 + 10))
    ensures Classify(line) == WdTimeout(10)
  {
    AtoiWraps();
    WdTimeoutLine(line, Dec(U32 + 10));
  }

  // ----- lines without a setting -----

  /** Exactly blank lines and comments say nothing. */
  lemma SilentIff(line: string)
    ensures Classify(line) == Nothing <==> exists core :: Core(line, core) && (core == "" || core[0] == '#')
  {
    CoreIsStrip(line, Strip(line));
    forall core | Core(line, core)
      ensures core == Strip(line)
    {
      CoreIsStrip(line, core);
    }
  }

  /** Blanks, a name without ']' that does not start with a blank, and what is left. */
  ghost predicate NameForm(tail: string, name: string, extra: nat) {
    exists lead, rest | Blank(lead) ::
      && tail == lead + (name + rest) && extra == |lead| + |rest|
      && 0 < |name| <= 63 && ']' !in name && !IsSpace(name[0])
      && (rest == "" || rest[0] == ']' || |name| == 63)
  }

  ghost predicate SectionForm(core: string, name: string, extra: nat) {
    "[client" <= core && NameForm(core[7..], name, extra)
  }

  lemma NameFieldFound(lead: string, name: string, rest: string)
    requires Blank(lead) && 0 < |name| <= 63 && ']' !in name && !IsSpace(name[0])
    requires rest == "" || rest[0] == ']' || |name| == 63
    ensures NameField(lead + (name + rest)) == Some(name)
  {
    var s := name + rest;
    BlankIff(lead);
    SkipThrough(lead, s);
    SkipsTo(name, rest);
    SpanIs(s, Not(']'), NAME_SIZE - 1, |name|);
    assert s[..|name|] == name;
  }

  lemma NameSplit(t: string) returns (rest: string)
    requires ScanSet(t, Not(']'), NAME_SIZE - 1).Some?
    ensures var name := ScanSet(t, Not(']'), NAME_SIZE - 1).value.0;
            && t == name + rest && 0 < |name| <= 63 && ']' !in name
            && (rest == "" || rest[0] == ']' || |name| == 63)
  {
    var k := Span(t, Not(']'), NAME_SIZE - 1);
    rest := t[k..];
    assert t == t[..k] + rest;
  }

  lemma LeadingBlanks(s: string) returns (lead: string)
    ensures Blank(lead) && s == lead + SkipSpace(s)
    ensures SkipSpace(s) != "" ==> !IsSpace(SkipSpace(s)[0])
  {
    lead := s[..Span(s, Space, |s|)];
  }

  lemma NameFieldIn(s: string) returns (lead: string, rest: string)
    requires NameField(s).Some?
    ensures var name := NameField(s).value;
            && Blank(lead) && s == lead + (name + rest) && 0 < |name| <= 63 && ']' !in name && !IsSpace(name[0])
            && (rest == "" || rest[0] == ']' || |name| == 63)
  {
    lead := LeadingBlanks(s);
    rest := NameSplit(SkipSpace(s));
  }

  lemma NameFormFound(tail: string, name: string, extra: nat)
    requires NameForm(tail, name, extra)
    ensures NameField(tail) == Some(name) && |tail| == |name| + extra
  {
    var lead, rest :| Blank(lead) && tail == lead + (name + rest) && extra == |lead| + |rest|
      && 0 < |name| <= 63 && ']' !in name && !IsSpace(name[0])
      && (rest == "" || rest[0] == ']' || |name| == 63);
    NameFieldFound(lead, name, rest);
  }

  lemma NameParts(tail: string, lead: string, name: string, rest: string)
    requires Blank(lead) && tail == lead + (name + rest)
    requires 0 < |name| <= 63 && ']' !in name && !IsSpace(name[0])
    requires rest == "" || rest[0] == ']' || |name| == 63
    ensures NameForm(tail, name, |lead| + |rest|)
  {
  }

  lemma SectionFound(core: string, name: string, extra: nat)
    requires SectionForm(core, name, extra)
    ensures SectionName(core) == Some(name) && |core| == 7 + |name| + extra
  {
    NameFormFound(core[7..], name, extra);
  }

  lemma SectionIn(core: string) returns (extra: nat)
    requires SectionName(core).Some?
    ensures SectionForm(core, SectionName(core).value, extra)
  {
    var lead, rest := NameFieldIn(core[7..]);
    extra := |lead| + |rest|;
    NameParts(core[7..], lead, SectionName(core).value, rest);
  }

  lemma NoSettingNoKeyValue(line: string)
    requires '\n' !in Strip(line) && Strip(line) != "" && Strip(line)[0] != '#'
    requires forall key, val :: !SettingForm(line, key, val)
    ensures KeyValue(Strip(line)).None?
  {
    if KeyValue(Strip(line)).Some? {
      var k, v := KeyValueIn(Strip(line));
      CoreIsStrip(line, k + ("=" + v));
      CoreIsStrip(k, Strip(k));
      CoreIsStrip(Clip(v, 128), Strip(Clip(v, 128)));
      assert SettingForm(line, Strip(k), Strip(Clip(v, 128)));
    }
  }

  /** Everything about the other lines: a section line opens a section, unless more than two characters
      besides "[client" and the name stand on it; anything else is complained of. */
  lemma SectionMeaning(line: string, core: string)
    requires OneLine(line) && Core(line, core) && core != "" && core[0] != '#'
    requires forall key, val :: !SettingForm(line, key, val)
    ensures forall name, extra | SectionForm(core, name, extra) ::
              Classify(line) == if extra <= 2 then Section(name) else Bad(BadClientName)
    ensures (forall name, extra :: !SectionForm(core, name, extra)) ==> Classify(line) == Bad(InvalidLine)
  {
    CoreIsStrip(line, core);
    StripOneLine(line);
    NoSettingNoKeyValue(line);
    forall name, extra | SectionForm(core, name, extra)
      ensures Classify(line) == if extra <= 2 then Section(name) else Bad(BadClientName)
    {
      SectionFound(core, name, extra);
    }
    if SectionName(core).Some? {
      var extra := SectionIn(core);
    }
  }

  // ----- the timeout of a section -----

  /** Without a timeout_ms between two lines it is five minutes. */
  lemma {:induction false} DefaultTimeout(ds: seq<Directive>, from: nat, to: nat)
    requires to <= |ds| && forall j | from < j < to :: !ds[j].ClientTimeout?
    ensures LastTimeout(ds, from, to) == 5 * 60 * 1000
  {
    if to > from + 1 {
      DefaultTimeout(ds, from, to - 1);
    }
  }

  /** The last timeout_ms between two lines counts. */
  lemma {:induction false} LastTimeoutCounts(ds: seq<Directive>, from: nat, to: nat, j: nat)
    requires from < j < to <= |ds| && ds[j].ClientTimeout?
    requires forall l | j < l < to :: !ds[l].ClientTimeout?
    ensures LastTimeout(ds, from, to) == ds[j].ms
  {
    if j < to - 1 {
      LastTimeoutCounts(ds, from, to - 1, j);
    }
  }

  // ----- complaints about the whole file -----

  /** The first line that does not fit decides the complaint: a timeout_ms outside every section, or out
      of range; a section too many, overlong or not; or what the line itself is wrong about. */
  lemma FirstComplaint(n: nat, ds: seq<Directive>, o: Oracle, k: nat)
    requires k < |ds| && WellFormed(n, ds[..k]) && !WellFormed(n, ds[..k + 1])
    ensures var sections := |SectionLines(ds[..k])|;
            Fold(n, ds, o) ==
            Fatal(match ds[k]
                  case ClientTimeout(_) => if sections == 0 then TimeoutOutsideSection else BadClientTimeout
                  case Bad(c) => if c == BadClientName && sections == n then TooManyClients else c
                  case _ => TooManyClients)
  {
    var pre, d := ds[..k], ds[k];
    assert ds[..k + 1] == pre + [d];
    FoldAcceptsIff(n, pre, o);
    FoldReflects(n, pre, o);
    FoldAcceptsIff(n, ds[..k + 1], o);
    FoldNext(n, ds, o, k, Fold(n, pre, o));
    FatalStays(n, ds, o, k + 1);
    WellFormedAppend(n, pre, d);
  }

  /** When every line fits, the file is refused exactly for having no section in strict mode, or else for
      a duplicate name in unique mode. */
  lemma ClosingComplaint(n: nat, lines: seq<string>, o: Oracle)
    requires WellFormed(n, Directives(lines))
    ensures var ds := Directives(lines);
            && (Configured(n, lines, o) == Fatal(NoSections) <==> Settings(ds).strict && SectionLines(ds) == [])
            && (Configured(n, lines, o) == Fatal(DuplicateName) <==>
                  && Settings(ds).unique && !DistinctSections(ds)
                  && !(Settings(ds).strict && SectionLines(ds) == []))
            && (Configured(n, lines, o).Fatal? ==> Configured(n, lines, o).complaint in {NoSections, DuplicateName})
  {
    var ds := Directives(lines);
    FoldAcceptsIff(n, ds, o);
    FoldReflects(n, ds, o);
    DuplicatesAreSections(ds, o, Fold(n, ds, o).slots);
  }
}
