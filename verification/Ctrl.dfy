/** wd-ctrl: splitting the STATUS reply, reading its rows, and resolving `<clientID|name>` to the one
    identifier that is unregistered. */
module Ctrl {
  import opened Clock
  import opened CText
  import opened Table
  import opened Protocol

  const BUF_SIZE := 4096

  // ----- reading the reply -----

  datatype Listing = Listing(id: string, pid: int, name: string, timeout: nat)

  /** The fields after the name. */
  function ScanTimeout(id: string, pid: int, name: string, r: string): Option<Listing> {
    match ScanNumeral(r)
    case None => None
    case Some((timeout, _)) => Some(Listing(id, pid, name, AsUInt32(timeout)))
  }

  function ScanName(id: string, pid: int, r: string): Option<Listing> {
    match ScanWord(r, NAME_SIZE - 1)
    case None => None
    case Some((name, rest)) => ScanTimeout(id, pid, name, rest)
  }

  function ScanPid(id: string, r: string): Option<Listing> {
    match ScanNumeral(r)
    case None => None
    case Some((pid, rest)) => ScanName(id, AsInt32(pid), rest)
  }

  /** "%16s %d %63s %u" with all four fields converted. */
  function ScanRow(line: string): Option<Listing> {
    match ScanWord(line, ID_LEN)
    case None => None
    case Some((id, rest)) => ScanPid(id, rest)
  }

  function Scans(lines: seq<string>): (r: seq<Option<Listing>>)
    ensures |r| == |lines| && forall i | 0 <= i < |lines| :: r[i] == ScanRow(lines[i])
  {
    seq(|lines|, i requires 0 <= i < |lines| => ScanRow(lines[i]))
  }

  function Somes<T>(os: seq<Option<T>>): seq<T> {
    if os == [] then []
    else Somes(os[..|os| - 1]) + if os[|os| - 1].Some? then [os[|os| - 1].value] else []
  }

  /** The rows among the lines, in order. */
  function RowsOf(lines: seq<string>): seq<Listing> {
    Somes(Scans(lines))
  }

  function Take<T>(s: seq<T>, n: nat): seq<T> {
    if |s| <= n then s else s[..n]
  }

  /** The state of strtok_r: the token found and the unread text stand for the tokens `left`. */
  ghost predicate Stands(line: Option<(string, string)>, left: seq<string>) {
    if line.None? then left == []
    else left != [] && left[0] == line.value.0 && left[1..] == Tokens(line.value.1, '\n')
  }

  /** The lines taken so far are the first tokens, and `line` is the next one. */
  ghost predicate Taken(all: seq<string>, lines: seq<string>, line: Option<(string, string)>) {
    lines <= all && Stands(line, all[|lines|..])
  }

  lemma NextStands(s: string)
    ensures Stands(NextToken(s, '\n'), Tokens(s, '\n'))
  {
  }

  lemma FirstToken(s: string)
    ensures Taken(Tokens(s, '\n'), [], NextToken(s, '\n'))
  {
    NextStands(s);
    var all := Tokens(s, '\n');
    assert all[0..] == all;
  }

  lemma LaterToken(all: seq<string>, lines: seq<string>, line: Option<(string, string)>)
    requires Taken(all, lines, line) && line.Some?
    ensures Taken(all, lines + [line.value.0], NextToken(line.value.1, '\n'))
  {
    NextStands(line.value.1);
    OneMore(all, lines, line.value.0);
  }

  lemma OneMore<T>(all: seq<T>, lines: seq<T>, x: T)
    requires lines <= all && all[|lines|..] != [] && all[|lines|..][0] == x
    ensures lines + [x] <= all && all[|lines + [x]|..] == all[|lines|..][1..]
  {
  }

  lemma TakenIsTake(all: seq<string>, lines: seq<string>, line: Option<(string, string)>, limit: nat)
    requires Taken(all, lines, line) && |lines| <= limit && (line.None? || |lines| == limit)
    ensures Take(all, limit) == lines
  {
  }

  /** The strtok_r loop with its line limit. */
  method SplitReply(buf: string, limit: nat) returns (lines: seq<string>)
    ensures lines == Take(Tokens(buf, '\n'), limit)
  {
    ghost var all := Tokens(buf, '\n');
    lines := [];
    var line := NextToken(buf, '\n');
    FirstToken(buf);
    while line.Some? && |lines| < limit
      invariant |lines| <= limit && Taken(all, lines, line)
      decreases limit - |lines|
    {
      LaterToken(all, lines, line);
      lines := lines + [line.value.0];
      line := NextToken(line.value.1, '\n');
    }
    TakenIsTake(all, lines, line, limit);
  }

  // ----- STATUS round trip -----

  lemma {:induction false} SomesAppend<T>(a: seq<Option<T>>, b: seq<Option<T>>)
    ensures Somes(a + b) == Somes(a) + Somes(b)
  {
    if b == [] {
      assert a + b == a;
    } else {
      var n := |b| - 1;
      assert (a + b)[..|a + b| - 1] == a + b[..n];
      SomesAppend(a, b[..n]);
    }
  }

  lemma {:induction false} SomesOfAll<T>(os: seq<Option<T>>, vs: seq<T>)
    requires |os| == |vs| && forall i | 0 <= i < |os| :: os[i] == Some(vs[i])
    ensures Somes(os) == vs
  {
    if os != [] {
      var n := |os| - 1;
      SomesOfAll(os[..n], vs[..n]);
      assert vs == vs[..n] + [vs[n]];
    }
  }

  lemma {:induction false} SomesOfNone<T>(os: seq<Option<T>>)
    requires forall i | 0 <= i < |os| :: os[i] == None
    ensures Somes(os) == []
  {
    if os != [] { SomesOfNone(os[..|os| - 1]); }
  }

  lemma ScanNumeralConsumes(s: string)
    requires ScanNumeral(s).Some? && NoSpace(s)
    ensures NoSpace(ScanNumeral(s).value.1) && |ScanNumeral(s).value.1| < |s|
  {
    SkipNothing(s);
  }

  lemma NameEndsLine(id: string, pid: int, r: string)
    requires NoSpace(r) && |r| <= NAME_SIZE - 1
    ensures ScanName(id, pid, r) == None
  {
    SkipNothing(r);
    SpanIs(r, NonSpace, NAME_SIZE - 1, |r|);
    assert ScanNumeral("") == None;
  }

  lemma PidEndsLine(id: string, r: string)
    requires NoSpace(r) && |r| <= NAME_SIZE - 1
    ensures ScanPid(id, r) == None
  {
    match ScanNumeral(r) {
      case None =>
      case Some((pid, rest)) =>
        ScanNumeralConsumes(r);
        NameEndsLine(id, AsInt32(pid), rest);
    }
  }

  /** A line without white space is no row unless it is very long. */
  lemma UnbrokenLineIsNoRow(line: string)
    requires NoSpace(line) && |line| <= ID_LEN + NAME_SIZE - 1
    ensures ScanRow(line) == None
  {
    SkipNothing(line);
    var k := if |line| < ID_LEN then |line| else ID_LEN;
    SpanIs(line, NonSpace, ID_LEN, k);
    PidEndsLine(line[..k], line[k..]);
  }

  function Info(s: Slot): Listing {
    Listing(s.id, s.pid, s.name, s.timeout)
  }

  /** What every occupied slot of a reachable table meets. */
  ghost predicate Listable(s: Slot) {
    IsId(s.id) && ValidTimeout(s.timeout) && LineName(s.name)
  }

  function FirstWord(name: string): string {
    name[..Span(name, NonSpace, |name|)]
  }

  function AfterWord(name: string): string {
    name[Span(name, NonSpace, |name|)..]
  }

  /** A name whose row is read as that of a client named by its first word alone: what follows the word
      reads as a number, or is blank. */
  ghost predicate Deceptive(name: string) {
    !NoSpace(name) && (SkipSpace(AfterWord(name)) == "" || ScanNumeral(AfterWord(name)).Some?)
  }

  /** The row can be read at all, rightly or wrongly. */
  ghost predicate Legible(s: Slot) {
    NoSpace(s.name) || Deceptive(s.name)
  }

  /** What wd-ctrl makes of the row of slot `s`. */
  ghost function Reading(s: Slot): Option<Listing> {
    var word, rest := FirstWord(s.name), AfterWord(s.name);
    if SkipSpace(rest) == "" then Some(Listing(s.id, s.pid, word, s.timeout))
    else match ScanNumeral(rest)
         case None => None
         case Some((num, _)) => Some(Listing(s.id, s.pid, word, AsUInt32(num)))
  }

  lemma SkipInside(s: string, tail: string)
    requires SkipSpace(s) != ""
    ensures SkipSpace(s + tail) == SkipSpace(s) + tail
  {
    var n := Span(s, Space, |s|);
    assert (s + tail)[n] == s[n];
    SpanIs(s + tail, Space, |s + tail|, n);
    assert (s + tail)[n..] == s[n..] + tail;
  }

  lemma MagnitudeInside(s: string, tail: string, negative: bool)
    requires tail != "" && !IsDigit(tail[0])
    ensures ScanMagnitude(s + tail, negative) ==
            match ScanMagnitude(s, negative) case None => None case Some((num, rest)) => Some((num, rest + tail))
  {
    var n := Span(s, Digit, |s|);
    assert n < |s| ==> (s + tail)[n] == s[n];
    assert n == |s| ==> (s + tail)[n] == tail[0];
    SpanIs(s + tail, Digit, |s + tail|, n);
    assert (s + tail)[..n] == s[..n] && (s + tail)[n..] == s[n..] + tail;
  }

  /** A numeral is scanned as if what follows a blank were not there. */
  lemma NumeralInside(s: string, tail: string)
    requires SkipSpace(s) != "" && tail != "" && tail[0] == ' '
    ensures ScanNumeral(s + tail) ==
            match ScanNumeral(s) case None => None case Some((num, rest)) => Some((num, rest + tail))
  {
    SkipInside(s, tail);
    var t := SkipSpace(s);
    assert (t + tail)[0] == t[0];
    if t[0] == '-' || t[0] == '+' {
      assert (t + tail)[1..] == t[1..] + tail;
      MagnitudeInside(t[1..], tail, t[0] == '-');
    } else {
      MagnitudeInside(t, tail, false);
    }
  }

  /** The timeout field comes after the rest of the name. */
  lemma TimeoutReading(s: Slot, word: string, rest: string, flag: string)
    requires ValidTimeout(s.timeout) && flag != "" && !IsDigit(flag[0])
    ensures ScanTimeout(s.id, s.pid, word, rest + (" " + Dec(s.timeout) + flag)) ==
            if SkipSpace(rest) == "" then Some(Listing(s.id, s.pid, word, s.timeout))
            else match ScanNumeral(rest)
                 case None => None
                 case Some((num, _)) => Some(Listing(s.id, s.pid, word, AsUInt32(num)))
  {
    var tail := " " + Dec(s.timeout) + flag;
    if SkipSpace(rest) == "" {
      SkipThrough(rest, tail);
      ScanPrintedNumber(s.timeout, flag);
      SmallUInt32(s.timeout);
    } else {
      NumeralInside(rest, tail);
    }
  }

  lemma WordReading(id: string, pid: int, word: string, after: string)
    requires 0 < |word| < NAME_SIZE && NoSpace(word) && after != "" && IsSpace(after[0])
    ensures ScanName(id, pid, " " + word + after) == ScanTimeout(id, pid, word, after)
  {
    ScanPrintedWord(word, after, NAME_SIZE - 1);
  }

  lemma NameReading(s: Slot, flag: string)
    requires Listable(s) && flag != "" && !IsDigit(flag[0])
    ensures ScanName(s.id, s.pid, " " + s.name + (" " + Dec(s.timeout) + flag)) == Reading(s)
  {
    var word, rest, tail := FirstWord(s.name), AfterWord(s.name), " " + Dec(s.timeout) + flag;
    assert " " + s.name + tail == " " + word + (rest + tail) by { assert s.name == word + rest; }
    assert IsSpace((rest + tail)[0]) by { assert rest != "" ==> (rest + tail)[0] == rest[0]; }
    WordReading(s.id, s.pid, word, rest + tail);
    TimeoutReading(s, word, rest, flag);
  }

  /** Every row of a reachable table is scanned to its reading. */
  lemma RowReading(s: Slot)
    requires Listable(s)
    ensures ScanRow(Row(s)) == Reading(s)
  {
    var flag := " " + if s.checkPid then "1" else "0";
    var r2 := " " + s.name + (" " + Dec(s.timeout) + flag);
    var r1 := " " + Dec(s.pid) + r2;
    assert Row(s) == s.id + r1;
    ScanPrintedWord(s.id, r1, ID_LEN);
    ScanPrintedNumber(s.pid, r2);
    SmallInt32(s.pid);
    NameReading(s, flag);
  }

  /** A name free of white space is its own first word. */
  lemma FirstWordIs(name: string)
    ensures NoSpace(name) <==> FirstWord(name) == name
    ensures NoSpace(name) ==> AfterWord(name) == ""
  {
    if NoSpace(name) {
      SpanIs(name, NonSpace, |name|, |name|);
    } else {
      var i :| 0 <= i < |name| && IsSpace(name[i]);
      assert Span(name, NonSpace, |name|) <= i;
    }
  }

  lemma WordAndRest(word: string, rest: string)
    requires NoSpace(word) && rest != "" && IsSpace(rest[0])
    ensures FirstWord(word + rest) == word && AfterWord(word + rest) == rest && !NoSpace(word + rest)
  {
    var name := word + rest;
    assert name[|word|] == rest[0];
    SpanIs(name, NonSpace, |name|, |word|);
  }

  lemma NoNumeral(s: string, t: string)
    requires SkipSpace(s) == t && t != "" && !IsDigit(t[0]) && t[0] != '-' && t[0] != '+'
    ensures ScanNumeral(s) == None
  {
  }

  lemma NotDeceptive(name: string, rest: string)
    requires AfterWord(name) == rest && SkipSpace(rest) != "" && ScanNumeral(rest) == None
    ensures !Deceptive(name)
  {
  }

  /** Two words, the second of which is no number, form a name whose row is dropped. */
  lemma TwoWordsDropped(word: string, second: string)
    requires word != "" && NoSpace(word) && second != "" && !IsSpace(second[0])
    requires !IsDigit(second[0]) && second[0] != '-' && second[0] != '+'
    ensures !NoSpace(word + (" " + second)) && !Deceptive(word + (" " + second))
  {
    var rest := " " + second;
    WordAndRest(word, rest);
    SkipOneMore(second);
    SkipNothing(second);
    NoNumeral(rest, second);
    NotDeceptive(word + rest, rest);
  }

  /** A whole family of deceptive names: a word and a number, with or without more text. */
  lemma NumberedNameDeceives(word: string, n: nat, tail: string)
    requires NoSpace(word) && (tail == "" || !IsDigit(tail[0]))
    ensures Deceptive(word + (" " + Dec(n) + tail)) && FirstWord(word + (" " + Dec(n) + tail)) == word
  {
    WordAndRest(word, " " + Dec(n) + tail);
    ScanPrintedNumber(n, tail);
  }

  /** The three fates of a row: read back exactly if the name has no white space, taken for another
      client exactly if the name is deceptive, dropped otherwise. */
  lemma RowRoundTripIff(s: Slot)
    requires Listable(s)
    ensures ScanRow(Row(s)) == Some(Info(s)) <==> NoSpace(s.name)
    ensures ScanRow(Row(s)).Some? && ScanRow(Row(s)) != Some(Info(s)) <==> Deceptive(s.name)
    ensures ScanRow(Row(s)).Some? ==>
              ScanRow(Row(s)).value.id == s.id && ScanRow(Row(s)).value.name == FirstWord(s.name)
  {
    RowReading(s);
    FirstWordIs(s.name);
    SkipNothing("");
  }

  ghost predicate Unbroken(line: string) {
    line != "" && NoSpace(line) && |line| <= ID_LEN + NAME_SIZE - 1
  }

  lemma NumberIsUnbroken(key: string, n: nat, digits: nat)
    requires NoSpace(key) && 0 < |key| <= 20 && 1 <= digits <= 10 && n < Pow10(digits)
    ensures Unbroken(key + Dec(n))
  {
    DecLength(n, digits, Pow10(digits));
    assert forall i | 0 <= i < |Dec(n)| :: IsDigit(Dec(n)[i]);
  }

  lemma ConstantsUnbroken(b: bool)
    ensures Unbroken("strict_clients=" + BoolText(b)) && Unbroken("unique_clients=" + BoolText(b))
  {
  }

  lemma VersionsUnbroken()
    ensures Unbroken("daemon_version=" + PACKAGE_VERSION) && Unbroken("protocol_version=" + SOCKET_PROT_VERSION)
  {
  }

  /** Each of the seven header lines is one unbroken piece of text. */
  lemma HeaderUnbroken(cfg: Config, t: seq<Slot>)
    requires 0 <= cfg.wdTimeout < 1000 && 0 <= cfg.rebootTimeout < 1000 && Count(t, Active) < 100000
    ensures forall i | 0 <= i < 7 :: Unbroken(Header(cfg, t)[i])
  {
    PowersOfTen();
    NumberIsUnbroken("wd_timeout_s=", cfg.wdTimeout, 3);
    NumberIsUnbroken("reboot_timeout_s=", cfg.rebootTimeout, 3);
    NumberIsUnbroken("active_clients=", Count(t, Active), 5);
    ConstantsUnbroken(cfg.strict);
    ConstantsUnbroken(cfg.unique);
    VersionsUnbroken();
  }

  lemma PowersOfTen()
    ensures Pow10(3) == 1000 && Pow10(5) == 100000 && Pow10(6) == 1_000_000 && Pow10(10) == 10_000_000_000
  {
  }

  function Infos(ss: seq<Slot>): (r: seq<Listing>)
    ensures |r| == |ss| && forall i | 0 <= i < |ss| :: r[i] == Info(ss[i])
  {
    seq(|ss|, i requires 0 <= i < |ss| => Info(ss[i]))
  }

  lemma ScansOfHeader(h: seq<string>)
    requires forall i | 0 <= i < |h| :: Unbroken(h[i])
    ensures forall i | 0 <= i < |h| :: Scans(h)[i] == None
  {
    forall i | 0 <= i < |h|
      ensures Scans(h)[i] == None
    {
      UnbrokenLineIsNoRow(h[i]);
    }
  }

  lemma ScansAppend(a: seq<string>, b: seq<string>)
    ensures Scans(a + b) == Scans(a) + Scans(b)
  {
  }

  /** Header lines are dropped, whatever the rows. */
  lemma RowsRemain(h: seq<string>, rows: seq<string>)
    requires forall i | 0 <= i < |h| :: Unbroken(h[i])
    ensures RowsOf(h + rows) == RowsOf(rows)
  {
    ScansOfHeader(h);
    ScansAppend(h, rows);
    SomesDrop(Scans(h), Scans(rows));
  }

  lemma SomesDrop<T>(a: seq<Option<T>>, b: seq<Option<T>>)
    requires forall i | 0 <= i < |a| :: a[i] == None
    ensures Somes(a + b) == Somes(b)
  {
    SomesOfNone(a);
    SomesAppend(a, b);
  }

  /** Keeping as many values as there were options means that every option was kept, in its place. */
  lemma {:induction false} SomesAll<T>(os: seq<Option<T>>)
    ensures |Somes(os)| <= |os|
    ensures |Somes(os)| == |os| ==> forall i | 0 <= i < |os| :: os[i] == Some(Somes(os)[i])
  {
    if os != [] {
      SomesAll(os[..|os| - 1]);
    }
  }

  lemma SomesIff<T>(os: seq<Option<T>>, vs: seq<T>)
    requires |os| == |vs|
    ensures Somes(os) == vs <==> forall i | 0 <= i < |os| :: os[i] == Some(vs[i])
  {
    SomesAll(os);
    if forall i | 0 <= i < |os| :: os[i] == Some(vs[i]) {
      SomesOfAll(os, vs);
    }
  }

  /** All rows are recovered exactly if every name is free of white space. */
  lemma RowsRecoveredIff(ss: seq<Slot>)
    requires forall i | 0 <= i < |ss| :: Listable(ss[i])
    ensures RowsOf(Rows(ss)) == Infos(ss) <==> forall i | 0 <= i < |ss| :: NoSpace(ss[i].name)
  {
    var os, vs := Scans(Rows(ss)), Infos(ss);
    forall i | 0 <= i < |ss|
      ensures os[i] == Some(vs[i]) <==> NoSpace(ss[i].name)
    {
      RowRoundTripIff(ss[i]);
    }
    SomesIff(os, vs);
  }

  lemma {:induction false} ListedFacts(t: seq<Slot>)
    ensures |Listed(t)| <= |t| && Count(t, Active) <= |Listed(t)|
    ensures forall i | 0 <= i < |Listed(t)| :: Occupied(Listed(t)[i]) && Listed(t)[i] in t
  {
    if t != [] {
      ListedFacts(t[..|t| - 1]);
    }
  }

  lemma {:induction false} LinesLength(ls: seq<string>)
    ensures |ls| <= |Lines(ls)|
  {
    if ls != [] { LinesLength(ls[1..]); }
  }

  lemma {:induction false} ListedComplete(t: seq<Slot>)
    ensures forall i | 0 <= i < |t| && Occupied(t[i]) :: t[i] in Listed(t)
  {
    if t != [] {
      ListedComplete(t[..|t| - 1]);
      assert forall i | 0 <= i < |t| - 1 :: t[i] == t[..|t| - 1][i];
    }
  }

  lemma RowIsLine(s: Slot)
    requires Listable(s)
    ensures IsLine(Row(s))
  {
    var r := Row(s);
    var d, e := Dec(s.pid), Dec(s.timeout);
    assert forall i | 0 <= i < |d| :: IsDigit(d[i]);
    assert forall i | 0 <= i < |e| :: IsDigit(e[i]);
    assert '\n' !in s.id && '\n' !in d && '\n' !in s.name && '\n' !in e;
  }

  lemma UnbrokenIsLine(line: string)
    requires Unbroken(line)
    ensures IsLine(line)
  {
    assert forall j | 0 <= j < |line| :: line[j] != '\n';
  }

  lemma LinesOfBoth(h: seq<string>, ss: seq<Slot>)
    requires forall i | 0 <= i < |h| :: Unbroken(h[i])
    requires forall i | 0 <= i < |ss| :: Listable(ss[i])
    ensures Tokens(Lines(h + Rows(ss)), '\n') == h + Rows(ss)
  {
    forall i | 0 <= i < |h|
      ensures IsLine(h[i])
    {
      UnbrokenIsLine(h[i]);
    }
    forall i | 0 <= i < |ss|
      ensures IsLine(Rows(ss)[i])
    {
      RowIsLine(ss[i]);
    }
    TokensOfLines(h + Rows(ss));
  }

  lemma StatusTokens(cfg: Config, t: seq<Slot>)
    requires forall i | 0 <= i < 7 :: Unbroken(Header(cfg, t)[i])
    requires forall i | 0 <= i < |Listed(t)| :: Listable(Listed(t)[i])
    ensures Tokens(StatusText(cfg, t), '\n') == Header(cfg, t) + Rows(Listed(t))
  {
    LinesOfBoth(Header(cfg, t), Listed(t));
  }

  /** The rows wd-ctrl has after splitting and scanning the broker's STATUS reply for table `t`. */
  function Received(cfg: Config, t: seq<Slot>): seq<Listing> {
    RowsOf(Take(Tokens(Clip(StatusText(cfg, t), BUF_SIZE), '\n'), |t| + 9))
  }

  /** When the reply fits the 4096-byte buffers, exactly the header lines are dropped by the splitting,
      and the line limit loses nothing. */
  lemma StatusRows(cfg: Config, t: seq<Slot>)
    requires 0 <= cfg.wdTimeout < 1000 && 0 <= cfg.rebootTimeout < 1000
    requires forall i | 0 <= i < |t| && Occupied(t[i]) :: Listable(t[i])
    requires |StatusText(cfg, t)| < BUF_SIZE
    ensures Received(cfg, t) == RowsOf(Rows(Listed(t)))
  {
    var h, r := Header(cfg, t), Rows(Listed(t));
    ListedFacts(t);
    LinesLength(h + r);
    HeaderUnbroken(cfg, t);
    StatusTokens(cfg, t);
    RowsRemain(h, r);
  }

  /** STATUS round trip: wd-ctrl recovers ID, PID, name and timeout of every occupied slot, in table
      order and nothing else, exactly if no occupied slot's name contains white space. */
  lemma StatusRoundTripIff(cfg: Config, t: seq<Slot>)
    requires 0 <= cfg.wdTimeout < 1000 && 0 <= cfg.rebootTimeout < 1000
    requires forall i | 0 <= i < |t| && Occupied(t[i]) :: Listable(t[i])
    requires |StatusText(cfg, t)| < BUF_SIZE
    ensures Received(cfg, t) == Infos(Listed(t)) <==>
            forall i | 0 <= i < |t| && Occupied(t[i]) :: NoSpace(t[i].name)
  {
    StatusRows(cfg, t);
    ListedFacts(t);
    ListedComplete(t);
    RowsRecoveredIff(Listed(t));
    assert forall i | 0 <= i < |Listed(t)| :: Listed(t)[i] in t;
  }

  // ----- what `wd-ctrl status` shows -----

  /** "%63[^=]=%63s" with both fields converted. */
  function HeaderField(line: string): Option<(string, string)> {
    match ScanSet(line, Not('='), 63)
    case None => None
    case Some((key, r)) =>
      if r == "" || r[0] != '=' then None
      else match ScanWord(r[1..], 63)
           case None => None
           case Some((val, _)) => Some((key, val))
  }

  lemma HeaderFieldOf(key: string, val: string)
    requires 0 < |key| <= 63 && '=' !in key && 0 < |val| <= 63 && NoSpace(val)
    ensures HeaderField(key + "=" + val) == Some((key, val))
  {
    var s := key + "=" + val;
    SpanIs(s, Not('='), 63, |key|);
    var r := s[|key|..];
    assert s[..|key|] == key && r[1..] == val + "";
    ScanPrintedWord(val, "", 63);
  }

  /** The line shows a number under its key. */
  ghost predicate ShowsNumber(line: string, key: string, n: nat) {
    HeaderField(line).Some? && HeaderField(line).value.0 == key && Atoi(HeaderField(line).value.1) == n
  }

  lemma NumberShown(key: string, n: nat)
    requires 0 < |key| <= 63 && '=' !in key && n < 1000
    ensures ShowsNumber(key + "=" + Dec(n), key, n)
  {
    PowersOfTen();
    DecLength(n, 3, 1000);
    assert forall i | 0 <= i < |Dec(n)| :: IsDigit(Dec(n)[i]);
    HeaderFieldOf(key, Dec(n));
    ScanPrintedNumber(n, "");
    assert Dec(n) + "" == Dec(n);
    SmallInt32(n);
  }

  lemma FlagShown(key: string, on: bool)
    requires 0 < |key| <= 63 && '=' !in key
    ensures HeaderField(key + "=" + BoolText(on)) == Some((key, if on then "true" else "false"))
  {
    HeaderFieldOf(key, BoolText(on));
  }

  lemma NumberLine(cfg: Config, t: seq<Slot>, i: nat, head: string, key: string, n: nat)
    requires i < 7 && Header(cfg, t)[i] == head + Dec(n) && head == key + "="
    requires 0 < |key| <= 63 && '=' !in key && n < 1000
    ensures ShowsNumber(Header(cfg, t)[i], key, n)
  {
    NumberShown(key, n);
  }

  lemma FlagLine(cfg: Config, t: seq<Slot>, i: nat, head: string, key: string, on: bool)
    requires i < 7 && Header(cfg, t)[i] == head + BoolText(on) && head == key + "="
    requires 0 < |key| <= 63 && '=' !in key
    ensures HeaderField(Header(cfg, t)[i]) == Some((key, if on then "true" else "false"))
  {
    FlagShown(key, on);
  }

  /** The header tells the settings under their names: both timeouts, both modes, and the number of
      active clients. */
  lemma WdTimeoutTold(cfg: Config, t: seq<Slot>)
    requires 0 <= cfg.wdTimeout < 1000
    ensures ShowsNumber(Header(cfg, t)[2], "wd_timeout_s", cfg.wdTimeout)
  {
    NumberLine(cfg, t, 2, "wd_timeout_s=", "wd_timeout_s", cfg.wdTimeout);
  }

  lemma RebootTimeoutTold(cfg: Config, t: seq<Slot>)
    requires 0 <= cfg.rebootTimeout < 1000
    ensures ShowsNumber(Header(cfg, t)[3], "reboot_timeout_s", cfg.rebootTimeout)
  {
    NumberLine(cfg, t, 3, "reboot_timeout_s=", "reboot_timeout_s", cfg.rebootTimeout);
  }

  lemma StrictTold(cfg: Config, t: seq<Slot>)
    ensures HeaderField(Header(cfg, t)[4]) == Some(("strict_clients", if cfg.strict then "true" else "false"))
  {
    FlagLine(cfg, t, 4, "strict_clients=", "strict_clients", cfg.strict);
  }

  lemma UniqueTold(cfg: Config, t: seq<Slot>)
    ensures HeaderField(Header(cfg, t)[5]) == Some(("unique_clients", if cfg.unique then "true" else "false"))
  {
    FlagLine(cfg, t, 5, "unique_clients=", "unique_clients", cfg.unique);
  }

  lemma ActiveTold(cfg: Config, t: seq<Slot>)
    requires Count(t, Active) < 1000
    ensures |Header(cfg, t)| == 7 && ShowsNumber(Header(cfg, t)[6], "active_clients", Count(t, Active))
  {
    NumberLine(cfg, t, 6, "active_clients=", "active_clients", Count(t, Active));
  }

  lemma TextLine(cfg: Config, t: seq<Slot>, i: nat, head: string, key: string, val: string)
    requires i < 7 && Header(cfg, t)[i] == head + val && head == key + "="
    requires 0 < |key| <= 63 && '=' !in key && 0 < |val| <= 63 && NoSpace(val)
    ensures HeaderField(Header(cfg, t)[i]) == Some((key, val))
  {
    HeaderFieldOf(key, val);
  }

  lemma VersionNumbers()
    ensures 0 < |PACKAGE_VERSION| <= 63 && NoSpace(PACKAGE_VERSION)
    ensures 0 < |SOCKET_PROT_VERSION| <= 63 && NoSpace(SOCKET_PROT_VERSION)
  {
  }

  lemma DaemonVersionTold(cfg: Config, t: seq<Slot>)
    ensures HeaderField(Header(cfg, t)[0]) == Some(("daemon_version", PACKAGE_VERSION))
  {
    VersionNumbers();
    TextLine(cfg, t, 0, "daemon_version=", "daemon_version", PACKAGE_VERSION);
  }

  lemma ProtocolVersionTold(cfg: Config, t: seq<Slot>)
    ensures HeaderField(Header(cfg, t)[1]) == Some(("protocol_version", SOCKET_PROT_VERSION))
  {
    VersionNumbers();
    TextLine(cfg, t, 1, "protocol_version=", "protocol_version", SOCKET_PROT_VERSION);
  }

  /** The fifth field of a row: "%16s %d %63s %u %d". */
  function ShownFlag(line: string): Option<bool> {
    match ScanWord(line, ID_LEN)
    case None => None
    case Some((_, r)) => FlagAfterId(r)
  }

  function FlagAfterId(r: string): Option<bool> {
    match ScanNumeral(r)
    case None => None
    case Some((_, rest)) => FlagAfterPid(rest)
  }

  function FlagAfterPid(r: string): Option<bool> {
    match ScanWord(r, NAME_SIZE - 1)
    case None => None
    case Some((_, rest)) => SecondNumber(rest)
  }

  function SecondNumber(r: string): Option<bool> {
    match ScanNumeral(r)
    case None => None
    case Some((_, rest)) => FlagNumber(rest)
  }

  function FlagNumber(r: string): Option<bool> {
    match ScanNumeral(r)
    case None => None
    case Some((flag, _)) => Some(AsInt32(flag) != 0)
  }

  lemma FlagNumberOf(n: nat)
    requires n < 2
    ensures FlagNumber(" " + Dec(n)) == Some(n == 1)
  {
    ScanPrintedNumber(n, "");
    assert " " + Dec(n) + "" == " " + Dec(n);
    SmallInt32(n);
  }

  lemma SecondNumberOf(timeout: nat, on: bool)
    ensures SecondNumber(" " + Dec(timeout) + (" " + Dec(if on then 1 else 0))) == Some(on)
  {
    var tail := " " + Dec(if on then 1 else 0);
    ScanPrintedNumber(timeout, tail);
    FlagNumberOf(if on then 1 else 0);
  }

  lemma FlagTextIs(on: bool)
    ensures Dec(if on then 1 else 0) == if on then "1" else "0"
  {
  }

  lemma NameAndFlag(s: Slot)
    requires Listable(s) && NoSpace(s.name)
    ensures FlagAfterPid(" " + s.name + (" " + Dec(s.timeout) + (" " + Dec(if s.checkPid then 1 else 0))))
         == Some(s.checkPid)
  {
    var r := " " + Dec(s.timeout) + (" " + Dec(if s.checkPid then 1 else 0));
    ScanPrintedWord(s.name, r, NAME_SIZE - 1);
    SecondNumberOf(s.timeout, s.checkPid);
  }

  lemma RowText(s: Slot, r2: string)
    requires r2 == " " + s.name + (" " + Dec(s.timeout) + (" " + Dec(if s.checkPid then 1 else 0)))
    ensures Row(s) == s.id + (" " + Dec(s.pid) + r2)
  {
    FlagTextIs(s.checkPid);
  }

  /** A row whose name is free of white space shows the PID check as on exactly if it is on. */
  lemma FlagTold(s: Slot)
    requires Listable(s) && NoSpace(s.name)
    ensures ShownFlag(Row(s)) == Some(s.checkPid)
  {
    var r2 := " " + s.name + (" " + Dec(s.timeout) + (" " + Dec(if s.checkPid then 1 else 0)));
    NameAndFlag(s);
    RowText(s, r2);
    ScanPrintedWord(s.id, " " + Dec(s.pid) + r2, ID_LEN);
    ScanPrintedNumber(s.pid, r2);
  }

  // ----- when the reply fits -----

  const FITTING_CLIENTS := 39

  lemma HeaderWidth(cfg: Config, t: seq<Slot>)
    requires 0 <= cfg.wdTimeout < 1000 && 0 <= cfg.rebootTimeout < 1000 && Count(t, Active) < 1000
    ensures forall i | 0 <= i < 7 :: |Header(cfg, t)[i]| <= 20
  {
    PowersOfTen();
    DecLength(cfg.wdTimeout, 3, 1000);
    DecLength(cfg.rebootTimeout, 3, 1000);
    DecLength(Count(t, Active), 3, 1000);
  }

  lemma RowWidth(s: Slot)
    requires Listable(s)
    ensures |Row(s)| <= 100
  {
    PowersOfTen();
    DecLength(s.pid, 10, 10_000_000_000);
    DecLength(s.timeout, 6, 1_000_000);
  }

  /** The reply fits whenever at most 39 clients are registered or announced, however long their names. */
  lemma StatusFits(cfg: Config, t: seq<Slot>)
    requires 0 <= cfg.wdTimeout < 1000 && 0 <= cfg.rebootTimeout < 1000
    requires forall i | 0 <= i < |t| && Occupied(t[i]) :: Listable(t[i])
    requires |Listed(t)| <= FITTING_CLIENTS
    ensures |StatusText(cfg, t)| < BUF_SIZE
  {
    var h, r := Header(cfg, t), Rows(Listed(t));
    ListedFacts(t);
    HeaderWidth(cfg, t);
    forall i | 0 <= i < |r|
      ensures |r[i]| <= 100
    {
      RowWidth(Listed(t)[i]);
    }
    LinesBound(h, 20);
    LinesBound(r, 100);
    LinesAppend(h, r);
  }

  // ----- members of the scanned listing -----

  lemma SplitAfter<T>(os: seq<T>, i: nat)
    requires i < |os|
    ensures os[..i + 1] == os[..i] + [os[i]] && os == os[..i + 1] + os[i + 1..]
  {
  }

  lemma SomesSnoc<T>(os: seq<Option<T>>, o: Option<T>)
    ensures Somes(os + [o]) == Somes(os) + if o.Some? then [o.value] else []
  {
    assert (os + [o])[..|os|] == os;
  }

  lemma SomesNext<T>(os: seq<Option<T>>, i: nat)
    requires i < |os|
    ensures Somes(os[..i + 1]) == Somes(os[..i]) + if os[i].Some? then [os[i].value] else []
    ensures Somes(os[..i + 1]) <= Somes(os)
  {
    SplitAfter(os, i);
    SomesSnoc(os[..i], os[i]);
    SomesAppend(os[..i + 1], os[i + 1..]);
  }

  // ----- reboot -----

  /** The seconds `wd-ctrl reboot` reports are those the broker answered with. */
  lemma RebootReplyRoundTrip(seconds: nat)
    requires seconds < U32 / 2
    ensures var reply := Render(OkReboot(seconds));
            StartsWith(reply, "OK") && Atoi(reply[3..]) == seconds
  {
    var reply := "OK, " + Dec(seconds) + "\n";
    assert reply[..2] == "OK" && reply[3..] == " " + Dec(seconds) + "\n";
    ScanPrintedNumber(seconds, "\n");
    SmallInt32(seconds);
  }

  // ----- resolving the argument -----

  /** The command sent for the resolved ID. */
  function UnregisterText(id: string): string {
    Clip(CMD_UNREGISTER + (id + "\n"), CMD_SIZE)
  }

  datatype Resolution = Send(id: string) | NotUnique | UnknownClient

  /** The first row whose ID is x, or the number of rows. */
  function IdIndex(rs: seq<Listing>, x: string): (i: nat)
    ensures i <= |rs|
    ensures forall j | 0 <= j < i :: rs[j].id != x
    ensures i < |rs| ==> rs[i].id == x
  {
    if rs == [] || rs[0].id == x then 0 else 1 + IdIndex(rs[1..], x)
  }

  /** How many rows are named x without having x as ID. */
  function NameCount(rs: seq<Listing>, x: string): nat {
    if rs == [] then 0
    else NameCount(rs[..|rs| - 1], x) + if rs[|rs| - 1].name == x && rs[|rs| - 1].id != x then 1 else 0
  }

  function LastNamed(rs: seq<Listing>, x: string): string {
    if rs == [] then ""
    else if rs[|rs| - 1].name == x && rs[|rs| - 1].id != x then rs[|rs| - 1].id
    else LastNamed(rs[..|rs| - 1], x)
  }

  function Resolve(rs: seq<Listing>, x: string): Resolution {
    var k := IdIndex(rs, x);
    var c := NameCount(rs[..k], x);
    if c > 1 then NotUnique
    else if k < |rs| then Send(x)
    else if c == 1 then Send(LastNamed(rs, x))
    else UnknownClient
  }

  lemma IdIndexIs(rs: seq<Listing>, x: string, k: nat)
    requires k <= |rs| && (k < |rs| ==> rs[k].id == x)
    requires forall j | 0 <= j < k :: rs[j].id != x
    ensures IdIndex(rs, x) == k
  {
    assert !(IdIndex(rs, x) < k) && !(k < IdIndex(rs, x));
  }

  /** The loop variables after the rows `done`, none of which has the argument as ID. */
  ghost predicate Tracks(done: seq<Listing>, x: string, candidate: string, matchCount: nat) {
    && (forall j | 0 <= j < |done| :: done[j].id != x)
    && matchCount == NameCount(done, x)
    && candidate == LastNamed(done, x)
  }

  lemma TracksNext(done: seq<Listing>, x: string, candidate: string, matchCount: nat, row: Listing)
    requires Tracks(done, x, candidate, matchCount) && row.id != x
    ensures if row.name == x then Tracks(done + [row], x, row.id, matchCount + 1)
            else Tracks(done + [row], x, candidate, matchCount)
  {
    assert (done + [row])[..|done|] == done;
  }

  /** Leaving the loop on a matching ID. */
  lemma TracksHit(rs: seq<Listing>, done: seq<Listing>, x: string, candidate: string, matchCount: nat, row: Listing)
    requires Tracks(done, x, candidate, matchCount) && row.id == x && done + [row] <= rs
    ensures Resolve(rs, x) == if matchCount > 1 then NotUnique else Send(x)
  {
    assert rs[|done|] == row && rs[..|done|] == done;
    IdIndexIs(rs, x, |done|);
  }

  /** Leaving the loop at its end. */
  lemma TracksEnd(rs: seq<Listing>, x: string, candidate: string, matchCount: nat)
    requires Tracks(rs, x, candidate, matchCount)
    ensures Resolve(rs, x) ==
            if matchCount > 1 then NotUnique else if matchCount == 0 then UnknownClient else Send(candidate)
  {
    IdIndexIs(rs, x, |rs|);
    assert rs[..|rs|] == rs;
  }

  /** What one more row does to the loop variables, or to the result if its ID is the argument. */
  ghost predicate Turn(
    all: seq<Listing>, next: seq<Listing>, row: Listing, x: string, candidate: string, matchCount: nat)
  {
    if row.id == x then Resolve(all, x) == if matchCount > 1 then NotUnique else Send(x)
    else if row.name == x then Tracks(next, x, row.id, matchCount + 1)
    else Tracks(next, x, candidate, matchCount)
  }

  lemma TurnHolds(all: seq<Listing>, done: seq<Listing>, row: Listing, x: string, candidate: string, matchCount: nat)
    requires Tracks(done, x, candidate, matchCount) && done + [row] <= all
    ensures Turn(all, done + [row], row, x, candidate, matchCount)
  {
    if row.id == x {
      TracksHit(all, done, x, candidate, matchCount, row);
    } else {
      TracksNext(done, x, candidate, matchCount, row);
    }
  }

  lemma TurnOf(all: seq<Listing>, done: seq<Listing>, next: seq<Listing>, o: Option<Listing>, x: string,
               candidate: string, matchCount: nat)
    requires Tracks(done, x, candidate, matchCount)
    requires next == (done + if o.Some? then [o.value] else []) && next <= all
    ensures o.None? ==> Tracks(next, x, candidate, matchCount)
    ensures o.Some? ==> Turn(all, next, o.value, x, candidate, matchCount)
  {
    match o {
      case None => assert next == done;
      case Some(row) => TurnHolds(all, done, row, x, candidate, matchCount);
    }
  }

  /** One turn of the loop over the scanned lines. */
  lemma TracksLine(os: seq<Option<Listing>>, i: nat, x: string, candidate: string, matchCount: nat)
    requires i < |os| && Tracks(Somes(os[..i]), x, candidate, matchCount)
    ensures os[i].None? ==> Tracks(Somes(os[..i + 1]), x, candidate, matchCount)
    ensures os[i].Some? ==> Turn(Somes(os), Somes(os[..i + 1]), os[i].value, x, candidate, matchCount)
  {
    SomesNext(os, i);
    TurnOf(Somes(os), Somes(os[..i]), Somes(os[..i + 1]), os[i], x, candidate, matchCount);
  }

  method ReadRow(lines: seq<string>, i: nat) returns (row: Option<Listing>)
    requires i < |lines|
    ensures row == Scans(lines)[i]
  {
    row := ScanRow(lines[i]);
  }

  /** The loop variables before line i. */
  ghost predicate Looked(os: seq<Option<Listing>>, i: nat, x: string, candidate: string, found: bool, matchCount: nat)
    requires i <= |os|
  {
    Tracks(Somes(os[..i]), x, candidate, matchCount) && (found <==> matchCount > 0)
  }

  /** What is done with the loop variables in the end. */
  function Conclusion(candidate: string, found: bool, matchCount: nat): Resolution {
    if matchCount > 1 then NotUnique else if !found then UnknownClient else Send(candidate)
  }

  /** The loop variables lead to the right conclusion. */
  ghost predicate Settled(lines: seq<string>, x: string, candidate: string, found: bool, matchCount: nat) {
    Resolve(RowsOf(lines), x) == Conclusion(candidate, found, matchCount)
  }

  lemma LookedNone(os: seq<Option<Listing>>, x: string)
    ensures Looked(os, 0, x, "", false, 0)
  {
    assert os[..0] == [];
  }

  lemma LookedAll(lines: seq<string>, x: string, candidate: string, found: bool, matchCount: nat)
    requires Looked(Scans(lines), |lines|, x, candidate, found, matchCount)
    ensures Settled(lines, x, candidate, found, matchCount)
  {
    assert Scans(lines)[..|lines|] == Scans(lines);
    TracksEnd(RowsOf(lines), x, candidate, matchCount);
  }

  /** The loop's body. */
  method LookAt(lines: seq<string>, i: nat, client: string, candidate: string, found: bool, matchCount: nat)
    returns (hit: bool, candidate': string, found': bool, matchCount': nat)
    requires i < |lines| && Looked(Scans(lines), i, client, candidate, found, matchCount)
    ensures if hit then Settled(lines, client, candidate', found', matchCount')
            else Looked(Scans(lines), i + 1, client, candidate', found', matchCount')
  {
    hit, candidate', found', matchCount' := false, candidate, found, matchCount;
    var row := ReadRow(lines, i);
    TracksLine(Scans(lines), i, client, candidate, matchCount);
    if row.Some? {
      if client == row.value.id {
        hit, candidate', found' := true, row.value.id, true;
      } else if client == row.value.name {
        candidate', found', matchCount' := row.value.id, true, matchCount + 1;
      }
    }
  }

  /** The loop of `wd-ctrl unregister` over the lines, with its early exit on a matching ID. */
  method LookThrough(lines: seq<string>, client: string) returns (candidate: string, found: bool, matchCount: nat)
    ensures Settled(lines, client, candidate, found, matchCount)
  {
    candidate, found, matchCount := "", false, 0;
    ghost var os := Scans(lines);
    LookedNone(os, client);
    for i := 0 to |lines|
      invariant Looked(os, i, client, candidate, found, matchCount)
    {
      var hit;
      hit, candidate, found, matchCount := LookAt(lines, i, client, candidate, found, matchCount);
      if hit {
        return;
      }
    }
    LookedAll(lines, client, candidate, found, matchCount);
  }

  /** `wd-ctrl unregister` from the lines to the ID it sends, or to its complaint. */
  method ResolveTarget(lines: seq<string>, client: string) returns (r: Resolution)
    ensures r == Resolve(RowsOf(lines), client)
  {
    var candidate, found, matchCount := LookThrough(lines, client);
    if matchCount > 1 {
      return NotUnique;
    } else if !found {
      return UnknownClient;
    }
    return Send(candidate);
  }

  lemma {:induction false} NamedTwice(rs: seq<Listing>, x: string, i: nat, j: nat)
    requires forall l | 0 <= l < |rs| :: rs[l].id != x
    requires i < j < |rs| && rs[i].name == x && rs[j].name == x
    ensures NameCount(rs, x) > 1
  {
    var n := |rs| - 1;
    if j < n {
      NamedTwice(rs[..n], x, i, j);
    } else {
      NamedOnce(rs[..n], x, i);
    }
  }

  lemma {:induction false} NamedOnce(rs: seq<Listing>, x: string, i: nat)
    requires forall l | 0 <= l < |rs| :: rs[l].id != x
    requires i < |rs| && rs[i].name == x
    ensures NameCount(rs, x) > 0
  {
    var n := |rs| - 1;
    if i < n { NamedOnce(rs[..n], x, i); }
  }

  lemma {:induction false} NameCountFacts(rs: seq<Listing>, x: string)
    requires forall j | 0 <= j < |rs| :: rs[j].id != x
    ensures NameCount(rs, x) == 0 <==> forall j | 0 <= j < |rs| :: rs[j].name != x
    ensures NameCount(rs, x) == 1 ==>
              exists i | 0 <= i < |rs| :: rs[i].name == x && rs[i].id == LastNamed(rs, x)
                && forall j | 0 <= j < |rs| && j != i :: rs[j].name != x
    ensures NameCount(rs, x) > 1 ==> exists i, j | 0 <= i < j < |rs| :: rs[i].name == x && rs[j].name == x
  {
    if rs != [] {
      var n := |rs| - 1;
      var u := rs[..n];
      NameCountFacts(u, x);
      assert forall j | 0 <= j < n :: u[j] == rs[j];
      if rs[n].name == x {
        if NameCount(u, x) >= 1 {
          var i :| 0 <= i < n && u[i].name == x;
          assert rs[i].name == x && rs[n].name == x;
        } else {
          assert rs[n].name == x && rs[n].id == LastNamed(rs, x);
        }
      } else if NameCount(u, x) == 1 {
        var i :| 0 <= i < n && u[i].name == x && u[i].id == LastNamed(u, x)
          && forall j | 0 <= j < n && j != i :: u[j].name != x;
        assert rs[i].name == x && rs[i].id == LastNamed(rs, x);
      } else if NameCount(u, x) > 1 {
        var i, j :| 0 <= i < j < n && u[i].name == x && u[j].name == x;
        assert rs[i].name == x && rs[j].name == x;
      }
    }
  }

  /** Two rows bear the argument as name before any row bears it as ID. */
  ghost predicate Ambiguous(rs: seq<Listing>, x: string) {
    exists i, j | 0 <= i < j < |rs| :: rs[i].name == x && rs[j].name == x && forall l | 0 <= l <= j :: rs[l].id != x
  }

  ghost predicate ListsId(rs: seq<Listing>, x: string) {
    exists i | 0 <= i < |rs| :: rs[i].id == x
  }

  ghost predicate OnlyNamed(rs: seq<Listing>, x: string, i: nat) {
    i < |rs| && rs[i].name == x && forall j | 0 <= j < |rs| && j != i :: rs[j].name != x
  }

  /** The ambiguity error is reported exactly for an ambiguous listing, even if the argument is a listed ID. */
  lemma AmbiguousIff(rs: seq<Listing>, x: string)
    ensures Resolve(rs, x) == NotUnique <==> Ambiguous(rs, x)
  {
    var k := IdIndex(rs, x);
    NameCountFacts(rs[..k], x);
    if NameCount(rs[..k], x) > 1 {
      var i, j :| 0 <= i < j < k && rs[..k][i].name == x && rs[..k][j].name == x;
      assert rs[i].name == x && rs[j].name == x;
    }
    if Ambiguous(rs, x) {
      var i, j :| 0 <= i < j < |rs| && rs[i].name == x && rs[j].name == x && forall l | 0 <= l <= j :: rs[l].id != x;
      assert !(k <= j);
      NamedTwice(rs[..k], x, i, j);
    }
  }

  lemma UnlistedResolution(rs: seq<Listing>, x: string)
    requires !ListsId(rs, x)
    ensures Resolve(rs, x) == UnknownClient <==> forall i | 0 <= i < |rs| :: rs[i].name != x
    ensures Resolve(rs, x).Send? ==> exists i: nat :: OnlyNamed(rs, x, i) && Resolve(rs, x).id == rs[i].id
  {
    IdIndexIs(rs, x, |rs|);
    assert rs[..|rs|] == rs;
    NameCountFacts(rs, x);
    if Resolve(rs, x).Send? {
      var i :| 0 <= i < |rs| && rs[i].name == x && rs[i].id == LastNamed(rs, x)
        && forall j | 0 <= j < |rs| && j != i :: rs[j].name != x;
      assert OnlyNamed(rs, x, i);
    }
  }

  /** Resolution is sound and complete: what is sent is the argument itself, exactly when it is a listed
      ID and the listing is not ambiguous, or else the ID of the only listed client of that name; nothing
      is sent exactly when the listing is ambiguous or the argument is neither ID nor name in it. */
  lemma ResolveSound(rs: seq<Listing>, x: string)
    ensures Resolve(rs, x) == NotUnique <==> Ambiguous(rs, x)
    ensures Resolve(rs, x) == UnknownClient <==> forall i | 0 <= i < |rs| :: rs[i].id != x && rs[i].name != x
    ensures ListsId(rs, x) && !Ambiguous(rs, x) ==> Resolve(rs, x) == Send(x)
    ensures Resolve(rs, x).Send? && !ListsId(rs, x) ==>
              exists i: nat :: OnlyNamed(rs, x, i) && Resolve(rs, x).id == rs[i].id
  {
    AmbiguousIff(rs, x);
    if ListsId(rs, x) {
      assert IdIndex(rs, x) < |rs|;
    } else {
      UnlistedResolution(rs, x);
    }
  }

  /** The only row of that name is the one whose ID is sent. */
  lemma ResolvesToOnly(rs: seq<Listing>, x: string, a: nat)
    requires OnlyNamed(rs, x, a) && !ListsId(rs, x)
    ensures Resolve(rs, x) == Send(rs[a].id)
  {
    ResolveSound(rs, x);
    assert rs[a].name == x;
  }

  /** A clientID that is listed, unique and given in full is refused when two clients listed before
      it bear it as their name. */
  lemma ListedIdRefused(x: string, a: Listing, b: Listing, c: Listing)
    requires a.name == x && b.name == x && a.id != x && b.id != x && c.id == x
    ensures ListsId([a, b, c], x) && Resolve([a, b, c], x) == NotUnique
  {
    var rs := [a, b, c];
    assert rs[0].name == x && rs[1].name == x && rs[2].id == x;
    AmbiguousIff(rs, x);
  }
}
