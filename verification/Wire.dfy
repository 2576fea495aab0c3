/** What the texts on the socket mean, said without the parser: the shape of every command the broker
    accepts, what it makes of every other text, and how its refusals read. */
module Wire {
  import opened Clock
  import opened CText
  import opened Table
  import opened Protocol

  // ----- characters -----

  /** White space, printable characters and hex digits of the "C" locale. */
  lemma CLocale(c: char)
    ensures IsSpace(c) <==> c as int in {9, 10, 11, 12, 13, 32}
    ensures IsPrint(c) <==> 32 <= c as int <= 126
    ensures IsXDigit(c) <==> 48 <= c as int <= 57 || 65 <= c as int <= 70 || 97 <= c as int <= 102
  {
  }

  // ----- one word, one number -----

  lemma BlankIff(s: string)
    ensures Blank(s) <==> SkipSpace(s) == ""
  {
    if Blank(s) { SkipAll(s); }
  }

  /** A %s conversion fails exactly on blank text. */
  lemma NoWordIff(s: string, width: nat)
    requires width > 0
    ensures ScanWord(s, width) == None <==> Blank(s)
  {
    BlankIff(s);
  }

  /** The word is what stands after leading blanks, up to the next blank or the width. */
  lemma WordFound(lead: string, word: string, rest: string, width: nat)
    requires Blank(lead) && 0 < |word| <= width && NoSpace(word)
    requires rest == "" || IsSpace(rest[0]) || |word| == width
    ensures ScanWord(lead + (word + rest), width) == Some((word, rest))
  {
    BlankIff(lead);
    SkipThrough(lead, word + rest);
    SkipsTo(word, rest);
    WordSpan(word, rest, width);
  }

  lemma WordIn(s: string, width: nat) returns (lead: string)
    requires width > 0 && ScanWord(s, width).Some?
    ensures var (word, rest) := ScanWord(s, width).value;
            && Blank(lead) && 0 < |word| <= width && NoSpace(word) && s == lead + (word + rest)
            && (rest == "" || IsSpace(rest[0]) || |word| == width)
  {
    var n := Span(s, Space, |s|);
    lead := s[..n];
    var t := SkipSpace(s);
    assert s == lead + t;
    var k := Span(t, NonSpace, width);
    assert t == t[..k] + t[k..];
  }

  /** A number as text: an optional sign and at least one digit. */
  ghost predicate Numerical(text: string, num: Numeral) {
    exists digits: string | digits != "" && (forall i | 0 <= i < |digits| :: IsDigit(digits[i])) ::
      Value(digits) == num.magnitude
      && (if num.negative then text == "-" + digits else text == digits || text == "+" + digits)
  }

  lemma UnsignedFound(gap: string, digits: string, rest: string)
    requires Blank(gap) && digits != "" && (forall i | 0 <= i < |digits| :: IsDigit(digits[i]))
    requires rest == "" || !IsDigit(rest[0])
    ensures ScanNumeral(gap + (digits + rest)) == Some((Numeral(false, Value(digits)), rest))
  {
    BlankIff(gap);
    SkipThrough(gap, digits + rest);
    SkipsTo(digits, rest);
    NumeralFrom(gap + (digits + rest), digits + rest);
    ScanDigits(digits, rest);
  }

  lemma MagnitudeOf(digits: string, rest: string, negative: bool)
    requires digits != "" && (forall i | 0 <= i < |digits| :: IsDigit(digits[i]))
    requires rest == "" || !IsDigit(rest[0])
    ensures ScanMagnitude(digits + rest, negative) == Some((Numeral(negative, Value(digits)), rest))
  {
    var s := digits + rest;
    SpanIs(s, Digit, |s|, |digits|);
    assert s[..|digits|] == digits && s[|digits|..] == rest;
  }

  lemma SignedFrom(s: string, sign: char, t: string)
    requires (sign == '-' || sign == '+') && SkipSpace(s) == [sign] + t
    ensures ScanNumeral(s) == ScanMagnitude(t, sign == '-')
  {
    assert ([sign] + t)[1..] == t;
  }

  lemma SignedFound(gap: string, sign: char, digits: string, rest: string)
    requires Blank(gap) && digits != "" && (forall i | 0 <= i < |digits| :: IsDigit(digits[i]))
    requires (sign == '-' || sign == '+') && (rest == "" || !IsDigit(rest[0]))
    ensures ScanNumeral(gap + ([sign] + digits + rest)) == Some((Numeral(sign == '-', Value(digits)), rest))
  {
    SignSkipped(gap, sign, digits, rest);
    SignedFrom(gap + ([sign] + digits + rest), sign, digits + rest);
    MagnitudeOf(digits, rest, sign == '-');
  }

  lemma SignSkipped(gap: string, sign: char, digits: string, rest: string)
    requires Blank(gap) && !IsSpace(sign)
    ensures SkipSpace(gap + ([sign] + digits + rest)) == [sign] + (digits + rest)
  {
    var t := [sign] + digits + rest;
    BlankIff(gap);
    SkipThrough(gap, t);
    assert t == [sign] + (digits + rest);
    SkipNothing(t);
  }

  /** A number is found after leading blanks. */
  lemma NumberFound(gap: string, text: string, num: Numeral, rest: string)
    requires Blank(gap) && Numerical(text, num) && (rest == "" || !IsDigit(rest[0]))
    ensures ScanNumeral(gap + (text + rest)) == Some((num, rest))
  {
    var digits :| digits != "" && (forall i | 0 <= i < |digits| :: IsDigit(digits[i]))
      && Value(digits) == num.magnitude
      && (if num.negative then text == "-" + digits else text == digits || text == "+" + digits);
    if num.negative {
      SignedFound(gap, '-', digits, rest);
    } else if text == digits {
      UnsignedFound(gap, digits, rest);
    } else {
      SignedFound(gap, '+', digits, rest);
    }
  }

  lemma MagnitudeIn(s: string, negative: bool) returns (digits: string)
    requires ScanMagnitude(s, negative).Some?
    ensures var (num, rest) := ScanMagnitude(s, negative).value;
            && digits != "" && (forall i | 0 <= i < |digits| :: IsDigit(digits[i]))
            && s == digits + rest && num == Numeral(negative, Value(digits))
            && (rest == "" || !IsDigit(rest[0]))
  {
    var n := Span(s, Digit, |s|);
    digits := s[..n];
  }

  lemma SignedNumber(sign: char, digits: string)
    requires (sign == '-' || sign == '+') && digits != "" && (forall i | 0 <= i < |digits| :: IsDigit(digits[i]))
    ensures Numerical([sign] + digits, Numeral(sign == '-', Value(digits)))
  {
  }

  lemma PlainNumber(digits: string)
    requires digits != "" && (forall i | 0 <= i < |digits| :: IsDigit(digits[i]))
    ensures Numerical(digits, Numeral(false, Value(digits)))
  {
  }

  lemma NumeralCases(t: string)
    requires SkipSpace(t) == t
    ensures ScanNumeral(t) == if t != "" && (t[0] == '-' || t[0] == '+') then ScanMagnitude(t[1..], t[0] == '-')
                              else ScanMagnitude(t, false)
  {
  }

  lemma SignedIn(t: string) returns (text: string)
    requires t != "" && (t[0] == '-' || t[0] == '+') && ScanMagnitude(t[1..], t[0] == '-').Some?
    ensures var (num, rest) := ScanMagnitude(t[1..], t[0] == '-').value;
            Numerical(text, num) && t == text + rest && (rest == "" || !IsDigit(rest[0]))
  {
    var digits := MagnitudeIn(t[1..], t[0] == '-');
    text := [t[0]] + digits;
    SignedNumber(t[0], digits);
    assert t == [t[0]] + t[1..];
  }

  lemma UnsignedIn(t: string) returns (text: string)
    requires ScanMagnitude(t, false).Some?
    ensures var (num, rest) := ScanMagnitude(t, false).value;
            Numerical(text, num) && t == text + rest && (rest == "" || !IsDigit(rest[0]))
  {
    text := MagnitudeIn(t, false);
    PlainNumber(text);
  }

  lemma NumberAfterBlanks(t: string) returns (text: string)
    requires SkipSpace(t) == t && ScanNumeral(t).Some?
    ensures var (num, rest) := ScanNumeral(t).value;
            Numerical(text, num) && t == text + rest && (rest == "" || !IsDigit(rest[0]))
  {
    NumeralCases(t);
    if t != "" && (t[0] == '-' || t[0] == '+') {
      text := SignedIn(t);
    } else {
      text := UnsignedIn(t);
    }
  }

  lemma NumberIn(s: string) returns (gap: string, text: string)
    requires ScanNumeral(s).Some?
    ensures var (num, rest) := ScanNumeral(s).value;
            Blank(gap) && Numerical(text, num) && s == gap + (text + rest) && (rest == "" || !IsDigit(rest[0]))
  {
    gap := s[..Span(s, Space, |s|)];
    var t := SkipSpace(s);
    assert s == gap + t;
    SkipNothing(t);
    text := NumberAfterBlanks(t);
  }

  /** %u keeps a number up to 64 bits modulo 2^32, negative ones included; beyond that it is 2^32 - 1. */
  lemma UnsignedValue(num: Numeral)
    ensures num.magnitude < 0x1_0000_0000_0000_0000 ==>
              AsUInt32(num) == (if num.negative then 0 - num.magnitude else num.magnitude) % U32
    ensures num.magnitude >= 0x1_0000_0000_0000_0000 ==> AsUInt32(num) == U32 - 1
  {
  }

  /** %d and atoi keep a number below 63 bits modulo 2^32, in the range of an int. */
  lemma SignedValue(num: Numeral)
    requires num.magnitude < 0x8000_0000_0000_0000
    ensures var n := if num.negative then 0 - num.magnitude else num.magnitude;
            AsInt32(num) == (n + 0x8000_0000) % U32 - 0x8000_0000
  {
  }

  // ----- REGISTER -----

  /** What may follow the timeout: nothing, or the word "ignorepid". */
  ghost predicate Flagged(tail: string, ignorePid: bool) {
    if ignorePid then exists gap, end | Blank(gap) && Blank(end) :: tail == gap + ("ignorepid" + end)
    else Blank(tail)
  }

  /** The arguments of REGISTER: name, timeout and flag, with blanks around them. A name of 63 characters
      needs no blank after it, and the flag needs none before it. */
  ghost predicate RegisterForm(s: string, name: string, num: Numeral, ignorePid: bool) {
    exists lead, gap, text, tail | Blank(lead) && Blank(gap) && Numerical(text, num) && Flagged(tail, ignorePid) ::
      && 0 < |name| < NAME_SIZE && NoSpace(name) && (gap == "" ==> |name| == NAME_SIZE - 1)
      && s == lead + (name + (gap + (text + tail)))
  }

  lemma FlagFound(name: string, timeout: nat, tail: string, ignorePid: bool)
    requires 0 < |name| < NAME_SIZE && Flagged(tail, ignorePid)
    ensures ParseFlag(name, timeout, tail) == CheckedRegister(name, timeout, !ignorePid)
  {
    if ignorePid {
      var gap, end :| Blank(gap) && Blank(end) && tail == gap + ("ignorepid" + end);
      WordFound(gap, "ignorepid", end, 15);
      NoWordIff(end, 15);
    } else {
      NoWordIff(tail, 15);
    }
  }

  lemma FlagIn(name: string, timeout: nat, tail: string) returns (ignorePid: bool)
    requires 0 < |name| < NAME_SIZE && ParseFlag(name, timeout, tail) != Refused(RegisterSyntax)
    ensures Flagged(tail, ignorePid)
  {
    if ScanWord(tail, 15) == None {
      ignorePid := false;
      NoWordIff(tail, 15);
    } else {
      ignorePid := true;
      var gap := WordIn(tail, 15);
      NoWordIff(ScanWord(tail, 15).value.1, 15);
    }
  }

  lemma TailHasNoDigit(tail: string, ignorePid: bool)
    requires Flagged(tail, ignorePid)
    ensures tail == "" || !IsDigit(tail[0])
  {
    if ignorePid {
      var gap, end :| Blank(gap) && Blank(end) && tail == gap + ("ignorepid" + end);
      assert gap == "" ==> tail[0] == 'i';
      assert gap != "" ==> tail[0] == gap[0];
    }
  }

  lemma RegisterFound(s: string, name: string, num: Numeral, ignorePid: bool)
    requires RegisterForm(s, name, num, ignorePid)
    ensures ParseRegister(s) == CheckedRegister(name, AsUInt32(num), !ignorePid)
  {
    var lead, gap, text, tail :| Blank(lead) && Blank(gap) && Numerical(text, num) && Flagged(tail, ignorePid)
      && 0 < |name| < NAME_SIZE && NoSpace(name) && (gap == "" ==> |name| == NAME_SIZE - 1)
      && s == lead + (name + (gap + (text + tail)));
    var rest := gap + (text + tail);
    assert gap != "" ==> rest[0] == gap[0];
    WordFound(lead, name, rest, NAME_SIZE - 1);
    TailHasNoDigit(tail, ignorePid);
    NumberFound(gap, text, num, tail);
    FlagFound(name, AsUInt32(num), tail, ignorePid);
  }

  lemma RegisterParts(s: string, lead: string, name: string, gap: string, text: string, num: Numeral, tail: string,
                      ignorePid: bool)
    requires Blank(lead) && Blank(gap) && Numerical(text, num) && Flagged(tail, ignorePid)
    requires 0 < |name| < NAME_SIZE && NoSpace(name) && (gap == "" ==> |name| == NAME_SIZE - 1)
    requires s == lead + (name + (gap + (text + tail)))
    ensures RegisterForm(s, name, num, ignorePid)
  {
  }

  lemma NumberStart(text: string, num: Numeral, tail: string)
    requires Numerical(text, num)
    ensures text != "" && !IsSpace((text + tail)[0])
  {
  }

  lemma RegisterIn(s: string) returns (name: string, num: Numeral, ignorePid: bool)
    requires ParseRegister(s) != Refused(RegisterSyntax)
    ensures RegisterForm(s, name, num, ignorePid)
  {
    var lead := WordIn(s, NAME_SIZE - 1);
    var word := ScanWord(s, NAME_SIZE - 1).value;
    var gap, text := NumberIn(word.1);
    var number := ScanNumeral(word.1).value;
    name, num := word.0, number.0;
    ignorePid := FlagIn(name, AsUInt32(num), number.1);
    NumberStart(text, num, number.1);
    assert gap == "" ==> word.1 == text + number.1;
    RegisterParts(s, lead, name, gap, text, num, number.1, ignorePid);
  }

  /** Everything about the arguments of REGISTER: text of another form is a syntax error; of this form,
      the timeout is checked first, then the name, and the rest is accepted as written. */
  lemma RegisterMeaning(s: string)
    ensures forall name, num, ignorePid | RegisterForm(s, name, num, ignorePid) ::
              ParseRegister(s) ==
              if !(5000 <= AsUInt32(num) <= 300000) then Refused(BadTimeout)
              else if exists i | 0 <= i < |name| :: !IsPrint(name[i]) then Refused(BadName)
              else Register(name, AsUInt32(num), !ignorePid)
    ensures (forall name, num, ignorePid :: !RegisterForm(s, name, num, ignorePid)) ==>
              ParseRegister(s) == Refused(RegisterSyntax)
  {
    forall name, num, ignorePid | RegisterForm(s, name, num, ignorePid)
      ensures ParseRegister(s) ==
              if !(5000 <= AsUInt32(num) <= 300000) then Refused(BadTimeout)
              else if exists i | 0 <= i < |name| :: !IsPrint(name[i]) then Refused(BadName)
              else Register(name, AsUInt32(num), !ignorePid)
    {
      RegisterFound(s, name, num, ignorePid);
      Checked(name, AsUInt32(num), !ignorePid);
    }
    if ParseRegister(s) != Refused(RegisterSyntax) {
      var name, num, ignorePid := RegisterIn(s);
    }
  }

  lemma Checked(name: string, timeout: nat, checkPid: bool)
    requires 0 < |name| < NAME_SIZE && NoSpace(name)
    ensures CheckedRegister(name, timeout, checkPid) ==
            if !(5000 <= timeout <= 300000) then Refused(BadTimeout)
            else if exists i | 0 <= i < |name| :: !IsPrint(name[i]) then Refused(BadName)
            else Register(name, timeout, checkPid)
  {
  }

  // ----- PING and UNREGISTER -----

  /** One word of at most 16 characters, with blanks around it. */
  ghost predicate IdForm(s: string, word: string) {
    exists lead, end | Blank(lead) && Blank(end) ::
      0 < |word| <= 16 && NoSpace(word) && s == lead + (word + end)
  }

  /** The value of a hex digit in either case. */
  function XValue(c: char): nat
    requires IsXDigit(c)
  {
    if IsDigit(c) then (c - '0') as nat else if c >= 'a' then (c - 'a') as nat + 10 else (c - 'A') as nat + 10
  }

  /** The ID with the same hex value as the word, in lower case. */
  ghost predicate SameHex(id: string, word: string) {
    IsId(id) && |word| == 16 && forall i | 0 <= i < 16 :: IsXDigit(word[i]) && HexValue(id[i]) == XValue(word[i])
  }

  lemma HexCase(c: char)
    requires IsXDigit(c)
    ensures IsLowerHex(ToLower(c)) && HexValue(ToLower(c)) == XValue(c)
  {
  }

  lemma IdScanned(s: string, word: string, end: string)
    requires ScanWord(s, ID_LEN) == Some((word, end)) && ScanWord(end, 15) == None
    ensures |word| < 16 ==> ParseId(s) == BadId(IdLength)
    ensures |word| == 16 && (exists i | 0 <= i < 16 :: !IsXDigit(word[i])) ==> ParseId(s) == BadId(IdFormat)
    ensures |word| == 16 && (forall i | 0 <= i < 16 :: IsXDigit(word[i])) ==>
              ParseId(s).GoodId? && SameHex(ParseId(s).id, word)
  {
    if |word| == 16 && (forall i | 0 <= i < 16 :: IsXDigit(word[i])) {
      forall i | 0 <= i < 16
        ensures IsLowerHex(ToLower(word[i])) && HexValue(ToLower(word[i])) == XValue(word[i])
      {
        HexCase(word[i]);
      }
    }
  }

  lemma IdFound(s: string, word: string)
    requires IdForm(s, word)
    ensures |word| < 16 ==> ParseId(s) == BadId(IdLength)
    ensures |word| == 16 && (exists i | 0 <= i < 16 :: !IsXDigit(word[i])) ==> ParseId(s) == BadId(IdFormat)
    ensures |word| == 16 && (forall i | 0 <= i < 16 :: IsXDigit(word[i])) ==>
              ParseId(s).GoodId? && SameHex(ParseId(s).id, word)
  {
    var lead, end :| Blank(lead) && Blank(end) && 0 < |word| <= 16 && NoSpace(word) && s == lead + (word + end);
    WordFound(lead, word, end, ID_LEN);
    NoWordIff(end, 15);
    IdScanned(s, word, end);
  }

  /** Everything about the argument of PING and UNREGISTER: more or less than one word, or more than 16
      characters, is a syntax error; fewer have the wrong length; 16 must be hex digits of either case. */
  lemma IdMeaning(s: string)
    ensures forall word | IdForm(s, word) ::
              && (|word| < 16 ==> ParseId(s) == BadId(IdLength))
              && (|word| == 16 && (exists i | 0 <= i < 16 :: !IsXDigit(word[i])) ==> ParseId(s) == BadId(IdFormat))
              && (|word| == 16 && (forall i | 0 <= i < 16 :: IsXDigit(word[i])) ==>
                    ParseId(s).GoodId? && SameHex(ParseId(s).id, word))
    ensures (forall word :: !IdForm(s, word)) ==> ParseId(s) == BadId(Syntax)
  {
    forall word | IdForm(s, word)
      ensures |word| < 16 ==> ParseId(s) == BadId(IdLength)
      ensures |word| == 16 && (exists i | 0 <= i < 16 :: !IsXDigit(word[i])) ==> ParseId(s) == BadId(IdFormat)
      ensures |word| == 16 && (forall i | 0 <= i < 16 :: IsXDigit(word[i])) ==>
                ParseId(s).GoodId? && SameHex(ParseId(s).id, word)
    {
      IdFound(s, word);
    }
    if ParseId(s) != BadId(Syntax) {
      var lead := WordIn(s, ID_LEN);
      var word := ScanWord(s, ID_LEN).value;
      NoWordIff(word.1, 15);
      assert IdForm(s, word.0);
    }
  }

  // ----- the six commands -----

  /** REGISTER, PING and UNREGISTER hand what follows the keyword to their argument. */
  lemma RegisterCommand(arg: string)
    ensures Parse("REGISTER " + arg) == ParseRegister(arg)
  {
    assert (CMD_REGISTER + arg)[|CMD_REGISTER|..] == arg;
  }

  lemma PingCommand(arg: string)
    ensures Parse("PING " + arg) == match ParseId(arg) case GoodId(id) => Ping(id) case BadId(f) => Refused(f)
  {
    var s := CMD_PING + arg;
    assert s[|CMD_PING|..] == arg && s[0] == 'P';
    assert !StartsWith(s, CMD_REGISTER) by { assert CMD_REGISTER[0] == 'R'; }
  }

  lemma UnregisterCommand(arg: string)
    ensures Parse("UNREGISTER " + arg) ==
            match ParseId(arg) case GoodId(id) => Unregister(id) case BadId(f) => Refused(f)
  {
    var s := CMD_UNREGISTER + arg;
    assert s[|CMD_UNREGISTER|..] == arg && s[0] == 'U';
    assert !StartsWith(s, CMD_REGISTER) by { assert CMD_REGISTER[0] == 'R'; }
    assert !StartsWith(s, CMD_PING) by { assert CMD_PING[0] == 'P'; }
  }

  lemma Keywords()
    ensures |CMD_REGISTER| == 9 && CMD_REGISTER[0] == 'R' && CMD_REGISTER[2] == 'G'
    ensures |CMD_PING| == 5 && CMD_PING[0] == 'P' && |CMD_UNREGISTER| == 11 && CMD_UNREGISTER[0] == 'U'
    ensures |CMD_REBOOT| == 6 && CMD_REBOOT[0] == 'R' && CMD_REBOOT[2] == 'B'
    ensures |CMD_STATUS| == 6 && CMD_STATUS[0] == 'S' && |CMD_VERSION| == 7 && CMD_VERSION[0] == 'V'
  {
  }

  lemma RebootKeyword(s: string)
    requires "REBOOT" <= s
    ensures Parse(s) == NoArgument(s[6..], 15, Reboot)
  {
    Keywords();
    assert s[0] == 'R' && s[2] == 'B';
  }

  lemma RebootMeaning(arg: string)
    ensures Parse("REBOOT" + arg) == if Blank(arg) then Reboot else Refused(Syntax)
  {
    var s := "REBOOT" + arg;
    assert s[6..] == arg;
    RebootKeyword(s);
    NoWordIff(arg, 15);
  }

  lemma StatusKeyword(s: string)
    requires "STATUS" <= s
    ensures Parse(s) == NoArgument(s[6..], 31, Status)
  {
    Keywords();
    assert s[0] == 'S';
  }

  lemma StatusMeaning(arg: string)
    ensures Parse("STATUS" + arg) == if Blank(arg) then Status else Refused(Syntax)
  {
    var s := "STATUS" + arg;
    assert s[6..] == arg;
    StatusKeyword(s);
    NoWordIff(arg, 31);
  }

  lemma VersionKeyword(s: string)
    requires "VERSION" <= s
    ensures Parse(s) == NoArgument(s[7..], 31, Version)
  {
    Keywords();
    assert s[0] == 'V';
  }

  lemma VersionMeaning(arg: string)
    ensures Parse("VERSION" + arg) == if Blank(arg) then Version else Refused(Syntax)
  {
    var s := "VERSION" + arg;
    assert s[7..] == arg;
    VersionKeyword(s);
    NoWordIff(arg, 31);
  }

  ghost predicate IsCommand(s: string) {
    || "REGISTER " <= s || "PING " <= s || "UNREGISTER " <= s
    || "REBOOT" <= s || "STATUS" <= s || "VERSION" <= s
  }

  /** Text that starts with none of the six keywords is no command. */
  lemma OtherText(s: string)
    requires !IsCommand(s)
    ensures Parse(s) == Refused(UnknownCommand)
  {
  }

  /** Only its own text stands for a request without argument. */
  lemma PlainRequestsOnly(s: string)
    ensures Parse(s) == Reboot ==> "REBOOT" <= s && Blank(s[6..])
    ensures Parse(s) == Status ==> "STATUS" <= s && Blank(s[6..])
    ensures Parse(s) == Version ==> "VERSION" <= s && Blank(s[7..])
  {
    if "REBOOT" <= s {
      assert s == "REBOOT" + s[6..];
      RebootMeaning(s[6..]);
    } else if "STATUS" <= s {
      assert s == "STATUS" + s[6..];
      StatusMeaning(s[6..]);
    } else if "VERSION" <= s {
      assert s == "VERSION" + s[7..];
      VersionMeaning(s[7..]);
    } else if !IsCommand(s) {
      OtherText(s);
    }
  }

  /** At most 127 bytes of a message are read, and an empty one is answered as no input. */
  lemma LongMessage(text: string)
    ensures RequestOf("") == Refused(NoInput)
    ensures 0 < |text| <= 127 ==> RequestOf(text) == Parse(text)
    ensures |text| > 127 ==> RequestOf(text) == Parse(text[..127])
  {
  }

  // ----- replies -----

  /** How each refusal reads, between "ERROR " and the newline. */
  ghost predicate Reads(f: Fault, text: string) {
    Render(Error(f)) == "ERROR " + text + "\n"
  }

  lemma RefusalText(f: Fault)
    ensures Reads(f, match f
                     case RegisterSyntax => "invalid REGISTER syntax"
                     case BadTimeout => "invalid timeout"
                     case BadName => "invalid client name"
                     case Rejected => "rejected"
                     case Syntax => "invalid syntax"
                     case IdLength => "invalid clientID length"
                     case IdFormat => "invalid clientID format"
                     case WrongPid => "wrong PID"
                     case UnknownId => "unknown clientID"
                     case NoPermission => "no permission"
                     case UnknownCommand => "unknown command"
                     case NoInput => "no input"
                     case NoCreds => "reading peercred")
  {
  }

  /** Length, first and last character of a refusal's text tell the refusals apart. */
  function FaultKey(f: Fault): (nat, char, char) {
    match f
    case RegisterSyntax => (23, 'i', 'x')
    case BadTimeout => (15, 'i', 't')
    case BadName => (19, 'i', 'e')
    case Rejected => (8, 'r', 'd')
    case Syntax => (14, 'i', 'x')
    case IdLength => (23, 'i', 'h')
    case IdFormat => (23, 'i', 't')
    case WrongPid => (9, 'w', 'D')
    case UnknownId => (16, 'u', 'D')
    case NoPermission => (13, 'n', 'n')
    case UnknownCommand => (15, 'u', 'd')
    case NoInput => (8, 'n', 't')
    case NoCreds => (16, 'r', 'd')
  }

  lemma FaultKeyOf(f: Fault)
    ensures var s := FaultText(f);
            s != "" && FaultKey(f) == (|s|, s[0], s[|s| - 1])
  {
  }

  lemma FrameInjective(head: string, a: string, b: string, tail: string)
    requires head + a + tail == head + b + tail
    ensures a == b
  {
    assert |a| == |b|;
    forall i | 0 <= i < |a|
      ensures a[i] == b[i]
    {
      assert (head + a + tail)[|head| + i] == a[i] && (head + b + tail)[|head| + i] == b[i];
    }
  }

  lemma FaultsDiffer(f: Fault, g: Fault)
    requires FaultText(f) == FaultText(g)
    ensures f == g
  {
    FaultKeyOf(f);
    FaultKeyOf(g);
    assert FaultKey(f) == FaultKey(g);
  }

  /** Different refusals read differently. */
  lemma RefusalsDiffer(f: Fault, g: Fault)
    requires Render(Error(f)) == Render(Error(g))
    ensures f == g
  {
    FrameInjective("ERROR ", FaultText(f), FaultText(g), "\n");
    FaultsDiffer(f, g);
  }

  /** No refusal starts like a success. */
  lemma RefusalIsNoSuccess(f: Fault)
    ensures Render(Error(f))[0] == 'E' && !("OK" <= Render(Error(f)))
  {
  }
}
