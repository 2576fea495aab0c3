/** The C text primitives both programs are written with: character classes in the
    "C" locale, sscanf conversions with field widths (section 7.21.6.2 of
    ISO/IEC 9899:2011), decimal printing, and strtok. A string is the text before
    the terminating NUL. */
module CText {
  import opened Clock

  datatype Option<+T> = None | Some(value: T)

  predicate IsSpace(c: char) { c == ' ' || 9 <= c as int <= 13 }
  predicate IsDigit(c: char) { '0' <= c <= '9' }
  predicate IsPrint(c: char) { ' ' <= c <= '~' }
  predicate IsLowerHex(c: char) { IsDigit(c) || 'a' <= c <= 'f' }
  predicate IsXDigit(c: char) { IsLowerHex(c) || 'A' <= c <= 'F' }

  function ToLower(c: char): char {
    if 'A' <= c <= 'Z' then c - 'A' + 'a' else c
  }

  /** All white space, or empty. */
  ghost predicate Blank(s: string) {
    forall i | 0 <= i < |s| :: IsSpace(s[i])
  }

  ghost predicate NoSpace(s: string) {
    forall i | 0 <= i < |s| :: !IsSpace(s[i])
  }

  /** strncmp(s, prefix, strlen(prefix)) == 0 */
  predicate StartsWith(s: string, prefix: string) {
    prefix <= s
  }

  /** What fits a buffer of `size` bytes with its NUL: snprintf, strncpy and read all cut here. */
  function Clip(s: string, size: nat): string
    requires size > 0
  {
    if |s| < size then s else s[..size - 1]
  }

  // ----- runs of characters of one class -----

  datatype Class = Space | NonSpace | Digit | Not(c: char) | Only(c: char)

  predicate In(c: char, k: Class) {
    match k
    case Space => IsSpace(c)
    case NonSpace => !IsSpace(c)
    case Digit => IsDigit(c)
    case Not(d) => c != d
    case Only(d) => c == d
  }

  /** Length of the longest prefix of `s` inside the class, cut at the field width. */
  function Span(s: string, k: Class, width: nat): (n: nat)
    ensures n <= |s| && n <= width
    ensures forall i | 0 <= i < n :: In(s[i], k)
    ensures n < |s| && n < width ==> !In(s[n], k)
  {
    if s == "" || width == 0 || !In(s[0], k) then 0 else 1 + Span(s[1..], k, width - 1)
  }

  function SkipSpace(s: string): string {
    s[Span(s, Space, |s|)..]
  }

  /** Conversion %[...] with a width: fails on an empty match. */
  function ScanSet(s: string, k: Class, width: nat): Option<(string, string)> {
    var n := Span(s, k, width);
    if n == 0 then None else Some((s[..n], s[n..]))
  }

  /** Conversion %<width>s. */
  function ScanWord(s: string, width: nat): (r: Option<(string, string)>)
    ensures r.Some? ==> 0 < |r.value.0| <= width && |r.value.0| + |r.value.1| <= |s|
    ensures r.Some? ==> forall i | 0 <= i < |r.value.0| :: !IsSpace(r.value.0[i])
  {
    ScanSet(SkipSpace(s), NonSpace, width)
  }

  lemma SpanIs(s: string, k: Class, width: nat, n: nat)
    requires n <= |s| && n <= width
    requires forall i | 0 <= i < n :: In(s[i], k)
    requires n < |s| && n < width ==> !In(s[n], k)
    ensures Span(s, k, width) == n
  {
    assert !(Span(s, k, width) < n) && !(n < Span(s, k, width));
  }

  /** A directive that skips white space is insensitive to one more leading blank. */
  lemma SkipOneMore(s: string)
    ensures SkipSpace(" " + s) == SkipSpace(s)
  {
    var t := " " + s;
    var n := Span(s, Space, |s|);
    assert forall i | 0 < i < n + 1 :: t[i] == s[i - 1];
    SpanIs(t, Space, |t|, n + 1);
    assert t[n + 1..] == s[n..];
  }

  lemma SkipNothing(s: string)
    requires s == "" || !IsSpace(s[0])
    ensures SkipSpace(s) == s
  {
    SpanIs(s, Space, |s|, 0);
  }

  lemma SkipAll(s: string)
    requires forall i | 0 <= i < |s| :: IsSpace(s[i])
    ensures SkipSpace(s) == ""
  {
    SpanIs(s, Space, |s|, |s|);
  }

  lemma SkipsTo(w: string, rest: string)
    requires w != "" && !IsSpace(w[0])
    ensures SkipSpace(w + rest) == w + rest && (w + rest)[0] == w[0]
  {
    SkipNothing(w + rest);
  }

  lemma BlankBefore(w: string, rest: string)
    ensures SkipSpace(" " + w + rest) == SkipSpace(w + rest)
  {
    assert " " + w + rest == " " + (w + rest);
    SkipOneMore(w + rest);
  }

  lemma SkipThrough(blank: string, s: string)
    requires SkipSpace(blank) == ""
    ensures SkipSpace(blank + s) == SkipSpace(s)
  {
    var t, n := blank + s, Span(s, Space, |s|);
    assert Span(blank, Space, |blank|) == |blank|;
    assert forall i | |blank| <= i < |t| :: t[i] == s[i - |blank|];
    SpanIs(t, Space, |t|, |blank| + n);
    assert t[|blank| + n..] == s[n..];
  }

  lemma WordSpan(w: string, rest: string, width: nat)
    requires 0 < |w| <= width && NoSpace(w)
    requires rest == "" || IsSpace(rest[0]) || |w| == width
    ensures ScanSet(w + rest, NonSpace, width) == Some((w, rest))
  {
    var s := w + rest;
    SpanIs(s, NonSpace, width, |w|);
    assert s[..|w|] == w && s[|w|..] == rest;
  }

  /** A printed word followed by white space (or by anything once the width is used up)
      is scanned back. */
  lemma ScanPrintedWord(w: string, rest: string, width: nat)
    requires 0 < |w| <= width && NoSpace(w)
    requires rest == "" || IsSpace(rest[0]) || |w| == width
    ensures ScanWord(w + rest, width) == Some((w, rest))
    ensures ScanWord(" " + w + rest, width) == Some((w, rest))
  {
    SkipsTo(w, rest);
    BlankBefore(w, rest);
    WordSpan(w, rest, width);
  }

  // ----- decimal numbers -----

  function DigitChar(d: nat): char
    requires d < 10
  {
    '0' + d as char
  }

  function DigitValue(c: char): nat
    requires IsDigit(c)
  {
    (c - '0') as nat
  }

  /** printf's %u and %d on a non-negative value. */
  function Dec(n: nat): (s: string)
    ensures s != "" && forall i | 0 <= i < |s| :: IsDigit(s[i])
  {
    if n < 10 then [DigitChar(n)] else Dec(n / 10) + [DigitChar(n % 10)]
  }

  function Value(s: string): nat
    requires forall i | 0 <= i < |s| :: IsDigit(s[i])
  {
    if s == "" then 0 else 10 * Value(s[..|s| - 1]) + DigitValue(s[|s| - 1])
  }

  datatype Numeral = Numeral(negative: bool, magnitude: nat)

  function ScanMagnitude(s: string, negative: bool): Option<(Numeral, string)> {
    var n := Span(s, Digit, |s|);
    if n == 0 then None else Some((Numeral(negative, Value(s[..n])), s[n..]))
  }

  /** The subject sequence of %u, %d, strtol: white space, an optional sign, digits. */
  function ScanNumeral(s: string): Option<(Numeral, string)> {
    var t := SkipSpace(s);
    if t != "" && (t[0] == '-' || t[0] == '+') then ScanMagnitude(t[1..], t[0] == '-')
    else ScanMagnitude(t, false)
  }

  /** %u with the 64-bit strtoul and the 32-bit store of the GNU C library. */
  function AsUInt32(n: Numeral): nat {
    var m := 0x1_0000_0000_0000_0000;
    var ul := if n.magnitude >= m then m - 1 else if n.negative then (m - n.magnitude) % m else n.magnitude;
    ul % U32
  }

  /** %d and atoi: 64-bit strtol stored into a 32-bit int. */
  function AsInt32(n: Numeral): int {
    var m := 0x8000_0000_0000_0000;
    var l := if n.negative then (if n.magnitude > m then -m else 0 - n.magnitude)
             else (if n.magnitude >= m then m - 1 else n.magnitude);
    var u := l % U32;
    if u >= U32 / 2 then u - U32 else u
  }

  lemma SmallUInt32(n: nat)
    requires n < U32
    ensures AsUInt32(Numeral(false, n)) == n
  {
  }

  lemma SmallInt32(n: nat)
    requires n < U32 / 2
    ensures AsInt32(Numeral(false, n)) == n
  {
  }

  function Atoi(s: string): int {
    match ScanNumeral(s)
    case None => 0
    case Some((n, _)) => AsInt32(n)
  }

  lemma {:induction false} DecValue(n: nat)
    ensures Value(Dec(n)) == n
  {
    if n >= 10 {
      DecValue(n / 10);
      var s := Dec(n);
      assert s[..|s| - 1] == Dec(n / 10);
    }
  }

  lemma {:induction false} DecLength(n: nat, digits: nat, bound: nat)
    requires digits >= 1 && bound == Pow10(digits)
    requires n < bound
    ensures |Dec(n)| <= digits
  {
    if n >= 10 {
      DecLength(n / 10, digits - 1, Pow10(digits - 1));
    }
  }

  function Pow10(k: nat): nat {
    if k == 0 then 1 else 10 * Pow10(k - 1)
  }

  lemma ScanDigits(d: string, rest: string)
    requires d != "" && forall i | 0 <= i < |d| :: IsDigit(d[i])
    requires rest == "" || !IsDigit(rest[0])
    ensures ScanMagnitude(d + rest, false) == Some((Numeral(false, Value(d)), rest))
  {
    var s := d + rest;
    SpanIs(s, Digit, |s|, |d|);
    assert s[..|d|] == d && s[|d|..] == rest;
  }

  /** No sign stands before a digit. */
  lemma NumeralFrom(s: string, t: string)
    requires SkipSpace(s) == t && t != "" && IsDigit(t[0])
    ensures ScanNumeral(s) == ScanMagnitude(t, false)
  {
  }

  lemma DecMagnitude(n: nat, rest: string)
    requires rest == "" || !IsDigit(rest[0])
    ensures ScanMagnitude(Dec(n) + rest, false) == Some((Numeral(false, n), rest))
  {
    ScanDigits(Dec(n), rest);
    DecValue(n);
  }

  /** A printed number followed by a non-digit is scanned back, with or without a blank before it. */
  lemma ScanPrintedNumber(n: nat, rest: string)
    requires rest == "" || !IsDigit(rest[0])
    ensures ScanNumeral(Dec(n) + rest) == Some((Numeral(false, n), rest))
    ensures ScanNumeral(" " + Dec(n) + rest) == Some((Numeral(false, n), rest))
  {
    var t := Dec(n) + rest;
    SkipsTo(Dec(n), rest);
    BlankBefore(Dec(n), rest);
    NumeralFrom(t, t);
    NumeralFrom(" " + Dec(n) + rest, t);
    DecMagnitude(n, rest);
  }

  // ----- trim and strtok -----

  /** The text between the leading and the trailing white space. */
  function Strip(s: string): (t: string)
    ensures |t| <= |s|
    ensures t != "" ==> !IsSpace(t[0]) && !IsSpace(t[|t| - 1])
  {
    RStrip(SkipSpace(s))
  }

  function RStrip(s: string): (t: string)
    ensures t <= s
    ensures t != "" ==> !IsSpace(t[|t| - 1])
    ensures forall i | |t| <= i < |s| :: IsSpace(s[i])
  {
    if s == "" || !IsSpace(s[|s| - 1]) then s else RStrip(s[..|s| - 1])
  }

  /** strtok_r(s, delim): the next non-empty piece and the text after its delimiter. */
  function NextToken(s: string, delim: char): (r: Option<(string, string)>)
    ensures r.Some? ==> r.value.0 != "" && |r.value.1| < |s|
  {
    var t := s[Span(s, Only(delim), |s|)..];
    var n := Span(t, Not(delim), |t|);
    if t == "" then None else Some((t[..n], if n < |t| then t[n + 1..] else ""))
  }

  function Tokens(s: string, delim: char): seq<string>
    decreases |s|
  {
    match NextToken(s, delim)
    case None => []
    case Some((tok, rest)) => [tok] + Tokens(rest, delim)
  }

  /** Splitting a concatenation of terminated non-empty lines gives the lines back. */
  function Lines(ls: seq<string>): string {
    if ls == [] then "" else ls[0] + "\n" + Lines(ls[1..])
  }

  lemma {:induction false} LinesAppend(a: seq<string>, b: seq<string>)
    ensures Lines(a + b) == Lines(a) + Lines(b)
  {
    if a == [] {
      assert a + b == b;
    } else {
      assert (a + b)[0] == a[0] && (a + b)[1..] == a[1..] + b;
      LinesAppend(a[1..], b);
    }
  }

  lemma LinesSnoc(a: seq<string>, l: string)
    ensures Lines(a + [l]) == Lines(a) + l + "\n"
  {
    LinesAppend(a, [l]);
    assert Lines([l]) == l + "\n" + "";
  }

  /** Text made of lines of at most `width` characters. */
  lemma {:induction false} LinesBound(ls: seq<string>, width: nat)
    requires forall i | 0 <= i < |ls| :: |ls[i]| <= width
    ensures |Lines(ls)| <= |ls| * (width + 1)
  {
    if ls != [] {
      LinesBound(ls[1..], width);
    }
  }

  ghost predicate IsLine(l: string) {
    l != "" && '\n' !in l
  }

  lemma NextTokenOfLine(l: string, rest: string)
    requires IsLine(l)
    ensures NextToken(l + "\n" + rest, '\n') == Some((l, rest))
  {
    var s := l + "\n" + rest;
    assert s[0] == l[0];
    assert forall i | 0 <= i < |l| :: s[i] == l[i];
    assert s[|l|] == '\n';
    SpanIs(s, Only('\n'), |s|, 0);
    SpanIs(s, Not('\n'), |s|, |l|);
    assert s[0..] == s && s[..|l|] == l && s[|l| + 1..] == rest;
  }

  lemma {:induction false} TokensOfLines(ls: seq<string>)
    requires forall i | 0 <= i < |ls| :: IsLine(ls[i])
    ensures Tokens(Lines(ls), '\n') == ls
  {
    if ls != [] {
      NextTokenOfLine(ls[0], Lines(ls[1..]));
      TokensOfLines(ls[1..]);
    }
  }
}
