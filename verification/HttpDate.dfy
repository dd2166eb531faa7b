/** `parse_http_date` of `main.rs`, and the IMF-fixdate format it reads (section 5.6.7 of
    RFC 9110). */
module HttpDate {
  import opened Basics
  import opened Calendar

  // ---------------------------------------------------------------- library text functions

  /** Unicode White_Space. */
  predicate IsWhitespace(c: char) {
    var n := c as int;
    9 <= n <= 13 || n == 0x20 || n == 0x85 || n == 0xA0 || n == 0x1680 || 0x2000 <= n <= 0x200A
    || n == 0x2028 || n == 0x2029 || n == 0x202F || n == 0x205F || n == 0x3000
  }

  /** Length of the longest prefix free of whitespace. */
  function TokenLength(s: string): (n: nat)
    ensures n <= |s|
  {
    if s == "" || IsWhitespace(s[0]) then 0 else 1 + TokenLength(s[1..])
  }

  /** The maximal whitespace-free pieces, in order. */
  function SplitWhitespace(s: string): seq<string>
    decreases |s|
  {
    if s == "" then []
    else if IsWhitespace(s[0]) then SplitWhitespace(s[1..])
    else
      var n := TokenLength(s);
      assert n > 0;
      [s[..n]] + SplitWhitespace(s[n..])
  }

  /** The pieces between separators; always one more piece than separators. */
  function Split(s: string, sep: char): (parts: seq<string>)
    ensures parts != []
  {
    if s == "" then [""]
    else
      var rest := Split(s[1..], sep);
      if s[0] == sep then [""] + rest else [[s[0]] + rest[0]] + rest[1..]
  }

  predicate IsDigit(c: char) { '0' <= c <= '9' }

  function DigitValue(c: char): nat
    requires IsDigit(c)
  {
    c as int - '0' as int
  }

  function ParseDigits(s: string): Option<nat> {
    if s == "" then Some(0)
    else if !IsDigit(s[|s| - 1]) then None
    else
      match ParseDigits(s[..|s| - 1])
      case None => None
      case Some(n) => Some(10 * n + DigitValue(s[|s| - 1]))
  }

  const I64_MAX := 0x7fff_ffff_ffff_ffff

  /** A 64-bit signed integer: an optional sign, one or more digits, in range. */
  function ParseI64(s: string): Option<int> {
    if s == "" then None
    else
      var signed := s[0] == '+' || s[0] == '-';
      var digits := if signed then s[1..] else s;
      if digits == "" then None
      else
        match ParseDigits(digits)
        case None => None
        case Some(n) =>
          var v := if s[0] == '-' then 0 - n else n + 0;
          if -I64_MAX - 1 <= v <= I64_MAX then Some(v) else None
  }

  // ---------------------------------------------------------------- the parser

  function MonthNumber(name: string): Option<int> {
    if name == "Jan" then Some(1) else if name == "Feb" then Some(2) else if name == "Mar" then Some(3)
    else if name == "Apr" then Some(4) else if name == "May" then Some(5) else if name == "Jun" then Some(6)
    else if name == "Jul" then Some(7) else if name == "Aug" then Some(8) else if name == "Sep" then Some(9)
    else if name == "Oct" then Some(10) else if name == "Nov" then Some(11) else if name == "Dec" then Some(12)
    else None
  }

  /** Seconds since the epoch, or nothing if the text has not the shape of a date. The weekday
      is not looked at, and the ranges of day, hour, minute and second are not checked. */
  function ParseHttpDate(s: string): Option<int> {
    ParseTokens(SplitWhitespace(s))
  }

  function ParseTokens(parts: seq<string>): Option<int> {
    if |parts| != 6 || parts[5] != "GMT" then None else
    var day := ParseI64(parts[1]);
    var month := MonthNumber(parts[2]);
    var year := ParseI64(parts[3]);
    var time := Split(parts[4], ':');
    if day.None? || month.None? || year.None? || |time| != 3 then None else
    var hour, minute, second := ParseI64(time[0]), ParseI64(time[1]), ParseI64(time[2]);
    if hour.None? || minute.None? || second.None? then None else
    Some(DaysFromCivil(year.value, month.value, day.value) * 86400 + hour.value * 3600 + minute.value * 60 + second.value)
  }

  // ---------------------------------------------------------------- the printer

  datatype Instant = Instant(date: Date, hour: int, minute: int, second: int)

  /** A date and time of day that the format can express; second 60 is a leap second. */
  predicate Printable(t: Instant) {
    Valid(t.date) && 0 <= t.date.year <= 9999 && 0 <= t.hour < 24 && 0 <= t.minute < 60 && 0 <= t.second <= 60
  }

  function TwoDigits(n: int): string
    requires 0 <= n < 100
  {
    [Digit(n / 10), Digit(n % 10)]
  }

  function FourDigits(n: int): string
    requires 0 <= n < 10000
  {
    TwoDigits(n / 100) + TwoDigits(n % 100)
  }

  function TimeOfDay(t: Instant): string
    requires Printable(t)
  {
    TwoDigits(t.hour) + ":" + TwoDigits(t.minute) + ":" + TwoDigits(t.second)
  }

  predicate Token(s: string) { s != "" && forall i :: 0 <= i < |s| ==> !IsWhitespace(s[i]) }

  function MonthName(m: int): string
    requires 1 <= m <= 12
  {
    match m
    case 1 => "Jan" case 2 => "Feb" case 3 => "Mar" case 4 => "Apr" case 5 => "May" case 6 => "Jun"
    case 7 => "Jul" case 8 => "Aug" case 9 => "Sep" case 10 => "Oct" case 11 => "Nov" case _ => "Dec"
  }

  /** Six tokens, one space between each. */
  function Spaced(a: string, b: string, c: string, d: string, e: string, f: string): string {
    a + " " + (b + " " + (c + " " + (d + " " + (e + " " + f))))
  }

  function Print(weekday: string, t: Instant): string
    requires Printable(t)
  {
    Spaced(weekday, TwoDigits(t.date.day), MonthName(t.date.month), FourDigits(t.date.year), TimeOfDay(t), "GMT")
  }

  // ---------------------------------------------------------------- round trip

  lemma {:induction false} TokenPrefix(token: string, rest: string)
    requires forall i :: 0 <= i < |token| ==> !IsWhitespace(token[i])
    requires rest == "" || IsWhitespace(rest[0])
    ensures TokenLength(token + rest) == |token|
  {
    if token == "" {
      assert token + rest == rest;
    } else {
      TokenPrefix(token[1..], rest);
      assert (token + rest)[1..] == token[1..] + rest;
    }
  }

  lemma SplitToken(token: string, rest: string)
    requires Token(token)
    ensures SplitWhitespace(token + " " + rest) == [token] + SplitWhitespace(rest)
    ensures SplitWhitespace(token) == [token]
  {
    var s := token + (" " + rest);
    assert token + " " + rest == s;
    TokenPrefix(token, " " + rest);
    assert s[..|token|] == token && s[|token|..] == " " + rest && (" " + rest)[1..] == rest;
    TokenPrefix(token, "");
    assert token + "" == token && token[..|token|] == token && token[|token|..] == "";
  }

  predicate Blank(s: string) { forall i :: 0 <= i < |s| ==> IsWhitespace(s[i]) }

  lemma {:induction false} LeadingBlank(blank: string, s: string)
    requires Blank(blank)
    ensures SplitWhitespace(blank + s) == SplitWhitespace(s)
  {
    if blank == "" {
      assert blank + s == s;
    } else {
      LeadingBlank(blank[1..], s);
      assert (blank + s)[1..] == blank[1..] + s;
    }
  }

  /** Any run of white space separates, and none at the ends makes a token. */
  lemma AnySpacing(before: string, token: string, blank: string, rest: string)
    requires Blank(before) && Token(token) && Blank(blank) && blank != ""
    ensures SplitWhitespace(before + (token + (blank + rest))) == [token] + SplitWhitespace(rest)
    ensures SplitWhitespace(before) == []
  {
    LeadingBlank(before, token + (blank + rest));
    LeadingBlank(before, "");
    assert before + "" == before;
    LeadingBlank(blank, rest);
    var s := token + (blank + rest);
    TokenPrefix(token, blank + rest);
    assert s[..|token|] == token && s[|token|..] == blank + rest;
  }

  /** Tab to carriage return, space, next line, no-break space and the Unicode spaces; nothing else. */
  lemma WhitespaceIs(c: char)
    ensures IsWhitespace(c)
            <==> c in [0x9 as char, 0xA as char, 0xB as char, 0xC as char, 0xD as char, ' ', 0x85 as char, 0xA0 as char,
                       0x1680 as char, 0x2000 as char, 0x2001 as char, 0x2002 as char, 0x2003 as char, 0x2004 as char,
                       0x2005 as char, 0x2006 as char, 0x2007 as char, 0x2008 as char, 0x2009 as char, 0x200A as char,
                       0x2028 as char, 0x2029 as char, 0x202F as char, 0x205F as char, 0x3000 as char]
  {
    assert ' ' as int == 0x20;
    if IsWhitespace(c) { assert c as int as char == c; }
  }

  lemma {:induction false} SplitPiece(piece: string, rest: string, sep: char)
    requires sep !in piece
    ensures Split(piece, sep) == [piece]
    ensures Split(piece + [sep] + rest, sep) == [piece] + Split(rest, sep)
  {
    var s := piece + [sep] + rest;
    if piece == "" {
      assert s[1..] == rest && s[0] == sep;
    } else {
      SplitPiece(piece[1..], rest, sep);
      assert s[1..] == piece[1..] + [sep] + rest;
      assert [piece[0]] + piece[1..] == piece;
    }
  }

  lemma TwoDigitsText(n: int)
    requires 0 <= n < 100
    ensures var s := TwoDigits(n);
            Token(s) && ':' !in s && ParseDigits(s) == Some(n) && s[0] != '+' && s[0] != '-'
  {
    var s := TwoDigits(n);
    assert s[..1] == [Digit(n / 10)] && s[..1][..0] == "";
    assert DigitValue(Digit(n / 10)) == n / 10 && DigitValue(Digit(n % 10)) == n % 10;
    assert ParseDigits(s[..1]) == Some(n / 10);
  }

  lemma {:induction false} ParseDigitsConcat(a: string, b: string)
    requires ParseDigits(a).Some? && |b| == 2 && ParseDigits(b).Some?
    ensures ParseDigits(a + b) == Some(ParseDigits(a).value * 100 + ParseDigits(b).value)
  {
    var s := a + b;
    assert s[..|s| - 1] == a + b[..1] && (a + b[..1])[..|a + b[..1]| - 1] == a;
    assert b[..1][..0] == "" && ParseDigits(b[..1]) == Some(DigitValue(b[0]));
  }

  lemma ParsesBack(n: int)
    ensures 0 <= n < 100 ==> ParseI64(TwoDigits(n)) == Some(n)
    ensures 0 <= n < 10000 ==> ParseI64(FourDigits(n)) == Some(n) && Token(FourDigits(n))
  {
    if 0 <= n < 100 { TwoDigitsText(n); }
    if 0 <= n < 10000 {
      TwoDigitsText(n / 100);
      TwoDigitsText(n % 100);
      ParseDigitsConcat(TwoDigits(n / 100), TwoDigits(n % 100));
    }
  }

  lemma MonthText(m: int)
    requires 1 <= m <= 12
    ensures Token(MonthName(m)) && MonthNumber(MonthName(m)) == Some(m)
  {
    var s := MonthName(m);
    assert |s| == 3;
    assert s[0] != ' ' && s[1] != ' ' && s[2] != ' ';
  }

  lemma TimeText(t: Instant)
    requires Printable(t)
    ensures Token(TimeOfDay(t))
    ensures Split(TimeOfDay(t), ':') == [TwoDigits(t.hour), TwoDigits(t.minute), TwoDigits(t.second)]
  {
    var h, m, s := TwoDigits(t.hour), TwoDigits(t.minute), TwoDigits(t.second);
    TwoDigitsText(t.hour);
    TwoDigitsText(t.minute);
    TwoDigitsText(t.second);
    SplitPiece(h, m + ":" + s, ':');
    SplitPiece(m, s, ':');
    SplitPiece(s, "", ':');
    assert TimeOfDay(t) == h + [':'] + (m + [':'] + s);
  }

  /** Spaced text falls into exactly its six tokens. */
  lemma SplitSpaced(a: string, b: string, c: string, d: string, e: string, f: string)
    requires Token(a) && Token(b) && Token(c) && Token(d) && Token(e) && Token(f)
    ensures SplitWhitespace(Spaced(a, b, c, d, e, f)) == [a, b, c, d, e, f]
  {
    SplitToken(f, "");
    SplitToken(e, f);
    SplitToken(d, e + " " + f);
    SplitToken(c, d + " " + (e + " " + f));
    SplitToken(b, c + " " + (d + " " + (e + " " + f)));
    SplitToken(a, b + " " + (c + " " + (d + " " + (e + " " + f))));
  }

  function UnixTime(t: Instant): int {
    DayNumber(t.date) * 86400 + t.hour * 3600 + t.minute * 60 + t.second
  }

  /** Parsing undoes printing, whatever the weekday token. */
  lemma ParsePrinted(weekday: string, t: Instant)
    requires Printable(t) && Token(weekday)
    ensures ParseHttpDate(Print(weekday, t)) == Some(UnixTime(t))
  {
    TwoDigitsText(t.date.day);
    MonthText(t.date.month);
    ParsesBack(t.date.day);
    ParsesBack(t.date.year);
    TimeText(t);
    ParsesBack(t.hour);
    ParsesBack(t.minute);
    ParsesBack(t.second);
    SplitSpaced(weekday, TwoDigits(t.date.day), MonthName(t.date.month), FourDigits(t.date.year), TimeOfDay(t), "GMT");
    ParseSixTokens([weekday, TwoDigits(t.date.day), MonthName(t.date.month), FourDigits(t.date.year),
        TimeOfDay(t), "GMT"], t);
  }

  lemma ParseSixTokens(parts: seq<string>, t: Instant)
    requires |parts| == 6 && parts[5] == "GMT"
    requires ParseI64(parts[1]) == Some(t.date.day) && MonthNumber(parts[2]) == Some(t.date.month)
    requires ParseI64(parts[3]) == Some(t.date.year)
    requires var time := Split(parts[4], ':');
             |time| == 3 && ParseI64(time[0]) == Some(t.hour) && ParseI64(time[1]) == Some(t.minute)
             && ParseI64(time[2]) == Some(t.second)
    ensures ParseTokens(parts) == Some(UnixTime(t))
  {
  }

  predicate Earlier(a: Instant, b: Instant) {
    Before(a.date, b.date)
    || (a.date == b.date && a.hour * 3600 + a.minute * 60 + a.second < b.hour * 3600 + b.minute * 60 + b.second)
  }

  /** Later instants parse to larger numbers, leap seconds apart. */
  lemma LaterParsesLarger(u: string, a: Instant, v: string, b: Instant)
    requires Printable(a) && Printable(b) && Token(u) && Token(v) && a.second < 60 && b.second < 60 && Earlier(a, b)
    ensures ParseHttpDate(Print(u, a)).Some? && ParseHttpDate(Print(v, b)).Some?
    ensures ParseHttpDate(Print(u, a)).value < ParseHttpDate(Print(v, b)).value
  {
    ParsePrinted(u, a);
    ParsePrinted(v, b);
    if Before(a.date, b.date) { StrictlyMonotone(a.date, b.date); }
  }

  // ---------------------------------------------------------------- numbers in text

  function Signed(n: int): string { if n < 0 then "-" + Decimal(-n) else Decimal(n) }

  lemma {:induction false} DecimalDigits(n: nat)
    ensures var s := Decimal(n); s != "" && IsDigit(s[0]) && ParseDigits(s) == Some(n)
  {
    var s := Decimal(n);
    if n < 10 {
      assert s[..0] == "" && DigitValue(Digit(n)) == n;
    } else {
      DecimalDigits(n / 10);
      assert s[..|s| - 1] == Decimal(n / 10) && DigitValue(Digit(n % 10)) == n % 10;
    }
  }

  /** Every 64-bit signed number is read back from its decimal text, and no number outside. */
  lemma I64Exactly(n: int)
    ensures ParseI64(Signed(n)) == if -9223372036854775808 <= n <= 9223372036854775807 then Some(n) else None
  {
    DecimalDigits(Abs(n));
    if n < 0 { assert Signed(n)[1..] == Decimal(-n); }
  }

  /** A plus sign makes no difference. */
  lemma PlusSign(n: nat)
    ensures ParseI64("+" + Decimal(n)) == ParseI64(Decimal(n))
  {
    DecimalDigits(n);
    assert ("+" + Decimal(n))[1..] == Decimal(n);
  }

  lemma {:induction false} DigitsExactly(s: string)
    ensures ParseDigits(s).Some? <==> forall i :: 0 <= i < |s| ==> '0' <= s[i] <= '9'
  {
    if s != "" { DigitsExactly(s[..|s| - 1]); }
  }

  /** Text is read as a number only if it is one or more digits, after at most one sign. */
  lemma OnlyNumbersParse(s: string)
    requires ParseI64(s).Some?
    ensures s != "" && var digits := if s[0] == '+' || s[0] == '-' then s[1..] else s;
                       digits != "" && forall i :: 0 <= i < |digits| ==> '0' <= digits[i] <= '9'
  {
    DigitsExactly(if s[0] == '+' || s[0] == '-' then s[1..] else s);
  }

  // ---------------------------------------------------------------- what is accepted

  /** The English abbreviations, in calendar order. */
  const MONTHS: seq<string> :=
    ["Jan", "Feb", "Mar", "Apr", "May", "Jun", "Jul", "Aug", "Sep", "Oct", "Nov", "Dec"]

  lemma MonthsInOrder(i: nat)
    requires i < 12
    ensures MonthNumber(MONTHS[i]) == Some(i + 1) && MonthName(i + 1) == MONTHS[i]
  {
  }

  lemma MonthsExactly(name: string)
    ensures MonthNumber(name).Some? <==> Month(name)
  {
    if MonthNumber(name).Some? {
      var i := MonthNumber(name).value - 1;
      assert MONTHS[i] == name;
    } else if Month(name) {
      var i :| 0 <= i < 12 && MONTHS[i] == name;
      MonthsInOrder(i);
    }
  }

  lemma SignedText(n: int)
    ensures Token(Signed(n)) && ':' !in Signed(n)
  {
    DecimalDigits(Abs(n));
    DigitsExactly(Decimal(Abs(n)));
  }

  predicate Fits(n: int) { -9223372036854775808 <= n <= 9223372036854775807 }

  lemma ReadsBack(n: int)
    ensures ParseI64(Signed(n)) == if Fits(n) then Some(n) else None
  {
    I64Exactly(n);
  }

  /** Six tokens of which the last is GMT and the third a month, with the three parts of the fifth. */
  lemma SixTokens(parts: seq<string>, month: int, time: seq<string>)
    requires |parts| == 6 && parts[5] == "GMT" && MonthNumber(parts[2]) == Some(month)
    requires Split(parts[4], ':') == time && |time| == 3
    ensures ParseTokens(parts) == Convert(ParseI64(parts[1]), month, ParseI64(parts[3]),
                                          ParseI64(time[0]), ParseI64(time[1]), ParseI64(time[2]))
  {
  }

  function Convert(day: Option<int>, month: int, year: Option<int>,
                   h: Option<int>, m: Option<int>, s: Option<int>): Option<int>
  {
    if day.None? || year.None? || h.None? || m.None? || s.None? then None
    else Some(DaysFromCivil(year.value, month, day.value) * 86400 + h.value * 3600 + m.value * 60 + s.value)
  }

  /** Three numbers between colons. */
  function Clock(h: int, m: int, s: int): string { Signed(h) + [':'] + (Signed(m) + [':'] + Signed(s)) }

  lemma ClockText(h: int, m: int, s: int)
    ensures Token(Clock(h, m, s)) && Split(Clock(h, m, s), ':') == [Signed(h), Signed(m), Signed(s)]
  {
    SignedText(h);
    SignedText(m);
    SignedText(s);
    SplitPiece(Signed(h), Signed(m) + [':'] + Signed(s), ':');
    SplitPiece(Signed(m), Signed(s), ':');
    SplitPiece(Signed(s), "", ':');
  }

  lemma NumbersConvert(parts: seq<string>, day: int, month: int, year: int, h: int, m: int, s: int)
    requires |parts| == 6 && parts[5] == "GMT" && MonthNumber(parts[2]) == Some(month)
    requires parts[1] == Signed(day) && parts[3] == Signed(year)
    requires parts[4] == Clock(h, m, s)
    ensures ParseTokens(parts)
            == if Fits(day) && Fits(year) && Fits(h) && Fits(m) && Fits(s)
               then Some(DaysFromCivil(year, month, day) * 86400 + h * 3600 + m * 60 + s) else None
  {
    ClockText(h, m, s);
    SixTokens(parts, month, [Signed(h), Signed(m), Signed(s)]);
    ReadsBack(day);
    ReadsBack(year);
    ReadsBack(h);
    ReadsBack(m);
    ReadsBack(s);
  }

  lemma NumbersSplit(weekday: string, day: int, month: string, year: int, h: int, m: int, s: int)
    requires Token(weekday) && Token(month)
    ensures ParseHttpDate(Spaced(weekday, Signed(day), month, Signed(year), Clock(h, m, s), "GMT"))
            == ParseTokens([weekday, Signed(day), month, Signed(year), Clock(h, m, s), "GMT"])
  {
    SignedText(day);
    SignedText(year);
    ClockText(h, m, s);
    SplitSpaced(weekday, Signed(day), month, Signed(year), Clock(h, m, s), "GMT");
  }

  /** No field is checked against the calendar or the clock: any six tokens of this shape are accepted,
      whatever 64-bit numbers they hold, and converted by the one formula (overflow apart). */
  lemma AnyNumbersAccepted(weekday: string, day: int, name: string, month: int, year: int, h: int, m: int, s: int)
    requires Token(weekday) && Token(name) && MonthNumber(name) == Some(month)
    ensures ParseHttpDate(Spaced(weekday, Signed(day), name, Signed(year), Clock(h, m, s), "GMT"))
            == if Fits(day) && Fits(year) && Fits(h) && Fits(m) && Fits(s)
               then Some(DaysFromCivil(year, month, day) * 86400 + h * 3600 + m * 60 + s) else None
  {
    NumbersSplit(weekday, day, name, year, h, m, s);
    NumbersConvert([weekday, Signed(day), name, Signed(year), Clock(h, m, s), "GMT"], day, month, year, h, m, s);
  }

  predicate Month(name: string) { exists i :: 0 <= i < 12 && MONTHS[i] == name }

  lemma TokensAccepted(parts: seq<string>)
    requires |parts| == 6
    ensures ParseTokens(parts).Some?
            <==> && parts[5] == "GMT" && MonthNumber(parts[2]).Some?
                 && ParseI64(parts[1]).Some? && ParseI64(parts[3]).Some?
                 && var time := Split(parts[4], ':');
                    |time| == 3 && forall i :: 0 <= i < 3 ==> ParseI64(time[i]).Some?
  {
  }

  /** What is refused: of six tokens, the last must be GMT, the third a month, the second and fourth
      numbers, and the fifth three numbers between colons; nothing else is looked at. */
  lemma AcceptedExactly(a: string, b: string, c: string, d: string, e: string, f: string)
    requires Token(a) && Token(b) && Token(c) && Token(d) && Token(e) && Token(f)
    ensures ParseHttpDate(Spaced(a, b, c, d, e, f)).Some?
            <==> && f == "GMT" && Month(c) && ParseI64(b).Some? && ParseI64(d).Some?
                 && var time := Split(e, ':');
                    |time| == 3 && forall i :: 0 <= i < 3 ==> ParseI64(time[i]).Some?
  {
    SplitSpaced(a, b, c, d, e, f);
    MonthsExactly(c);
    TokensAccepted([a, b, c, d, e, f]);
  }

  const EXAMPLE := Instant(Date(1994, 11, 6), 8, 49, 37)

  lemma ExampleText()
    ensures Printable(EXAMPLE) && Print("Sun,", EXAMPLE) == "Sun, 06 Nov 1994 08:49:37 GMT"
  {
    assert TwoDigits(6) == "06" && TwoDigits(8) == "08" && TwoDigits(49) == "49" && TwoDigits(37) == "37";
    assert FourDigits(1994) == "1994";
  }

  lemma ExampleTime()
    ensures UnixTime(EXAMPLE) == 784111777
  {
    assert DaysFromCivil(1994, 11, 6) == 9075;
  }

  /** The example of section 5.6.7 of RFC 9110. */
  lemma StandardExample()
    ensures ParseHttpDate("Sun, 06 Nov 1994 08:49:37 GMT") == Some(784111777)
  {
    ExampleText();
    ExampleTime();
    ParsePrinted("Sun,", EXAMPLE);
  }
}
