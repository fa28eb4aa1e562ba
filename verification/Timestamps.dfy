/** Reading a timestamp with a numeric offset, and the calendar it is read in. `mktime` is taken in UTC and specified by
    the day number of a civil date, which is proved to count days. Offsets have the shape of section 5.6 of RFC 3339. */
module Timestamps {
  import opened Decimal

  // ----- The calendar -------------------------------------------------------------------------

  datatype Date = Date(year: nat, month: nat, day: nat)

  predicate Leap(year: nat) {
    year % 4 == 0 && (year % 100 != 0 || year % 400 == 0)
  }

  function DaysIn(year: nat, month: nat): nat {
    if month == 2 then (if Leap(year) then 29 else 28)
    else if month in {4, 6, 9, 11} then 30
    else 31
  }

  predicate ValidDate(d: Date) {
    1 <= d.month <= 12 && 1 <= d.day <= DaysIn(d.year, d.month)
  }

  function NextDay(d: Date): Date {
    if d.day < DaysIn(d.year, d.month) then d.(day := d.day + 1)
    else if d.month < 12 then Date(d.year, d.month + 1, 1)
    else Date(d.year + 1, 1, 1)
  }

  function PrevDay(d: Date): Date
    requires ValidDate(d) && d.year > 0
  {
    if d.day > 1 then d.(day := d.day - 1)
    else if d.month > 1 then Date(d.year, d.month - 1, DaysIn(d.year, d.month - 1))
    else Date(d.year - 1, 12, 31)
  }

  function LeapsBefore(year: nat): nat {
    (year + 3) / 4 - (year + 99) / 100 + (year + 399) / 400
  }

  function DaysBefore(year: nat, month: nat): nat
    requires 1 <= month <= 12
  {
    [0, 31, 59, 90, 120, 151, 181, 212, 243, 273, 304, 334][month - 1] + if month > 2 && Leap(year) then 1 else 0
  }

  /** Days since the first of January 1970. */
  function EpochDay(d: Date): int
    requires 1 <= d.month <= 12
  {
    365 * d.year + LeapsBefore(d.year) + DaysBefore(d.year, d.month) + d.day - 1 - 719528
  }

  lemma Multiple(q: nat, k: nat)
    requires k in {4, 100}
    ensures (q * k) % k == 0
  {
  }

  /** Divisibility nests: every fourth century is a century, and every century is a fourth year. */
  lemma Nested(year: nat)
    ensures year % 400 == 0 ==> year % 100 == 0
    ensures year % 100 == 0 ==> year % 4 == 0
  {
    if year % 100 == 0 { Multiple(25 * (year / 100), 4); }
    if year % 400 == 0 { Multiple(4 * (year / 400), 100); }
  }

  lemma LeapsBeforeNext(year: nat)
    ensures LeapsBefore(year + 1) == LeapsBefore(year) + if Leap(year) then 1 else 0
  {
    Nested(year);
    Ceiling(year, 4);
    Ceiling(year, 100);
    Ceiling(year, 400);
  }

  lemma Ceiling(n: nat, k: nat)
    requires k in {4, 100, 400}
    ensures (n + k) / k == (n + k - 1) / k + if n % k == 0 then 1 else 0
  {
    if k == 4 {
    } else if k == 100 {
    } else {
      assert k == 400;
    }
  }

  /** The day number of the next day is one more, through every end of month, leap day and end of year. */
  lemma NextDayCounts(d: Date)
    requires ValidDate(d)
    ensures ValidDate(NextDay(d)) && EpochDay(NextDay(d)) == EpochDay(d) + 1
  {
    LeapsBeforeNext(d.year);
  }

  lemma PrevDayUndoes(d: Date)
    requires ValidDate(d) && d.year > 0
    ensures ValidDate(PrevDay(d)) && NextDay(PrevDay(d)) == d
    ensures EpochDay(PrevDay(d)) == EpochDay(d) - 1
  {
    NextDayCounts(PrevDay(d));
  }

  function DaysLater(n: nat): Date {
    if n == 0 then Date(1970, 1, 1) else NextDay(DaysLater(n - 1))
  }

  /** Counting days forward from the epoch and numbering them agree. */
  lemma {:induction false} EpochDayCounts(n: nat)
    ensures ValidDate(DaysLater(n)) && EpochDay(DaysLater(n)) == n
  {
    if n > 0 {
      EpochDayCounts(n - 1);
      NextDayCounts(DaysLater(n - 1));
    }
  }

  // ----- Local time ---------------------------------------------------------------------------

  datatype Civil = Civil(date: Date, hour: nat, minute: nat, second: nat)

  /** What `%Y-%m-%d %H:%M:%S` accepts; the day is not checked against the month. */
  predicate Accepted(c: Civil) {
    && c.date.year < 10000 && 1 <= c.date.month <= 12 && 1 <= c.date.day <= 31
    && c.hour < 24 && c.minute < 60 && c.second <= 60
  }

  predicate ValidCivil(c: Civil) {
    Accepted(c) && ValidDate(c.date) && c.second < 60
  }

  /** `mktime` in UTC: hours and minutes may be out of range and carry over. */
  function MkTime(date: Date, hour: int, minute: int, second: int): int
    requires 1 <= date.month <= 12
  {
    EpochDay(date) * 86400 + hour * 3600 + minute * 60 + second
  }

  function Seconds(c: Civil): int
    requires Accepted(c)
  {
    MkTime(c.date, c.hour, c.minute, c.second)
  }

  /** The local time of a clock that is `offset` minutes ahead of the given one, carried over day, month and year. */
  function Shift(c: Civil, offset: int): Civil
    requires ValidCivil(c) && -1440 < offset < 1440 && 0 < c.date.year
  {
    var total := c.hour * 60 + c.minute + offset;
    if total < 0 then Civil(PrevDay(c.date), (total + 1440) / 60, (total + 1440) % 60, c.second)
    else if total >= 1440 then Civil(NextDay(c.date), (total - 1440) / 60, (total - 1440) % 60, c.second)
    else Civil(c.date, total / 60, total % 60, c.second)
  }

  lemma HoursAndMinutes(total: nat)
    requires total < 1440
    ensures total / 60 < 24 && total % 60 < 60 && total / 60 * 3600 + total % 60 * 60 == total * 60
  {
    assert total == total / 60 * 60 + total % 60;
  }

  /** A local time `offset` minutes ahead is that much later as a number of seconds. */
  lemma ShiftMoves(c: Civil, offset: int)
    requires ValidCivil(c) && -1440 < offset < 1440 && 0 < c.date.year < 9999
    ensures ValidCivil(Shift(c, offset)) && Seconds(Shift(c, offset)) == Seconds(c) + offset * 60
  {
    var total := c.hour * 60 + c.minute + offset;
    if total < 0 {
      HoursAndMinutes(total + 1440);
      PrevDayUndoes(c.date);
    } else if total >= 1440 {
      HoursAndMinutes(total - 1440);
      NextDayCounts(c.date);
    } else {
      HoursAndMinutes(total);
    }
  }

  // ----- Text ---------------------------------------------------------------------------------

  function Pad2(n: nat): (s: string)
    requires n < 100
    ensures |s| == 2
  {
    [Digit(n / 10), Digit(n % 10)]
  }

  function Pad4(n: nat): (s: string)
    requires n < 10000
    ensures |s| == 4
  {
    [Digit(n / 1000), Digit(n / 100 % 10), Digit(n / 10 % 10), Digit(n % 10)]
  }

  /** Each field has as many digits as the text has room for. */
  predicate Fits(c: Civil) {
    c.date.year < 10000 && c.date.month < 100 && c.date.day < 100 && c.hour < 100 && c.minute < 100 && c.second < 100
  }

  function Render(c: Civil): (s: string)
    requires Fits(c)
    ensures |s| == 19
  {
    var (y, m, d) := (Pad4(c.date.year), Pad2(c.date.month), Pad2(c.date.day));
    var (h, n, t) := (Pad2(c.hour), Pad2(c.minute), Pad2(c.second));
    [y[0], y[1], y[2], y[3], '-', m[0], m[1], '-', d[0], d[1], ' ', h[0], h[1], ':', n[0], n[1], ':', t[0], t[1]]
  }

  function Num2(s: string, i: nat): (n: nat)
    requires i + 1 < |s| && IsDigit(s[i]) && IsDigit(s[i + 1])
  {
    DigitValue(s[i]) * 10 + DigitValue(s[i + 1])
  }

  /** The 19 characters of a date and time of day with all digits written out. */
  predicate Shaped(s: string) {
    && |s| >= 19
    && (forall i :: 0 <= i < 19 && i !in {4, 7, 10, 13, 16} ==> IsDigit(s[i]))
    && s[4] == '-' && s[7] == '-' && s[10] == ' ' && s[13] == ':' && s[16] == ':'
  }

  function GetTime(s: string): (r: Option<(Civil, string)>)
    ensures r.Some? ==> Accepted(r.value.0)
  {
    if !Shaped(s) then None
    else
      var date := Date(Num2(s, 0) * 100 + Num2(s, 2), Num2(s, 5), Num2(s, 8));
      var c := Civil(date, Num2(s, 11), Num2(s, 14), Num2(s, 17));
      if Accepted(c) then Some((c, s[19..])) else None
  }

  lemma DigitsOfPad2(n: nat)
    requires n < 100
    ensures DigitValue(Pad2(n)[0]) * 10 + DigitValue(Pad2(n)[1]) == n
  {
  }

  lemma FourDigits(n: nat)
    requires n < 10000
    ensures (n / 1000 * 10 + n / 100 % 10) * 100 + (n / 10 % 10 * 10 + n % 10) == n
  {
    var t := n / 10;
    var h := t / 10;
    assert n == t * 10 + n % 10 && t == h * 10 + t % 10 && h == h / 10 * 10 + h % 10;
    assert n / 100 == h && n / 1000 == h / 10;
  }

  lemma DigitsOfPad4(n: nat)
    requires n < 10000
    ensures (DigitValue(Pad4(n)[0]) * 10 + DigitValue(Pad4(n)[1])) * 100
            + (DigitValue(Pad4(n)[2]) * 10 + DigitValue(Pad4(n)[3])) == n
  {
    FourDigits(n);
  }

  lemma RenderedFields(c: Civil, s: string)
    requires Fits(c) && |s| >= 19 && forall i :: 0 <= i < 19 ==> s[i] == Render(c)[i]
    ensures Shaped(s)
    ensures Num2(s, 0) * 100 + Num2(s, 2) == c.date.year && Num2(s, 5) == c.date.month && Num2(s, 8) == c.date.day
    ensures Num2(s, 11) == c.hour && Num2(s, 14) == c.minute && Num2(s, 17) == c.second
  {
    assert Shaped(Render(c));
    DigitsOfPad4(c.date.year);
    DigitsOfPad2(c.date.month);
    DigitsOfPad2(c.date.day);
    DigitsOfPad2(c.hour);
    DigitsOfPad2(c.minute);
    DigitsOfPad2(c.second);
  }

  /** Reading a rendered local time gives its fields back and stops right behind it. */
  lemma GetTimeOfRender(c: Civil, rest: string)
    requires Fits(c)
    ensures GetTime(Render(c) + rest) == if Accepted(c) then Some((c, rest)) else None
  {
    var s := Render(c) + rest;
    assert forall i :: 0 <= i < 19 ==> s[i] == Render(c)[i];
    RenderedFields(c, s);
    assert s[19..] == rest;
  }

  /** Each field is written in decimal, most significant digit first. */
  lemma FieldText(n: nat)
    ensures n < 100 ==> Pad2(n) == ["0123456789"[n / 10], "0123456789"[n % 10]]
    ensures n < 10000 ==>
              Pad4(n) == ["0123456789"[n / 1000], "0123456789"[n / 100 % 10], "0123456789"[n / 10 % 10],
                          "0123456789"[n % 10]]
  {
    assert forall d :: 0 <= d < 10 ==> "0123456789"[d] == Digit(d);
  }

  // ----- The offset ---------------------------------------------------------------------------

  datatype Outcome = Parsed(seconds: int) | OutOfRange | InvalidArgument | NotShaped

  /** Stream extraction of a word: leading whitespace is skipped. */
  function Word(s: string): string {
    if s == "" then ""
    else if IsSpace(s[0]) then Word(s[1..])
    else UpToSpace(s)
  }

  function UpToSpace(s: string): string {
    if s == "" || IsSpace(s[0]) then "" else [s[0]] + UpToSpace(s[1..])
  }

  /** `substr` raises only when it starts behind the end. */
  function Substr(s: string, pos: nat, n: nat): Option<string> {
    if pos > |s| then None else if pos + n > |s| then Some(s[pos..]) else Some(s[pos..pos + n])
  }

  function DigitPrefix(s: string): (r: string)
    ensures AllDigits(r)
  {
    if s == "" || !IsDigit(s[0]) then "" else [s[0]] + DigitPrefix(s[1..])
  }

  /** `stoi` on a text without whitespace: an optional sign and at least one digit; the rest is ignored. */
  function Stoi(s: string): Option<int> {
    var signed := s != "" && s[0] in {'+', '-'};
    var digits := DigitPrefix(if signed then s[1..] else s);
    if digits == "" then None else if signed && s[0] == '-' then Some(0 - Value(digits)) else Some(Value(digits))
  }

  /** Hours and minutes as written: the sign is read with the hours only. */
  function Offset(tz: string): (Outcome, int, int) {
    if tz == "" then (Parsed(0), 0, 0)
    else
      match Stoi(Substr(tz, 0, 3).value)
      case None => (InvalidArgument, 0, 0)
      case Some(hours) =>
        match Substr(tz, 4, 2)
        case None => (OutOfRange, 0, 0)
        case Some(s) =>
          match Stoi(s)
          case None => (InvalidArgument, 0, 0)
          case Some(minutes) => (Parsed(0), hours, minutes)
  }

  function Timestampz(text: string): Outcome {
    match GetTime(text)
    case None => NotShaped
    case Some((c, rest)) =>
      var (outcome, hours, minutes) := Offset(Word(rest));
      if outcome.Parsed? then Parsed(MkTime(c.date, c.hour - hours, c.minute - minutes, c.second)) else outcome
  }

  /** What follows the seconds is not looked at. */
  function Timestamp(text: string): Outcome {
    match GetTime(text)
    case None => NotShaped
    case Some((c, _)) => Parsed(Seconds(c))
  }

  method ParseTimestamp(timestamp: string) returns (r: Outcome)
    ensures r == Timestamp(timestamp)
  {
    var read := GetTime(timestamp);
    if read == None {
      return NotShaped;
    }
    var tm := read.value.0;
    r := Parsed(MkTime(tm.date, tm.hour, tm.minute, tm.second));
  }

  method ParseTimestampz(timestamp: string) returns (r: Outcome)
    ensures r == Timestampz(timestamp)
  {
    var read := GetTime(timestamp);
    if read == None {
      return NotShaped;
    }
    var (tm, rest) := read.value;
    var hour, minute: int := tm.hour, tm.minute;
    var tzOffset := Word(rest);
    if tzOffset != "" {
      var first := Substr(tzOffset, 0, 3);
      var hours := Stoi(first.value);
      if hours == None {
        return InvalidArgument;
      }
      var second := Substr(tzOffset, 4, 2);
      if second == None {
        return OutOfRange;
      }
      var minutes := Stoi(second.value);
      if minutes == None {
        return InvalidArgument;
      }
      hour := hour - hours.value;
      minute := minute - minutes.value;
    }
    r := Parsed(MkTime(tm.date, hour, minute, tm.second));
  }

  /** A sign, two digits of hours, and two digits of minutes behind a colon. */
  function OffsetText(negative: bool, hours: nat, minutes: nat): string
    requires hours < 100 && minutes < 100
  {
    [if negative then '-' else '+'] + Pad2(hours) + ":" + Pad2(minutes)
  }

  function Signed(negative: bool, n: nat): int {
    if negative then 0 - n else n
  }

  function OffsetSeconds(negative: bool, hours: nat, minutes: nat): int {
    Signed(negative, hours * 3600 + minutes * 60)
  }

  lemma PrefixOfPad2(n: nat)
    requires n < 100
    ensures DigitPrefix(Pad2(n)) == Pad2(n) && Value(Pad2(n)) == n
  {
    var s := Pad2(n);
    assert DigitPrefix(s[1..]) == [s[1]] by { assert DigitPrefix(s[2..]) == ""; }
    assert s[..1] == [s[0]];
    assert Value(s[..1]) == DigitValue(s[0]) by { assert s[..1][..0] == ""; }
  }

  lemma StoiOfPad2(sign: string, n: nat)
    requires n < 100 && sign in {"", "+", "-"}
    ensures Stoi(sign + Pad2(n)) == Some(Signed(sign == "-", n))
  {
    PrefixOfPad2(n);
    if sign == "" {
      assert sign + Pad2(n) == Pad2(n);
    } else {
      assert (sign + Pad2(n))[1..] == Pad2(n);
    }
  }

  /** Whitespace in front of the offset is skipped, and the offset ends where whitespace follows. */
  lemma {:induction false} WordBetween(gap: string, s: string, rest: string)
    requires forall i :: 0 <= i < |gap| ==> gap[i] == ' ' || 9 <= gap[i] as int <= 13
    requires forall i :: 0 <= i < |s| ==> !IsSpace(s[i])
    requires s != "" && (rest == "" || rest[0] == ' ' || 9 <= rest[0] as int <= 13)
    ensures Word(gap + (s + rest)) == s
    decreases |gap|
  {
    if gap == "" {
      assert gap + (s + rest) == s + rest;
      UpToSpaceStops(s, rest);
    } else {
      WordBetween(gap[1..], s, rest);
      assert (gap + (s + rest))[1..] == gap[1..] + (s + rest);
    }
  }

  lemma {:induction false} UpToSpaceStops(s: string, rest: string)
    requires forall i :: 0 <= i < |s| ==> !IsSpace(s[i])
    requires rest == "" || IsSpace(rest[0])
    ensures UpToSpace(s + rest) == s
  {
    if s == "" {
      assert s + rest == rest;
    } else {
      UpToSpaceStops(s[1..], rest);
      assert (s + rest)[1..] == s[1..] + rest && [s[0]] + s[1..] == s;
    }
  }

  lemma WordIsAll(s: string)
    requires forall i :: 0 <= i < |s| ==> !IsSpace(s[i])
    ensures Word(s) == s
  {
    UpToSpaceIsAll(s);
  }

  lemma {:induction false} UpToSpaceIsAll(s: string)
    requires forall i :: 0 <= i < |s| ==> !IsSpace(s[i])
    ensures UpToSpace(s) == s
  {
    if s != "" {
      UpToSpaceIsAll(s[1..]);
      assert [s[0]] + s[1..] == s;
    }
  }

  lemma OffsetOfText(negative: bool, hours: nat, minutes: nat)
    requires hours < 100 && minutes < 100
    ensures Word(OffsetText(negative, hours, minutes)) == OffsetText(negative, hours, minutes)
    ensures Offset(OffsetText(negative, hours, minutes)) == (Parsed(0), Signed(negative, hours), minutes)
  {
    var tz, sign := OffsetText(negative, hours, minutes), if negative then "-" else "+";
    WordIsAll(tz);
    assert tz[0..3] == sign + Pad2(hours) && tz[4..6] == "" + Pad2(minutes);
    StoiOfPad2(sign, hours);
    StoiOfPad2("", minutes);
  }

  /** For every local time and every written offset: right exactly when the sign is plus or the minutes are zero, and
      otherwise early by twice the minutes. */
  lemma OffsetArithmetic(c: Civil, negative: bool, hours: nat, minutes: nat)
    requires Accepted(c) && hours < 100 && minutes < 100
    ensures Timestampz(Render(c) + OffsetText(negative, hours, minutes)) ==
            Parsed(Seconds(c) - OffsetSeconds(negative, hours, minutes) - if negative then 2 * minutes * 60 else 0)
    ensures Timestampz(Render(c) + OffsetText(negative, hours, minutes))
            == Parsed(Seconds(c) - OffsetSeconds(negative, hours, minutes))
            <==> !negative || minutes == 0
  {
    GetTimeOfRender(c, OffsetText(negative, hours, minutes));
    OffsetOfText(negative, hours, minutes);
  }

  /** An offset of whole hours written without minutes always raises. */
  lemma ShortOffsetRaises(c: Civil, negative: bool, hours: nat)
    requires Accepted(c) && hours < 100
    ensures Timestampz(Render(c) + ([if negative then '-' else '+'] + Pad2(hours))) == OutOfRange
  {
    var sign := if negative then "-" else "+";
    var tz := [if negative then '-' else '+'] + Pad2(hours);
    GetTimeOfRender(c, tz);
    WordIsAll(tz);
    assert tz == sign + Pad2(hours) && tz[0..3] == tz;
    StoiOfPad2(sign, hours);
  }

  /** So does a fraction of a second, whatever offset follows it. */
  lemma FractionRaises(c: Civil, fraction: string)
    requires Accepted(c)
    ensures Timestampz(Render(c) + ("." + fraction)) == InvalidArgument
  {
    GetTimeOfRender(c, "." + fraction);
    var tz := Word("." + fraction);
    assert tz == ['.'] + UpToSpace(("." + fraction)[1..]);
    assert Substr(tz, 0, 3).value[0] == '.';
  }

  /** The forms of an offset in use: none, `Z`, and a sign with hours, with hours and minutes run together, with the two
      separated by a colon, with seconds behind them, with one digit of hours, and with nothing behind the colon. */
  datatype Written =
    | NoOffset
    | Zulu
    | HoursOnly(negative: bool, hours: nat)
    | Compact(negative: bool, hours: nat, minutes: nat)
    | Full(negative: bool, hours: nat, minutes: nat)
    | WithSeconds(negative: bool, hours: nat, minutes: nat, seconds: nat)
    | OneDigit(negative: bool, hours: nat, minutes: nat)
    | ColonOnly(negative: bool, hours: nat)

  predicate TwoDigits(o: Written) {
    match o
    case HoursOnly(_, h) => h < 100
    case Compact(_, h, m) => h < 100 && m < 100
    case Full(_, h, m) => h < 100 && m < 100
    case WithSeconds(_, h, m, t) => h < 100 && m < 100 && t < 100
    case OneDigit(_, h, m) => h < 10 && m < 100
    case ColonOnly(_, h) => h < 100
    case _ => true
  }

  function SignText(negative: bool): string {
    if negative then "-" else "+"
  }

  function WrittenText(o: Written): string
    requires TwoDigits(o)
  {
    match o
    case NoOffset => ""
    case Zulu => "Z"
    case HoursOnly(negative, h) => SignText(negative) + Pad2(h)
    case Compact(negative, h, m) => SignText(negative) + Pad2(h) + Pad2(m)
    case Full(negative, h, m) => OffsetText(negative, h, m)
    case WithSeconds(negative, h, m, t) => OffsetText(negative, h, m) + (":" + Pad2(t))
    case OneDigit(negative, h, m) => SignText(negative) + [Digit(h)] + ":" + Pad2(m)
    case ColonOnly(negative, h) => SignText(negative) + Pad2(h) + ":"
  }

  /** The offset a text is meant to carry, in seconds. */
  function MeantSeconds(o: Written): int {
    match o
    case NoOffset => 0
    case Zulu => 0
    case HoursOnly(negative, h) => OffsetSeconds(negative, h, 0)
    case Compact(negative, h, m) => OffsetSeconds(negative, h, m)
    case Full(negative, h, m) => OffsetSeconds(negative, h, m)
    case WithSeconds(negative, h, m, t) => Signed(negative, h * 3600 + m * 60 + t)
    case OneDigit(negative, h, m) => OffsetSeconds(negative, h, m)
    case ColonOnly(negative, h) => OffsetSeconds(negative, h, 0)
  }

  function TimeText(c: Civil, fraction: Option<string>, o: Written): string
    requires Accepted(c) && TwoDigits(o)
  {
    Render(c) + (if fraction.None? then WrittenText(o) else "." + (fraction.value + WrittenText(o)))
  }

  lemma StoiOfDigit(n: nat)
    requires n < 10
    ensures Stoi([Digit(n)]) == Some(n)
  {
    var s := [Digit(n)];
    assert DigitPrefix(s[1..]) == "" && DigitPrefix(s) == s;
    assert Value(s[..0]) == 0;
  }

  /** Without the colon, only the last digit of the minutes is where they are looked for. */
  lemma OffsetOfCompact(negative: bool, hours: nat, minutes: nat)
    requires hours < 100 && minutes < 100
    ensures var tz := WrittenText(Compact(negative, hours, minutes));
            Word(tz) == tz && Offset(tz) == (Parsed(0), Signed(negative, hours), minutes % 10)
  {
    var tz, sign := WrittenText(Compact(negative, hours, minutes)), SignText(negative);
    WordIsAll(tz);
    assert tz[0..3] == sign + Pad2(hours) && tz[4..] == [Digit(minutes % 10)];
    StoiOfPad2(sign, hours);
    StoiOfDigit(minutes % 10);
  }

  /** Seconds behind the minutes are not looked at. */
  lemma OffsetOfSeconds(negative: bool, hours: nat, minutes: nat, seconds: nat)
    requires hours < 100 && minutes < 100 && seconds < 100
    ensures var tz := WrittenText(WithSeconds(negative, hours, minutes, seconds));
            Word(tz) == tz && Offset(tz) == (Parsed(0), Signed(negative, hours), minutes)
  {
    var tz, sign := WrittenText(WithSeconds(negative, hours, minutes, seconds)), SignText(negative);
    WordIsAll(tz);
    assert tz[0..3] == sign + Pad2(hours) && tz[4..6] == "" + Pad2(minutes);
    StoiOfPad2(sign, hours);
    StoiOfPad2("", minutes);
  }

  lemma OffsetOfHours(negative: bool, hours: nat)
    requires hours < 100
    ensures Offset(Word(WrittenText(HoursOnly(negative, hours)))) == (OutOfRange, 0, 0)
  {
    var tz, sign := WrittenText(HoursOnly(negative, hours)), SignText(negative);
    WordIsAll(tz);
    assert tz == sign + Pad2(hours) && tz[0..3] == tz;
    StoiOfPad2(sign, hours);
  }

  lemma OffsetOfColon(negative: bool, hours: nat)
    requires hours < 100
    ensures Offset(Word(WrittenText(ColonOnly(negative, hours)))) == (InvalidArgument, 0, 0)
  {
    var tz, sign := WrittenText(ColonOnly(negative, hours)), SignText(negative);
    WordIsAll(tz);
    assert tz[0..3] == sign + Pad2(hours) && tz[4..] == "";
    StoiOfPad2(sign, hours);
  }

  lemma StoiStops(sign: string, d: nat)
    requires d < 10 && sign in {"+", "-"}
    ensures Stoi(sign + [Digit(d)] + ":") == Some(Signed(sign == "-", d))
  {
    var s := [Digit(d)] + ":";
    assert (sign + [Digit(d)] + ":")[1..] == s;
    assert DigitPrefix(s[1..]) == "" && DigitPrefix(s) == [Digit(d)];
    assert Value([Digit(d)][..0]) == 0;
  }

  /** With one digit of hours everything is one place further left, and only the last digit of the minutes is read. */
  lemma OffsetOfOneDigit(negative: bool, hours: nat, minutes: nat)
    requires hours < 10 && minutes < 100
    ensures Offset(Word(WrittenText(OneDigit(negative, hours, minutes)))) ==
            (Parsed(0), Signed(negative, hours), minutes % 10)
  {
    var tz, sign := WrittenText(OneDigit(negative, hours, minutes)), SignText(negative);
    WordIsAll(tz);
    assert tz[0..3] == sign + [Digit(hours)] + ":" && tz[4..] == [Digit(minutes % 10)];
    StoiStops(sign, hours);
    StoiOfDigit(minutes % 10);
  }

  /** Hours and minutes as they are read from each form, or why they are not. */
  function OffsetRead(o: Written): (Outcome, int, int) {
    match o
    case NoOffset => (Parsed(0), 0, 0)
    case Zulu => (InvalidArgument, 0, 0)
    case HoursOnly(_, _) => (OutOfRange, 0, 0)
    case Compact(negative, h, m) => (Parsed(0), Signed(negative, h), m % 10)
    case Full(negative, h, m) => (Parsed(0), Signed(negative, h), m)
    case WithSeconds(negative, h, m, _) => (Parsed(0), Signed(negative, h), m)
    case OneDigit(negative, h, m) => (Parsed(0), Signed(negative, h), m % 10)
    case ColonOnly(_, _) => (InvalidArgument, 0, 0)
  }

  lemma OffsetOfWritten(o: Written)
    requires TwoDigits(o)
    ensures Offset(Word(WrittenText(o))) == OffsetRead(o)
  {
    match o
    case NoOffset =>
    case Zulu => WordIsAll("Z");
    case HoursOnly(negative, h) => OffsetOfHours(negative, h);
    case Compact(negative, h, m) => OffsetOfCompact(negative, h, m);
    case Full(negative, h, m) => OffsetOfText(negative, h, m);
    case WithSeconds(negative, h, m, t) => OffsetOfSeconds(negative, h, m, t);
    case OneDigit(negative, h, m) => OffsetOfOneDigit(negative, h, m);
    case ColonOnly(negative, h) => OffsetOfColon(negative, h);
  }

  /** What is subtracted for an offset that can be read, in seconds. */
  function SecondsRead(o: Written): int {
    OffsetRead(o).1 * 3600 + OffsetRead(o).2 * 60
  }

  /** What a rendered time with or without a fraction and an offset comes to. */
  lemma WrittenReads(c: Civil, fraction: Option<string>, o: Written)
    requires Accepted(c) && TwoDigits(o)
    ensures Timestampz(TimeText(c, fraction, o)) ==
            if fraction.Some? || o.Zulu? || o.ColonOnly? then InvalidArgument
            else if o.HoursOnly? then OutOfRange
            else Parsed(Seconds(c) - SecondsRead(o))
  {
    if fraction.Some? {
      FractionRaises(c, fraction.value + WrittenText(o));
    } else {
      WholeReads(c, o);
    }
  }

  lemma WholeReads(c: Civil, o: Written)
    requires Accepted(c) && TwoDigits(o)
    ensures Timestampz(TimeText(c, None, o)) ==
            if o.Zulu? || o.ColonOnly? then InvalidArgument
            else if o.HoursOnly? then OutOfRange
            else Parsed(Seconds(c) - SecondsRead(o))
  {
    GetTimeOfRender(c, WrittenText(o));
    OffsetOfWritten(o);
  }

  lemma WrittenHasNoSpace(o: Written)
    requires TwoDigits(o)
    ensures forall i :: 0 <= i < |WrittenText(o)| ==> !IsSpace(WrittenText(o)[i])
  {
  }

  /** Whitespace before an offset, and anything behind whitespace after it, makes no difference. */
  lemma SpacedReads(c: Civil, gap: string, o: Written, rest: string)
    requires Accepted(c) && TwoDigits(o) && !o.NoOffset?
    requires forall i :: 0 <= i < |gap| ==> gap[i] == ' ' || 9 <= gap[i] as int <= 13
    requires rest == "" || rest[0] == ' ' || 9 <= rest[0] as int <= 13
    ensures Timestampz(Render(c) + (gap + (WrittenText(o) + rest))) == Timestampz(TimeText(c, None, o))
  {
    WrittenHasNoSpace(o);
    WordBetween(gap, WrittenText(o), rest);
    WordIsAll(WrittenText(o));
    SameWord(c, gap + (WrittenText(o) + rest), WrittenText(o));
  }

  lemma SameWord(c: Civil, a: string, b: string)
    requires Accepted(c) && Word(a) == Word(b)
    ensures Timestampz(Render(c) + a) == Timestampz(Render(c) + b)
  {
    GetTimeOfRender(c, a);
    GetTimeOfRender(c, b);
  }

  lemma SecondsReadExactly(o: Written)
    requires TwoDigits(o)
    ensures o.Full? ==> (SecondsRead(o) == MeantSeconds(o) <==> !o.negative || o.minutes == 0)
    ensures o.WithSeconds? ==>
              (SecondsRead(o) == MeantSeconds(o) <==> o.seconds == 0 && (!o.negative || o.minutes == 0))
    ensures o.Compact? || o.OneDigit? ==>
              (SecondsRead(o) == MeantSeconds(o) <==> if o.negative then o.minutes == 0 else o.minutes < 10)
  {
    if o.Compact? || o.OneDigit? { assert o.minutes == o.minutes / 10 * 10 + o.minutes % 10; }
  }

  /** It parses exactly when it has no fraction and its offset is absent or has its minutes written. It gives the time
      it is meant to give exactly when, further, there are no seconds in the offset, and its minutes are zero, or it is
      not negative and they are two digits behind two digits and a colon, or below ten. */
  lemma ParsesExactly(c: Civil, fraction: Option<string>, o: Written)
    requires Accepted(c) && TwoDigits(o)
    ensures Timestampz(TimeText(c, fraction, o)).Parsed? <==>
            fraction.None? && !o.Zulu? && !o.HoursOnly? && !o.ColonOnly?
    ensures Timestampz(TimeText(c, fraction, o)) == Parsed(Seconds(c) - MeantSeconds(o)) <==>
            && fraction.None?
            && match o
               case NoOffset => true
               case Compact(negative, _, m) => if negative then m == 0 else m < 10
               case Full(negative, _, m) => !negative || m == 0
               case WithSeconds(negative, _, m, t) => t == 0 && (!negative || m == 0)
               case OneDigit(negative, _, m) => if negative then m == 0 else m < 10
               case _ => false
  {
    WrittenReads(c, fraction, o);
    SecondsReadExactly(o);
  }

  /** The two parsers agree on it exactly when it parses and its offset comes to nothing. */
  lemma ParsersAgreeExactly(c: Civil, fraction: Option<string>, o: Written)
    requires Accepted(c) && TwoDigits(o)
    ensures Timestamp(TimeText(c, fraction, o)) == Parsed(Seconds(c))
    ensures Timestampz(TimeText(c, fraction, o)) == Timestamp(TimeText(c, fraction, o)) <==>
            fraction.None? && !o.Zulu? && !o.HoursOnly? && !o.ColonOnly? && SecondsRead(o) == 0
  {
    WrittenReads(c, fraction, o);
    GetTimeOfRender(c, if fraction.None? then WrittenText(o) else "." + (fraction.value + WrittenText(o)));
  }

  /** The text of an instant, given as its UTC time, on a clock that is `offset` minutes ahead. */
  function TextAt(utc: Civil, offset: int): string
    requires ValidCivil(utc) && -1440 < offset < 1440 && 0 < utc.date.year < 9999
  {
    ShiftMoves(utc, offset);
    var a := if offset < 0 then -offset else offset;
    Render(Shift(utc, offset)) + OffsetText(offset < 0, a / 60, a % 60)
  }

  lemma SplitOffset(a: nat)
    ensures a / 60 * 3600 + a % 60 * 60 == a * 60
    ensures (0 - a) % 60 == 0 <==> a % 60 == 0
  {
    assert a == a / 60 * 60 + a % 60;
  }

  /** Twice the minutes of a negative offset. */
  function Early(offset: int): int {
    if offset < 0 then 2 * ((0 - offset) % 60) * 60 else 0
  }

  lemma EarlyExactly(offset: int)
    ensures Early(offset) == 0 <==> offset >= 0 || offset % 60 == 0
  {
    if offset < 0 { SplitOffset(-offset); }
  }

  /** The text of an instant reads back as that instant, early by twice the minutes if they were subtracted. */
  lemma InstantReads(utc: Civil, offset: int)
    requires ValidCivil(utc) && -1440 < offset < 1440 && 0 < utc.date.year < 9999
    ensures Timestampz(TextAt(utc, offset)) == Parsed(Seconds(utc) - Early(offset))
  {
    ShiftMoves(utc, offset);
    var a := if offset < 0 then -offset else offset;
    SplitOffset(a);
    OffsetArithmetic(Shift(utc, offset), offset < 0, a / 60, a % 60);
  }

  /** Round trip: the text of an instant reads back as that instant exactly when its offset is not negative or is a
      number of whole hours, through every carry over day, month, year and leap day. */
  lemma InstantRoundTrip(utc: Civil, offset: int)
    requires ValidCivil(utc) && -1440 < offset < 1440 && 0 < utc.date.year < 9999
    ensures Timestampz(TextAt(utc, offset)) == Parsed(Seconds(utc)) <==> offset >= 0 || offset % 60 == 0
  {
    InstantReads(utc, offset);
    EarlyExactly(offset);
  }

  /** So two renderings of one instant with offsets that are not negative parse equal. */
  lemma RenderingsAgree(utc: Civil, o1: int, o2: int)
    requires ValidCivil(utc) && 0 < utc.date.year < 9999
    requires 0 <= o1 < 1440 && 0 <= o2 < 1440
    ensures Timestampz(TextAt(utc, o1)) == Timestampz(TextAt(utc, o2)) == Parsed(Seconds(utc))
  {
    InstantRoundTrip(utc, o1);
    InstantRoundTrip(utc, o2);
  }

  // ----- What a second is worth ---------------------------------------------------------------

  /** The local time one second later, carried over minute, hour and day. */
  function NextSecond(c: Civil): Civil {
    if c.second < 59 then c.(second := c.second + 1)
    else if c.minute < 59 then c.(second := 0, minute := c.minute + 1)
    else if c.hour < 23 then c.(second := 0, minute := 0, hour := c.hour + 1)
    else Civil(NextDay(c.date), 0, 0, 0)
  }

  lemma NextSecondCounts(c: Civil)
    requires ValidCivil(c) && c.date.year < 9999
    ensures ValidCivil(NextSecond(c)) && Seconds(NextSecond(c)) == Seconds(c) + 1
  {
    NextDayCounts(c.date);
  }

  lemma TimestampOf(c: Civil)
    requires Accepted(c)
    ensures Timestamp(Render(c)) == Parsed(Seconds(c))
  {
    GetTimeOfRender(c, "");
    assert Render(c) + "" == Render(c);
  }

  /** The text of the next second parses to the next second, whatever it carries over. */
  lemma NextSecondParses(c: Civil)
    requires ValidCivil(c) && c.date.year < 9999
    ensures Timestamp(Render(c)).Parsed?
    ensures Timestamp(Render(NextSecond(c))) == Parsed(Timestamp(Render(c)).seconds + 1)
  {
    NextSecondCounts(c);
    TimestampOf(c);
    TimestampOf(NextSecond(c));
  }

  /** And so it does with any offset that can be read behind it. */
  lemma NextSecondParsesz(c: Civil, o: Written)
    requires ValidCivil(c) && c.date.year < 9999 && TwoDigits(o)
    requires !o.Zulu? && !o.HoursOnly? && !o.ColonOnly?
    ensures Timestampz(TimeText(c, None, o)).Parsed?
    ensures Timestampz(TimeText(NextSecond(c), None, o)) == Parsed(Timestampz(TimeText(c, None, o)).seconds + 1)
  {
    NextSecondCounts(c);
    OneLater(c, NextSecond(c), o);
  }

  lemma OneLater(c: Civil, d: Civil, o: Written)
    requires Accepted(c) && Accepted(d) && Seconds(d) == Seconds(c) + 1
    requires TwoDigits(o) && !o.Zulu? && !o.HoursOnly? && !o.ColonOnly?
    ensures Timestampz(TimeText(c, None, o)).Parsed?
    ensures Timestampz(TimeText(d, None, o)) == Parsed(Timestampz(TimeText(c, None, o)).seconds + 1)
  {
    ReadsAt(c, o);
    ReadsAt(d, o);
  }

  lemma ReadsAt(c: Civil, o: Written)
    requires Accepted(c) && TwoDigits(o) && !o.Zulu? && !o.HoursOnly? && !o.ColonOnly?
    ensures Timestampz(TimeText(c, None, o)) == Parsed(Seconds(c) - SecondsRead(o))
  {
    WrittenReads(c, None, o);
  }

  /** The text of a date and time of day parses exactly if every field is in its range; the day of the month is not
      compared with the month, and the second may be 60. */
  lemma TextParsesExactly(c: Civil)
    requires Fits(c)
    ensures Timestamp(Render(c)).Parsed? <==>
            && 1 <= c.date.month <= 12 && 1 <= c.date.day <= 31 && c.hour <= 23 && c.minute <= 59 && c.second <= 60
  {
    GetTimeOfRender(c, "");
    assert Render(c) + "" == Render(c);
  }

  /** The dates of the calendar, in numbers. */
  lemma CalendarExactly(d: Date)
    ensures ValidDate(d) <==>
            && 1 <= d.month <= 12 && 1 <= d.day <= 31
            && (d.month in {4, 6, 9, 11} ==> d.day <= 30)
            && (d.month == 2 ==> d.day <= 29)
            && (d.month == 2 && d.day == 29 ==> d.year % 4 == 0 && (d.year % 100 == 0 ==> d.year % 400 == 0))
    ensures ValidDate(d) ==>
              NextDay(d) == if ValidDate(Date(d.year, d.month, d.day + 1)) then Date(d.year, d.month, d.day + 1)
                            else if d.month == 12 then Date(d.year + 1, 1, 1) else Date(d.year, d.month + 1, 1)
  {
  }

  lemma PadsOf(n: nat, text: string)
    requires n < 100 && |text| == 2
    requires text[0] == "0123456789"[n / 10] && text[1] == "0123456789"[n % 10]
    ensures Pad2(n) == text
  {
    FieldText(n);
  }

  lemma TextIs(c: Civil, text: string, y: string, mo: string, d: string, h: string, mi: string, t: string)
    requires Fits(c) && text == y + "-" + mo + "-" + d + " " + h + ":" + mi + ":" + t
    requires Pad4(c.date.year) == y && Pad2(c.date.month) == mo && Pad2(c.date.day) == d
    requires Pad2(c.hour) == h && Pad2(c.minute) == mi && Pad2(c.second) == t
    ensures Render(c) == text
  {
  }

  lemma EpochText(c: Civil)
    requires c == Civil(Date(1970, 1, 1), 0, 0, 0)
    ensures ValidCivil(c) && Render(c) == "1970-01-01 00:00:00" && Seconds(c) == 0
  {
    FieldText(1970);
    PadsOf(1, "01");
    PadsOf(0, "00");
    TextIs(c, "1970-01-01 00:00:00", "1970", "01", "01", "00", "00", "00");
  }

  lemma MarchText(c: Civil)
    requires c == Civil(Date(2024, 3, 5), 6, 7, 8)
    ensures ValidCivil(c) && Render(c) == "2024-03-05 06:07:08" && Seconds(c) == 1_709_618_828
  {
    FieldText(2024);
    PadsOf(3, "03");
    PadsOf(5, "05");
    PadsOf(6, "06");
    PadsOf(7, "07");
    PadsOf(8, "08");
    TextIs(c, "2024-03-05 06:07:08", "2024", "03", "05", "06", "07", "08");
  }

  /** The epoch, and another instant, whose fields all differ. */
  lemma KnownInstants(text: string)
    ensures text == "1970-01-01 00:00:00" ==> Timestamp(text) == Parsed(0)
    ensures text == "2024-03-05 06:07:08" ==> Timestamp(text) == Parsed(1_709_618_828)
  {
    if text == "1970-01-01 00:00:00" {
      var c := Civil(Date(1970, 1, 1), 0, 0, 0);
      EpochText(c);
      TimestampOf(c);
    } else if text == "2024-03-05 06:07:08" {
      var c := Civil(Date(2024, 3, 5), 6, 7, 8);
      MarchText(c);
      TimestampOf(c);
    }
  }

  lemma OffsetTextIs(negative: bool, hours: nat, minutes: nat, h: string, m: string)
    requires hours < 100 && minutes < 100 && Pad2(hours) == h && Pad2(minutes) == m
    ensures OffsetText(negative, hours, minutes) == (if negative then "-" else "+") + h + ":" + m
  {
  }

  lemma OffsetBehind(c: Civil, text: string, offset: string, negative: bool, hours: nat, minutes: nat)
    requires Accepted(c) && hours < 100 && minutes < 100
    requires text == Render(c) && offset == OffsetText(negative, hours, minutes)
    ensures Timestampz(text + offset) == Parsed(Seconds(c) - Signed(negative, hours) * 3600 - minutes * 60)
  {
    OffsetArithmetic(c, negative, hours, minutes);
  }

  /** A written offset behind the text of a local time. */
  lemma TextBehind(c: Civil, text: string, offset: string, negative: bool, hours: nat, minutes: nat, h: string,
                   m: string)
    requires Accepted(c) && text == Render(c) && hours < 100 && minutes < 100 && |h| == 2 && |m| == 2
    requires offset == (if negative then "-" else "+") + h + ":" + m
    requires h[0] == "0123456789"[hours / 10] && h[1] == "0123456789"[hours % 10]
    requires m[0] == "0123456789"[minutes / 10] && m[1] == "0123456789"[minutes % 10]
    ensures Timestampz(text + offset) ==
            Parsed(Seconds(c) - (if negative then 0 - hours else hours) * 3600 - minutes * 60)
  {
    PadsOf(hours, h);
    PadsOf(minutes, m);
    OffsetTextIs(negative, hours, minutes, h, m);
    OffsetBehind(c, text, offset, negative, hours, minutes);
  }

  lemma AtTime(c: Civil, at: int, text: string, offset: string, negative: bool, hours: nat, minutes: nat, h: string,
               m: string)
    requires Accepted(c) && Seconds(c) == at && text == Render(c)
    requires hours < 100 && minutes < 100 && |h| == 2 && |m| == 2
    requires offset == (if negative then "-" else "+") + h + ":" + m
    requires h[0] == "0123456789"[hours / 10] && h[1] == "0123456789"[hours % 10]
    requires m[0] == "0123456789"[minutes / 10] && m[1] == "0123456789"[minutes % 10]
    ensures Timestampz(text + offset) == Parsed(at - (if negative then 0 - hours else hours) * 3600 - minutes * 60)
  {
    TextBehind(c, text, offset, negative, hours, minutes, h, m);
  }

  /** The same with any offset behind them, written as a sign and two digits each of hours and minutes. */
  lemma KnownInstantsz(at: int, text: string, offset: string, negative: bool, hours: nat, minutes: nat, h: string,
                       m: string)
    requires || (text == "1970-01-01 00:00:00" && at == 0)
             || (text == "2024-03-05 06:07:08" && at == 1_709_618_828)
    requires hours < 100 && minutes < 100 && |h| == 2 && |m| == 2
    requires offset == (if negative then "-" else "+") + h + ":" + m
    requires h[0] == "0123456789"[hours / 10] && h[1] == "0123456789"[hours % 10]
    requires m[0] == "0123456789"[minutes / 10] && m[1] == "0123456789"[minutes % 10]
    ensures Timestampz(text + offset) == Parsed(at - (if negative then 0 - hours else hours) * 3600 - minutes * 60)
  {
    if at == 0 {
      var c :| c == Civil(Date(1970, 1, 1), 0, 0, 0);
      EpochText(c);
      AtTime(c, at, text, offset, negative, hours, minutes, h, m);
    } else {
      var c :| c == Civil(Date(2024, 3, 5), 6, 7, 8);
      MarchText(c);
      AtTime(c, at, text, offset, negative, hours, minutes, h, m);
    }
  }
}
