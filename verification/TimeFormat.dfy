/** Printing with a layout, and reading back what was printed, for any layout. */
module TimeFormat {
  import opened Values
  import opened Arithmetic
  import opened Calendar
  import opened Layouts
  import opened Rfc3339

  // ---- printing -------------------------------------------------------------------------

  function ClockHour(h: nat): (r: nat)
    ensures 1 <= r <= 12
  {
    if h % 12 == 0 then 12 else h % 12
  }

  function HoursText(offset: int): string {
    (if offset < 0 then "-" else "+") + Pad2((if offset < 0 then -offset else offset) / 3600)
  }

  /** One field, as the switch in `format_layout` prints it. */
  function FieldText(kind: Kind, c: Civil, offset: int): string
    requires c.Valid()
  {
    match kind
    case Year4 => PadN(c.year, 4)
    case Year2 => Pad2(TruncMod(TruncMod(c.year, 100) + 100, 100))
    case MonthNum => Pad2(c.month)
    case MonthNum1 => Show(c.month)
    case MonthAbbr => Abbreviation(MONTH_LONG, c.month - 1)
    case MonthLong => MONTH_LONG[c.month - 1]
    case DayNum => Pad2(c.day)
    case DayNum1 => Show(c.day)
    case DaySpace => (if c.day < 10 then " " else "") + Show(c.day)
    case Hour24 => Pad2(c.hour)
    case Hour12 => Pad2(ClockHour(c.hour))
    case Hour12_1 => Show(ClockHour(c.hour))
    case Min2 => Pad2(c.minute)
    case Min1 => Show(c.minute)
    case Sec2 => Pad2(c.second)
    case Sec1 => Show(c.second)
    case PmUpper => if c.hour < 12 then "AM" else "PM"
    case PmLower => if c.hour < 12 then "am" else "pm"
    case WdayAbbr => Abbreviation(DAY_LONG, c.wday)
    case WdayLong => DAY_LONG[c.wday]
    case Yday3 => PadN(c.yday, 3)
    case Yday1 => Show(c.yday)
    case TzNum => OffsetText(offset, false, false)
    case TzNumColon => OffsetText(offset, true, false)
    case TzNumShort => HoursText(offset)
    case TzZ => OffsetText(offset, false, true)
    case TzZColon => OffsetText(offset, true, true)
    case TzZShort => if offset == 0 then "Z" else HoursText(offset)
    case TzAbbr => if offset == 0 then "UTC" else OffsetText(offset, false, false)
  }

  /** The first three letters. */
  function Abbreviation(names: seq<string>, k: nat): string
    requires k < |names|
  {
    if |names[k]| < 3 then names[k] else names[k][..3]
  }

  function TokenText(t: Token, c: Civil, offset: int): string
    requires c.Valid()
  {
    match t
    case Literal(text) => text
    case Fraction(trim, digits) => FractionText(c.nano, digits, trim)
    case Field(kind) => FieldText(kind, c, offset)
  }

  function TokensText(toks: seq<Token>, c: Civil, offset: int): string
    requires c.Valid()
  {
    if toks == [] then "" else TokenText(toks[0], c, offset) + TokensText(toks[1..], c, offset)
  }

  method FormatLayout(c: Civil, offset: int, layout: string) returns (out: string)
    requires c.Valid()
    ensures out == TokensText(Layout(layout, []), c, offset)
  {
    hide Layout, FieldText, FractionText;
    var toks := ParseLayout(layout);
    out := "";
    assert toks[0..] == toks;
    for k := 0 to |toks|
      invariant out + TokensText(toks[k..], c, offset) == TokensText(toks, c, offset)
    {
      assert toks[k..][1..] == toks[k + 1..];
      ghost var more := TokensText(toks[k + 1..], c, offset);
      match toks[k] {
        case Literal(text) =>
          assert out + (text + more) == (out + text) + more;
          out := out + text;
        case Fraction(trim, digits) =>
          var f := WriteFraction(c.nano, digits, trim);
          assert out + (f + more) == (out + f) + more;
          out := out + f;
        case Field(kind) =>
          var f := FieldText(kind, c, offset);
          assert out + (f + more) == (out + f) + more;
          out := out + f;
      }
    }
  }

  // ---- the assembly of the fields -------------------------------------------------------

  /** The hour of a twelve-hour clock on the twenty-four-hour one. */
  function FullHour(hour: nat, pm: bool): nat {
    if hour > 12 then hour else hour % 12 + if pm then 12 else 0
  }

  /** A half-day moves the hour to the twenty-four-hour clock: twelve is the first hour of each. */
  lemma HalfDay(p: Parsed)
    requires p.hasAmPm && p.hour >= 0
    ensures Assemble(p) == Assemble(p.(hasAmPm := false, hour := FullHour(p.hour, p.pm)))
  {
    hide FromCivilSecs, MakeTs;
  }

  /** The seconds of a day count and a time of day. */
  function SecondsAt(days: int, hour: int, minute: int, second: int): int {
    days * 86400 + hour * 3600 + minute * 60 + second
  }

  /** A day of the year counts from the first of January; otherwise the month and day say. */
  lemma AssembleIs(p: Parsed)
    requires !p.hasAmPm && 1 <= p.month <= 12
    ensures var days := if p.yday > 0 then YearStart(p.year) + p.yday - 1 else DayNumber(p.year, p.month, p.day);
            Assemble(p) == MakeTs(SecondsAt(days, p.hour, p.minute, p.second) - p.offset, p.nano, p.offset)
  {
    hide FromCivilSecs, MakeTs, YearStart;
    if p.yday > 0 {
      InYear(p.year, 1, p.yday, p.hour, p.minute, p.second, p.offset);
    } else {
      InYear(p.year, p.month, p.day, p.hour, p.minute, p.second, p.offset);
    }
  }

  // ---- numbers --------------------------------------------------------------------------

  lemma ScanShown(v: nat, max: nat, rest: string)
    requires max > 0 && v < Pow10(max) && (|Digits(v)| == max || NoDigit(rest))
    ensures ScanInt(Show(v) + rest, max, 1) == Some((v, rest))
  {
    hide DigitRun, ValueOf, Digits, Pow10;
    var t := Digits(v);
    DigitsLength(v, max);
    DigitsValue(v);
    DigitRunOf(t, rest, max);
    assert (t + rest)[..|t|] == t && (t + rest)[|t|..] == rest;
  }

  /** One or two digits. */
  lemma ScanShown2(v: nat, rest: string)
    requires v < 100 && (v >= 10 || NoDigit(rest))
    ensures ScanInt(Show(v) + rest, 2, 1) == Some((v, rest))
  {
    hide ScanInt, Digits;
    TenPowers();
    DigitsLength(v, 1);
    DigitsLength(v, 2);
    ScanShown(v, 2, rest);
  }

  lemma TenPowers()
    ensures Pow10(1) == 10 && Pow10(2) == 100 && Pow10(3) == 1000
  {
  }

  lemma ScanPadded(v: nat, width: nat, rest: string)
    requires 0 < width && v < Pow10(width)
    ensures ScanInt(PadN(v, width) + rest, width, width) == Some((v, rest))
  {
    hide ScanInt, PadN, ValueOf;
    PadHolds(v, width);
    ScanOf(PadN(v, width), rest, width);
  }

  // ---- names ----------------------------------------------------------------------------

  /** The names differ within their first three letters, whatever the case. */
  predicate Parted(a: string, b: string) {
    |a| >= 3 && |b| >= 3 && (Lower(a[0]) != Lower(b[0]) || Lower(a[1]) != Lower(b[1]) || Lower(a[2]) != Lower(b[2]))
  }

  predicate AllParted(names: seq<string>) {
    && (forall k | 0 <= k < |names| :: |names[k]| >= 3)
    && forall j, k | 0 <= j < |names| && 0 <= k < |names| && j != k :: Parted(names[j], names[k])
  }

  lemma NoMatch(a: string, b: string, rest: string)
    requires Parted(a, b)
    ensures !MatchesName(a + rest, b)
  {
    var s := a + rest;
    assert s[0] == a[0] && s[1] == a[1] && s[2] == a[2];
  }

  lemma {:induction false} ScanFull(names: seq<string>, k: nat, rest: string, j: nat)
    requires AllParted(names) && j <= k < |names|
    ensures ScanName(names[k] + rest, names, j, false) == Some((k, rest))
    decreases k - j
  {
    var s := names[k] + rest;
    if j < k {
      NoMatch(names[k], names[j], rest);
      ScanFull(names, k, rest, j + 1);
    } else {
      assert s[|names[k]|..] == rest;
    }
  }

  /** The same letters, each in either case. */
  predicate Recased(text: string, name: string) {
    |text| == |name| && forall i | 0 <= i < |name| ::
      text[i] == name[i] || ('a' <= name[i] <= 'z' && text[i] as int == name[i] as int - 32) ||
      ('A' <= name[i] <= 'Z' && text[i] as int == name[i] as int + 32)
  }

  lemma RecasedParts(text: string, a: string, b: string)
    requires Recased(text, a) && Parted(a, b)
    ensures Parted(text, b)
  {
  }

  /** A full name is read in any case. */
  lemma {:induction false} ScanRecased(names: seq<string>, k: nat, text: string, rest: string, j: nat)
    requires AllParted(names) && j <= k < |names| && Recased(text, names[k])
    ensures ScanName(text + rest, names, j, false) == Some((k, rest))
    decreases k - j
  {
    hide Recased, MatchesName;
    if j < k {
      RecasedParts(text, names[k], names[j]);
      NoMatch(text, names[j], rest);
      ScanRecased(names, k, text, rest, j + 1);
    } else {
      RecasedMatches(text, names[k], rest);
      assert (text + rest)[|text|..] == rest;
    }
  }

  lemma RecasedMatches(text: string, name: string, rest: string)
    requires Recased(text, name)
    ensures MatchesName(text + rest, name) && |text| == |name|
  {
  }

  /** Behind the three letters, the rest of the name does not follow. */
  predicate NoMoreName(names: seq<string>, k: nat, rest: string)
    requires k < |names|
  {
    |names[k]| <= 3 || !MatchesName(rest, names[k][3..])
  }

  lemma LongerName(names: seq<string>, k: nat, rest: string)
    requires k < |names| && |names[k]| > 3 && NoMoreName(names, k, rest)
    ensures !MatchesName(names[k][..3] + rest, names[k])
  {
    var s := names[k][..3] + rest;
    if MatchesName(s, names[k]) {
      forall i | 0 <= i < |names[k]| - 3
        ensures i < |rest| && Lower(rest[i]) == Lower(names[k][3..][i])
      {
        assert Lower(s[i + 3]) == Lower(names[k][i + 3]);
      }
    }
  }

  lemma PartedShort(a: string, b: string)
    requires Parted(a, b)
    ensures Parted(a[..3], b) && Parted(a[..3], b[..3])
  {
  }

  lemma {:induction false} ScanShort(names: seq<string>, k: nat, rest: string, j: nat, abbrev: bool)
    requires AllParted(names) && k < |names| && NoMoreName(names, k, rest)
    requires j <= |names| && (abbrev ==> j <= k && |names[k]| > 3) && (|names[k]| == 3 ==> j <= k)
    ensures ScanName(Abbreviation(names, k) + rest, names, j, abbrev) == Some((k, rest))
    decreases if abbrev then 0 else 1, |names| - j
  {
    hide MatchesName, NoMoreName;
    var s := names[k][..3] + rest;
    assert Abbreviation(names, k) == names[k][..3];
    if j == |names| {
      ScanShort(names, k, rest, 0, true);
    } else if j != k {
      PartedShort(names[k], names[j]);
      NoMatch(names[k][..3], names[j], rest);
      if |names[j]| > 3 { NoMatch(names[k][..3], names[j][..3], rest); }
      ScanShort(names, k, rest, j + 1, abbrev);
    } else {
      assert s[3..] == rest;
      if |names[k]| > 3 {
        if abbrev {
          Itself(names[k][..3], rest);
        } else {
          LongerName(names, k, rest);
          ScanShort(names, k, rest, k + 1, false);
        }
      } else {
        assert names[k][..3] == names[k];
        Itself(names[k], rest);
      }
    }
  }

  lemma Itself(a: string, rest: string)
    ensures MatchesName(a + rest, a)
  {
  }

  /** The first three letters as one number. */
  function Code(name: string): int
    requires |name| >= 3
  {
    (Lower(name[0]) as int - 97) * 676 + (Lower(name[1]) as int - 97) * 26 + Lower(name[2]) as int - 97
  }

  const MONTH_CODES: seq<int> := [6097, 3485, 8129, 407, 8136, 6617, 6615, 526, 12287, 9535, 9173, 2134]

  const DAY_CODES: seq<int> := [12701, 8489, 13368, 14979, 13046, 3830, 12187]

  lemma CodesPart(names: seq<string>, codes: seq<int>)
    requires |codes| == |names|
    requires forall k | 0 <= k < |names| :: |names[k]| >= 3 && Code(names[k]) == codes[k]
    requires forall j, k | 0 <= j < k < |codes| :: codes[j] != codes[k]
    ensures AllParted(names)
  {
    forall j, k | 0 <= j < |names| && 0 <= k < |names| && j != k
      ensures Parted(names[j], names[k])
    {
      assert codes[j] != codes[k];
      assert Code(names[j]) != Code(names[k]);
    }
  }

  lemma MonthCode(k: nat)
    requires k < 12
    ensures |MONTH_LONG| == 12 && |MONTH_LONG[k]| >= 3 && Code(MONTH_LONG[k]) == MONTH_CODES[k]
  {
  }

  lemma MonthsParted()
    ensures AllParted(MONTH_LONG)
  {
    hide Code;
    forall k | 0 <= k < 12
      ensures |MONTH_LONG[k]| >= 3 && Code(MONTH_LONG[k]) == MONTH_CODES[k]
    {
      MonthCode(k);
    }
    CodesPart(MONTH_LONG, MONTH_CODES);
  }

  lemma DayCode(k: nat)
    requires k < 7
    ensures |DAY_LONG| == 7 && |DAY_LONG[k]| > 3 && Code(DAY_LONG[k]) == DAY_CODES[k]
  {
  }

  lemma DaysParted()
    ensures AllParted(DAY_LONG)
  {
    hide Code;
    forall k | 0 <= k < 7
      ensures |DAY_LONG[k]| >= 3 && Code(DAY_LONG[k]) == DAY_CODES[k]
    {
      DayCode(k);
    }
    CodesPart(DAY_LONG, DAY_CODES);
  }

  // ---- one token ------------------------------------------------------------------------

  /** The text that follows does not run into the field, and the field can be said in its width. */
  predicate Clear(t: Token, c: Civil, offset: int, fractionNext: bool, rest: string)
    requires c.Valid()
  {
    match t
    case Literal(_) => true
    case Fraction(trim, digits) => digits > 0 && NoDigit(rest) && (trim && Cut(c.nano, digits) == 0 ==> NoPoint(rest))
    case Field(kind) =>
      match kind
      case Year4 => 0 <= c.year < 10000
      case Year2 => 1969 <= c.year < 2069
      case MonthNum1 => c.month >= 10 || NoDigit(rest)
      case MonthAbbr => NoMoreName(MONTH_LONG, c.month - 1, rest)
      case DayNum1 | DaySpace => c.day >= 10 || NoDigit(rest)
      case Hour12_1 => ClockHour(c.hour) >= 10 || NoDigit(rest)
      case Min1 => c.minute >= 10 || NoDigit(rest)
      case Sec2 => fractionNext || NoBareFraction(rest)
      case Sec1 => (c.second >= 10 || NoDigit(rest)) && (fractionNext || NoBareFraction(rest))
      case WdayAbbr => NoMoreName(DAY_LONG, c.wday, rest)
      case Yday1 => c.yday >= 100 || NoDigit(rest)
      case TzNum | TzNumColon | TzZ | TzZColon => WholeMinutes(offset) && -360000 < offset < 360000
      case TzNumShort | TzZShort => WholeHours(offset) && -360000 < offset < 360000
      case TzAbbr => offset == 0 && NoLetter(rest)
      case MonthNum | MonthLong | DayNum | Hour24 | Hour12 | Min2 | PmUpper | PmLower | WdayLong | Yday3 => true
  }

  predicate NoBareFraction(rest: string) { !(|rest| > 1 && rest[0] in {'.', ','} && IsDigit(rest[1])) }

  predicate NoLetter(rest: string) { rest == "" || !('a' <= Lower(rest[0]) <= 'z') }

  predicate WholeHours(offset: int) { offset % 3600 == 0 }

  /** The fields once the token has been read. */
  function Noted(t: Token, c: Civil, offset: int, p: Parsed): Parsed
    requires c.Valid()
  {
    match t
    case Literal(_) => p
    case Fraction(trim, digits) => if trim && Cut(c.nano, digits) == 0 then p else p.(nano := Cut(c.nano, digits))
    case Field(kind) =>
      match kind
      case Year4 | Year2 => p.(year := c.year)
      case MonthNum | MonthNum1 | MonthAbbr | MonthLong => p.(month := c.month)
      case DayNum | DayNum1 | DaySpace => p.(day := c.day)
      case Hour24 => p.(hour := c.hour)
      case Hour12 | Hour12_1 => p.(hour := ClockHour(c.hour))
      case Min2 | Min1 => p.(minute := c.minute)
      case Sec2 | Sec1 => p.(second := c.second)
      case PmUpper | PmLower => p.(pm := c.hour >= 12, hasAmPm := true)
      case WdayAbbr | WdayLong => p
      case Yday3 | Yday1 => p.(yday := c.yday)
      case TzNum | TzNumColon | TzNumShort | TzZ | TzZColon | TzZShort | TzAbbr => p.(offset := offset)
  }

  lemma DayInMonth(c: Civil)
    requires c.Valid()
    ensures 1 <= c.day <= 31 && 1 <= c.yday <= 366
  {
    hide DayNumber, YearStart;
    var t := Date(c.year, c.month, c.day);
    WithinYear(t);
    YearLength(c.year);
  }

  lemma ReadShortZone(offset: int, allowsZ: bool, rest: string)
    requires WholeHours(offset) && -360000 < offset < 360000
    ensures ReadZone(HoursText(offset) + rest, allowsZ, true) == Some((offset, rest))
  {
    hide ScanInt, Pad2;
    var v := if offset < 0 then -offset else offset;
    DivModUnique(v, 3600, if offset < 0 then -(offset / 3600) else offset / 3600, 0);
    var s := HoursText(offset) + rest;
    assert s[1..] == Pad2(v / 3600) + rest;
    ScanPad2(v / 3600, rest);
  }

  lemma ReadsZone(kind: Kind, c: Civil, offset: int, fractionNext: bool, rest: string, p: Parsed)
    requires kind in {TzNum, TzNumColon, TzNumShort, TzZ, TzZColon, TzZShort} && c.Valid()
    requires Clear(Field(kind), c, offset, fractionNext, rest)
    ensures ReadField(kind, fractionNext, FieldText(kind, c, offset) + rest, p) == Some((rest, p.(offset := offset)))
  {
    hide ReadZone, OffsetText, HoursText;
    if kind in {TzNumShort, TzZShort} {
      if kind.TzZShort? && offset == 0 {
        PlainZ(rest);
      } else {
        ReadShortZone(offset, kind.TzZShort?, rest);
      }
    } else {
      ReadBackZone(offset, kind in {TzNumColon, TzZColon}, kind in {TzZ, TzZColon}, rest);
    }
  }

  lemma PlainZ(rest: string)
    ensures ReadZone("Z" + rest, true, true) == Some((0, rest))
  {
    assert ("Z" + rest)[1..] == rest;
  }

  predicate AllLetters(a: string) { forall i | 0 <= i < |a| :: 'a' <= Lower(a[i]) <= 'z' }

  lemma {:induction false} LettersOf(a: string, rest: string)
    requires AllLetters(a) && NoLetter(rest)
    ensures Letters(a + rest) == |a|
  {
    if a == "" {
      assert a + rest == rest;
    } else {
      assert (a + rest)[1..] == a[1..] + rest;
      LettersOf(a[1..], rest);
    }
  }

  /** An abbreviation is read whole. Four of them say UTC, the others say nothing. */
  lemma ReadsAbbreviation(a: string, rest: string, p: Parsed)
    requires a != "" && AllLetters(a) && NoLetter(rest)
    ensures ReadAbbreviation(a + rest, p) ==
            Some((rest, if a == "UTC" || a == "GMT" || a == "UT" || a == "Z" then p.(offset := 0) else p))
  {
    hide Letters;
    LettersOf(a, rest);
    assert (a + rest)[|a|..] == rest && (a + rest)[..|a|] == a;
  }

  /** Digits in place of a zone name are not read as one. */
  lemma NumericZoneUnread(c: Civil, offset: int, rest: string, p: Parsed)
    requires c.Valid() && offset != 0
    ensures ReadField(TzAbbr, false, FieldText(TzAbbr, c, offset) + rest, p) == None
  {
    hide Pad2;
    var s := OffsetText(offset, false, false) + rest;
    assert s[0] in {'+', '-'};
    assert Letters(s) == 0;
  }

  /** The two digits of the year stand for one of a hundred years. */
  lemma ReadsYear2(c: Civil, rest: string)
    requires 1969 <= c.year < 2069
    ensures ScanInt(Pad2(TruncMod(TruncMod(c.year, 100) + 100, 100)) + rest, 2, 2) == Some((c.year % 100, rest))
    ensures c.year == if c.year % 100 >= 69 then 1900 + c.year % 100 else 2000 + c.year % 100
  {
    hide ScanInt, Pad2;
    ScanPad2(c.year % 100, rest);
  }

  lemma ReadsDate(kind: Kind, c: Civil, offset: int, fractionNext: bool, rest: string, p: Parsed)
    requires c.Valid() && Clear(Field(kind), c, offset, fractionNext, rest)
    requires kind in {Year4, Year2, MonthNum, MonthNum1, DayNum, DayNum1, DaySpace, Yday3, Yday1}
    ensures ReadField(kind, fractionNext, FieldText(kind, c, offset) + rest, p) == Some((rest, Noted(Field(kind), c, offset, p)))
  {
    hide ScanInt, PadN, Pad2, Show, YearStart, DayNumber;
    DayInMonth(c);
    TenPowers();
    match kind {
      case Year4 =>
        NinePowers();
        ScanPadded(c.year, 4, rest);
      case Year2 => ReadsYear2(c, rest);
      case MonthNum => ScanPad2(c.month, rest);
      case MonthNum1 => ScanShown2(c.month, rest);
      case DayNum => ScanPad2(c.day, rest);
      case DayNum1 => ScanShown2(c.day, rest);
      case DaySpace =>
        ScanShown2(c.day, rest);
        SpaceSkipped(c.day, rest);
      case Yday3 => ScanPadded(c.yday, 3, rest);
      case Yday1 =>
        DigitsLength(c.yday, 2);
        DigitsLength(c.yday, 3);
        ScanShown(c.yday, 3, rest);
    }
  }

  lemma SpaceSkipped(d: nat, rest: string)
    ensures (" " + Show(d) + rest)[1..] == Show(d) + rest
    ensures Show(d) != "" && IsDigit(Show(d)[0]) && "" + Show(d) == Show(d)
  {
  }

  lemma ReadsClock(kind: Kind, c: Civil, offset: int, fractionNext: bool, rest: string, p: Parsed)
    requires c.Valid() && Clear(Field(kind), c, offset, fractionNext, rest)
    requires kind in {Hour24, Hour12, Hour12_1, Min2, Min1, Sec2, Sec1, PmUpper, PmLower}
    ensures ReadField(kind, fractionNext, FieldText(kind, c, offset) + rest, p) == Some((rest, Noted(Field(kind), c, offset, p)))
  {
    hide ScanInt, Pad2, Show, YearStart, DayNumber;
    match kind {
      case Hour24 => ScanPad2(c.hour, rest);
      case Hour12 => ScanPad2(ClockHour(c.hour), rest);
      case Hour12_1 => ScanShown2(ClockHour(c.hour), rest);
      case Min2 => ScanPad2(c.minute, rest);
      case Min1 => ScanShown2(c.minute, rest);
      case Sec2 => ScanPad2(c.second, rest);
      case Sec1 => ScanShown2(c.second, rest);
      case PmUpper => assert ((if c.hour < 12 then "AM" else "PM") + rest)[2..] == rest;
      case PmLower => assert ((if c.hour < 12 then "am" else "pm") + rest)[2..] == rest;
    }
  }

  /** The half of the day is read in any case. */
  lemma HalfInAnyCase(text: string, rest: string, p: Parsed)
    requires Recased(text, "am") || Recased(text, "pm")
    ensures ReadAmPm(text + rest, p) == Some((rest, p.(pm := Recased(text, "pm"), hasAmPm := true)))
  {
    assert (text + rest)[2..] == rest;
  }

  /** Behind the seconds a fraction is read that the layout does not mention, after a point or a comma,
      and cut to nanoseconds. */
  lemma UnmentionedFraction(kind: Kind, second: nat, point: char, digits: string, rest: string, p: Parsed)
    requires (kind.Sec2? || kind.Sec1?) && second < 100 && point in {'.', ','}
    requires digits != "" && AllDigits(digits) && NoDigit(rest)
    ensures ReadField(kind, false, Pad2(second) + ([point] + digits + rest), p) ==
            Some((rest, p.(second := second, nano := ValueOf(if |digits| >= 9 then digits[..9] else digits + Zeros(9 - |digits|)))))
  {
    hide *;
    ReadSecond(kind, second, [point] + digits + rest, p);
    BareFractionRead(point, digits, rest, p.(second := second));
  }

  lemma ReadSecond(kind: Kind, second: nat, tail: string, p: Parsed)
    requires (kind.Sec2? || kind.Sec1?) && second < 100
    ensures ReadField(kind, false, Pad2(second) + tail, p) == Some(BareFraction(tail, p.(second := second)))
  {
    hide Pad2, ScanInt, BareFraction;
    ScanPad2(second, tail);
    TwoOrMore(second, tail);
  }

  lemma BareFractionRead(point: char, digits: string, rest: string, p: Parsed)
    requires point in {'.', ','} && digits != "" && AllDigits(digits) && NoDigit(rest)
    ensures BareFraction([point] + digits + rest, p) ==
            (rest, p.(nano := ValueOf(if |digits| >= 9 then digits[..9] else digits + Zeros(9 - |digits|))))
  {
    var tail := [point] + digits + rest;
    PointParts(point, digits, rest);
    assert IsDigit(digits[0]);
    DigitRunOf(digits, rest, |tail|);
    hide AllDigits, ValueOf, DigitRun, IsDigit, NoDigit;
    BareRun(tail, |digits|, p);
  }

  lemma BareRun(tail: string, n: nat, p: Parsed)
    requires |tail| > 1 && tail[0] in {'.', ','} && IsDigit(tail[1]) && DigitRun(tail[1..], |tail|) == n
    ensures BareFraction(tail, p) == (tail[1 + n..], p.(nano := ValueOf(Resize9(tail[1..1 + n]))))
  {
    hide ValueOf, DigitRun, IsDigit, Resize9;
  }

  lemma PointParts(point: char, digits: string, rest: string)
    requires digits != ""
    ensures var t := [point] + digits + rest;
            && |t| > 1 && t[0] == point && t[1] == digits[0]
            && t[1..] == digits + rest && t[1..1 + |digits|] == digits && t[1 + |digits|..] == rest
  {
  }

  lemma TwoOrMore(v: nat, rest: string)
    requires v < 100
    ensures ScanInt(Pad2(v) + rest, 2, 1) == Some((v, rest))
  {
    hide DigitRun, ValueOf;
    Pad2Holds(v);
    DigitRunOf(Pad2(v), rest, 2);
    assert (Pad2(v) + rest)[..2] == Pad2(v) && (Pad2(v) + rest)[2..] == rest;
  }

  lemma ReadsName(kind: Kind, c: Civil, offset: int, fractionNext: bool, rest: string, p: Parsed)
    requires c.Valid() && Clear(Field(kind), c, offset, fractionNext, rest)
    requires kind in {MonthAbbr, MonthLong, WdayAbbr, WdayLong}
    ensures ReadField(kind, fractionNext, FieldText(kind, c, offset) + rest, p) == Some((rest, Noted(Field(kind), c, offset, p)))
  {
    hide ScanName, NoMoreName, AllParted, YearStart, DayNumber;
    MonthsParted();
    DaysParted();
    MonthCode(0);
    DayCode(0);
    match kind {
      case MonthAbbr => ScansShort(MONTH_LONG, c.month - 1, rest);
      case MonthLong => ScanFull(MONTH_LONG, c.month - 1, rest, 0);
      case WdayAbbr => ScansShort(DAY_LONG, c.wday, rest);
      case WdayLong => ScanFull(DAY_LONG, c.wday, rest, 0);
    }
  }

  lemma ScansShort(names: seq<string>, k: nat, rest: string)
    requires AllParted(names) && k < |names| && NoMoreName(names, k, rest)
    ensures ScanName(Abbreviation(names, k) + rest, names, 0, false) == Some((k, rest))
  {
    hide ScanName, NoMoreName;
    ScanShort(names, k, rest, 0, false);
  }

  /** What is printed for a token is read as that token, and says what it was printed from. */
  lemma TokenReadsBack(t: Token, c: Civil, offset: int, fractionNext: bool, rest: string, p: Parsed)
    requires c.Valid() && Clear(t, c, offset, fractionNext, rest)
    ensures ReadToken(t, fractionNext, TokenText(t, c, offset) + rest, p) == Some((rest, Noted(t, c, offset, p)))
  {
    hide ReadField, FieldText, ReadFraction, FractionText, Cut, YearStart, DayNumber;
    match t {
      case Literal(text) => assert (text + rest)[|text|..] == rest && text <= text + rest;
      case Fraction(trim, digits) => ReadBackFraction(c.nano, digits, trim, rest, p);
      case Field(kind) =>
        if kind in {Year4, Year2, MonthNum, MonthNum1, DayNum, DayNum1, DaySpace, Yday3, Yday1} {
          ReadsDate(kind, c, offset, fractionNext, rest, p);
        } else if kind in {Hour24, Hour12, Hour12_1, Min2, Min1, Sec2, Sec1, PmUpper, PmLower} {
          ReadsClock(kind, c, offset, fractionNext, rest, p);
        } else if kind in {MonthAbbr, MonthLong, WdayAbbr, WdayLong} {
          ReadsName(kind, c, offset, fractionNext, rest, p);
        } else if kind.TzAbbr? {
          UtcReads(c, fractionNext, rest, p);
        } else {
          ReadsZone(kind, c, offset, fractionNext, rest, p);
        }
    }
  }

  lemma UtcReads(c: Civil, fractionNext: bool, rest: string, p: Parsed)
    requires c.Valid() && NoLetter(rest)
    ensures ReadField(TzAbbr, fractionNext, FieldText(TzAbbr, c, 0) + rest, p) == Some((rest, p.(offset := 0)))
  {
    hide ReadAbbreviation;
    ReadsAbbreviation("UTC", rest, p);
  }

  // ---- any layout -----------------------------------------------------------------------

  /** Every token is clear of what is printed behind it. */
  predicate AllClear(toks: seq<Token>, c: Civil, offset: int)
    requires c.Valid()
  {
    toks != [] ==>
      Clear(toks[0], c, offset, |toks| > 1 && toks[1].Fraction?, TokensText(toks[1..], c, offset)) &&
      AllClear(toks[1..], c, offset)
  }

  function AllNoted(toks: seq<Token>, c: Civil, offset: int, p: Parsed): Parsed
    requires c.Valid()
  {
    if toks == [] then p else AllNoted(toks[1..], c, offset, Noted(toks[0], c, offset, p))
  }

  lemma {:induction false} TokensReadBack(toks: seq<Token>, c: Civil, offset: int, p: Parsed)
    requires c.Valid() && AllClear(toks, c, offset)
    ensures ReadAll(toks, TokensText(toks, c, offset), p) == Some(("", AllNoted(toks, c, offset, p)))
  {
    hide ReadToken, TokenText, Clear, Noted;
    if toks != [] {
      TokenReadsBack(toks[0], c, offset, |toks| > 1 && toks[1].Fraction?, TokensText(toks[1..], c, offset), p);
      TokensReadBack(toks[1..], c, offset, Noted(toks[0], c, offset, p));
    }
  }

  predicate Of(t: Token, kinds: set<Kind>) { t.Field? && t.kind in kinds }

  /** The layout has a field of one of these kinds. */
  predicate Names(toks: seq<Token>, kinds: set<Kind>) { exists i | 0 <= i < |toks| :: Of(toks[i], kinds) }

  /** The layout has a fraction, or none. */
  predicate HasFraction(toks: seq<Token>) { exists i | 0 <= i < |toks| :: toks[i].Fraction? }

  /** Its fractions have this many digits. */
  predicate Width(toks: seq<Token>, digits: nat) {
    forall i | 0 <= i < |toks| :: toks[i].Fraction? ==> toks[i].digits == digits
  }

  lemma NamesStep(toks: seq<Token>, kinds: set<Kind>)
    requires toks != []
    ensures Names(toks, kinds) <==> Of(toks[0], kinds) || Names(toks[1..], kinds)
  {
    if i :| 0 <= i < |toks| && Of(toks[i], kinds) { assert i > 0 ==> toks[1..][i - 1] == toks[i]; }
    if i :| 0 <= i < |toks| - 1 && Of(toks[1..][i], kinds) { assert toks[i + 1] == toks[1..][i]; }
  }

  lemma NoneNamed(kinds: set<Kind>)
    ensures !Names([], kinds)
  {
  }

  lemma FractionStep(toks: seq<Token>, digits: nat)
    requires toks != []
    ensures HasFraction(toks) <==> toks[0].Fraction? || HasFraction(toks[1..])
    ensures Width(toks, digits) ==> Width(toks[1..], digits)
  {
    if i :| 0 <= i < |toks| && toks[i].Fraction? { assert i > 0 ==> toks[1..][i - 1] == toks[i]; }
    if i :| 0 <= i < |toks| - 1 && toks[1..][i].Fraction? { assert toks[i + 1] == toks[1..][i]; }
  }

  const YEARS: set<Kind> := {Year4, Year2}
  const MONTHS: set<Kind> := {MonthNum, MonthNum1, MonthAbbr, MonthLong}
  const DAYS: set<Kind> := {DayNum, DayNum1, DaySpace}
  const YEAR_DAYS: set<Kind> := {Yday3, Yday1}
  const HOURS: set<Kind> := {Hour24, Hour12, Hour12_1}
  const CLOCK_HOURS: set<Kind> := {Hour12, Hour12_1}
  const HALVES: set<Kind> := {PmUpper, PmLower}
  const MINUTES: set<Kind> := {Min2, Min1}
  const SECONDS: set<Kind> := {Sec2, Sec1}
  const ZONES: set<Kind> := {TzNum, TzNumColon, TzNumShort, TzZ, TzZColon, TzZShort, TzAbbr}

  /** A field the layout has, or what it is when the layout does not have it. */
  function Given(toks: seq<Token>, kinds: set<Kind>, v: int, initial: int): int {
    if Names(toks, kinds) then v else initial
  }

  lemma OneNotedDate(t: Token, c: Civil, offset: int, p: Parsed)
    requires c.Valid()
    ensures var q := Noted(t, c, offset, p);
            && q.year == (if Of(t, YEARS) then c.year else p.year)
            && q.month == (if Of(t, MONTHS) then c.month else p.month)
            && q.day == (if Of(t, DAYS) then c.day else p.day)
            && q.yday == (if Of(t, YEAR_DAYS) then c.yday else p.yday)
            && q.offset == (if Of(t, ZONES) then offset else p.offset)
  {
    hide Cut, YearStart, DayNumber;
  }

  lemma {:induction false} NotedDate(toks: seq<Token>, c: Civil, offset: int, p: Parsed)
    requires c.Valid()
    ensures var q := AllNoted(toks, c, offset, p);
            && q.year == Given(toks, YEARS, c.year, p.year)
            && q.month == Given(toks, MONTHS, c.month, p.month)
            && q.day == Given(toks, DAYS, c.day, p.day)
            && q.yday == Given(toks, YEAR_DAYS, c.yday, p.yday)
            && q.offset == Given(toks, ZONES, offset, p.offset)
  {
    hide Noted, Of, Names;
    if toks != [] {
      NamesStep(toks, YEARS);
      NamesStep(toks, MONTHS);
      NamesStep(toks, DAYS);
      NamesStep(toks, YEAR_DAYS);
      NamesStep(toks, ZONES);
      OneNotedDate(toks[0], c, offset, p);
      NotedDate(toks[1..], c, offset, Noted(toks[0], c, offset, p));
    } else {
      NoneNamed(YEARS);
      NoneNamed(MONTHS);
      NoneNamed(DAYS);
      NoneNamed(YEAR_DAYS);
      NoneNamed(ZONES);
    }
  }

  lemma OneNotedClock(t: Token, c: Civil, offset: int, p: Parsed)
    requires c.Valid()
    ensures var q := Noted(t, c, offset, p);
            && q.minute == (if Of(t, MINUTES) then c.minute else p.minute)
            && q.second == (if Of(t, SECONDS) then c.second else p.second)
            && q.hasAmPm == (Of(t, HALVES) || p.hasAmPm)
            && q.pm == (if Of(t, HALVES) then c.hour >= 12 else p.pm)
            && q.hour == (if Of(t, CLOCK_HOURS) then ClockHour(c.hour) else if Of(t, HOURS) then c.hour else p.hour)
            && (Of(t, CLOCK_HOURS) ==> Of(t, HOURS))
  {
    hide Cut, YearStart, DayNumber, ClockHour;
  }

  lemma {:induction false} NotedClock(toks: seq<Token>, c: Civil, offset: int, p: Parsed)
    requires c.Valid()
    ensures var q := AllNoted(toks, c, offset, p);
            && q.minute == Given(toks, MINUTES, c.minute, p.minute)
            && q.second == Given(toks, SECONDS, c.second, p.second)
            && q.hasAmPm == (Names(toks, HALVES) || p.hasAmPm)
            && q.pm == (if Names(toks, HALVES) then c.hour >= 12 else p.pm)
            && (if Names(toks, HOURS) then
                  q.hour == c.hour || (q.hour == ClockHour(c.hour) && Names(toks, CLOCK_HOURS))
                else q.hour == p.hour)
  {
    hide Noted, Of, ClockHour, Names;
    if toks != [] {
      NamesStep(toks, MINUTES);
      NamesStep(toks, SECONDS);
      NamesStep(toks, HALVES);
      NamesStep(toks, HOURS);
      NamesStep(toks, CLOCK_HOURS);
      OneNotedClock(toks[0], c, offset, p);
      NotedClock(toks[1..], c, offset, Noted(toks[0], c, offset, p));
    } else {
      NoneNamed(MINUTES);
      NoneNamed(SECONDS);
      NoneNamed(HALVES);
      NoneNamed(HOURS);
      NoneNamed(CLOCK_HOURS);
    }
  }

  lemma {:induction false} NotedNano(toks: seq<Token>, c: Civil, offset: int, p: Parsed, digits: nat)
    requires c.Valid() && Width(toks, digits) && (p.nano == 0 || p.nano == Cut(c.nano, digits))
    ensures AllNoted(toks, c, offset, p).nano == if HasFraction(toks) then Cut(c.nano, digits) else p.nano
  {
    hide Cut, YearStart, DayNumber;
    if toks != [] {
      FractionStep(toks, digits);
      NotedNano(toks[1..], c, offset, Noted(toks[0], c, offset, p), digits);
    }
  }

  /** The hour is told whole: with its half of the day if it is on the twelve-hour clock, and no half
      of the day without an hour. */
  predicate TellsHour(toks: seq<Token>) {
    (Names(toks, CLOCK_HOURS) ==> Names(toks, HALVES)) && (Names(toks, HALVES) ==> Names(toks, HOURS))
  }

  lemma FullHourIs(h: nat)
    requires h < 24
    ensures FullHour(ClockHour(h), h >= 12) == h && FullHour(h, h >= 12) == h
  {
  }

  /** The day that the printed fields name. */
  function GivenDay(toks: seq<Token>, c: Civil): int
    requires c.Valid()
  {
    var year := Given(toks, YEARS, c.year, 1);
    if Names(toks, YEAR_DAYS) then YearStart(year) + c.yday - 1
    else DayNumber(year, Given(toks, MONTHS, c.month, 1), Given(toks, DAYS, c.day, 1))
  }

  /** Reading what a layout printed yields the instant of the fields it has: on the day they name, at
      the hour on the twenty-four-hour clock, with the rest as if it had said nothing. */
  lemma ReadsWhatItPrinted(toks: seq<Token>, c: Civil, offset: int, digits: nat)
    requires c.Valid() && AllClear(toks, c, offset) && TellsHour(toks) && Width(toks, digits)
    ensures ParseTokens(TokensText(toks, c, offset), toks) ==
            var zone := Given(toks, ZONES, offset, 0);
            MakeTs(SecondsAt(GivenDay(toks, c), Given(toks, HOURS, c.hour, 0), Given(toks, MINUTES, c.minute, 0),
                             Given(toks, SECONDS, c.second, 0)) - zone,
                   if HasFraction(toks) then Cut(c.nano, digits) else 0, zone)
  {
    hide ReadAll, TokensText, AllClear, AllNoted, Names, HasFraction, Width, Assemble, MakeTs, ClockHour, Cut, YearStart, DayNumber;
    var p := AllNoted(toks, c, offset, INITIAL);
    TokensReadBack(toks, c, offset, INITIAL);
    NotedDate(toks, c, offset, INITIAL);
    NotedClock(toks, c, offset, INITIAL);
    NotedNano(toks, c, offset, INITIAL, digits);
    DayInMonth(c);
    if p.hasAmPm {
      HalfDay(p);
      FullHourIs(c.hour);
      AssembleIs(p.(hasAmPm := false, hour := c.hour));
    } else {
      AssembleIs(p);
    }
  }

  /** The layout has every field of an instant. */
  predicate TellsAll(toks: seq<Token>) {
    && Names(toks, YEARS) && (Names(toks, YEAR_DAYS) || (Names(toks, MONTHS) && Names(toks, DAYS)))
    && Names(toks, HOURS) && TellsHour(toks) && Names(toks, MINUTES) && Names(toks, SECONDS)
    && HasFraction(toks) && Names(toks, ZONES)
  }

  /** An instant printed with a layout that has every field, and is clear of itself, is read back. */
  lemma InstantReadsBack(toks: seq<Token>, nanos: int, offset: int, c: Civil, digits: nat)
    requires INT64_MIN <= nanos <= INT64_MAX && c == ToCivil(nanos, offset) && c.Valid()
    requires TellsAll(toks) && digits >= 9 && Width(toks, digits) && AllClear(toks, c, offset)
    ensures ParseTokens(TokensText(toks, c, offset), toks) ==
            if nanos < -9_223_372_036_000_000_000 then None else Some(Instant(nanos, offset))
  {
    hide ToCivil, AllClear, TokensText, ParseTokens, Names, HasFraction, Width, Layout, FromCivilSecs, YearStart, DayNumber;
    FromToCivil(nanos, offset);
    ReadsWhatItPrinted(toks, c, offset, digits);
    InYear(c.year, c.month, c.day, c.hour, c.minute, c.second, offset);
    assert Pow10(0) == 1;
    assert Cut(c.nano, digits) == c.nano;
    if nanos < TS_MIN_SEC * NS { assert nanos / NS < TS_MIN_SEC; } else { assert nanos / NS >= TS_MIN_SEC; }
  }

  // ---- a twelve-hour clock --------------------------------------------------------------

  /** A date and time printed on the twelve-hour clock is read back as its instant in UTC. */
  lemma HalfDayRoundTrip(c: Civil)
    requires c.Valid() && 0 <= c.year < 10000
    ensures ParseTokens(TokensText(HALF_DAY_TOKENS, c, 0), Layout(HALF_DAY, [])) ==
            MakeTs(SecondsAt(DayNumber(c.year, c.month, c.day), c.hour, c.minute, 0), 0, 0)
  {
    hide Layout, ParseTokens, MakeTs, YearStart, DayNumber, FieldText, AllClear;
    HalfDayLayout();
    HalfDayNames();
    HalfDayClear(c);
    ReadsWhatItPrinted(HALF_DAY_TOKENS, c, 0, 0);
  }

  lemma HalfDayNames()
    ensures var t := HALF_DAY_TOKENS;
            && Names(t, YEARS) && Names(t, MONTHS) && Names(t, DAYS) && Names(t, HOURS) && Names(t, MINUTES) && Names(t, HALVES)
            && !Names(t, YEAR_DAYS) && !Names(t, SECONDS) && !Names(t, ZONES) && !HasFraction(t) && Width(t, 0)
  {
    hide *;
    HalfDayKinds();
    DateHere(HALF_DAY_TOKENS);
    ClockHere(HALF_DAY_TOKENS);
    NothingElse(HALF_DAY_TOKENS);
  }

  predicate LikeHalfDay(t: seq<Token>) {
    && |t| == 10 && t[0] == Field(Year4) && t[2] == Field(MonthNum) && t[4] == Field(DayNum) && t[6] == Field(Hour12_1)
    && t[8] == Field(Min2) && t[9] == Field(PmUpper) && t[1].Literal? && t[3].Literal? && t[5].Literal? && t[7].Literal?
  }

  lemma HalfDayKinds()
    ensures LikeHalfDay(HALF_DAY_TOKENS)
  {
  }

  lemma DateHere(t: seq<Token>)
    requires LikeHalfDay(t)
    ensures Names(t, YEARS) && Names(t, MONTHS) && Names(t, DAYS)
  {
    assert Of(t[0], YEARS) && Of(t[2], MONTHS) && Of(t[4], DAYS);
  }

  lemma ClockHere(t: seq<Token>)
    requires LikeHalfDay(t)
    ensures Names(t, HOURS) && Names(t, MINUTES) && Names(t, HALVES)
  {
    assert Of(t[6], HOURS) && Of(t[8], MINUTES) && Of(t[9], HALVES);
  }

  lemma NothingElse(t: seq<Token>)
    requires LikeHalfDay(t)
    ensures !Names(t, YEAR_DAYS) && !Names(t, SECONDS) && !Names(t, ZONES) && !HasFraction(t) && Width(t, 0)
  {
    forall i | 0 <= i < 10
      ensures t[i].Literal? || (t[i].Field? && t[i].kind in {Year4, MonthNum, DayNum, Hour12_1, Min2, PmUpper})
    {
    }
  }

  lemma ClearStep(t: Token, more: seq<Token>, c: Civil, offset: int)
    requires c.Valid() && AllClear(more, c, offset)
    requires Clear(t, c, offset, more != [] && more[0].Fraction?, TokensText(more, c, offset))
    ensures AllClear([t] + more, c, offset)
  {
    hide Clear, TokensText;
    assert ([t] + more)[1..] == more;
  }

  lemma HalfDayClear(c: Civil)
    requires c.Valid() && 0 <= c.year < 10000
    ensures AllClear(HALF_DAY_TOKENS, c, 0)
  {
    hide FieldText, YearStart, DayNumber, AllClear, TokensText;
    var t := HALF_DAY_TOKENS;
    AllClearNone(c);
    ClearStep(t[9], [], c, 0);
    assert [t[9]] + [] == [t[9]];
    ClearStep(t[8], [t[9]], c, 0);
    var minutes := [t[8], t[9]];
    assert [t[8]] + [t[9]] == minutes;
    ClearStep(t[7], minutes, c, 0);
    ColonFirst(minutes, c);
    var hours := [t[7]] + minutes;
    ClearStep(t[6], hours, c, 0);
    ClearStep(t[5], [t[6]] + hours, c, 0);
    ClearStep(t[4], [t[5]] + ([t[6]] + hours), c, 0);
    ClearStep(t[3], [t[4]] + ([t[5]] + ([t[6]] + hours)), c, 0);
    ClearStep(t[2], [t[3]] + ([t[4]] + ([t[5]] + ([t[6]] + hours))), c, 0);
    ClearStep(t[1], [t[2]] + ([t[3]] + ([t[4]] + ([t[5]] + ([t[6]] + hours)))), c, 0);
    ClearStep(t[0], [t[1]] + ([t[2]] + ([t[3]] + ([t[4]] + ([t[5]] + ([t[6]] + hours))))), c, 0);
    assert t == [t[0]] + ([t[1]] + ([t[2]] + ([t[3]] + ([t[4]] + ([t[5]] + ([t[6]] + hours))))));
  }

  lemma AllClearNone(c: Civil)
    requires c.Valid()
    ensures AllClear([], c, 0)
  {
  }

  lemma ColonFirst(more: seq<Token>, c: Civil)
    requires c.Valid()
    ensures NoDigit(TokensText([Literal(":")] + more, c, 0))
  {
    hide FieldText;
    assert TokensText([Literal(":")] + more, c, 0) == ":" + TokensText(([Literal(":")] + more)[1..], c, 0);
  }

  // ---- the reference time ---------------------------------------------------------------

  /** Monday, January 2, 2006, 15:04:05, seven hours west. */
  const REFERENCE: Civil := Civil(2006, 1, 2, 15, 4, 5, 0, 2, 1)
  const REFERENCE_ZONE: int := -25200

  lemma ReferenceValid()
    ensures REFERENCE.Valid()
  {
  }

  /** How the reference time shows where a spelling is not a piece of it: unpadded days, and zones
      that have no seconds and are not UTC. */
  function Shown(k: nat): string
    requires k < ENTRIES
  {
    if k == 7 then "2" else if k == 8 then " 2"
    else if k in {16, 21, 23, 26} then "-0700" else if k in {17, 22, 24} then "-07:00" else if k == 25 then "-07"
    else Layouts.Entry(k).text
  }

  /** Each spelling, as a layout, prints the piece of the reference time that it is. */
  lemma SpelledByReference(k: nat)
    requires k < ENTRIES && REFERENCE.Valid()
    ensures TokensText(Layout(Layouts.Entry(k).text, []), REFERENCE, REFERENCE_ZONE) == Shown(k)
  {
    hide Layout, Layouts.Entry, FieldText, Shown, TokensText;
    SpellingIsField(k);
    OneField(Layouts.Entry(k).kind, REFERENCE, REFERENCE_ZONE);
    ShowsReference(k);
  }

  lemma OneField(kind: Kind, c: Civil, offset: int)
    requires c.Valid()
    ensures TokensText([Field(kind)], c, offset) == FieldText(kind, c, offset)
  {
    hide FieldText;
    assert [Field(kind)][1..] == [];
    assert FieldText(kind, c, offset) + "" == FieldText(kind, c, offset);
  }

  lemma SmallNumbers()
    ensures Show(1) == "1" && Show(2) == "2" && Show(3) == "3" && Show(4) == "4" && Show(5) == "5"
    ensures Pad2(1) == "01" && Pad2(2) == "02" && Pad2(3) == "03" && Pad2(4) == "04" && Pad2(5) == "05" && Pad2(6) == "06"
    ensures Pad2(7) == "07" && Pad2(0) == "00" && Pad2(15) == "15"
  {
  }

  lemma LongNumbers()
    ensures PadN(2006, 4) == "2006" && PadN(2, 3) == "002"
  {
    assert Digits(20) == "20" && Digits(200) == "200";
    assert Digits(2006) == "2006";
    assert Zeros(2) == "00";
  }

  /** The piece of the reference time that a field prints. */
  function Piece(kind: Kind): string {
    match kind
    case Year4 => "2006"
    case Year2 => "06"
    case MonthNum => "01"
    case MonthNum1 => "1"
    case MonthAbbr => "Jan"
    case MonthLong => "January"
    case DayNum => "02"
    case DayNum1 => "2"
    case DaySpace => " 2"
    case Hour24 => "15"
    case Hour12 => "03"
    case Hour12_1 => "3"
    case Min2 => "04"
    case Min1 => "4"
    case Sec2 => "05"
    case Sec1 => "5"
    case PmUpper => "PM"
    case PmLower => "pm"
    case WdayAbbr => "Mon"
    case WdayLong => "Monday"
    case Yday3 => "002"
    case Yday1 => "2"
    case TzNum | TzZ | TzAbbr => "-0700"
    case TzNumColon | TzZColon => "-07:00"
    case TzNumShort | TzZShort => "-07"
  }

  lemma ShowsPiece(kind: Kind, c: Civil)
    requires c.Valid() && c.year == 2006 && c.month == 1 && c.day == 2 && c.yday == 2 && c.wday == 1
    requires c.hour == 15 && c.minute == 4 && c.second == 5
    ensures FieldText(kind, c, REFERENCE_ZONE) == Piece(kind)
  {
    hide PadN, Pad2, Show, YearStart, DayNumber;
    SmallNumbers();
    LongNumbers();
    ReferenceNames();
  }

  lemma ReferenceFields()
    ensures var c := REFERENCE;
            && c.year == 2006 && c.month == 1 && c.day == 2 && c.yday == 2 && c.wday == 1
            && c.hour == 15 && c.minute == 4 && c.second == 5
  {
  }

  lemma ReferenceNames()
    ensures Abbreviation(MONTH_LONG, 0) == "Jan" && MONTH_LONG[0] == "January"
    ensures Abbreviation(DAY_LONG, 1) == "Mon" && DAY_LONG[1] == "Monday"
  {
    assert "January"[..3] == "Jan" && "Monday"[..3] == "Mon";
  }

  lemma DateShown(k: nat)
    requires k < 10 || 27 <= k < 30
    ensures Piece(Layouts.Entry(k).kind) == Shown(k)
  {
  }

  lemma ClockShown(k: nat)
    requires 10 <= k < 16 || 30 <= k < ENTRIES
    ensures Piece(Layouts.Entry(k).kind) == Shown(k)
  {
  }

  lemma ZoneShown(k: nat)
    requires 16 <= k < 27
    ensures Piece(Layouts.Entry(k).kind) == Shown(k)
  {
  }

  lemma PieceIsShown(k: nat)
    requires k < ENTRIES
    ensures Piece(Layouts.Entry(k).kind) == Shown(k)
  {
    hide *;
    if k < 10 || 27 <= k < 30 {
      DateShown(k);
    } else if 16 <= k < 27 {
      ZoneShown(k);
    } else {
      ClockShown(k);
    }
  }

  lemma ShowsReference(k: nat)
    requires k < ENTRIES && REFERENCE.Valid()
    ensures FieldText(Layouts.Entry(k).kind, REFERENCE, REFERENCE_ZONE) == Shown(k)
  {
    hide *;
    ReferenceFields();
    ShowsPiece(Layouts.Entry(k).kind, REFERENCE);
    PieceIsShown(k);
  }

  /** UTC is written `Z` where the layout has one, as a name, or else as a positive zero. */
  lemma UtcShown(c: Civil)
    requires c.Valid()
    ensures FieldText(TzNum, c, 0) == "+0000" && FieldText(TzNumColon, c, 0) == "+00:00" && FieldText(TzNumShort, c, 0) == "+00"
    ensures forall kind | kind in {TzZ, TzZColon, TzZShort} :: FieldText(kind, c, 0) == "Z"
    ensures FieldText(TzAbbr, c, 0) == "UTC"
  {
    hide Pad2, YearStart, DayNumber;
    SmallNumbers();
  }
}
