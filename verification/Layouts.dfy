/** Decimal text, and Go reference layouts as lists of tokens. */
module Layouts {
  import opened Values

  // ---- decimal text -------------------------------------------------------------------

  predicate IsDigit(c: char) { '0' <= c <= '9' }

  predicate AllDigits(s: string) { forall i | 0 <= i < |s| :: IsDigit(s[i]) }

  function DigitChar(d: nat): (c: char)
    requires d < 10
    ensures IsDigit(c)
  {
    ('0' as int + d) as char
  }

  function DigitOf(c: char): int { c as int - '0' as int }

  function Show(v: int): string {
    if v < 0 then "-" + Digits(-v) else Digits(v)
  }

  function Digits(n: nat): (s: string)
    ensures s != "" && AllDigits(s)
  {
    if n < 10 then [DigitChar(n)] else Digits(n / 10) + [DigitChar(n % 10)]
  }

  function ValueOf(s: string): int {
    if s == "" then 0 else 10 * ValueOf(s[..|s| - 1]) + DigitOf(s[|s| - 1])
  }

  function Zeros(n: nat): (s: string)
    ensures |s| == n && AllDigits(s) && forall i | 0 <= i < n :: s[i] == '0'
  {
    seq(n, _ => '0')
  }

  function PadN(v: int, width: nat): string {
    var t := Show(v);
    if |t| < width then Zeros(width - |t|) + t else t
  }

  function Pad2(v: int): string { if v < 10 then "0" + Show(v) else Show(v) }

  function Pow10(n: nat): (p: nat)
    ensures p > 0
  {
    if n == 0 then 1 else 10 * Pow10(n - 1)
  }

  lemma {:induction false} DigitsValue(n: nat)
    ensures ValueOf(Digits(n)) == n
  {
    var s := Digits(n);
    if n < 10 {
      assert s[..|s| - 1] == "";
    } else {
      assert s[..|s| - 1] == Digits(n / 10);
      DigitsValue(n / 10);
    }
  }

  lemma {:induction false} DigitsLength(n: nat, k: nat)
    requires k > 0
    ensures |Digits(n)| <= k <==> n < Pow10(k)
  {
    assert Pow10(k) == 10 * Pow10(k - 1);
    if n >= 10 {
      if k > 1 {
        DigitsLength(n / 10, k - 1);
      } else {
        assert Pow10(0) == 1;
      }
    }
  }

  lemma {:induction false} ZerosValue(k: nat, t: string)
    ensures ValueOf(Zeros(k) + t) == ValueOf(t)
    decreases |t|, k
  {
    var s := Zeros(k) + t;
    if t != "" {
      assert s[..|s| - 1] == Zeros(k) + t[..|t| - 1];
      ZerosValue(k, t[..|t| - 1]);
    } else if k > 0 {
      assert s[..|s| - 1] == Zeros(k - 1) + t;
      ZerosValue(k - 1, t);
    } else {
      assert s == "";
    }
  }

  /** A number that fits its width is printed in exactly that width, and reads back. */
  lemma PadHolds(v: nat, width: nat)
    requires 0 < width && v < Pow10(width)
    ensures var t := PadN(v, width); |t| == width && AllDigits(t) && ValueOf(t) == v
  {
    hide Digits, Pow10, ValueOf;
    DigitsLength(v, width);
    DigitsValue(v);
    ZerosValue(width - |Digits(v)|, Digits(v));
    assert Zeros(0) + Digits(v) == Digits(v);
  }

  lemma Pad2Holds(v: nat)
    requires v < 100
    ensures |Pad2(v)| == 2 && AllDigits(Pad2(v)) && ValueOf(Pad2(v)) == v
    ensures Pad2(v) == PadN(v, 2)
  {
    assert Pow10(2) == 100 && Pow10(1) == 10;
    DigitsLength(v, 1);
    DigitsLength(v, 2);
    assert Zeros(1) == "0";
    PadHolds(v, 2);
  }

  method PadTo(v: int, width: nat) returns (s: string)
    ensures s == PadN(v, width)
  {
    s := Show(v);
    ghost var t := s;
    assert Zeros(0) + t == t;
    while |s| < width
      invariant |s| >= |t| && s == Zeros(|s| - |t|) + t
      invariant |t| < width ==> |s| <= width
      invariant |t| >= width ==> s == t
      decreases width - |s|
    {
      assert "0" + s == Zeros(|s| + 1 - |t|) + t;
      s := "0" + s;
    }
  }

  // ---- layouts ------------------------------------------------------------------------

  datatype Kind =
    | Year4 | Year2 | MonthNum | MonthNum1 | MonthAbbr | MonthLong
    | DayNum | DayNum1 | DaySpace | Hour24 | Hour12 | Hour12_1
    | Min2 | Min1 | Sec2 | Sec1 | PmUpper | PmLower | WdayAbbr | WdayLong
    | Yday3 | Yday1
    | TzNum | TzNumColon | TzNumShort | TzZ | TzZColon | TzZShort | TzAbbr

  datatype Token = Literal(text: string) | Field(kind: Kind) | Fraction(trim: bool, digits: nat)

  datatype Spelling = Spelling(text: string, kind: Kind)

  const ENTRIES: nat := 33

  /** The table of spellings: the first match wins, so longer ones come first. */
  function Entry(k: nat): Spelling
    requires k < ENTRIES
  {
    match k
    case 0 => Spelling("January", MonthLong)
    case 1 => Spelling("Jan", MonthAbbr)
    case 2 => Spelling("Monday", WdayLong)
    case 3 => Spelling("Mon", WdayAbbr)
    case 4 => Spelling("2006", Year4)
    case 5 => Spelling("01", MonthNum)
    case 6 => Spelling("002", Yday3)
    case 7 => Spelling("__2", Yday1)
    case 8 => Spelling("_2", DaySpace)
    case 9 => Spelling("02", DayNum)
    case 10 => Spelling("15", Hour24)
    case 11 => Spelling("03", Hour12)
    case 12 => Spelling("04", Min2)
    case 13 => Spelling("05", Sec2)
    case 14 => Spelling("PM", PmUpper)
    case 15 => Spelling("pm", PmLower)
    case 16 => Spelling("-070000", TzNum)
    case 17 => Spelling("-07:00:00", TzNumColon)
    case 18 => Spelling("-0700", TzNum)
    case 19 => Spelling("-07:00", TzNumColon)
    case 20 => Spelling("-07", TzNumShort)
    case 21 => Spelling("Z070000", TzZ)
    case 22 => Spelling("Z07:00:00", TzZColon)
    case 23 => Spelling("Z0700", TzZ)
    case 24 => Spelling("Z07:00", TzZColon)
    case 25 => Spelling("Z07", TzZShort)
    case 26 => Spelling("MST", TzAbbr)
    case 27 => Spelling("06", Year2)
    case 28 => Spelling("1", MonthNum1)
    case 29 => Spelling("2", DayNum1)
    case 30 => Spelling("3", Hour12_1)
    case 31 => Spelling("4", Min1)
    case _ => Spelling("5", Sec1)
  }

  predicate StartsWith(l: string, t: string) { |t| <= |l| && forall i | 0 <= i < |t| :: l[i] == t[i] }

  /** The first entry of the table from `k` on that the layout continues with. */
  function FirstMatch(l: string, k: nat): (r: Option<nat>)
    requires k <= ENTRIES
    ensures r.Some? ==> k <= r.value < ENTRIES && StartsWith(l, Entry(r.value).text)
    decreases ENTRIES - k
  {
    if k == ENTRIES then None else if StartsWith(l, Entry(k).text) then Some(k) else FirstMatch(l, k + 1)
  }

  /** How many characters at the start equal `c`. */
  function Run(l: string, c: char): (n: nat)
    ensures n <= |l| && forall i | 0 <= i < n :: l[i] == c
  {
    if l == "" || l[0] != c then 0 else 1 + Run(l[1..], c)
  }

  function PushLiteral(out: seq<Token>, c: char): seq<Token> {
    if out != [] && out[|out| - 1].Literal? then out[..|out| - 1] + [Literal(out[|out| - 1].text + [c])]
    else out + [Literal([c])]
  }

  predicate StartsFraction(l: string) { |l| > 1 && l[0] in {'.', ','} && l[1] in {'0', '9'} }

  lemma TableFilled(k: nat)
    requires k < ENTRIES
    ensures Entry(k).text != ""
  {
  }

  /** The tokens of what is left of a layout, after those already in `out`. */
  function Layout(l: string, out: seq<Token>): seq<Token>
    decreases |l|
  {
    if l == "" then out
    else if StartsFraction(l) then
      var n := Run(l[1..], l[1]);
      Layout(l[1 + n..], out + [Fraction(l[1] == '9', n)])
    else
      match FirstMatch(l, 0)
      case Some(k) =>
        TableFilled(k);
        Layout(l[|Entry(k).text|..], out + [Field(Entry(k).kind)])
      case None => Layout(l[1..], PushLiteral(out, l[0]))
  }

  method ParseLayout(l: string) returns (out: seq<Token>)
    ensures out == Layout(l, [])
  {
    hide Layout, FirstMatch, Run, Entry, PushLiteral;
    out := [];
    var i := 0;
    assert l[0..] == l;
    while i < |l|
      invariant i <= |l| && Layout(l[i..], out) == Layout(l, [])
    {
      var rest := l[i..];
      LayoutStep(rest, out);
      if l[i] in {'.', ','} && i + 1 < |l| && l[i + 1] in {'0', '9'} {
        var d := l[i + 1];
        var j := RunEnd(l, i + 1, d);
        assert rest[1..] == l[i + 1..] && rest[1 + (j - i - 1)..] == l[j..];
        out := out + [Fraction(d == '9', j - i - 1)];
        i := j;
      } else {
        var k := FirstMatch(rest, 0);
        if k.Some? {
          var e := Entry(k.value);
          assert rest[|e.text|..] == l[i + |e.text|..];
          out := out + [Field(e.kind)];
          i := i + |e.text|;
        } else {
          assert rest[1..] == l[i + 1..];
          out := PushLiteral(out, l[i]);
          i := i + 1;
        }
      }
    }
    assert l[i..] == "";
    LayoutStep("", out);
  }

  method RunEnd(l: string, i: nat, d: char) returns (j: nat)
    requires i <= |l|
    ensures i <= j <= |l| && j == i + Run(l[i..], d)
  {
    j := i;
    while j < |l| && l[j] == d
      invariant i <= j <= |l| && (j - i) + Run(l[j..], d) == Run(l[i..], d)
    {
      assert l[j..][1..] == l[j + 1..];
      j := j + 1;
    }
  }

  /** One turn of the loop of `parse_layout`. */
  lemma LayoutStep(l: string, out: seq<Token>)
    ensures l == "" ==> Layout(l, out) == out
    ensures l != "" && StartsFraction(l) ==>
              Layout(l, out) == Layout(l[1 + Run(l[1..], l[1])..], out + [Fraction(l[1] == '9', Run(l[1..], l[1]))])
    ensures l != "" && !StartsFraction(l) ==>
              match FirstMatch(l, 0)
              case Some(k) =>
                && 0 < |Entry(k).text| <= |l|
                && Layout(l, out) == Layout(l[|Entry(k).text|..], out + [Field(Entry(k).kind)])
              case None => Layout(l, out) == Layout(l[1..], PushLiteral(out, l[0]))
  {
    if l != "" && !StartsFraction(l) && FirstMatch(l, 0).Some? { TableFilled(FirstMatch(l, 0).value); }
  }

  const RFC3339_NANO: string := "2006-01-02T15:04:05.999999999Z07:00"

  const RFC_TOKENS: seq<Token> := [
    Field(Year4), Literal("-"), Field(MonthNum), Literal("-"), Field(DayNum), Literal("T"),
    Field(Hour24), Literal(":"), Field(Min2), Literal(":"), Field(Sec2), Fraction(true, 9), Field(TzZColon)]

  /** The first characters of the spellings. */
  function Head(k: nat): char {
    if k < 2 then 'J' else if k < 4 then 'M' else if k == 4 then '2' else if k < 7 then '0' else if k < 9 then '_'
    else if k == 9 then '0' else if k == 10 then '1' else if k < 14 then '0' else if k == 14 then 'P'
    else if k == 15 then 'p' else if k < 21 then '-' else if k < 26 then 'Z' else if k == 26 then 'M'
    else if k == 27 then '0' else if k == 28 then '1' else if k == 29 then '2' else if k == 30 then '3'
    else if k == 31 then '4' else '5'
  }

  lemma HeadIs(k: nat)
    requires k < ENTRIES
    ensures Entry(k).text != "" && Entry(k).text[0] == Head(k)
  {
  }

  /** Spellings that start otherwise do not match. */
  lemma {:induction false} Skip(l: string, k: nat, j: nat)
    requires l != "" && k <= j <= ENTRIES && forall m | k <= m < j :: Head(m) != l[0]
    ensures FirstMatch(l, k) == FirstMatch(l, j)
    decreases j - k
  {
    if k < j {
      HeadIs(k);
      Skip(l, k + 1, j);
    }
  }

  lemma {:induction false} RunIs(l: string, c: char, n: nat)
    requires n <= |l| && (forall i | 0 <= i < n :: l[i] == c) && (n == |l| || l[n] != c)
    ensures Run(l, c) == n
  {
    if n > 0 { RunIs(l[1..], c, n - 1); }
  }

  lemma DashSpelling(k: nat)
    requires 16 <= k < 21
    ensures |Entry(k).text| > 2 && Entry(k).text[2] == '7'
  {
  }

  lemma {:induction false} SkipDashes(l: string, k: nat)
    requires |l| > 2 && l[2] != '7' && 16 <= k <= 21
    ensures FirstMatch(l, k) == FirstMatch(l, 21)
    decreases 21 - k
  {
    if k < 21 {
      DashSpelling(k);
      SkipDashes(l, k + 1);
    }
  }

  /** A dash that no zone follows, and the letters, colons and spaces between the fields. */
  lemma NotInTable(l: string)
    requires |l| > 2 && (l[0] in {'T', ':', ' '} || (l[0] == '-' && l[2] != '7'))
    ensures FirstMatch(l, 0) == None
  {
    hide Entry, StartsWith;
    if l[0] == '-' {
      Skip(l, 0, 16);
      SkipDashes(l, 16);
      Skip(l, 21, 33);
    } else {
      Skip(l, 0, 33);
    }
  }

  /** The two-digit spellings, the year, the short hour and the half of the day are not shadowed by
      earlier ones. */
  lemma NumberInTable(l: string, k: nat)
    requires k in {4, 5, 9, 10, 12, 13, 14, 30} && StartsWith(l, Entry(k).text)
    ensures FirstMatch(l, 0) == Some(k)
  {
    if k == 4 {
      Skip(l, 0, 4);
    } else if k in {10, 14, 30} {
      Skip(l, 0, k);
    } else {
      Skip(l, 0, 5);
      if k > 5 {
        assert !StartsWith(l, Entry(5).text) && !StartsWith(l, Entry(6).text) by {
          assert Entry(5).text[1] == '1' && Entry(6).text[1] == '0';
        }
        Skip(l, 7, 9);
        if k > 9 {
          assert !StartsWith(l, Entry(9).text) by { assert Entry(9).text[1] == '2'; }
          Skip(l, 10, 11);
          assert !StartsWith(l, Entry(11).text) by { assert Entry(11).text[1] == '3'; }
          if k > 12 {
            assert !StartsWith(l, Entry(12).text) by { assert Entry(12).text[1] == '4'; }
          }
        }
      }
    }
  }

  lemma TooShort(l: string, t: string)
    requires |l| < |t|
    ensures !StartsWith(l, t)
  {
  }

  lemma Clash(l: string, t: string, i: nat)
    requires i < |l| && i < |t| && l[i] != t[i]
    ensures !StartsWith(l, t)
  {
  }

  lemma MatchStep(l: string, k: nat)
    requires k < ENTRIES
    ensures FirstMatch(l, k) == if StartsWith(l, Entry(k).text) then Some(k) else FirstMatch(l, k + 1)
  {
    hide StartsWith, Entry;
  }

  lemma ZoneInTable(l: string)
    requires |l| == 6 && l[0] == 'Z' && l[3] == ':' && StartsWith(l, Entry(24).text)
    ensures FirstMatch(l, 0) == Some(24)
  {
    hide StartsWith, FirstMatch;
    Skip(l, 0, 21);
    TooShort(l, Entry(21).text);
    TooShort(l, Entry(22).text);
    Clash(l, Entry(23).text, 3);
    MatchStep(l, 21);
    MatchStep(l, 22);
    MatchStep(l, 23);
    MatchStep(l, 24);
  }

  lemma LiteralStep(l: string, rest: string, out: seq<Token>)
    requires |l| > 2 && l[1..] == rest && (l[0] in {'T', ':', ' '} || (l[0] == '-' && l[2] != '7'))
    ensures Layout(l, out) == Layout(rest, PushLiteral(out, l[0]))
  {
    hide Layout, FirstMatch, Run, Entry, PushLiteral;
    NotInTable(l);
    LayoutStep(l, out);
  }

  lemma FieldStep(l: string, k: nat, rest: string, out: seq<Token>)
    requires k in {4, 5, 9, 10, 12, 13, 14, 30} && l == Entry(k).text + rest
    ensures Layout(l, out) == Layout(rest, out + [Field(Entry(k).kind)])
  {
    hide Layout, FirstMatch, Run, PushLiteral;
    NumberInTable(l, k);
    LayoutStep(l, out);
    assert l[|Entry(k).text|..] == rest;
  }

  lemma EndSteps(out: seq<Token>)
    ensures Layout(".999999999Z07:00", out) == out + [Fraction(true, 9)] + [Field(TzZColon)]
  {
    hide Layout, FirstMatch, Run, PushLiteral;
    var l := ".999999999Z07:00";
    assert l[1..] == "999999999Z07:00";
    RunIs(l[1..], '9', 9);
    LayoutStep(l, out);
    var z := "Z07:00";
    assert l[10..] == z;
    ZoneInTable(z);
    LayoutStep(z, out + [Fraction(true, 9)]);
    assert z[6..] == "";
    LayoutStep("", out + [Fraction(true, 9)] + [Field(TzZColon)]);
  }

  /** A field, and the character between it and the next. */
  lemma PairStep(k: nat, c: char, rest: string, out: seq<Token>)
    requires k in {4, 5, 9, 10, 12, 13, 14, 30} && |rest| >= 2 && c in {'T', ':', '-', ' '} && rest[1] != '7'
    ensures Layout(Entry(k).text + ([c] + rest), out) == Layout(rest, out + [Field(Entry(k).kind)] + [Literal([c])])
  {
    hide Layout, Entry;
    var l := [c] + rest;
    FieldStep(Entry(k).text + l, k, l, out);
    assert l[1..] == rest && l[2] == rest[1];
    LiteralStep(l, rest, out + [Field(Entry(k).kind)]);
  }

  const FROM_FRACTION: string := ".999999999Z07:00"
  const FROM_SECOND: string := "05" + FROM_FRACTION
  const FROM_MINUTE: string := "04" + (":" + FROM_SECOND)
  const FROM_HOUR: string := "15" + (":" + FROM_MINUTE)
  const FROM_DAY: string := "02" + ("T" + FROM_HOUR)
  const FROM_MONTH: string := "01" + ("-" + FROM_DAY)

  lemma Assembled()
    ensures RFC3339_NANO == "2006" + ("-" + FROM_MONTH)
  {
  }

  /** The layout that RFC 3339 text is parsed with. */
  lemma RfcLayout()
    ensures Layout(RFC3339_NANO, []) == RFC_TOKENS
  {
    hide Layout;
    Assembled();
    PairStep(4, '-', FROM_MONTH, []);
    var o := [] + [Field(Year4)] + [Literal("-")];
    PairStep(5, '-', FROM_DAY, o);
    o := o + [Field(MonthNum)] + [Literal("-")];
    PairStep(9, 'T', FROM_HOUR, o);
    o := o + [Field(DayNum)] + [Literal("T")];
    PairStep(10, ':', FROM_MINUTE, o);
    o := o + [Field(Hour24)] + [Literal(":")];
    PairStep(12, ':', FROM_SECOND, o);
    o := o + [Field(Min2)] + [Literal(":")];
    FieldStep(FROM_SECOND, 13, FROM_FRACTION, o);
    EndSteps(o + [Field(Sec2)]);
  }

  const HALF_DAY: string := "2006-01-02 3:04PM"

  const HALF_DAY_TOKENS: seq<Token> := [
    Field(Year4), Literal("-"), Field(MonthNum), Literal("-"), Field(DayNum), Literal(" "),
    Field(Hour12_1), Literal(":"), Field(Min2), Field(PmUpper)]

  const FROM_CLOCK_MINUTE: string := "04" + "PM"
  const FROM_CLOCK_HOUR: string := "3" + (":" + FROM_CLOCK_MINUTE)
  const FROM_CLOCK_DAY: string := "02" + (" " + FROM_CLOCK_HOUR)
  const FROM_CLOCK_MONTH: string := "01" + ("-" + FROM_CLOCK_DAY)

  lemma AssembledHalfDay()
    ensures HALF_DAY == "2006" + ("-" + FROM_CLOCK_MONTH)
  {
  }

  /** A layout with a twelve-hour clock. */
  lemma HalfDayLayout()
    ensures Layout(HALF_DAY, []) == HALF_DAY_TOKENS
  {
    hide Layout;
    AssembledHalfDay();
    PairStep(4, '-', FROM_CLOCK_MONTH, []);
    var o := [] + [Field(Year4)] + [Literal("-")];
    PairStep(5, '-', FROM_CLOCK_DAY, o);
    o := o + [Field(MonthNum)] + [Literal("-")];
    PairStep(9, ' ', FROM_CLOCK_HOUR, o);
    o := o + [Field(DayNum)] + [Literal(" ")];
    PairStep(30, ':', FROM_CLOCK_MINUTE, o);
    o := o + [Field(Hour12_1)] + [Literal(":")];
    FieldStep(FROM_CLOCK_MINUTE, 12, "PM", o);
    o := o + [Field(Min2)];
    FieldStep("PM", 14, "", o);
    LayoutStep("", o + [Field(PmUpper)]);
  }

  // ---- longer spellings come first --------------------------------------------------------

  /** The length of each spelling. */
  function Length(k: nat): nat {
    if k == 0 then 7 else if k == 1 || k == 3 then 3 else if k == 2 then 6 else if k == 4 then 4
    else if k == 6 || k == 7 || k == 20 || k == 25 || k == 26 then 3 else if k == 16 || k == 21 then 7
    else if k == 17 || k == 22 then 9 else if k == 18 || k == 23 then 5 else if k == 19 || k == 24 then 6
    else if k < 28 then 2 else 1
  }

  lemma LengthIs(k: nat)
    requires k < ENTRIES
    ensures |Entry(k).text| == Length(k)
  {
  }

  /** The second characters of the spellings, where two of one length begin alike. */
  lemma SecondIs(k: nat)
    requires k in {3, 5, 6, 9, 11, 12, 13, 26, 27}
    ensures |Entry(k).text| > 1 && Entry(k).text[1] ==
            if k == 3 then 'o' else if k == 26 then 'S' else if k == 6 then '0' else if k == 5 then '1' else if k == 9 then '2'
            else if k == 11 then '3' else if k == 12 then '4' else if k == 13 then '5' else '6'
  {
  }

  lemma FourthIs(k: nat)
    requires 16 <= k < 20 || 21 <= k < 25
    ensures |Entry(k).text| > 3 && Entry(k).text[3] == if k in {16, 18, 21, 23} then '0' else ':'
  {
  }

  /** No spelling is the beginning of a longer one further down the table. */
  lemma NoShadow(l: string, k: nat, j: nat)
    requires k < j < ENTRIES && StartsWith(l, Entry(k).text) && StartsWith(l, Entry(j).text)
    ensures |Entry(j).text| < |Entry(k).text|
  {
    hide Entry;
    HeadIs(k);
    HeadIs(j);
    LengthIs(k);
    LengthIs(j);
    if k in {3, 5, 6, 9, 11, 12, 13, 26, 27} { SecondIs(k); }
    if j in {3, 5, 6, 9, 11, 12, 13, 26, 27} { SecondIs(j); }
    if 16 <= k < 20 || 21 <= k < 25 { FourthIs(k); }
    if 16 <= j < 20 || 21 <= j < 25 { FourthIs(j); }
  }

  lemma {:induction false} FirstIs(l: string, k: nat, j: nat)
    requires k <= j < ENTRIES && StartsWith(l, Entry(j).text)
    ensures FirstMatch(l, k).Some? && FirstMatch(l, k).value <= j
    decreases j - k
  {
    hide StartsWith, Entry;
    MatchStep(l, k);
    if k < j { FirstIs(l, k + 1, j); }
  }

  /** The entry taken is the one longest spelling that the layout continues with. */
  lemma LongestMatch(l: string, j: nat)
    requires j < ENTRIES && StartsWith(l, Entry(j).text)
    ensures FirstMatch(l, 0).Some?
    ensures FirstMatch(l, 0) != Some(j) ==> |Entry(j).text| < |Entry(FirstMatch(l, 0).value).text|
  {
    hide StartsWith, Entry;
    FirstIs(l, 0, j);
    var k := FirstMatch(l, 0).value;
    if k < j { NoShadow(l, k, j); }
  }

  /** Each spelling, as a layout, is its own field. */
  lemma SpellingIsField(k: nat)
    requires k < ENTRIES
    ensures Layout(Entry(k).text, []) == [Field(Entry(k).kind)]
  {
    hide Entry, Layout, FirstMatch;
    var l := Entry(k).text;
    LongestMatch(l, k);
    HeadIs(k);
    assert FirstMatch(l, 0) == Some(k);
    LayoutStep(l, []);
    assert l[|l|..] == "" && [] + [Field(Entry(k).kind)] == [Field(Entry(k).kind)];
    LayoutStep("", [Field(Entry(k).kind)]);
  }

  /** A point or a comma and a run of one of two digits is a fraction of that width: kept with zeros,
      trimmed with nines. */
  lemma FractionSpelling(point: char, digit: char, n: nat)
    requires point in {'.', ','} && digit in {'0', '9'} && n > 0
    ensures Layout([point] + seq(n, _ => digit), []) == [Fraction(digit == '9', n)]
  {
    hide Layout, FirstMatch, Run;
    var l := [point] + seq(n, _ => digit);
    assert l[1..] == seq(n, _ => digit);
    RunIs(l[1..], digit, n);
    LayoutStep(l, []);
    assert l[1 + n..] == "";
    assert [] + [Fraction(digit == '9', n)] == [Fraction(digit == '9', n)];
    LayoutStep("", [Fraction(digit == '9', n)]);
  }
}
