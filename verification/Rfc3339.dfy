/** RFC 3339 printing with nanoseconds, the layout-driven parser, and when the one undoes
    the other. */
module Rfc3339 {
  import opened Values
  import opened Arithmetic
  import opened Calendar
  import opened Layouts

  const TS_MAX_SEC: int := 9223372036
  const TS_MIN_SEC: int := -9223372036
  const INT64_MIN: int := -0x8000_0000_0000_0000
  const INT64_MAX: int := 0x7FFF_FFFF_FFFF_FFFF

  datatype Instant = Instant(nanos: int, offset: int)

  /** `make_ts`: out of range, or overflowing, is refused. */
  function MakeTs(secs: int, nano: int, offset: int): Option<Instant> {
    if secs > TS_MAX_SEC || secs < TS_MIN_SEC || !(INT64_MIN <= secs * NS + nano <= INT64_MAX) then None
    else Some(Instant(secs * NS + nano, offset))
  }

  // ---- printing -----------------------------------------------------------------------

  function TrimZeros(t: string): string {
    if t != "" && t[|t| - 1] == '0' then TrimZeros(t[..|t| - 1]) else t
  }

  /** `write_fraction`. */
  function FractionText(nano: nat, digits: nat, trim: bool): string
    requires nano < NS
  {
    NinePowers();
    PadHolds(nano, 9);
    var frac := PadN(nano, 9)[..if digits < 9 then digits else 9];
    var kept := if trim then TrimZeros(frac) else frac;
    if trim && kept == "" then "" else "." + kept
  }

  lemma NinePowers()
    ensures Pow10(9) == NS && Pow10(4) == 10000
  {
    assert Pow10(3) == 1000 && Pow10(5) == 100000 && Pow10(7) == 10000000;
  }

  /** `write_offset`. */
  function OffsetText(offset: int, colon: bool, zForUtc: bool): string {
    if offset == 0 && zForUtc then "Z"
    else
      var v := if offset < 0 then -offset else offset;
      (if offset < 0 then "-" else "+") + Pad2(v / 3600) + (if colon then ":" else "") + Pad2(v / 60 % 60)
  }

  /** The fields up to the second, in front of `tail`. */
  function DateText(c: Civil, tail: string): string {
    PadN(c.year, 4) + ("-" + (Pad2(c.month) + ("-" + (Pad2(c.day) + ("T" + (Pad2(c.hour) + (":" +
    (Pad2(c.minute) + (":" + (Pad2(c.second) + tail))))))))))
  }

  function Text(nanos: int, offset: int): string {
    FromToCivil(nanos, offset);
    var c := ToCivil(nanos, offset);
    DateText(c, FractionText(c.nano, 9, true) + OffsetText(offset, true, true))
  }

  method WriteFraction(nano: nat, digits: nat, trim: bool) returns (out: string)
    requires nano < NS
    ensures out == FractionText(nano, digits, trim)
  {
    NinePowers();
    PadHolds(nano, 9);
    var frac := PadTo(nano, 9);
    frac := frac[..if digits < 9 then digits else 9];
    if trim {
      ghost var whole := TrimZeros(frac);
      while frac != "" && frac[|frac| - 1] == '0'
        invariant TrimZeros(frac) == whole
        decreases |frac|
      {
        frac := frac[..|frac| - 1];
      }
      if frac == "" { return ""; }
    }
    out := "." + frac;
  }

  method TsRfc3339Nano(nanos: int, offset: int) returns (out: string)
    ensures out == Text(nanos, offset)
  {
    FromToCivil(nanos, offset);
    var c := ToCivil(nanos, offset);
    var fraction := WriteFraction(c.nano, 9, true);
    hide ToCivil, PadN, Pad2, OffsetText, FractionText;
    ghost var t5 := fraction + OffsetText(offset, true, true);
    ghost var t4 := ":" + (Pad2(c.second) + t5);
    ghost var t3 := ":" + (Pad2(c.minute) + t4);
    ghost var t2 := "T" + (Pad2(c.hour) + t3);
    ghost var t1 := "-" + (Pad2(c.day) + t2);
    out := PadN(c.year, 4);
    Joined(out, "-", Pad2(c.month), t1);
    out := out + "-" + Pad2(c.month);
    Joined(out, "-", Pad2(c.day), t2);
    out := out + "-" + Pad2(c.day);
    Joined(out, "T", Pad2(c.hour), t3);
    out := out + "T" + Pad2(c.hour);
    Joined(out, ":", Pad2(c.minute), t4);
    out := out + ":" + Pad2(c.minute);
    Joined(out, ":", Pad2(c.second), t5);
    out := out + ":" + Pad2(c.second);
    Joined(out, fraction, OffsetText(offset, true, true), "");
    out := out + fraction + OffsetText(offset, true, true);
    assert OffsetText(offset, true, true) + "" == OffsetText(offset, true, true);
    assert out + "" == out;
  }

  lemma Joined(out: string, a: string, b: string, rest: string)
    ensures out + (a + (b + rest)) == (out + a + b) + rest
  {
  }

  // ---- scanning -----------------------------------------------------------------------

  function DigitRun(s: string, max: nat): (n: nat)
    ensures n <= |s| && n <= max && AllDigits(s[..n])
  {
    if max == 0 || s == "" || !IsDigit(s[0]) then 0
    else
      var n := 1 + DigitRun(s[1..], max - 1);
      assert forall i | 1 <= i < n :: s[i] == s[1..][..n - 1][i - 1];
      n
  }

  function ScanInt(s: string, max: nat, min: nat): Option<(int, string)> {
    var n := DigitRun(s, max);
    if n < min then None else Some((ValueOf(s[..n]), s[n..]))
  }

  method ReadInt(s: string, start: nat, max: nat, min: nat) returns (r: Option<int>, i: nat)
    requires start <= |s|
    ensures start <= i <= |s|
    ensures ScanInt(s[start..], max, min) == if r.Some? then Some((r.value, s[i..])) else None
  {
    var v := 0;
    i := start;
    while i < |s| && i - start < max && IsDigit(s[i])
      invariant start <= i <= |s| && i - start <= max
      invariant v == ValueOf(s[start..i])
      invariant DigitRun(s[start..], max) == (i - start) + DigitRun(s[i..], max - (i - start))
    {
      assert s[start..i + 1][..i - start] == s[start..i];
      assert s[i..][1..] == s[i + 1..];
      v := v * 10 + DigitOf(s[i]);
      i := i + 1;
    }
    assert s[start..][..i - start] == s[start..i] && s[start..][i - start..] == s[i..];
    if i - start < min { return None, i; }
    r := Some(v);
  }

  function Lower(c: char): char { if 'A' <= c <= 'Z' then (c as int + 32) as char else c }

  const MONTH_LONG: seq<string> :=
    ["January", "February", "March", "April", "May", "June",
     "July", "August", "September", "October", "November", "December"]

  const DAY_LONG: seq<string> := ["Sunday", "Monday", "Tuesday", "Wednesday", "Thursday", "Friday", "Saturday"]

  predicate MatchesName(s: string, name: string) {
    |name| <= |s| && forall j | 0 <= j < |name| :: Lower(s[j]) == Lower(name[j])
  }

  /** The full names first, then their three-letter abbreviations. */
  function ScanName(s: string, names: seq<string>, k: nat, abbrev: bool): Option<(nat, string)>
    requires k <= |names|
    decreases if abbrev then 0 else 1, |names| - k
  {
    if k == |names| then (if abbrev then None else ScanName(s, names, 0, true))
    else
      var name := names[k];
      var text := if !abbrev then name else if |name| > 3 then name[..3] else name;
      if (!abbrev || |name| > 3) && MatchesName(s, text) then Some((k, s[|text|..]))
      else ScanName(s, names, k + 1, abbrev)
  }

  // ---- parsing with a layout ----------------------------------------------------------

  datatype Parsed = Parsed(year: int, month: int, day: int, hour: int, minute: int, second: int,
                           nano: int, yday: int, pm: bool, hasAmPm: bool, offset: int)

  const INITIAL: Parsed := Parsed(1, 1, 1, 0, 0, 0, 0, 0, false, false, 0)

  type Reading = Option<(string, Parsed)>

  function Resize9(d: string): string { if |d| >= 9 then d[..9] else d + Zeros(9 - |d|) }

  /** A fraction behind the seconds that the layout does not mention. */
  function BareFraction(s: string, p: Parsed): (string, Parsed) {
    if |s| > 1 && s[0] in {'.', ','} && IsDigit(s[1]) then
      var n := DigitRun(s[1..], |s|);
      (s[1 + n..], p.(nano := ValueOf(Resize9(s[1..1 + n]))))
    else (s, p)
  }

  function ReadFraction(s: string, trim: bool, p: Parsed): Reading {
    if s == "" || s[0] !in {'.', ','} then (if trim then Some((s, p)) else None)
    else
      var n := DigitRun(s[1..], |s|);
      if n == 0 then None else Some((s[1 + n..], p.(nano := ValueOf(Resize9(s[1..1 + n])))))
  }

  function ReadZone(s: string, allowsZ: bool, short: bool): Option<(int, string)> {
    if allowsZ && s != "" && s[0] in {'Z', 'z'} then Some((0, s[1..]))
    else if s == "" || s[0] !in {'+', '-'} then None
    else
      var sign := if s[0] == '-' then -1 else 1;
      match ScanInt(s[1..], 2, 2)
      case None => None
      case Some((hh, rest)) =>
        if short then Some((sign * (hh * 3600), rest))
        else
          match ScanInt(if rest != "" && rest[0] == ':' then rest[1..] else rest, 2, 2)
          case None => None
          case Some((mm, rest')) => Some((sign * (hh * 3600 + mm * 60), rest'))
  }

  function Letters(s: string): (n: nat)
    ensures n <= |s|
  {
    if s != "" && ('a' <= Lower(s[0]) <= 'z') then 1 + Letters(s[1..]) else 0
  }

  function ReadAmPm(s: string, p: Parsed): Reading {
    if |s| < 2 || Lower(s[0]) !in {'a', 'p'} || Lower(s[1]) != 'm' then None
    else Some((s[2..], p.(pm := Lower(s[0]) == 'p', hasAmPm := true)))
  }

  function ReadAbbreviation(s: string, p: Parsed): Reading {
    var n := Letters(s);
    if n == 0 then None
    else Some((s[n..], if s[..n] in {"UTC", "GMT", "UT", "Z"} then p.(offset := 0) else p))
  }

  function ReadField(kind: Kind, fractionNext: bool, s: string, p: Parsed): Reading {
    match kind
    case Year4 => (match ScanInt(s, 4, 4) case Some((v, r)) => Some((r, p.(year := v))) case None => None)
    case Year2 =>
      (match ScanInt(s, 2, 2)
       case Some((v, r)) => Some((r, p.(year := if v >= 69 then 1900 + v else 2000 + v)))
       case None => None)
    case MonthNum => (match ScanInt(s, 2, 2) case Some((v, r)) => Some((r, p.(month := v))) case None => None)
    case MonthNum1 => (match ScanInt(s, 2, 1) case Some((v, r)) => Some((r, p.(month := v))) case None => None)
    case MonthAbbr | MonthLong =>
      (match ScanName(s, MONTH_LONG, 0, false) case Some((k, r)) => Some((r, p.(month := k + 1))) case None => None)
    case DayNum => (match ScanInt(s, 2, 2) case Some((v, r)) => Some((r, p.(day := v))) case None => None)
    case DayNum1 => (match ScanInt(s, 2, 1) case Some((v, r)) => Some((r, p.(day := v))) case None => None)
    case DaySpace =>
      (match ScanInt(if s != "" && s[0] == ' ' then s[1..] else s, 2, 1)
       case Some((v, r)) => Some((r, p.(day := v)))
       case None => None)
    case Hour24 | Hour12 => (match ScanInt(s, 2, 2) case Some((v, r)) => Some((r, p.(hour := v))) case None => None)
    case Hour12_1 => (match ScanInt(s, 2, 1) case Some((v, r)) => Some((r, p.(hour := v))) case None => None)
    case Min2 => (match ScanInt(s, 2, 2) case Some((v, r)) => Some((r, p.(minute := v))) case None => None)
    case Min1 => (match ScanInt(s, 2, 1) case Some((v, r)) => Some((r, p.(minute := v))) case None => None)
    case Sec2 | Sec1 =>
      (match ScanInt(s, 2, if kind.Sec2? then 2 else 1)
       case Some((v, r)) =>
         var p' := p.(second := v);
         Some(if fractionNext then (r, p') else BareFraction(r, p'))
       case None => None)
    case PmUpper | PmLower => ReadAmPm(s, p)
    case WdayAbbr | WdayLong =>
      (match ScanName(s, DAY_LONG, 0, false) case Some((_, r)) => Some((r, p)) case None => None)
    case Yday3 => (match ScanInt(s, 3, 3) case Some((v, r)) => Some((r, p.(yday := v))) case None => None)
    case Yday1 => (match ScanInt(s, 3, 1) case Some((v, r)) => Some((r, p.(yday := v))) case None => None)
    case TzAbbr => ReadAbbreviation(s, p)
    case TzNum | TzNumColon | TzNumShort | TzZ | TzZColon | TzZShort =>
      (match ReadZone(s, kind in {TzZ, TzZColon, TzZShort}, kind in {TzNumShort, TzZShort})
       case Some((o, r)) => Some((r, p.(offset := o)))
       case None => None)
  }

  function ReadToken(t: Token, fractionNext: bool, s: string, p: Parsed): Reading {
    match t
    case Literal(text) => if text <= s then Some((s[|text|..], p)) else None
    case Fraction(trim, _) => ReadFraction(s, trim, p)
    case Field(kind) => ReadField(kind, fractionNext, s, p)
  }

  function ReadAll(toks: seq<Token>, s: string, p: Parsed): Reading {
    if toks == [] then Some((s, p))
    else
      match ReadToken(toks[0], |toks| > 1 && toks[1].Fraction?, s, p)
      case None => None
      case Some((r, p')) => ReadAll(toks[1..], r, p')
  }

  /** What the fields say once all are read: half-days, days of the year, the range. */
  function Assemble(p: Parsed): Option<Instant> {
    var hour := if p.hasAmPm && p.pm && p.hour < 12 then p.hour + 12
                else if p.hasAmPm && !p.pm && p.hour == 12 then 0 else p.hour;
    var month, day := if p.yday > 0 then 1 else p.month, if p.yday > 0 then p.yday else p.day;
    MakeTs(FromCivilSecs(p.year, month, day, hour, p.minute, p.second, p.offset), p.nano, p.offset)
  }

  function ParseTokens(s: string, toks: seq<Token>): Option<Instant> {
    match ReadAll(toks, s, INITIAL)
    case Some((r, p)) => if r == "" then Assemble(p) else None
    case None => None
  }

  lemma Pieces(s: string, i: nat, n: nat)
    requires i + 1 + n <= |s|
    ensures s[i..][1..1 + n] == s[i + 1..i + 1 + n] && s[i..][1 + n..] == s[i + 1 + n..]
  {
  }

  /** The parser's cursor over its input, and the fields read so far. */
  class Parser {
    const s: string
    var i: nat
    var p: Parsed

    constructor (s: string)
      ensures this.s == s && i == 0 && p == INITIAL
    {
      this.s, i, p := s, 0, INITIAL;
    }

    /** What is read up to the cursor, or that the input is refused. */
    ghost predicate Gives(r: Reading, ok: bool)
      reads this
    {
      i <= |s| && r == if ok then Some((s[i..], p)) else None
    }

    /** `scan_int` at the cursor. */
    method Number(max: nat, min: nat) returns (v: Option<int>)
      requires i <= |s|
      modifies this`i
      ensures i <= |s| && ScanInt(s[old(i)..], max, min) == if v.Some? then Some((v.value, s[i..])) else None
    {
      var j;
      v, j := ReadInt(s, i, max, min);
      i := j;
    }

    method Literal(text: string) returns (ok: bool)
      requires i <= |s|
      modifies this`i
      ensures Gives(if text <= s[old(i)..] then Some((s[old(i)..][|text|..], p)) else None, ok)
    {
      ghost var start := i;
      for k := 0 to |text|
        invariant start + k == i <= |s| && text[..k] == s[start..i]
      {
        assert text <= s[start..] ==> i < |s| && text[k] == s[start..][k] == s[i];
        if i >= |s| || s[i] != text[k] { return false; }
        i := i + 1;
        assert text[..k + 1] == text[..k] + [text[k]];
      }
      assert text[..|text|] == text && s[start..][..|text|] == s[start..i] && s[start..][|text|..] == s[i..];
      ok := true;
    }

    method SkipDigits(ghost max: nat)
      requires i <= |s| && |s| - i <= max
      modifies this`i
      ensures old(i) <= i <= |s| && i - old(i) == DigitRun(s[old(i)..], max)
    {
      var start := i;
      while i < |s| && IsDigit(s[i])
        invariant start <= i <= |s|
        invariant DigitRun(s[start..], max) == (i - start) + DigitRun(s[i..], max - (i - start))
      {
        assert s[i..][1..] == s[i + 1..];
        i := i + 1;
      }
    }

    /** A run of digits after the point, as nanoseconds. */
    method Digits() returns (n: nat)
      requires i < |s|
      modifies this
      ensures i <= |s| && n == DigitRun(s[old(i) + 1..], |s[old(i)..]|)
      ensures s[i..] == s[old(i)..][1 + n..]
      ensures p == if n == 0 then old(p) else old(p).(nano := ValueOf(Resize9(s[old(i)..][1..1 + n])))
    {
      hide DigitRun, ValueOf, Resize9;
      ghost var was := i;
      i := i + 1;
      var start := i;
      SkipDigits(|s[was..]|);
      n := i - start;
      Pieces(s, was, n);
      if n > 0 { p := p.(nano := ValueOf(Resize9(s[start..i]))); }
    }

    method Fraction(trim: bool) returns (ok: bool)
      requires i <= |s|
      modifies this
      ensures Gives(ReadFraction(s[old(i)..], trim, old(p)), ok)
    {
      if i >= |s| || s[i] !in {'.', ','} { return trim; }
      assert s[i..][0] == s[i] && s[i..][1..] == s[i + 1..];
      var n := Digits();
      ok := n > 0;
    }

    /** Behind the seconds, unless the layout asks for the fraction itself. */
    method Bare(fractionNext: bool)
      requires i <= |s|
      modifies this
      ensures Gives(Some(if fractionNext then (s[old(i)..], old(p)) else BareFraction(s[old(i)..], old(p))), true)
    {
      if i + 1 >= |s| || s[i] !in {'.', ','} || !IsDigit(s[i + 1]) || fractionNext { return; }
      assert s[i..][0] == s[i] && s[i..][1] == s[i + 1] && s[i..][1..] == s[i + 1..];
      var n := Digits();
    }

    method Zone(allowsZ: bool, short: bool) returns (ok: bool)
      requires i <= |s|
      modifies this
      ensures var r := ReadZone(s[old(i)..], allowsZ, short);
              Gives(if r.Some? then Some((r.value.1, old(p).(offset := r.value.0))) else None, ok)
    {
      hide ScanInt;
      if allowsZ && i < |s| && s[i] in {'Z', 'z'} {
        assert s[i..][1..] == s[i + 1..];
        i, p := i + 1, p.(offset := 0);
        return true;
      }
      if i >= |s| || s[i] !in {'+', '-'} { return false; }
      assert s[i..][1..] == s[i + 1..];
      var sign := if s[i] == '-' then -1 else 1;
      i := i + 1;
      var hh := Number(2, 2);
      if hh.None? { return false; }
      var mm := Some(0);
      if !short {
        if i < |s| && s[i] == ':' {
          assert s[i..][1..] == s[i + 1..];
          i := i + 1;
        }
        mm := Number(2, 2);
        if mm.None? { return false; }
      }
      p := p.(offset := sign * (hh.value * 3600 + mm.value * 60));
      ok := true;
    }

    method HalfDay() returns (ok: bool)
      requires i <= |s|
      modifies this
      ensures Gives(ReadAmPm(s[old(i)..], old(p)), ok)
    {
      if i + 1 >= |s| { return false; }
      var c := Lower(s[i]);
      if c !in {'a', 'p'} || Lower(s[i + 1]) != 'm' { return false; }
      assert s[i..][2..] == s[i + 2..];
      i, p := i + 2, p.(pm := c == 'p', hasAmPm := true);
      ok := true;
    }

    method SkipLetters()
      requires i <= |s|
      modifies this`i
      ensures old(i) <= i <= |s| && i - old(i) == Letters(s[old(i)..])
    {
      var start := i;
      while i < |s| && 'a' <= Lower(s[i]) <= 'z'
        invariant start <= i <= |s|
        invariant Letters(s[start..]) == (i - start) + Letters(s[i..])
      {
        assert s[i..][1..] == s[i + 1..];
        i := i + 1;
      }
    }

    method Abbreviation() returns (ok: bool)
      requires i <= |s|
      modifies this
      ensures Gives(ReadAbbreviation(s[old(i)..], old(p)), ok)
    {
      hide Letters, Lower;
      var start := i;
      SkipLetters();
      var abbr := s[start..i];
      assert s[start..][..i - start] == abbr && s[start..][i - start..] == s[i..];
      if abbr == "" { return false; }
      if abbr in {"UTC", "GMT", "UT", "Z"} { p := p.(offset := 0); }
      ok := true;
    }

    /** `scan_name`: in full, then abbreviated. */
    method Name(names: seq<string>) returns (k: Option<nat>)
      requires i <= |s|
      modifies this`i
      ensures i <= |s| && ScanName(s[old(i)..], names, 0, false) == if k.Some? then Some((k.value, s[i..])) else None
    {
      ghost var all := ScanName(s[i..], names, 0, false);
      for j := 0 to |names|
        invariant i == old(i) && ScanName(s[i..], names, j, false) == all
      {
        if MatchesName(s[i..], names[j]) {
          i := i + |names[j]|;
          return Some(j);
        }
      }
      for j := 0 to |names|
        invariant i == old(i) && ScanName(s[i..], names, j, true) == all
      {
        if |names[j]| > 3 && MatchesName(s[i..], names[j][..3]) {
          i := i + 3;
          return Some(j);
        }
      }
      k := None;
    }

    method Field(kind: Kind, fractionNext: bool) returns (ok: bool)
      requires i <= |s|
      modifies this
      ensures Gives(ReadField(kind, fractionNext, s[old(i)..], old(p)), ok)
    {
      hide ScanInt, ScanName, ReadZone, ReadAmPm, ReadAbbreviation, BareFraction;
      match kind {
        case MonthAbbr | MonthLong =>
          var k := Name(MONTH_LONG);
          if k.None? { return false; }
          p := p.(month := k.value + 1);
        case WdayAbbr | WdayLong =>
          var k := Name(DAY_LONG);
          if k.None? { return false; }
        case PmUpper | PmLower =>
          ok := HalfDay();
          return;
        case TzAbbr =>
          ok := Abbreviation();
          return;
        case TzNum | TzNumColon | TzNumShort | TzZ | TzZColon | TzZShort =>
          ok := Zone(kind in {TzZ, TzZColon, TzZShort}, kind in {TzNumShort, TzZShort});
          return;
        case Sec2 | Sec1 =>
          var v := Number(2, if kind.Sec2? then 2 else 1);
          if v.None? { return false; }
          p := p.(second := v.value);
          Bare(fractionNext);
        case _ =>
          ok := Plain(kind);
          return;
      }
      ok := true;
    }

    /** The fields that are a number and nothing else. */
    method Plain(kind: Kind) returns (ok: bool)
      requires i <= |s|
      requires kind in {Year4, Year2, MonthNum, MonthNum1, DayNum, DayNum1, DaySpace, Hour24, Hour12, Hour12_1, Min2, Min1, Yday3, Yday1}
      modifies this
      ensures forall fractionNext :: Gives(ReadField(kind, fractionNext, s[old(i)..], old(p)), ok)
    {
      hide ScanInt, ScanName, ReadZone, ReadAmPm, ReadAbbreviation, BareFraction;
      if kind.DaySpace? && i < |s| && s[i] == ' ' {
        assert s[i..][1..] == s[i + 1..];
        i := i + 1;
      }
      var max := if kind.Year4? then 4 else if kind.Yday3? || kind.Yday1? then 3 else 2;
      var min := if kind in {MonthNum1, DayNum1, DaySpace, Hour12_1, Min1, Yday1} then 1 else max;
      var n := Number(max, min);
      if n.None? { return false; }
      var v := n.value;
      match kind {
        case Year4 => p := p.(year := v);
        case Year2 => p := p.(year := if v >= 69 then 1900 + v else 2000 + v);
        case MonthNum | MonthNum1 => p := p.(month := v);
        case DayNum | DayNum1 | DaySpace => p := p.(day := v);
        case Hour24 | Hour12 | Hour12_1 => p := p.(hour := v);
        case Min2 | Min1 => p := p.(minute := v);
        case Yday3 | Yday1 => p := p.(yday := v);
      }
      ok := true;
    }

    method Read(t: Token, fractionNext: bool) returns (ok: bool)
      requires i <= |s|
      modifies this
      ensures Gives(ReadToken(t, fractionNext, s[old(i)..], old(p)), ok)
    {
      hide ReadField, ReadFraction;
      match t {
        case Literal(text) => ok := Literal(text);
        case Fraction(trim, _) => ok := Fraction(trim);
        case Field(kind) => ok := Field(kind, fractionNext);
      }
    }
  }

  method ParseWithLayout(s: string, layout: string) returns (r: Option<Instant>)
    ensures r == ParseTokens(s, Layout(layout, []))
  {
    hide Layout, ReadToken;
    var toks := ParseLayout(layout);
    var parser := new Parser(s);
    assert s[0..] == s && toks[0..] == toks;
    for ti := 0 to |toks|
      invariant parser.s == s && parser.i <= |s|
      invariant ReadAll(toks[ti..], s[parser.i..], parser.p) == ReadAll(toks, s, INITIAL)
    {
      assert toks[ti..][1..] == toks[ti + 1..];
      var ok := parser.Read(toks[ti], ti + 1 < |toks| && toks[ti + 1].Fraction?);
      if !ok { return None; }
    }
    assert (s[parser.i..] == "") == (parser.i == |s|);
    r := if parser.i == |s| then Assemble(parser.p) else None;
  }

  // ---- reading what was printed ---------------------------------------------------------

  lemma {:induction false} DigitRunOf(t: string, rest: string, max: nat)
    requires AllDigits(t) && |t| <= max && (|t| == max || rest == "" || !IsDigit(rest[0]))
    ensures DigitRun(t + rest, max) == |t|
    decreases |t|
  {
    if t == "" {
      assert t + rest == rest;
    } else {
      assert (t + rest)[1..] == t[1..] + rest;
      DigitRunOf(t[1..], rest, max - 1);
    }
  }

  lemma ScanOf(t: string, rest: string, max: nat)
    requires AllDigits(t) && |t| == max
    ensures ScanInt(t + rest, max, max) == Some((ValueOf(t), rest))
  {
    DigitRunOf(t, rest, max);
    assert (t + rest)[..max] == t && (t + rest)[max..] == rest;
  }

  lemma ScanPad2(v: nat, rest: string)
    requires v < 100
    ensures ScanInt(Pad2(v) + rest, 2, 2) == Some((v, rest))
  {
    Pad2Holds(v);
    ScanOf(Pad2(v), rest, 2);
  }

  /** A two-digit field and the literal in front of it. */
  lemma ReadPair(lit: string, kind: Kind, more: seq<Token>, v: nat, rest: string, p: Parsed, p': Parsed)
    requires |lit| == 1 && v < 100
    requires kind.Sec2? ==> more != [] && more[0].Fraction?
    requires match kind
             case MonthNum => p' == p.(month := v)
             case DayNum => p' == p.(day := v)
             case Hour24 => p' == p.(hour := v)
             case Min2 => p' == p.(minute := v)
             case Sec2 => p' == p.(second := v)
             case _ => false
    ensures ReadAll([Literal(lit), Field(kind)] + more, lit + (Pad2(v) + rest), p) == ReadAll(more, rest, p')
  {
    hide ScanInt, Pad2;
    ScanPad2(v, rest);
    var s := Pad2(v) + rest;
    var toks := [Literal(lit), Field(kind)] + more;
    assert lit <= lit + s && (lit + s)[|lit|..] == s;
    assert toks[1..] == [Field(kind)] + more && toks[1..][1..] == more;
    assert ReadAll(toks, lit + s, p) == ReadAll(toks[1..], s, p);
  }

  const TAIL_TOKENS: seq<Token> := [Fraction(true, 9), Field(TzZColon)]

  function Fields(c: Civil): Parsed {
    INITIAL.(year := c.year, month := c.month, day := c.day, hour := c.hour, minute := c.minute, second := c.second)
  }

  lemma ReadYear(year: int, more: seq<Token>, rest: string)
    requires 0 <= year < 10000
    ensures ReadAll([Field(Year4)] + more, PadN(year, 4) + rest, INITIAL) == ReadAll(more, rest, INITIAL.(year := year))
  {
    hide PadN, ScanInt;
    NinePowers();
    PadHolds(year, 4);
    ScanOf(PadN(year, 4), rest, 4);
    assert ([Field(Year4)] + more)[1..] == more;
  }

  /** Everything up to the second reads back. */
  lemma ReadDate(c: Civil, tail: string)
    requires c.Valid() && 0 <= c.year < 10000
    ensures ReadAll(RFC_TOKENS, DateText(c, tail), INITIAL) == ReadAll(TAIL_TOKENS, tail, Fields(c))
  {
    hide Pad2, PadN, ReadAll;
    var k5 := [Literal(":"), Field(Sec2)] + TAIL_TOKENS;
    var k4 := [Literal(":"), Field(Min2)] + k5;
    var k3 := [Literal("T"), Field(Hour24)] + k4;
    var k2 := [Literal("-"), Field(DayNum)] + k3;
    var k1 := [Literal("-"), Field(MonthNum)] + k2;
    assert RFC_TOKENS == [Field(Year4)] + k1;
    var t5 := ":" + (Pad2(c.second) + tail);
    var t4 := ":" + (Pad2(c.minute) + t5);
    var t3 := "T" + (Pad2(c.hour) + t4);
    var t2 := "-" + (Pad2(c.day) + t3);
    var t1 := "-" + (Pad2(c.month) + t2);
    ReadYear(c.year, k1, t1);
    var p0 := INITIAL.(year := c.year);
    var p1 := p0.(month := c.month);
    var p2 := p1.(day := c.day);
    var p3 := p2.(hour := c.hour);
    var p4 := p3.(minute := c.minute);
    ReadPair("-", MonthNum, k2, c.month, t2, p0, p1);
    ReadPair("-", DayNum, k3, c.day, t3, p1, p2);
    ReadPair("T", Hour24, k4, c.hour, t4, p2, p3);
    ReadPair(":", Min2, k5, c.minute, t5, p3, p4);
    ReadPair(":", Sec2, TAIL_TOKENS, c.second, tail, p4, Fields(c));
  }

  lemma {:induction false} TrimThenFill(t: string)
    ensures |TrimZeros(t)| <= |t| && t == TrimZeros(t) + Zeros(|t| - |TrimZeros(t)|)
    ensures AllDigits(t) ==> AllDigits(TrimZeros(t))
  {
    if t != "" && t[|t| - 1] == '0' {
      TrimThenFill(t[..|t| - 1]);
      assert t == t[..|t| - 1] + "0";
    }
  }

  lemma {:induction false} DigitsBelow(t: string)
    requires AllDigits(t)
    ensures 0 <= ValueOf(t) < Pow10(|t|)
  {
    if t != "" { DigitsBelow(t[..|t| - 1]); }
  }

  lemma {:induction false} ValueJoin(a: string, b: string)
    ensures ValueOf(a + b) == ValueOf(a) * Pow10(|b|) + ValueOf(b)
    decreases |b|
  {
    if b == "" {
      assert a + b == a;
    } else {
      var b' := b[..|b| - 1];
      assert (a + b)[..|a + b| - 1] == a + b';
      ValueJoin(a, b');
      assert ValueOf(a) * (10 * Pow10(|b'|)) == 10 * (ValueOf(a) * Pow10(|b'|));
    }
  }

  /** Nanoseconds cut to so many digits behind the point. */
  function Cut(nano: nat, digits: nat): int {
    nano - nano % Pow10(if digits < 9 then 9 - digits else 0)
  }

  lemma CutIs(nano: nat, d: nat)
    requires nano < NS && d <= 9
    ensures var t := PadN(nano, 9); |t| == 9 && AllDigits(t[..d]) && ValueOf(t[..d] + Zeros(9 - d)) == Cut(nano, d)
  {
    hide PadN, ValueOf, Pow10;
    NinePowers();
    PadHolds(nano, 9);
    var t := PadN(nano, 9);
    var head, tail := t[..d], t[d..];
    assert t == head + tail;
    ValueJoin(head, tail);
    DigitsBelow(tail);
    DivModUnique(nano, Pow10(9 - d), ValueOf(head), ValueOf(tail));
    ValueJoin(head, Zeros(9 - d));
    ZerosValue(9 - d, "");
    assert Zeros(9 - d) + "" == Zeros(9 - d);
    NoValue();
  }

  lemma NoValue()
    ensures ValueOf("") == 0
  {
  }

  /** A number whose last digit is not zero is not zero. */
  lemma NotZero(t: string)
    requires AllDigits(t) && TrimZeros(t) != ""
    ensures ValueOf(TrimZeros(t)) > 0
  {
    TrimThenFill(t);
    TrimEnds(t);
    var kept := TrimZeros(t);
    DigitsBelow(kept[..|kept| - 1]);
  }

  lemma {:induction false} TrimEnds(t: string)
    ensures var k := TrimZeros(t); k != "" ==> k[|k| - 1] != '0'
  {
    if t != "" && t[|t| - 1] == '0' { TrimEnds(t[..|t| - 1]); }
  }

  /** Nothing that would lengthen a number follows. */
  predicate NoDigit(rest: string) { rest == "" || !IsDigit(rest[0]) }

  predicate NoPoint(rest: string) { rest == "" || rest[0] !in {'.', ','} }

  /** A printed fraction reads back, cut to its digits, in front of what is no digit; a trimmed one
      that is all zeros is not there. */
  lemma ReadBackFraction(nano: nat, digits: nat, trim: bool, rest: string, p: Parsed)
    requires nano < NS && digits > 0 && NoDigit(rest)
    requires trim && Cut(nano, digits) == 0 ==> NoPoint(rest)
    ensures ReadFraction(FractionText(nano, digits, trim) + rest, trim, p) ==
            Some((rest, if trim && Cut(nano, digits) == 0 then p else p.(nano := Cut(nano, digits))))
  {
    hide ReadFraction, AllDigits, ValueOf, PadN, Cut, TrimZeros;
    var d := if digits < 9 then digits else 9;
    assert Cut(nano, d) == Cut(nano, digits) by { CutAtNine(nano, digits); }
    NinePowers();
    PadHolds(nano, 9);
    CutIs(nano, d);
    var t := PadN(nano, 9)[..d];
    if trim && TrimZeros(t) == "" {
      AllZeros(t, d);
      assert "" + rest == rest;
      NothingThere(rest, p);
    } else if trim {
      TrimThenFill(t);
      FilledUp(t, d);
      ReadKept(TrimZeros(t), d, t, true, rest, p);
    } else {
      assert t + Zeros(0) == t;
      ReadKept(t, d, t, false, rest, p);
    }
  }

  lemma CutAtNine(nano: nat, digits: nat)
    ensures Cut(nano, if digits < 9 then digits else 9) == Cut(nano, digits)
  {
  }

  lemma NothingThere(rest: string, p: Parsed)
    requires NoPoint(rest)
    ensures ReadFraction(rest, true, p) == Some((rest, p))
  {
  }

  lemma AllZeros(t: string, d: nat)
    requires |t| == d <= 9 && TrimZeros(t) == ""
    ensures ValueOf(t + Zeros(9 - d)) == 0
  {
    hide ValueOf;
    TrimThenFill(t);
    ZerosValue(9, "");
    NoValue();
    assert t + Zeros(9 - d) == Zeros(9) + "";
  }

  lemma FilledUp(t: string, d: nat)
    requires |t| == d <= 9 && AllDigits(t) && TrimZeros(t) != ""
    ensures ValueOf(t + Zeros(9 - d)) > 0
  {
    hide ValueOf;
    TrimThenFill(t);
    NotZero(t);
    var kept := TrimZeros(t);
    assert t + Zeros(9 - d) == kept + Zeros(9 - |kept|);
    ValueJoin(kept, Zeros(9 - |kept|));
    ZerosValue(9 - |kept|, "");
    assert Zeros(9 - |kept|) + "" == Zeros(9 - |kept|);
    NoValue();
    assert ValueOf(kept) * Pow10(9 - |kept|) > 0;
  }

  lemma ReadKept(kept: string, d: nat, t: string, trim: bool, rest: string, p: Parsed)
    requires 0 < |kept| <= |t| == d <= 9 && t == kept + Zeros(d - |kept|) && AllDigits(kept) && NoDigit(rest)
    ensures ReadFraction("." + kept + rest, trim, p) == Some((rest, p.(nano := ValueOf(t + Zeros(9 - d)))))
  {
    hide ValueOf;
    var s := "." + kept + rest;
    assert s[1..] == kept + rest;
    DigitRunOf(kept, rest, |s|);
    assert s[1..1 + |kept|] == kept && s[1 + |kept|..] == rest;
    assert Resize9(kept) == t + Zeros(9 - d);
  }

  predicate WholeMinutes(offset: int) { offset % 60 == 0 }

  lemma HoursAndMinutes(offset: int)
    requires WholeMinutes(offset)
    ensures var v := if offset < 0 then -offset else offset; v == v / 3600 * 3600 + v / 60 % 60 * 60
  {
    var v := if offset < 0 then -offset else offset;
    var k := offset / 60;
    DivModUnique(v, 60, if offset < 0 then -k else k, 0);
    DivDiv(v, 60, 60);
  }

  lemma ReadSigned(sign: char, hh: nat, mm: nat, colon: bool, allowsZ: bool, rest: string)
    requires sign in {'+', '-'} && hh < 100 && mm < 100
    ensures ReadZone([sign] + Pad2(hh) + (if colon then ":" else "") + Pad2(mm) + rest, allowsZ, false) ==
            Some((if sign == '-' then -(hh * 3600 + mm * 60) else hh * 3600 + mm * 60, rest))
  {
    hide ScanInt, Pad2;
    var m := Pad2(mm) + rest;
    var s := [sign] + Pad2(hh) + (if colon then ":" else "") + Pad2(mm) + rest;
    var after := if colon then ":" + m else m;
    assert s[1..] == Pad2(hh) + after;
    ScanPad2(hh, after);
    Pad2Holds(mm);
    assert (":" + m)[1..] == m;
    ScanPad2(mm, rest);
  }

  /** Below a hundred hours an offset of whole minutes reads back, in each of its spellings. */
  lemma ReadBackZone(offset: int, colon: bool, zForUtc: bool, rest: string)
    requires WholeMinutes(offset) && -360000 < offset < 360000
    ensures ReadZone(OffsetText(offset, colon, zForUtc) + rest, zForUtc, false) == Some((offset, rest))
  {
    if offset == 0 && zForUtc {
      assert ("Z" + rest)[1..] == rest;
    } else {
      hide ReadZone, Pad2;
      var v := if offset < 0 then -offset else offset;
      HoursAndMinutes(offset);
      ReadSigned(if offset < 0 then '-' else '+', v / 3600, v / 60 % 60, colon, zForUtc, rest);
    }
  }

  /** From a hundred hours on the printed zone is longer than what the parser takes. */
  lemma LongZone(offset: int)
    requires !(-360000 < offset < 360000)
    ensures var r := ReadZone(OffsetText(offset, true, true), true, false); r.Some? ==> r.value.1 != ""
  {
    var v := if offset < 0 then -offset else offset;
    var s := OffsetText(offset, true, true);
    assert Pow10(2) == 100 && Pow10(1) == 10;
    DigitsLength(v / 3600, 2);
    assert |Pad2(v / 3600)| >= 3;
    Pad2Holds(v / 60 % 60);
    assert |s| >= 7;
    ZoneTakesSix(s);
  }

  lemma ZoneTakesSix(s: string)
    ensures var r := ReadZone(s, true, false); r.Some? ==> |s| - |r.value.1| <= 6
  {
  }

  /** Whatever the layout, the offset of a timestamp that was read is whole minutes. */
  lemma {:induction false} OffsetsWhole(toks: seq<Token>, s: string, p: Parsed)
    requires WholeMinutes(p.offset)
    ensures var r := ReadAll(toks, s, p); r.Some? ==> WholeMinutes(r.value.1.offset)
    decreases |toks|
  {
    hide ScanInt, ScanName, DigitRun, ValueOf, ReadZone;
    if toks != [] {
      var r := ReadToken(toks[0], |toks| > 1 && toks[1].Fraction?, s, p);
      if r.Some? {
        TokenWhole(toks[0], |toks| > 1 && toks[1].Fraction?, s, p);
        OffsetsWhole(toks[1..], r.value.0, r.value.1);
      }
    }
  }

  lemma TokenWhole(t: Token, fractionNext: bool, s: string, p: Parsed)
    requires WholeMinutes(p.offset)
    ensures var r := ReadToken(t, fractionNext, s, p); r.Some? ==> WholeMinutes(r.value.1.offset)
  {
    hide ScanInt, ScanName, DigitRun, ValueOf, ReadZone;
    if t.Field? && t.kind in {TzNum, TzNumColon, TzNumShort, TzZ, TzZColon, TzZShort} {
      ZoneWhole(s, t.kind in {TzZ, TzZColon, TzZShort}, t.kind in {TzNumShort, TzZShort});
    }
  }

  lemma MinutesWhole(sign: int, hh: int, mm: int)
    requires sign == 1 || sign == -1
    ensures WholeMinutes(sign * (hh * 3600 + mm * 60)) && WholeMinutes(sign * (hh * 3600))
  {
    DivModUnique(sign * (hh * 3600 + mm * 60), 60, sign * (hh * 60 + mm), 0);
    DivModUnique(sign * (hh * 3600), 60, sign * (hh * 60), 0);
  }

  lemma ZoneWhole(s: string, allowsZ: bool, short: bool)
    ensures var r := ReadZone(s, allowsZ, short); r.Some? ==> WholeMinutes(r.value.0)
  {
    hide ScanInt, WholeMinutes;
    assert WholeMinutes(0) by { MinutesWhole(1, 0, 0); }
    if !(allowsZ && s != "" && s[0] in {'Z', 'z'}) && s != "" && s[0] in {'+', '-'} {
      var sign := if s[0] == '-' then -1 else 1;
      match ScanInt(s[1..], 2, 2) {
        case None =>
        case Some((hh, rest)) =>
          MinutesWhole(sign, hh, 0);
          match ScanInt(if rest != "" && rest[0] == ':' then rest[1..] else rest, 2, 2) {
            case None =>
            case Some((mm, rest')) => MinutesWhole(sign, hh, mm);
          }
      }
    }
  }

  // ---- the range of years ---------------------------------------------------------------

  lemma DaysInRange(local: int)
    requires INT64_MIN <= local <= INT64_MAX
    ensures -106752 <= local / NS / 86400 <= 106751
  {
    var secs := local / NS;
    assert -9223372037 <= secs <= 9223372036;
  }

  lemma YearBounds(days: int)
    requires -106752 <= days <= 106751
    ensures 1677 <= DateOf(days).year <= 2262
  {
    hide DateOf;
    DateOfHolds(days);
    var y := DateOf(days).year;
    WithinYear(DateOf(days));
    assert YearStart(1677) == -107015 && YearStart(2263) == 107016;
    if y < 1677 { YearStartsGrow(y + 1, 1677); }
    if y > 2262 { YearStartsGrow(2263, y); }
  }

  /** Local times of 64 bits lie in years of four digits. */
  lemma YearsInRange(nanos: int, offset: int)
    requires INT64_MIN <= nanos + offset * NS <= INT64_MAX
    ensures 1677 <= ToCivil(nanos, offset).year <= 2262
  {
    hide ToCivil, DateOf, YearStart;
    var local := nanos + offset * NS;
    var secs := nanos / NS + offset;
    DivModUnique(local, NS, secs, nanos % NS);
    DaysInRange(local);
    CivilOf(nanos, offset, secs);
    YearBounds(secs / 86400);
  }

  // ---- the round trip -------------------------------------------------------------------

  lemma AssembleBack(nanos: int, offset: int)
    requires INT64_MIN <= nanos <= INT64_MAX
    ensures var c := ToCivil(nanos, offset);
            Assemble(Fields(c).(nano := c.nano, offset := offset)) ==
            if nanos < TS_MIN_SEC * NS then None else Some(Instant(nanos, offset))
  {
    hide ToCivil, FromCivilSecs;
    FromToCivil(nanos, offset);
    if nanos < TS_MIN_SEC * NS { assert nanos / NS < TS_MIN_SEC; } else { assert nanos / NS >= TS_MIN_SEC; }
  }

  lemma ReadOne(t: Token, s: string, p: Parsed)
    ensures ReadAll([t], s, p) == ReadToken(t, false, s, p)
  {
    assert [t][1..] == [];
  }

  /** The fraction and the zone that follow the seconds. */
  lemma ReadTail(nano: nat, zone: string, p: Parsed)
    requires nano < NS && p.nano == 0
    requires zone != "" && !IsDigit(zone[0]) && zone[0] !in {'.', ','}
    ensures ReadAll(TAIL_TOKENS, FractionText(nano, 9, true) + zone, p) ==
            match ReadZone(zone, true, false)
            case Some((o, r)) => Some((r, p.(nano := nano, offset := o)))
            case None => None
  {
    hide FractionText, ReadFraction, ReadZone;
    ReadBackFraction(nano, 9, true, zone, p);
    assert Pow10(0) == 1;
    var s := FractionText(nano, 9, true) + zone;
    assert TAIL_TOKENS[1..] == [Field(TzZColon)];
    ReadOne(Field(TzZColon), zone, p.(nano := nano));
    assert ReadAll(TAIL_TOKENS, s, p) == ReadAll(TAIL_TOKENS[1..], zone, p.(nano := nano));
    assert ReadToken(Field(TzZColon), false, zone, p.(nano := nano)) ==
           match ReadZone(zone, true, false)
           case Some((o, r)) => Some((r, p.(nano := nano, offset := o)))
           case None => None;
  }

  /** Parsing printed text comes down to parsing its zone. */
  lemma ReadUpToZone(nanos: int, offset: int)
    requires INT64_MIN <= nanos + offset * NS <= INT64_MAX
    ensures var c := ToCivil(nanos, offset);
            ReadAll(RFC_TOKENS, Text(nanos, offset), INITIAL) ==
            match ReadZone(OffsetText(offset, true, true), true, false)
            case Some((o, r)) => Some((r, Fields(c).(nano := c.nano, offset := o)))
            case None => None
  {
    hide ToCivil, DateText, OffsetText, FractionText, ReadZone, ReadAll;
    FromToCivil(nanos, offset);
    YearsInRange(nanos, offset);
    var c := ToCivil(nanos, offset);
    var zone := OffsetText(offset, true, true);
    ZoneStarts(offset);
    ReadDate(c, FractionText(c.nano, 9, true) + zone);
    ReadTail(c.nano, zone, Fields(c));
  }

  lemma ZoneStarts(offset: int)
    ensures var z := OffsetText(offset, true, true); z != "" && z[0] in {'Z', '+', '-'}
  {
  }

  /** An instant printed as RFC 3339 parses back, instant and offset, if and only if its
      offset is whole minutes below a hundred hours and it is not one of the instants
      before the first second that `make_ts` accepts. */
  lemma RoundTrip(nanos: int, offset: int)
    requires INT64_MIN <= nanos <= INT64_MAX && INT64_MIN <= nanos + offset * NS <= INT64_MAX
    ensures ParseTokens(Text(nanos, offset), Layout(RFC3339_NANO, [])) == Some(Instant(nanos, offset)) <==>
            WholeMinutes(offset) && -360000 < offset < 360000 && nanos >= -9_223_372_036_000_000_000
  {
    hide Layout, ToCivil, Text, ReadAll, Assemble, ReadZone, OffsetText;
    RfcLayout();
    ReadUpToZone(nanos, offset);
    AssembleBack(nanos, offset);
    if !WholeMinutes(offset) {
      ZoneWhole(OffsetText(offset, true, true), true, false);
      AssembledOffset(nanos, offset);
    } else if -360000 < offset < 360000 {
      ReadBackZone(offset, true, true, "");
      assert OffsetText(offset, true, true) + "" == OffsetText(offset, true, true);
    } else {
      LongZone(offset);
    }
  }

  lemma AssembledOffset(nanos: int, offset: int)
    ensures forall p: Parsed :: Assemble(p).Some? ==> Assemble(p).value.offset == p.offset
  {
  }

  /** Every timestamp that `make_ts` makes survives, at every offset of whole minutes below
      a day whose local time does not overflow. */
  lemma MadeTimestampsSurvive(secs: int, nano: int, offset: int)
    requires 0 <= nano < NS && MakeTs(secs, nano, offset).Some?
    requires WholeMinutes(offset) && -86400 < offset < 86400
    requires var t := MakeTs(secs, nano, offset).value; INT64_MIN <= t.nanos + offset * NS <= INT64_MAX
    ensures var t := MakeTs(secs, nano, offset);
            ParseTokens(Text(t.value.nanos, offset), Layout(RFC3339_NANO, [])) == t
  {
    hide Layout, Text, ParseTokens, OffsetText;
    assert (secs * NS + nano) >= TS_MIN_SEC * NS;
    RoundTrip(secs * NS + nano, offset);
  }
}
