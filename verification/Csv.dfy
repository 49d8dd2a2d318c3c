/** The CSV record reader on text that may still be growing, and the scanner that feeds it
    one chunk at a time. */
module Csv {
  import opened Values

  const QUOTE: Byte := 34
  const CR: Byte := 13
  const LF: Byte := 10

  datatype State = State(fields: seq<Str>, field: Str, quoted: bool, started: bool)
  {
    function Push(c: Byte): State { this.(field := field + [c]) }
    function Close(): seq<Str> { fields + [field] }
  }

  const FRESH: State := State([], [], false, false)

  datatype Outcome = Row(fields: seq<Str>, rest: Str) | More | Bad

  datatype Dialect = Dialect(delim: Byte, lazy: bool)

  /** What reading on through `s` gives; `More` is the rewind on unfinished input. */
  function Scan(d: Dialect, s: Str, st: State, atEnd: bool): (r: Outcome)
    ensures r.Row? ==> |r.rest| <= |s| && (s != [] ==> |r.rest| < |s|)
    ensures r.More? ==> !atEnd
    decreases |s|
  {
    if s == [] then
      if !atEnd then More else if st.quoted && !d.lazy then Bad else Row(st.Close(), [])
    else
      var c := s[0];
      if st.quoted then
        if c != QUOTE then Scan(d, s[1..], st.Push(c), atEnd)
        else if |s| > 1 && s[1] == QUOTE then Scan(d, s[2..], st.Push(QUOTE), atEnd)
        else Scan(d, s[1..], st.(quoted := false), atEnd)
      else if c == QUOTE then
        if !st.started then Scan(d, s[1..], st.(quoted := true, started := true), atEnd)
        else if !d.lazy then Bad
        else Scan(d, s[1..], st.Push(c), atEnd)
      else if c == d.delim then Scan(d, s[1..], State(st.Close(), [], false, false), atEnd)
      else if c == CR && |s| > 1 && s[1] == LF then Row(st.Close(), s[2..])
      else if (c == CR && |s| == 1) || c == LF then Row(st.Close(), s[1..])
      else Scan(d, s[1..], st.Push(c).(started := true), atEnd)
  }

  /** One character of the text from position `i`. */
  lemma ScanAt(d: Dialect, s: Str, i: nat, st: State, atEnd: bool)
    requires i < |s|
    ensures var c, paired := s[i], i + 1 < |s| && s[i + 1] == QUOTE;
            Scan(d, s[i..], st, atEnd) ==
            if st.quoted then
              if c != QUOTE then Scan(d, s[i + 1..], st.Push(c), atEnd)
              else if paired then Scan(d, s[i + 2..], st.Push(QUOTE), atEnd)
              else Scan(d, s[i + 1..], st.(quoted := false), atEnd)
            else if c == QUOTE then
              if !st.started then Scan(d, s[i + 1..], st.(quoted := true, started := true), atEnd)
              else if !d.lazy then Bad
              else Scan(d, s[i + 1..], st.Push(c), atEnd)
            else if c == d.delim then Scan(d, s[i + 1..], State(st.Close(), [], false, false), atEnd)
            else if c == CR && i + 1 < |s| && s[i + 1] == LF then Row(st.Close(), s[i + 2..])
            else if (c == CR && i + 1 == |s|) || c == LF then Row(st.Close(), s[i + 1..])
            else Scan(d, s[i + 1..], st.Push(c).(started := true), atEnd)
  {
    assert s[i..][0] == s[i] && s[i..][1..] == s[i + 1..];
    if i + 1 < |s| { assert s[i..][1] == s[i + 1] && s[i..][2..] == s[i + 2..]; }
  }

  lemma ScanEnd(d: Dialect, s: Str, i: nat, st: State, atEnd: bool)
    requires i == |s|
    ensures Scan(d, s[i..], st, atEnd) == if !atEnd then More else if st.quoted && !d.lazy then Bad else Row(st.Close(), [])
  {
  }

  /** `read_csv_record` from position `start`; the row it fills and where it stops. */
  method ReadRecord(d: Dialect, s: Str, start: nat, atEnd: bool) returns (r: Outcome, i: nat)
    requires start < |s|
    ensures r == Scan(d, s[start..], FRESH, atEnd)
    ensures i <= |s| && (r.More? ==> i == start) && (r.Row? ==> i > start && r.rest == s[i..])
  {
    hide Scan;
    i := start;
    var out: seq<Str>, field: Str, quoted, started := [], [], false, false;
    while true
      invariant start <= i <= |s|
      invariant Scan(d, s[i..], State(out, field, quoted, started), atEnd) == Scan(d, s[start..], FRESH, atEnd)
      decreases |s| - i
    {
      if i >= |s| {
        ScanEnd(d, s, i, State(out, field, quoted, started), atEnd);
        if !atEnd { return More, start; }
        if quoted && !d.lazy { return Bad, i; }
        assert s[i..] == [];
        return Row(out + [field], []), i;
      }
      var c := s[i];
      ScanAt(d, s, i, State(out, field, quoted, started), atEnd);
      if quoted {
        if c == QUOTE {
          if i + 1 < |s| && s[i + 1] == QUOTE {
            field := field + [QUOTE];
            i := i + 2;
            continue;
          }
          quoted := false;
          i := i + 1;
          continue;
        }
        field := field + [c];
        i := i + 1;
        continue;
      }
      if c == QUOTE && !started {
        quoted, started := true, true;
        i := i + 1;
        continue;
      }
      if c == QUOTE && started {
        if !d.lazy { return Bad, i; }
        field := field + [c];
        i := i + 1;
        continue;
      }
      if c == d.delim {
        out := out + [field];
        field, started := [], false;
        i := i + 1;
        continue;
      }
      if c == CR && i + 1 < |s| && s[i + 1] == LF {
        return Row(out + [field], s[i + 2..]), i + 2;
      }
      if c == CR && i + 1 == |s| {
        return Row(out + [field], s[i + 1..]), i + 1;
      }
      if c == LF {
        return Row(out + [field], s[i + 1..]), i + 1;
      }
      field := field + [c];
      started := true;
      i := i + 1;
    }
  }

  // ---- reading a prefix ---------------------------------------------------------------

  /** The outcome of a prefix, as an outcome of the whole text. */
  function Extended(r: Outcome, t: Str): Outcome {
    match r case Row(f, rest) => Row(f, rest + t) case _ => r
  }

  predicate EndsInCr(s: Str) { s != [] && s[|s| - 1] == CR }

  /** A prefix either asks for more or gives the outcome of the whole text, in any dialect,
      unless its record was closed by a carriage return that only the end of the prefix
      made a terminator; then, and only then, the whole text reads differently. */
  lemma {:induction false} PrefixConsistent(d: Dialect, p: Str, t: Str, st: State, atEnd: bool)
    requires t != []
    ensures var r := Scan(d, p, st, false);
            (r.More? || Scan(d, p + t, st, atEnd) == Extended(r, t)) <==>
            !(r.Row? && r.rest == [] && EndsInCr(p))
    decreases |p|
  {
    if p != [] {
      var c := p[0];
      assert (p + t)[1..] == p[1..] + t;
      if |p| > 1 {
        assert (p + t)[2..] == p[2..] + t;
      }
      if st.quoted {
        if c != QUOTE {
          PrefixConsistent(d, p[1..], t, st.Push(c), atEnd);
        } else if |p| > 1 && p[1] == QUOTE {
          PrefixConsistent(d, p[2..], t, st.Push(QUOTE), atEnd);
        } else {
          PrefixConsistent(d, p[1..], t, st.(quoted := false), atEnd);
        }
      } else if c == QUOTE {
        if !st.started {
          PrefixConsistent(d, p[1..], t, st.(quoted := true, started := true), atEnd);
        } else if d.lazy {
          PrefixConsistent(d, p[1..], t, st.Push(c), atEnd);
        }
      } else if c == d.delim {
        PrefixConsistent(d, p[1..], t, State(st.Close(), [], false, false), atEnd);
      } else if c == CR && |p| > 1 && p[1] == LF {
      } else if c == LF {
      } else if c == CR && |p| == 1 {
        LoneCr(d, p, t, st, atEnd);
      } else {
        PrefixConsistent(d, p[1..], t, st.Push(c).(started := true), atEnd);
      }
    }
  }

  lemma LoneCr(d: Dialect, p: Str, t: Str, st: State, atEnd: bool)
    requires p == [CR] && t != [] && !st.quoted && d.delim != CR
    ensures Scan(d, p + t, st, atEnd) != Row(st.Close(), t)
    ensures Scan(d, p, st, false) == Row(st.Close(), [])
  {
    assert (p + t)[1..] == t && (p + t)[2..] == t[1..];
    assert p[1..] == [];
  }

  // ---- whole documents ----------------------------------------------------------------

  datatype Event = Fields(row: seq<Str>) | BadRow

  /** The rows of a document, up to and including the first that is malformed. */
  function Rows(d: Dialect, s: Str): seq<Event>
    decreases |s|
  {
    if s == [] then []
    else
      match Scan(d, s, FRESH, true)
      case Row(f, rest) => [Fields(f)] + Rows(d, rest)
      case _ => [BadRow]
  }

  // ---- what a writer wrote --------------------------------------------------------------

  /** The text of a field between quotes: its quotes doubled. */
  function Doubled(f: Str): Str {
    if f == [] then [] else (if f[0] == QUOTE then [QUOTE, QUOTE] else [f[0]]) + Doubled(f[1..])
  }

  /** Text that stands for itself: nothing in it ends a field or a row, and a quote is data where
      it cannot open the field, if the reader is lazy. */
  predicate Bare(d: Dialect, f: Str) {
    && (forall i | 0 <= i < |f| :: f[i] != d.delim && f[i] != LF)
    && (f != [] ==> f[|f| - 1] != CR)
    && (forall i | 0 <= i < |f| && f[i] == QUOTE :: d.lazy && i > 0)
  }

  /** A field as it may be written: quoted, whatever it holds, or bare. */
  predicate Spells(d: Dialect, t: Str, f: Str) {
    t == [QUOTE] + Doubled(f) + [QUOTE] || (t == f && Bare(d, f))
  }

  /** The written fields with delimiters between them. */
  function RowText(d: Dialect, ts: seq<Str>): Str {
    if ts == [] then [] else if |ts| == 1 then ts[0] else ts[0] + [d.delim] + RowText(d, ts[1..])
  }

  /** What may follow a row: a line end and more text, or the end of the text. */
  predicate Ends(after: Str, rest: Str, atEnd: bool) {
    after == [LF] + rest || after == [CR, LF] + rest || (after == [] && rest == [] && atEnd)
  }

  /** Text after which a field is over. */
  predicate Stops(d: Dialect, s: Str) { s == [] || s[0] == d.delim || s[0] == LF || (|s| > 1 && s[0] == CR && s[1] == LF) }

  predicate Separator(d: Dialect) { d.delim != QUOTE && d.delim != CR && d.delim != LF }

  /** Bare text goes into the field as it stands. */
  lemma {:induction false} ReadsBare(d: Dialect, f: Str, k: nat, s: Str, st: State, atEnd: bool)
    requires Separator(d) && Bare(d, f) && k <= |f| && !st.quoted && (st.started <==> k > 0)
    ensures Scan(d, f[k..] + s, st, atEnd) ==
            Scan(d, s, State(st.fields, st.field + f[k..], false, f != []), atEnd)
    decreases |f| - k
  {
    var t := f[k..] + s;
    if k == |f| {
      assert t == s && st.field + f[k..] == st.field;
    } else {
      assert t[0] == f[k] && t[1..] == f[k + 1..] + s;
      if k + 1 < |f| { assert t[1] == f[k + 1]; }
      BareStep(d, f, k, s, st, atEnd);
      hide Scan;
      ReadsBare(d, f, k + 1, s, State(st.fields, st.field + [f[k]], false, true), atEnd);
      assert st.field + [f[k]] + f[k + 1..] == st.field + f[k..];
    }
  }

  lemma BareStep(d: Dialect, f: Str, k: nat, s: Str, st: State, atEnd: bool)
    requires Separator(d) && Bare(d, f) && k < |f| && !st.quoted && (st.started <==> k > 0)
    ensures Scan(d, f[k..] + s, st, atEnd) == Scan(d, f[k + 1..] + s, State(st.fields, st.field + [f[k]], false, true), atEnd)
  {
    var t := f[k..] + s;
    assert t[0] == f[k] && t[1..] == f[k + 1..] + s;
    if k + 1 < |f| { assert t[1] == f[k + 1]; }
    assert f[k] == CR ==> k + 1 < |f|;
  }

  /** Between quotes everything is data, and a doubled quote is one. */
  lemma {:induction false} ReadsQuoted(d: Dialect, f: Str, s: Str, st: State, atEnd: bool)
    requires st.quoted && st.started && (s != [] ==> s[0] != QUOTE)
    ensures Scan(d, Doubled(f) + [QUOTE] + s, st, atEnd) == Scan(d, s, State(st.fields, st.field + f, false, true), atEnd)
    decreases |f|
  {
    var t := Doubled(f) + [QUOTE] + s;
    if f == [] {
      assert t[0] == QUOTE && t[1..] == s;
      assert st.field + f == st.field;
    } else {
      var more := Doubled(f[1..]) + [QUOTE] + s;
      if f[0] == QUOTE {
        assert t[0] == QUOTE && t[1] == QUOTE && t[2..] == more;
      } else {
        assert t[0] == f[0] && t[1..] == more;
      }
      ReadsQuoted(d, f[1..], s, State(st.fields, st.field + [f[0]], true, true), atEnd);
      assert st.field + [f[0]] + f[1..] == st.field + f;
    }
  }

  /** A written field is read, up to where it stops. */
  lemma ReadsField(d: Dialect, t: Str, f: Str, s: Str, fields: seq<Str>, atEnd: bool)
    requires Separator(d) && Spells(d, t, f) && Stops(d, s)
    ensures exists started :: Scan(d, t + s, State(fields, [], false, false), atEnd) == Scan(d, s, State(fields, f, false, started), atEnd)
  {
    hide Doubled;
    var st := State(fields, [], false, false);
    assert [] + f == f;
    if t == f && Bare(d, f) {
      hide Scan;
      ReadsBare(d, f, 0, s, st, atEnd);
      assert f[0..] == f;
      assert Scan(d, t + s, st, atEnd) == Scan(d, s, State(fields, f, false, f != []), atEnd);
    } else {
      var u := Doubled(f) + [QUOTE] + s;
      assert (t + s)[0] == QUOTE && (t + s)[1..] == u;
      assert Scan(d, t + s, st, atEnd) == Scan(d, u, State(fields, [], true, true), atEnd);
      hide Scan;
      ReadsQuoted(d, f, s, State(fields, [], true, true), atEnd);
    }
  }

  /** For every delimiter, every row of at least one field and every way of writing its fields:
      reading what was written gives the row back and stops behind it. */
  lemma {:induction false} WrittenRow(d: Dialect, ts: seq<Str>, fs: seq<Str>, done: seq<Str>, after: Str, rest: Str, atEnd: bool)
    requires Separator(d) && |ts| == |fs| > 0 && (forall i | 0 <= i < |ts| :: Spells(d, ts[i], fs[i])) && Ends(after, rest, atEnd)
    ensures Scan(d, RowText(d, ts) + after, State(done, [], false, false), atEnd) == Row(done + fs, rest)
    decreases |ts|
  {
    hide Scan, Spells;
    var st := State(done, [], false, false);
    if |ts| == 1 {
      EndStops(d, after, rest, atEnd);
      ReadsField(d, ts[0], fs[0], after, done, atEnd);
      var started :| Scan(d, ts[0] + after, st, atEnd) == Scan(d, after, State(done, fs[0], false, started), atEnd);
      RowEnds(d, after, rest, State(done, fs[0], false, started), atEnd);
      assert done + [fs[0]] == done + fs;
    } else {
      var more := RowText(d, ts[1..]) + after;
      var s := [d.delim] + more;
      assert RowText(d, ts) + after == ts[0] + s && s[1..] == more;
      ReadsField(d, ts[0], fs[0], s, done, atEnd);
      var started :| Scan(d, ts[0] + s, st, atEnd) == Scan(d, s, State(done, fs[0], false, started), atEnd);
      FieldEnds(d, more, State(done, fs[0], false, started), atEnd);
      WrittenRow(d, ts[1..], fs[1..], done + [fs[0]], after, rest, atEnd);
      assert done + [fs[0]] + fs[1..] == done + fs;
    }
  }

  lemma EndStops(d: Dialect, after: Str, rest: Str, atEnd: bool)
    requires Ends(after, rest, atEnd)
    ensures Stops(d, after)
  {
  }

  lemma RowEnds(d: Dialect, after: Str, rest: Str, st: State, atEnd: bool)
    requires Separator(d) && Ends(after, rest, atEnd) && !st.quoted
    ensures Scan(d, after, st, atEnd) == Row(st.fields + [st.field], rest)
  {
    if after != [] {
      if after[0] == CR { assert after[2..] == rest; } else { assert after[1..] == rest; }
    }
  }

  lemma FieldEnds(d: Dialect, more: Str, st: State, atEnd: bool)
    requires Separator(d) && !st.quoted
    ensures Scan(d, [d.delim] + more, st, atEnd) == Scan(d, more, State(st.fields + [st.field], [], false, false), atEnd)
  {
    assert ([d.delim] + more)[1..] == more;
  }

  /** A document of such rows, each written and ended in any way, has those rows. */
  lemma {:induction false} WrittenRows(d: Dialect, texts: seq<seq<Str>>, rows: seq<seq<Str>>, ends: seq<Str>)
    requires Separator(d) && |texts| == |rows| == |ends|
    requires forall k | 0 <= k < |rows| ::
               && |texts[k]| == |rows[k]| > 0 && ends[k] in {[LF], [CR, LF]}
               && forall i | 0 <= i < |rows[k]| :: Spells(d, texts[k][i], rows[k][i])
    ensures Rows(d, Document(d, texts, ends)) == seq(|rows|, k requires 0 <= k < |rows| => Fields(rows[k]))
    decreases |rows|
  {
    hide Spells, Scan;
    if rows != [] {
      var rest := Document(d, texts[1..], ends[1..]);
      var text := Document(d, texts, ends);
      assert text == RowText(d, texts[0]) + (ends[0] + rest);
      WrittenRow(d, texts[0], rows[0], [], ends[0] + rest, rest, true);
      assert [] + rows[0] == rows[0];
      WrittenRows(d, texts[1..], rows[1..], ends[1..]);
      var tail := seq(|rows| - 1, k requires 0 <= k < |rows| - 1 => Fields(rows[1..][k]));
      assert seq(|rows|, k requires 0 <= k < |rows| => Fields(rows[k])) == [Fields(rows[0])] + tail;
    }
  }

  function Document(d: Dialect, texts: seq<seq<Str>>, ends: seq<Str>): Str
    requires |texts| == |ends|
  {
    if texts == [] then [] else RowText(d, texts[0]) + ends[0] + Document(d, texts[1..], ends[1..])
  }

  // ---- on to the next row ---------------------------------------------------------------

  /** The text from where the record at the front turns out to be malformed. */
  function Offending(d: Dialect, s: Str, st: State): (r: Str)
    ensures |r| <= |s|
    decreases |s|
  {
    if s == [] then []
    else
      var c := s[0];
      if st.quoted then
        if c != QUOTE then Offending(d, s[1..], st.Push(c))
        else if |s| > 1 && s[1] == QUOTE then Offending(d, s[2..], st.Push(QUOTE))
        else Offending(d, s[1..], st.(quoted := false))
      else if c == QUOTE then
        if !st.started then Offending(d, s[1..], st.(quoted := true, started := true))
        else if !d.lazy then s
        else Offending(d, s[1..], st.Push(c))
      else if c == d.delim then Offending(d, s[1..], State(st.Close(), [], false, false))
      else if (c == CR && (|s| == 1 || s[1] == LF)) || c == LF then []
      else Offending(d, s[1..], st.Push(c).(started := true))
  }

  /** The fields and flags behind a character that ends no record. */
  function Onto(d: Dialect, c: Byte, st: State): State {
    if st.quoted then (if c != QUOTE then st.Push(c) else st.(quoted := false))
    else if c == QUOTE then (if st.started then st.Push(c) else st.(quoted := true, started := true))
    else if c == d.delim then State(st.Close(), [], false, false)
    else st.Push(c).(started := true)
  }

  predicate Doubles(s: Str, st: State) { st.quoted && |s| > 1 && s[0] == QUOTE && s[1] == QUOTE }

  predicate Breaks(d: Dialect, s: Str, st: State) { s != [] && !st.quoted && s[0] == QUOTE && st.started && !d.lazy }

  /** What one character leads to, in the scan and in the search. */
  lemma BadOnward(d: Dialect, s: Str, st: State)
    requires s != [] && Scan(d, s, st, true) == Bad && !Doubles(s, st) && !Breaks(d, s, st)
    ensures Scan(d, s[1..], Onto(d, s[0], st), true) == Bad
    ensures Offending(d, s, st) == Offending(d, s[1..], Onto(d, s[0], st))
  {
  }

  lemma BadDoubled(d: Dialect, s: Str, st: State)
    requires Scan(d, s, st, true) == Bad && Doubles(s, st)
    ensures Scan(d, s[2..], st.Push(QUOTE), true) == Bad && Offending(d, s, st) == Offending(d, s[2..], st.Push(QUOTE))
  {
  }

  /** The text holds a malformed record if and only if it reaches beyond `k`. */
  ghost predicate BreaksAt(d: Dialect, s: Str, st: State, k: nat) {
    forall j | 0 <= j <= |s| :: Scan(d, s[..j], st, false) == Bad <==> j > k
  }

  lemma BreaksLater(d: Dialect, s: Str, st: State, k: nat, n: nat, next: State)
    requires 0 < n <= |s| && BreaksAt(d, s[n..], next, k)
    requires forall j | 0 <= j < n :: Scan(d, s[..j], st, false) != Bad
    requires forall j | n <= j <= |s| :: Scan(d, s[..j], st, false) == Bad <==> Scan(d, s[n..][..j - n], next, false) == Bad
    ensures BreaksAt(d, s, st, k + n)
  {
    hide Scan;
    forall j | 0 <= j <= |s|
      ensures Scan(d, s[..j], st, false) == Bad <==> j > k + n
    {
      if j >= n { assert Scan(d, s[n..][..j - n], next, false) == Bad <==> j - n > k; }
    }
  }

  /** One character further. */
  lemma StepOn(d: Dialect, s: Str, st: State, k: nat, next: State)
    requires s != [] && BreaksAt(d, s[1..], next, k)
    requires forall t: Str | t != [] && t <= s :: Scan(d, t, st, false) == Bad <==> Scan(d, t[1..], next, false) == Bad
    ensures BreaksAt(d, s, st, k + 1)
  {
    forall j | 1 <= j <= |s|
      ensures Scan(d, s[..j], st, false) == Bad <==> Scan(d, s[1..][..j - 1], next, false) == Bad
    {
      assert s[..j][1..] == s[1..][..j - 1] && s[..j] <= s;
    }
    assert s[..0] == [];
    NothingBad(d, st);
    BreaksLater(d, s, st, k, 1, next);
  }

  lemma NothingBad(d: Dialect, st: State)
    ensures Scan(d, [], st, false) == More
  {
  }

  /** A quote that may not stand there begins it: the text before it is not malformed, with the quote it
      is. Nothing does if the text only ends inside a quoted field. */
  lemma {:induction false} OffendingIs(d: Dialect, s: Str, st: State)
    requires Scan(d, s, st, true) == Bad
    ensures var off := Offending(d, s, st);
            off == s[|s| - |off|..] && (off != [] ==> off[0] == QUOTE) && BreaksAt(d, s, st, |s| - |off|)
    decreases |s|
  {
    hide BreaksAt, Scan, Offending, Onto, Doubles, Breaks;
    if s == [] {
      NeverBreaks(d, st);
    } else if Doubles(s, st) {
      TwoLeft(s, st);
      BadDoubled(d, s, st);
      OffendingIs(d, s[2..], st.Push(QUOTE));
      TwoQuotes(d, s, st, |s| - 2 - |Offending(d, s, st)|);
    } else if Breaks(d, s, st) {
      BreaksHere(d, s, st);
    } else {
      var next := Onto(d, s[0], st);
      BadOnward(d, s, st);
      OffendingIs(d, s[1..], next);
      Onward(d, s, st);
      StepOn(d, s, st, |s| - 1 - |Offending(d, s, st)|, next);
    }
  }

  lemma TwoLeft(s: Str, st: State)
    requires Doubles(s, st)
    ensures |s| > 1
  {
  }

  lemma Onward(d: Dialect, s: Str, st: State)
    requires s != [] && Scan(d, s, st, true) == Bad && !Doubles(s, st) && !Breaks(d, s, st)
    ensures forall t: Str | t != [] && t <= s ::
              Scan(d, t, st, false) == Bad <==> Scan(d, t[1..], Onto(d, s[0], st), false) == Bad
  {
    forall t: Str | t != [] && t <= s
      ensures Scan(d, t, st, false) == Bad <==> Scan(d, t[1..], Onto(d, s[0], st), false) == Bad
    {
      assert t[0] == s[0] && (|t| > 1 ==> t[1] == s[1]);
      if |t| == 1 { NothingBad(d, Onto(d, s[0], st)); }
    }
  }

  lemma TwoQuotes(d: Dialect, s: Str, st: State, k: nat)
    requires Doubles(s, st) && BreaksAt(d, s[2..], st.Push(QUOTE), k)
    ensures BreaksAt(d, s, st, k + 2)
  {
    NothingBad(d, st);
    NothingBad(d, st.(quoted := false));
    assert s[..0] == [] && s[..1][1..] == [];
    assert Scan(d, s[..1], st, false) == More;
    forall j | 2 <= j <= |s|
      ensures Scan(d, s[..j], st, false) == Bad <==> Scan(d, s[2..][..j - 2], st.Push(QUOTE), false) == Bad
    {
      assert s[..j][2..] == s[2..][..j - 2];
    }
    BreaksLater(d, s, st, k, 2, st.Push(QUOTE));
  }

  lemma BreaksHere(d: Dialect, s: Str, st: State)
    requires Breaks(d, s, st)
    ensures BreaksAt(d, s, st, 0) && Offending(d, s, st) == s && s[0] == QUOTE
  {
    NothingBad(d, st);
    assert s[..0] == [];
  }

  lemma NeverBreaks(d: Dialect, st: State)
    ensures BreaksAt(d, [], st, 0) && Offending(d, [], st) == []
  {
    NothingBad(d, st);
  }

  function NextLine(s: Str): (r: Str)
    ensures |r| <= |s| && (s != [] ==> |r| < |s|)
  {
    if s == [] then [] else if s[0] == LF then s[1..] else NextLine(s[1..])
  }

  /** What follows the line of the first malformed record. */
  function Tail(d: Dialect, s: Str): (r: Str)
    ensures |r| <= |s| && (s != [] ==> |r| < |s|)
    decreases |s|
  {
    if s == [] then []
    else
      var r := Scan(d, s, FRESH, true);
      if r.Row? then Tail(d, r.rest) else NextLine(Offending(d, s, FRESH))
  }

  /** The rows of a document when reading goes on with the next line after a malformed record. */
  function Resumed(d: Dialect, s: Str): seq<Event>
    decreases |s|
  {
    if s == [] then []
    else
      var r := Scan(d, s, FRESH, true);
      if r.Row? then [Fields(r.fields)] + Resumed(d, r.rest)
      else [BadRow] + Resumed(d, NextLine(Offending(d, s, FRESH)))
  }

  /** The rows after the first malformed record. */
  function Dropped(d: Dialect, s: Str): seq<Event> { Resumed(d, Tail(d, s)) }

  /** Stopping there drops rows if and only if more text follows that record's line. */
  lemma {:induction false} StoppingDrops(d: Dialect, s: Str)
    ensures Resumed(d, s) == Rows(d, s) + Dropped(d, s)
    ensures Rows(d, s) == Resumed(d, s) <==> Tail(d, s) == []
    ensures Dropped(d, s) != [] ==> BadRow in Rows(d, s)
    decreases |s|
  {
    if s != [] {
      var r := Scan(d, s, FRESH, true);
      if r.Row? { StoppingDrops(d, r.rest); }
    }
    SomeRow(d, Tail(d, s));
  }

  lemma SomeRow(d: Dialect, s: Str)
    ensures Resumed(d, s) != [] <==> s != []
  {
  }

  /** `sent` is what every document that starts with `fed` yields before `buf`. */
  ghost predicate Caught(d: Dialect, fed: Str, sent: seq<Event>, buf: Str) {
    forall t: Str :: Rows(d, fed + t) == sent + Rows(d, buf + t)
  }

  /** The buffer begins with a record that ends before the buffer does. */
  predicate Complete(d: Dialect, buf: Str) {
    var r := Scan(d, buf, FRESH, false);
    buf != [] && r.Row? && r.rest != []
  }

  /** The rows of the complete records at the front of the buffer, and what follows them. */
  function Settled(d: Dialect, buf: Str): seq<Event>
    decreases |buf|
  {
    if !Complete(d, buf) then []
    else
      var r := Scan(d, buf, FRESH, false);
      [Fields(r.fields)] + Settled(d, r.rest)
  }

  function Unsettled(d: Dialect, buf: Str): Str
    decreases |buf|
  {
    if Complete(d, buf) then Unsettled(d, Scan(d, buf, FRESH, false).rest) else buf
  }

  /** Nothing in the buffer is certain yet, or what is certain is that it is malformed. */
  predicate Undecided(d: Dialect, buf: Str) {
    buf == [] || !Scan(d, buf, FRESH, false).Row? || Scan(d, buf, FRESH, false).rest == []
  }

  class Scanner {
    const d: Dialect
    const continueOnError: bool
    var buf: Str
    ghost var fed: Str
    ghost var sent: seq<Event>

    ghost predicate Valid()
      reads this
    {
      Caught(d, fed, sent, buf) && BadRow !in sent
    }

    constructor (d: Dialect, continueOnError: bool)
      ensures Valid() && this.d == d && this.continueOnError == continueOnError && fed == [] && sent == []
    {
      this.d, this.continueOnError, buf, fed, sent := d, continueOnError, [], [], [];
      new;
      forall t: Str
        ensures Rows(d, [] + t) == [] + Rows(d, [] + t)
      {
      }
    }

    /** The settled rows are sent; unless a malformed record follows them and errors are not
        continued over, when an error is thrown and they are lost. Every document that starts
        this way then has exactly the rows sent before, the lost ones and the malformed one. */
    method Feed(chunk: Str) returns (out: Option<seq<Event>>)
      requires Valid()
      modifies this
      ensures fed == old(fed) + chunk
      ensures out.Some? ==> Valid() && sent == old(sent) + out.value && Undecided(d, buf)
      ensures out.Some? ==> out.value == Settled(d, old(buf) + chunk) && buf == Unsettled(d, old(buf) + chunk)
      ensures out.None? <==> !continueOnError && Scan(d, Unsettled(d, old(buf) + chunk), FRESH, false).Bad?
      ensures out.None? ==>
                var lost := Settled(d, old(buf) + chunk);
                && (forall t: Str :: Rows(d, fed + t) == old(sent) + lost + [BadRow])
                && (lost != [] <==> Complete(d, old(buf) + chunk))
    {
      hide Scan, Rows, Caught, Settled, Unsettled, Complete;
      Grow(d, fed, sent, buf, chunk);
      SettledStep(d, buf + chunk, []);
      buf := buf + chunk;
      fed := fed + chunk;
      var i := 0;
      var rows: seq<Event> := [];
      assert buf[0..] == buf && sent + rows == sent;
      while i < |buf|
        invariant i <= |buf| && buf == old(buf) + chunk && fed == old(fed) + chunk && sent == old(sent)
        invariant Caught(d, fed, sent + rows, buf[i..]) && BadRow !in rows
        invariant Settled(d, buf) == rows + Settled(d, buf[i..]) && Unsettled(d, buf) == Unsettled(d, buf[i..])
        decreases |buf| - i
      {
        var r, j := ReadRecord(d, buf, i, false);
        SettledStep(d, buf[i..], rows);
        if r.Bad? {
          if continueOnError { break; }
          SurelyBad(d, fed, sent + rows, buf[i..]);
          assert Settled(d, buf) == rows;
          return None;
        }
        if r.More? { break; }
        if j >= |buf| { break; }
        SurelyRow(d, fed, sent + rows, buf[i..], r);
        assert (sent + rows) + [Fields(r.fields)] == sent + (rows + [Fields(r.fields)]);
        rows := rows + [Fields(r.fields)];
        i := j;
      }
      SettledStep(d, buf[i..], rows);
      EmptyScan(d);
      buf := buf[i..];
      sent := sent + rows;
      out := Some(rows);
    }

    /** Whatever the chunks were, the rows sent are those of the whole text up to the first
        malformed record, and an error in its place; what follows that record's line is
        dropped, also when errors are continued over. */
    method Finish() returns (out: Option<seq<Event>>)
      requires Valid()
      modifies this
      ensures fed == old(fed)
      ensures out.Some? ==> sent == old(sent) + out.value && sent == Rows(d, fed)
      ensures out.Some? ==> Resumed(d, fed) == sent + Dropped(d, fed) && (Dropped(d, fed) != [] <==> Tail(d, fed) != [])
      ensures out.None? <==> !continueOnError && BadRow in Rows(d, fed)
      ensures out.None? ==>
                exists lost ::
                  && Rows(d, fed) == old(sent) + lost + [BadRow] && Rows(d, old(buf)) == lost + [BadRow]
                  && (lost != [] <==> Scan(d, old(buf), FRESH, true).Row?)
    {
      hide Scan, Rows, Caught, Dropped, Resumed, Tail;
      var i := 0;
      var rows: seq<Event> := [];
      assert buf[0..] == buf && sent + rows == sent;
      AtTheEnd(d, fed, sent, buf);
      while i < |buf|
        invariant i <= |buf| && buf == old(buf) && fed == old(fed) && sent == old(sent)
        invariant Rows(d, fed) == (sent + rows) + Rows(d, buf[i..]) && Rows(d, buf) == rows + Rows(d, buf[i..])
        invariant (rows != [] <==> i > 0) && (i > 0 && !continueOnError ==> Scan(d, buf, FRESH, true).Row?)
        invariant BadRow in rows ==> continueOnError
        decreases |buf| - i
      {
        var r, j := ReadRecord(d, buf, i, true);
        RowsStep(d, buf[i..], sent + rows);
        RowsStep(d, buf[i..], rows);
        if r.Bad? {
          if !continueOnError {
            assert sent + rows + [BadRow] == (sent + rows) + [BadRow];
            return None;
          }
          assert (sent + rows) + [BadRow] == sent + (rows + [BadRow]);
          rows := rows + [BadRow];
          i := |buf|;
        } else {
          assert (sent + rows) + [Fields(r.fields)] == sent + (rows + [Fields(r.fields)]);
          rows := rows + [Fields(r.fields)];
          i := j;
        }
        NoRows(d, buf[|buf|..]);
      }
      NoRows(d, buf[i..]);
      assert (sent + rows) + [] == sent + rows;
      buf := buf[i..];
      sent := sent + rows;
      out := Some(rows);
      StoppingDrops(d, fed);
      SomeRow(d, Tail(d, fed));
      DroppedIs(d, fed);
    }
  }

  lemma DroppedIs(d: Dialect, s: Str)
    ensures Dropped(d, s) == Resumed(d, Tail(d, s))
  {
  }

  lemma AtTheEnd(d: Dialect, fed: Str, sent: seq<Event>, buf: Str)
    requires Caught(d, fed, sent, buf)
    ensures Rows(d, fed) == sent + Rows(d, buf)
  {
    hide Rows;
    assert Rows(d, fed + []) == sent + Rows(d, buf + []);
    assert fed + [] == fed && buf + [] == buf;
  }

  lemma NoRows(d: Dialect, s: Str)
    requires s == []
    ensures Rows(d, s) == []
  {
  }

  /** The record at the front, and what is before it. */
  lemma RowsStep(d: Dialect, s: Str, before: seq<Event>)
    requires s != []
    ensures var r := Scan(d, s, FRESH, true);
            if r.Row? then before + Rows(d, s) == (before + [Fields(r.fields)]) + Rows(d, r.rest)
            else r.Bad? && before + Rows(d, s) == before + [BadRow] && Rows(d, s) == [BadRow]
  {
    hide Scan;
    var r := Scan(d, s, FRESH, true);
    if r.Row? { assert before + ([Fields(r.fields)] + Rows(d, r.rest)) == (before + [Fields(r.fields)]) + Rows(d, r.rest); }
  }

  lemma Grow(d: Dialect, fed: Str, sent: seq<Event>, buf: Str, chunk: Str)
    requires Caught(d, fed, sent, buf)
    ensures Caught(d, fed + chunk, sent, buf + chunk)
  {
    hide Scan, Rows;
    forall t: Str
      ensures Rows(d, (fed + chunk) + t) == sent + Rows(d, (buf + chunk) + t)
    {
      var u := chunk + t;
      assert Rows(d, fed + u) == sent + Rows(d, buf + u);
      assert (fed + chunk) + t == fed + (chunk + t) && (buf + chunk) + t == buf + (chunk + t);
    }
  }

  /** A record that ended before the end of the buffer is settled. */
  lemma SurelyRow(d: Dialect, fed: Str, sent: seq<Event>, buf: Str, r: Outcome)
    requires Caught(d, fed, sent, buf) && r == Scan(d, buf, FRESH, false) && r.Row? && r.rest != []
    ensures Caught(d, fed, sent + [Fields(r.fields)], r.rest)
  {
    forall t: Str
      ensures Rows(d, fed + t) == sent + [Fields(r.fields)] + Rows(d, r.rest + t)
    {
      AtEndToo(d, buf, t, FRESH);
      assert Rows(d, buf + t) == [Fields(r.fields)] + Rows(d, r.rest + t);
    }
  }

  lemma SurelyBad(d: Dialect, fed: Str, sent: seq<Event>, buf: Str)
    requires Caught(d, fed, sent, buf) && Scan(d, buf, FRESH, false).Bad? && buf != []
    ensures forall t: Str :: Rows(d, fed + t) == sent + [BadRow]
  {
    forall t: Str
      ensures Rows(d, fed + t) == sent + [BadRow]
    {
      AtEndToo(d, buf, t, FRESH);
      assert Rows(d, buf + t) == [BadRow];
    }
  }

  lemma EmptyScan(d: Dialect)
    ensures Scan(d, [], FRESH, false) == More
  {
  }

  /** One record at the front of the buffer. */
  lemma SettledStep(d: Dialect, buf: Str, rows: seq<Event>)
    ensures var r := Scan(d, buf, FRESH, false);
            if buf != [] && r.Row? && r.rest != [] then
              && rows + Settled(d, buf) == (rows + [Fields(r.fields)]) + Settled(d, r.rest)
              && Unsettled(d, buf) == Unsettled(d, r.rest) && Complete(d, buf)
            else rows + Settled(d, buf) == rows && Unsettled(d, buf) == buf && !Complete(d, buf)
    ensures Settled(d, buf) != [] <==> Complete(d, buf)
  {
  }

  lemma AtEndToo(d: Dialect, p: Str, t: Str, st: State)
    requires var r := Scan(d, p, st, false); r.Bad? || (r.Row? && r.rest != [])
    ensures Scan(d, p + t, st, true) == Extended(Scan(d, p, st, false), t)
  {
    if t == [] {
      SameAtEnd(d, p, st);
      assert p + t == p;
      var r := Scan(d, p, st, false);
      if r.Row? { assert r.rest + t == r.rest; }
    } else {
      PrefixConsistent(d, p, t, st, true);
    }
  }

  /** Being at the end matters only to input that runs out. */
  lemma {:induction false} SameAtEnd(d: Dialect, s: Str, st: State)
    requires !Scan(d, s, st, false).More?
    ensures Scan(d, s, st, true) == Scan(d, s, st, false)
    decreases |s|
  {
    if s != [] {
      var c := s[0];
      if st.quoted {
        if c != QUOTE {
          SameAtEnd(d, s[1..], st.Push(c));
        } else if |s| > 1 && s[1] == QUOTE {
          SameAtEnd(d, s[2..], st.Push(QUOTE));
        } else {
          SameAtEnd(d, s[1..], st.(quoted := false));
        }
      } else if c == QUOTE {
        if !st.started {
          SameAtEnd(d, s[1..], st.(quoted := true, started := true));
        } else if d.lazy {
          SameAtEnd(d, s[1..], st.Push(c));
        }
      } else if c == d.delim {
        SameAtEnd(d, s[1..], State(st.Close(), [], false, false));
      } else if (c == CR && (|s| == 1 || s[1] == LF)) || c == LF {
      } else {
        SameAtEnd(d, s[1..], st.Push(c).(started := true));
      }
    }
  }

  // ---- rows lost to an error in the same chunk --------------------------------------------

  const COMMA: Dialect := Dialect(44, false)

  /** The text `a`, newline, `b"` fed at once throws and loses the row `a`; with its last
      character fed by itself, the row is sent and the same error loses nothing. */
  lemma ChunkingDecidesLoss()
    ensures var row := [Fields([[97]])];
            && Settled(COMMA, [97, 10, 98, 34]) == row && Unsettled(COMMA, [97, 10, 98, 34]) == [98, 34]
            && Settled(COMMA, [97, 10, 98]) == row && Unsettled(COMMA, [97, 10, 98]) == [98]
            && Settled(COMMA, [98] + [34]) == [] && Unsettled(COMMA, [98] + [34]) == [98, 34]
            && Scan(COMMA, [98, 34], FRESH, false).Bad?
  {
    OneRecord([98, 34]);
    OneRecord([98]);
    var st := FRESH.Push(98).(started := true);
    assert [98, 34][1..] == [34];
    assert Scan(COMMA, [34], st, false) == Bad;
    assert Scan(COMMA, [98, 34], FRESH, false) == Bad;
    assert [98][1..] == [];
    assert Scan(COMMA, [98], FRESH, false) == More;
    assert [98] + [34] == [98, 34];
  }

  /** `a` and a newline in front of anything. */
  lemma OneRecord(rest: Str)
    ensures Scan(COMMA, [97, 10] + rest, FRESH, false) == Row([[97]], rest)
  {
    var s := [97, 10] + rest;
    var st := FRESH.Push(97).(started := true);
    assert s[1..] == [10] + rest && s[1..][1..] == rest;
    assert st.field == [97] && st.Close() == [[97]];
    assert Scan(COMMA, s[1..], st, false) == Row([[97]], rest);
  }

  /** `b"`, newline, `c`: the second row is there to be read and is never sent. */
  lemma ContinuingDrops()
    ensures var s := [98, 34, 10, 99];
            && Rows(COMMA, s) == [BadRow] && Tail(COMMA, s) == [99]
            && Dropped(COMMA, s) == [Fields([[99]])] && Resumed(COMMA, s) == [BadRow, Fields([[99]])]
  {
    var s := [98, 34, 10, 99];
    var st := FRESH.Push(98).(started := true);
    assert s[1..] == [34, 10, 99];
    assert Scan(COMMA, [34, 10, 99], st, true) == Bad && Offending(COMMA, [34, 10, 99], st) == [34, 10, 99];
    assert Scan(COMMA, s, FRESH, true) == Bad && Offending(COMMA, s, FRESH) == [34, 10, 99];
    assert [34, 10, 99][1..] == [10, 99] && [10, 99][1..] == [99];
    assert NextLine([10, 99]) == [99] && NextLine([34, 10, 99]) == [99];
    LastRow();
    StoppingDrops(COMMA, s);
  }

  lemma LastRow()
    ensures Resumed(COMMA, [99]) == [Fields([[99]])]
  {
    var st := FRESH.Push(99).(started := true);
    assert [99][1..] == [] && st.field == [99] && st.Close() == [[99]];
    assert Scan(COMMA, [], st, true) == Row([[99]], []);
    assert Scan(COMMA, [99], FRESH, true) == Row([[99]], []);
  }
}
