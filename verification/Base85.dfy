/** ascii85 and z85: four bytes to five digits and back, on 32-bit arithmetic that wraps. */
module Base85 {
  import opened Values
  import opened Alphabet
  import opened Arithmetic

  // ---- four bytes as a word -----------------------------------------------------------

  /** A byte of the input, or the zero that pads it. */
  function ByteAt(s: Str, k: nat): Byte { if k < |s| then s[k] else 0 }

  /** The big-endian number of the `j` bytes from `i` on. */
  function Packed(s: Str, i: nat, j: nat): nat {
    if j == 0 then 0 else 256 * Packed(s, i, j - 1) + ByteAt(s, i + j - 1)
  }

  function Word(s: Str, i: nat): (v: nat)
    ensures v < WORD
    ensures v == 0x100_0000 * ByteAt(s, i) + 0x1_0000 * ByteAt(s, i + 1) + 0x100 * ByteAt(s, i + 2) + ByteAt(s, i + 3)
  {
    assert Packed(s, i, 2) == 256 * Packed(s, i, 1) + ByteAt(s, i + 1);
    assert Packed(s, i, 3) == 256 * Packed(s, i, 2) + ByteAt(s, i + 2);
    Packed(s, i, 4)
  }

  /** The four bytes of a word, most significant first. */
  function Bytes4(v: nat): (r: Str)
    ensures |r| == 4
  {
    [v / 0x100_0000 % 256, v / 0x1_0000 % 256, v / 0x100 % 256, v % 256]
  }

  lemma BytesOfWord(s: Str, i: nat, n: nat)
    requires i + n <= |s| && n <= 4
    ensures Bytes4(Word(s, i))[..n] == s[i..i + n]
    ensures n == 4 ==> Bytes4(Word(s, i)) == s[i..i + 4]
  {
    BytesOf(ByteAt(s, i), ByteAt(s, i + 1), ByteAt(s, i + 2), ByteAt(s, i + 3));
  }

  lemma BytesOf(a: Byte, b: Byte, c: Byte, d: Byte)
    ensures Bytes4(0x100_0000 * a + 0x1_0000 * b + 0x100 * c + d) == [a, b, c, d]
  {
    var v := 0x100_0000 * a + 0x1_0000 * b + 0x100 * c + d;
    DivModUnique(v, 0x100_0000, a, 0x1_0000 * b + 0x100 * c + d);
    DivModUnique(v, 0x1_0000, 0x100 * a + b, 0x100 * c + d);
    DivModUnique(v, 0x100, 0x1_0000 * a + 0x100 * b + c, d);
    DivModUnique(0x100 * a + b, 0x100, a, b);
    DivModUnique(0x1_0000 * a + 0x100 * b + c, 0x100, 0x100 * a + b, c);
  }

  /** A number just above a word whose low bytes are zero has the same high bytes. */
  lemma HighBytes(v: nat, p: nat, n: nat)
    requires 1 <= n <= 3
    requires var m := if n == 3 then 0x100 else if n == 2 then 0x1_0000 else 0x100_0000; v % m == 0 && v <= p < v + m
    ensures Bytes4(p)[..n] == Bytes4(v)[..n]
  {
    var m := if n == 3 then 0x100 else if n == 2 then 0x1_0000 else 0x100_0000;
    DivModUnique(p, m, v / m, p - v);
    if n == 3 {
      DivDiv(p, 0x100, 0x100);
      DivDiv(v, 0x100, 0x100);
      DivDiv(p, 0x100, 0x1_0000);
      DivDiv(v, 0x100, 0x1_0000);
    } else if n == 2 {
      DivDiv(p, 0x1_0000, 0x100);
      DivDiv(v, 0x1_0000, 0x100);
    }
  }

  // ---- a word as five digits ----------------------------------------------------------

  function Quot(v: nat, k: nat): nat { if k == 0 then v else Quot(v, k - 1) / 85 }

  /** Digit `j` of five, most significant first. */
  function Digit(v: nat, j: nat): (d: nat)
    requires j < 5
    ensures d < 85
  {
    Quot(v, 4 - j) % 85
  }

  /** `v * 85 + d` as a `uint32_t`. */
  function Shift(v: nat, d: nat): (r: nat)
    ensures r < WORD
  {
    (v * 85 + d) % WORD
  }

  /** Feeding back the digits of a word rebuilds its quotients, and never wraps. */
  lemma Rebuild(v: nat, j: nat)
    requires v < WORD && j < 5
    ensures Shift(if j == 0 then 0 else Quot(v, 5 - j), Digit(v, j)) == Quot(v, 4 - j)
  {
    Quotients(v);
  }

  lemma Quotients(v: nat)
    ensures Quot(v, 1) == v / 85 && Quot(v, 2) == v / 85 / 85
    ensures Quot(v, 3) == v / 85 / 85 / 85 && Quot(v, 4) == v / 85 / 85 / 85 / 85
  {
  }

  lemma LastQuotient(v: nat)
    ensures Quot(v, 0) == v
  {
  }

  // ---- ascii85 ------------------------------------------------------------------------

  function Char85(d: nat): Byte
    requires d < 85
  {
    33 + d
  }

  /** The first `n` characters of a group. */
  function Group(v: nat, n: nat): (r: Str)
    requires n <= 5
    ensures |r| == n
  {
    seq(n, j requires 0 <= j < n => Char85(Digit(v, j)))
  }

  function Taken(s: Str, i: nat): nat
    requires i <= |s|
  {
    if |s| - i < 4 then |s| - i else 4
  }

  /** `z`, or one character more than the bytes taken. */
  function Piece(s: Str, i: nat): Str
    requires i < |s|
  {
    if Word(s, i) == 0 && Taken(s, i) == 4 then [122] else Group(Word(s, i), Taken(s, i) + 1)
  }

  /** The encoding of the bytes from `i` on. */
  function Encode(s: Str, i: nat): Str
    requires i <= |s|
    decreases |s| - i
  {
    if i == |s| then [] else Piece(s, i) + Encode(s, i + Taken(s, i))
  }

  /** `std::isspace` in the C locale. */
  predicate Space(c: Byte) { 9 <= c <= 13 || c == 32 }

  /** A partial group, padded with the highest digit and cut. */
  function Pad(v: nat, count: nat): nat
    requires count <= 5
    decreases 5 - count
  {
    if count == 5 then v else Pad(Shift(v, 84), count + 1)
  }

  /** What the decoder still yields on `s` when it has read `n` digits worth `v`. */
  function Decode(s: Str, v: nat, n: nat): Option<Str>
    requires n < 5
    decreases |s|
  {
    if s == [] then (if n == 0 then Some([]) else if n == 1 then None else Some(Bytes4(Pad(v, n))[..n - 1]))
    else if Space(s[0]) then Decode(s[1..], v, n)
    else if s[0] == 122 && n == 0 then Prepend([0, 0, 0, 0], Decode(s[1..], v, n))
    else if s[0] < 33 || s[0] > 117 then None
    else if n == 4 then Prepend(Bytes4(Shift(v, s[0] - 33)), Decode(s[1..], 0, 0))
    else Decode(s[1..], Shift(v, s[0] - 33), n + 1)
  }

  method A85Encode(s: Str) returns (out: Str)
    ensures out == Encode(s, 0)
  {
    hide Piece, Encode;
    out := [];
    var i := 0;
    while i < |s|
      invariant i <= |s| && out + Encode(s, i) == Encode(s, 0)
    {
      var n := if |s| - i < 4 then |s| - i else 4;
      var piece := EncodePiece(s, i, n);
      EncodeStep(s, i, out);
      out := out + piece;
      i := i + n;
    }
    EncodeStep(s, i, out);
  }

  lemma EncodeStep(s: Str, i: nat, out: Str)
    requires i <= |s|
    ensures i == |s| ==> out + Encode(s, i) == out
    ensures i < |s| ==> out + Encode(s, i) == (out + Piece(s, i)) + Encode(s, i + Taken(s, i))
  {
  }

  method EncodePiece(s: Str, i: nat, n: nat) returns (piece: Str)
    requires i < |s| && n == Taken(s, i)
    ensures piece == Piece(s, i)
  {
    var v := ReadWord(s, i);
    if v == 0 && n == 4 { return [122]; }
    var g := FiveDigits(v);
    assert g[..n + 1] == Group(v, n + 1);
    piece := g[..n + 1];
  }

  method ReadWord(s: Str, i: nat) returns (v: nat)
    ensures v == Word(s, i)
  {
    v := 0;
    for j := 0 to 4
      invariant v == Packed(s, i, j)
      invariant j == 0 ==> v == 0
      invariant j == 1 ==> v < 0x100
      invariant j == 2 ==> v < 0x1_0000
      invariant j == 3 ==> v < 0x100_0000
    {
      v := v * 256 % WORD + (if i + j < |s| then s[i + j] else 0);
    }
  }

  /** The buffer `g` is filled from its end. */
  method FiveDigits(word: nat) returns (g: Str)
    ensures g == Group(word, 5)
  {
    var buffer := new Byte[5];
    var v := word;
    var j := 5;
    while j > 0
      invariant 0 <= j <= 5 && v == Quot(word, 5 - j)
      invariant forall k | j <= k < 5 :: buffer[k] == Char85(Digit(word, k))
    {
      j := j - 1;
      buffer[j] := 33 + v % 85;
      v := v / 85;
    }
    g := buffer[..];
  }

  method A85Decode(s: Str) returns (r: Option<Str>)
    ensures r == Decode(s, 0, 0)
  {
    var out: Str, v, n := [], 0, 0;
    PrependNone(Decode(s, 0, 0));
    assert s[0..] == s;
    for i := 0 to |s|
      invariant n < 5 && (n == 0 ==> v == 0)
      invariant Prepend(out, Decode(s[i..], v, n)) == Decode(s, 0, 0)
    {
      var c := s[i];
      assert s[i..][0] == c && s[i..][1..] == s[i + 1..];
      ghost var rest := Decode(s[i + 1..], 0, 0);
      if Space(c) {
      } else if c == 122 && n == 0 {
        PrependJoin(out, [0, 0, 0, 0], rest);
        out := out + [0, 0, 0, 0];
      } else if c < 33 || c > 117 {
        return None;
      } else {
        v := Shift(v, c - 33);
        n := n + 1;
        if n == 5 {
          PrependJoin(out, Bytes4(v), rest);
          out := out + Bytes4(v);
          v, n := 0, 0;
        }
      }
    }
    if n == 1 { return None; }
    assert out + [] == out;
    if n > 1 {
      var tail := Flush(v, n);
      out := out + tail;
    }
    r := Some(out);
  }

  method Flush(start: nat, count: nat) returns (tail: Str)
    requires 2 <= count <= 4
    ensures tail == Bytes4(Pad(start, count))[..count - 1]
  {
    var v := start;
    for j := count to 5
      invariant Pad(v, j) == Pad(start, count)
    {
      v := Shift(v, 84);
    }
    tail := Bytes4(v)[..count - 1];
  }

  // ---- decoding undoes encoding ---------------------------------------------------------

  lemma DecodeDigit(d: nat, rest: Str, v: nat, n: nat)
    requires d < 85 && n < 5
    ensures Decode([Char85(d)] + rest, v, n) ==
            if n == 4 then Prepend(Bytes4(Shift(v, d)), Decode(rest, 0, 0)) else Decode(rest, Shift(v, d), n + 1)
  {
    assert ([Char85(d)] + rest)[1..] == rest;
  }

  /** Digits `j` to `n` of a word, read from where digits up to `j` left off. */
  lemma {:induction false} DecodeGroup(v: nat, n: nat, j: nat, rest: Str)
    requires v < WORD && j <= n <= 5 && j < 5
    requires n < 5 ==> rest == []
    ensures Decode(Group(v, n)[j..] + rest, if j == 0 then 0 else Quot(v, 5 - j), j) ==
            if n == 5 then Prepend(Bytes4(v), Decode(rest, 0, 0))
            else Decode([], if n == 0 then 0 else Quot(v, 5 - n), n)
    decreases n - j
  {
    hide Digit, Shift, Quot, Bytes4, Decode;
    var g := Group(v, n);
    if j < n {
      Rebuild(v, j);
      assert g[j] == Char85(Digit(v, j));
      HeadOfSuffix(g, j, rest);
      DecodeDigit(Digit(v, j), g[j + 1..] + rest, if j == 0 then 0 else Quot(v, 5 - j), j);
      if j < 4 {
        DecodeGroup(v, n, j + 1, rest);
      } else {
        NothingLeft(g, rest);
        LastQuotient(v);
      }
    } else {
      NothingLeft(g, rest);
    }
  }

  /** Padding the digits of a word with 84 loses nothing of the bytes a short group kept:
      the result exceeds the word by less than the bytes that are cut. */
  lemma PaddedTail(s: Str, i: nat, n: nat)
    requires i + n == |s| && 1 <= n <= 3
    ensures Bytes4(Pad(Quot(Word(s, i), 4 - n), n + 1))[..n] == s[i..]
  {
    var v := Word(s, i);
    TailWord(s, i, n);
    Padded(v, n);
    HighBytes(v, Pad(Quot(v, 4 - n), n + 1), n);
    BytesOfWord(s, i, n);
    assert s[i..] == s[i..i + n];
  }

  function Missing(n: nat): nat { if n == 3 then 0x100 else if n == 2 then 0x1_0000 else 0x100_0000 }

  lemma TailWord(s: Str, i: nat, n: nat)
    requires i + n == |s| && 1 <= n <= 3
    ensures Word(s, i) % Missing(n) == 0 && Word(s, i) <= WORD - Missing(n)
  {
    var a: int, b: int, c: int := ByteAt(s, i), ByteAt(s, i + 1), ByteAt(s, i + 2);
    DivModUnique(Word(s, i), Missing(n), if n == 3 then 0x1_0000 * a + 0x100 * b + c else if n == 2 then 0x100 * a + b else a, 0);
  }

  lemma ShiftExact(v: nat, d: nat)
    requires v * 85 + d < WORD
    ensures Shift(v, d) == v * 85 + d
  {
  }

  lemma Padded(v: nat, n: nat)
    requires 1 <= n <= 3 && v <= WORD - Missing(n)
    ensures v <= Pad(Quot(v, 4 - n), n + 1) < v + Missing(n)
  {
    Quotients(v);
    var q := Quot(v, 4 - n);
    ShiftExact(q, 84);
    if n < 3 { ShiftExact(q * 85 + 84, 84); }
    if n < 2 { ShiftExact((q * 85 + 84) * 85 + 84, 84); }
    PadSteps(q, n);
  }

  lemma PadSteps(q: nat, n: nat)
    requires 1 <= n <= 3
    ensures n == 3 ==> Pad(q, 4) == Shift(q, 84)
    ensures n == 2 ==> Pad(q, 3) == Shift(Shift(q, 84), 84)
    ensures n == 1 ==> Pad(q, 2) == Shift(Shift(Shift(q, 84), 84), 84)
  {
    assert forall u :: Pad(u, 5) == u;
    assert forall u :: Pad(u, 4) == Shift(u, 84);
    assert forall u :: Pad(u, 3) == Pad(Shift(u, 84), 4);
  }

  lemma {:induction false} DecodeEncode(s: Str, i: nat)
    requires i <= |s|
    ensures Decode(Encode(s, i), 0, 0) == Some(s[i..])
    decreases |s| - i
  {
    hide Decode, Word, Bytes4, Group, Pad;
    if i == |s| {
      assert s[i..] == [];
      DecodeNone(0, 0);
    } else if Taken(s, i) == 4 {
      DecodePiece(s, i, Encode(s, i + 4));
      DecodeEncode(s, i + 4);
      assert s[i..i + 4] + s[i + 4..] == s[i..];
    } else {
      assert Piece(s, i) + [] == Piece(s, i);
      DecodeTail(s, i, |s| - i);
    }
  }

  lemma DecodeNone(v: nat, n: nat)
    requires n < 5
    ensures Decode([], v, n) == if n == 0 then Some([]) else if n == 1 then None else Some(Bytes4(Pad(v, n))[..n - 1])
  {
  }

  lemma DecodePiece(s: Str, i: nat, rest: Str)
    requires i + 4 <= |s|
    ensures Decode(Piece(s, i) + rest, 0, 0) == Prepend(s[i..i + 4], Decode(rest, 0, 0))
  {
    var v := Word(s, i);
    BytesOfWord(s, i, 4);
    if v == 0 {
      assert ([122] + rest)[1..] == rest;
    } else {
      assert Group(v, 5)[0..] == Group(v, 5);
      DecodeGroup(v, 5, 0, rest);
    }
  }

  lemma DecodeTail(s: Str, i: nat, n: nat)
    requires i + n == |s| && 1 <= n <= 3
    ensures Decode(Group(Word(s, i), n + 1), 0, 0) == Some(s[i..])
  {
    hide Decode, Word, Bytes4, Pad, Digit;
    var v := Word(s, i);
    assert Group(v, n + 1)[0..] + [] == Group(v, n + 1);
    DecodeGroup(v, n + 1, 0, []);
    DecodeNone(Quot(v, 4 - n), n + 1);
    PaddedTail(s, i, n);
  }

  /** ascii85 of every byte string decodes to it. */
  lemma A85RoundTrip(s: Str)
    ensures Decode(Encode(s, 0), 0, 0) == Some(s)
  {
    DecodeEncode(s, 0);
  }

  /** White space between the characters changes nothing. */
  lemma {:induction false} SpaceIgnored(s: Str, v: nat, n: nat)
    requires n < 5
    ensures Decode(s, v, n) == Decode(NoSpace(s), v, n)
    decreases |s|
  {
    if s != [] {
      var t := NoSpace(s[1..]);
      if !Space(s[0]) { assert ([s[0]] + t)[1..] == t; }
      SpaceIgnored(s[1..], v, n);
      SpaceIgnored(s[1..], 0, 0);
      if n < 4 && s[0] >= 33 { SpaceIgnored(s[1..], Shift(v, s[0] - 33), n + 1); }
    }
  }

  /** Without tabs, line feeds, vertical tabs, form feeds, carriage returns and spaces. */
  function NoSpace(s: Str): Str {
    if s == [] then [] else if s[0] in {9, 10, 11, 12, 13, 32} then NoSpace(s[1..]) else [s[0]] + NoSpace(s[1..])
  }

  /** Only white space, `z` and the characters from `!` to `u` decode, in whole groups or at least two of
      one. */
  lemma {:induction false} OnlyDigitsDecode(s: Str, v: nat, n: nat)
    requires n < 5 && Decode(s, v, n).Some?
    ensures forall c | c in NoSpace(s) :: c == 122 || '!' as int <= c <= 'u' as int
    ensures 122 !in s ==> (n + |NoSpace(s)|) % 5 != 1
    decreases |s|
  {
    if s != [] {
      if Space(s[0]) {
        OnlyDigitsDecode(s[1..], v, n);
      } else if s[0] == 122 && n == 0 {
        OnlyDigitsDecode(s[1..], v, n);
      } else if n == 4 {
        OnlyDigitsDecode(s[1..], 0, 0);
      } else {
        OnlyDigitsDecode(s[1..], Shift(v, s[0] - 33), n + 1);
      }
    }
  }

  // ---- z85 ----------------------------------------------------------------------------

  function ZGroup(v: nat): (r: Str)
    ensures |r| == 5
  {
    Z85Distinct();
    seq(5, j requires 0 <= j < 5 => Z85[Digit(v, j)])
  }

  function ZEncodeFrom(s: Str, i: nat): Str
    requires i <= |s| && (|s| - i) % 4 == 0
    decreases |s| - i
  {
    if i == |s| then [] else ZGroup(Word(s, i)) + ZEncodeFrom(s, i + 4)
  }

  /** Five characters, or `None` if one is outside the alphabet. */
  function ZWord(s: Str, i: nat, j: nat): Option<nat>
    requires i + 5 <= |s| && j <= 5
  {
    if j == 0 then Some(0)
    else
      match (ZWord(s, i, j - 1), IndexOf(Z85, s[i + j - 1]))
      case (Some(v), Some(d)) => Some(Shift(v, d))
      case _ => None
  }

  function ZDecodeFrom(s: Str, i: nat): Option<Str>
    requires i <= |s| && (|s| - i) % 5 == 0
    decreases |s| - i
  {
    if i == |s| then Some([])
    else match ZWord(s, i, 5) case Some(v) => Prepend(Bytes4(v), ZDecodeFrom(s, i + 5)) case None => None
  }

  function ZEncode(s: Str): Option<Str> { if |s| % 4 != 0 then None else Some(ZEncodeFrom(s, 0)) }

  function ZDecode(s: Str): Option<Str> { if |s| % 5 != 0 then None else ZDecodeFrom(s, 0) }

  method Z85Encode(s: Str) returns (r: Option<Str>)
    ensures r == ZEncode(s)
  {
    hide Digit, Distinct, Run;
    if |s| % 4 != 0 { return None; }
    var out: Str, i := [], 0;
    Z85Distinct();
    while i < |s|
      invariant i <= |s| && i % 4 == 0 && out + ZEncodeFrom(s, i) == ZEncodeFrom(s, 0)
    {
      var v := ReadWord(s, i);
      var g := FiveDigits(v);
      var j, group: Str := 0, [];
      while j < 5
        invariant j <= 5 && group == ZGroup(v)[..j]
      {
        group := group + [Z85[g[j] - 33]];
        j := j + 1;
      }
      out := out + group;
      i := i + 4;
    }
    assert out + [] == out;
    r := Some(out);
  }

  method Z85Decode(s: Str) returns (r: Option<Str>)
    ensures r == ZDecode(s)
  {
    if |s| % 5 != 0 { return None; }
    r := ReadGroups(s);
  }

  method ReadGroups(s: Str) returns (r: Option<Str>)
    requires |s| % 5 == 0
    ensures r == ZDecodeFrom(s, 0)
  {
    hide Bytes4, ZWord, ZDecodeFrom;
    ZStep(s, |s|);
    var out: Str, i := [], 0;
    PrependNone(ZDecodeFrom(s, 0));
    while i < |s|
      invariant i <= |s| && (|s| - i) % 5 == 0
      invariant Prepend(out, ZDecodeFrom(s, i)) == ZDecodeFrom(s, 0)
    {
      var v := ReadFive(s, i);
      ZStep(s, i);
      if v.None? { return None; }
      PrependJoin(out, Bytes4(v.value), ZDecodeFrom(s, i + 5));
      out := out + Bytes4(v.value);
      i := i + 5;
    }
    assert out + [] == out;
    r := Some(out);
  }

  lemma ZStep(s: Str, i: nat)
    requires i <= |s| && (|s| - i) % 5 == 0
    ensures i == |s| ==> ZDecodeFrom(s, i) == Some([])
    ensures i < |s| ==> i + 5 <= |s|
    ensures i < |s| ==>
              ZDecodeFrom(s, i)
              == match ZWord(s, i, 5) case Some(v) => Prepend(Bytes4(v), ZDecodeFrom(s, i + 5)) case None => None
  {
  }

  method ReadFive(s: Str, i: nat) returns (r: Option<nat>)
    requires i + 5 <= |s|
    ensures r == ZWord(s, i, 5)
  {
    hide IndexOf, IndexFrom, Shift, Run;
    var v := 0;
    for j := 0 to 5
      invariant ZWord(s, i, j) == Some(v)
    {
      var p := IndexOf(Z85, s[i + j]);
      if p.None? {
        NoZWord(s, i, j + 1);
        return None;
      }
      v := Shift(v, p.value);
    }
    r := Some(v);
  }

  lemma {:induction false} NoZWord(s: Str, i: nat, j: nat)
    requires i + 5 <= |s| && j <= 5 && ZWord(s, i, j).None?
    ensures ZWord(s, i, 5).None?
    decreases 5 - j
  {
    if j < 5 { NoZWord(s, i, j + 1); }
  }

  lemma {:induction false} ZWordOfGroup(t: Str, i: nat, v: nat, j: nat)
    requires v < WORD && j <= 5 && i + 5 <= |t| && t[i..i + 5] == ZGroup(v)
    ensures ZWord(t, i, j) == Some(if j == 0 then 0 else Quot(v, 5 - j))
  {
    if j > 0 {
      ZWordOfGroup(t, i, v, j - 1);
      Rebuild(v, j - 1);
      Z85Distinct();
      assert t[i + j - 1] == t[i..i + 5][j - 1];
      IndexOfAt(Z85, Digit(v, j - 1));
    }
  }

  lemma {:induction false} ZLength(s: Str, i: nat)
    requires i <= |s| && (|s| - i) % 4 == 0
    ensures |ZEncodeFrom(s, i)| % 5 == 0
    decreases |s| - i
  {
    if i < |s| { ZLength(s, i + 4); }
  }

  lemma {:induction false} ZDecodeEncode(s: Str, i: nat, t: Str, k: nat)
    requires i <= |s| && (|s| - i) % 4 == 0
    requires k <= |t| && t[k..] == ZEncodeFrom(s, i) && (|t| - k) % 5 == 0
    ensures ZDecodeFrom(t, k) == Some(s[i..])
    decreases |s| - i
  {
    hide Word, Bytes4, ZGroup, ZWord;
    if i < |s| {
      var v := Word(s, i);
      GroupAt(t, k, ZGroup(v), ZEncodeFrom(s, i + 4));
      ZDecodeEncode(s, i + 4, t, k + 5);
      ZWordOfGroup(t, k, v, 5);
      assert ZWord(t, k, 5) == Some(v);
      BytesOfWord(s, i, 4);
      assert s[i..i + 4] + s[i + 4..] == s[i..];
    } else {
      assert s[i..] == [] && t[k..] == [];
    }
  }

  lemma GroupAt(t: Str, k: nat, g: Str, rest: Str)
    requires k <= |t| && t[k..] == g + rest
    ensures k + |g| <= |t| && t[k..k + |g|] == g && t[k + |g|..] == rest
  {
    assert t[k..k + |g|] == t[k..][..|g|];
    assert t[k + |g|..] == t[k..][|g|..];
  }

  /** z85 encodes exactly the strings whose length is a multiple of four, and decodes back. */
  lemma Z85RoundTrip(s: Str)
    ensures ZEncode(s).Some? <==> |s| % 4 == 0
    ensures ZEncode(s).Some? ==> ZDecode(ZEncode(s).value) == Some(s)
  {
    if |s| % 4 == 0 {
      var t := ZEncodeFrom(s, 0);
      ZLength(s, 0);
      assert t[0..] == t;
      ZDecodeEncode(s, 0, t, 0);
    }
  }
}
