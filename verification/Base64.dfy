/** base64 in its three spellings: an encoder with optional padding, a decoder that shifts
    six bits at a time through a 32-bit buffer, and the check in front of it. */
module Base64Codec {
  import opened Values
  import opened Alphabet
  import opened Arithmetic

  const PAD: Byte := 61

  // ---- encoding -----------------------------------------------------------------------

  /** Character `k` of the four that a 24-bit group becomes. */
  function Sextet(n: nat, k: nat): (d: nat)
    requires k < 4
    ensures d < 64
  {
    (if k == 0 then n / 0x4_0000 else if k == 1 then n / 0x1000 else if k == 2 then n / 0x40 else n) % 64
  }

  function Three(s: Str, i: nat): (n: nat)
    requires i < |s|
    ensures n < 0x100_0000
  {
    var a: int, b: int, c: int :=
      s[i], if i + 1 < |s| then s[i + 1] else 0, if i + 2 < |s| then s[i + 2] else 0;
    0x1_0000 * a + 0x100 * b + c
  }

  function Chars(alpha: Str, n: nat, count: nat): (r: Str)
    requires |alpha| == 64 && count <= 4
    ensures |r| == count
  {
    seq(count, k requires 0 <= k < count => alpha[Sextet(n, k)])
  }

  function Padding(pad: bool, n: nat): (r: Str)
    ensures |r| <= n && (r != [] ==> r[0] == PAD)
  {
    if pad then seq(n, _ => PAD) else []
  }

  /** The encoding of the bytes from `i` on. */
  function Encode(alpha: Str, s: Str, i: nat, pad: bool): Str
    requires |alpha| == 64 && i <= |s|
    decreases |s| - i
  {
    if i + 3 <= |s| then Chars(alpha, Three(s, i), 4) + Encode(alpha, s, i + 3, pad)
    else if i == |s| then []
    else Chars(alpha, Three(s, i), |s| - i + 1) + Padding(pad, 3 - (|s| - i))
  }

  method B64Encode(alpha: Str, s: Str, pad: bool) returns (out: Str)
    requires |alpha| == 64
    ensures out == Encode(alpha, s, 0, pad)
  {
    hide Sextet, Encode, Chars;
    out := [];
    var i := 0;
    while i + 2 < |s|
      invariant i <= |s| && out + Encode(alpha, s, i, pad) == Encode(alpha, s, 0, pad)
    {
      var a: int, b: int, c: int := s[i], s[i + 1], s[i + 2];
      var n := a * 0x1_0000 + b * 0x100 + c;
      EncodeStep(alpha, s, i, pad, out);
      var group := FourChars(alpha, n);
      out := out + group;
      i := i + 3;
    }
    EncodeStep(alpha, s, i, pad, out);
    if i < |s| {
      var tail := EncodeTail(alpha, s, i, pad);
      out := out + tail;
    }
  }

  lemma EncodeStep(alpha: Str, s: Str, i: nat, pad: bool, out: Str)
    requires |alpha| == 64 && i <= |s|
    ensures i == |s| ==> out + Encode(alpha, s, i, pad) == out
    ensures i + 3 <= |s| ==>
              out + Encode(alpha, s, i, pad) == (out + Chars(alpha, Three(s, i), 4)) + Encode(alpha, s, i + 3, pad)
  {
  }

  method EncodeTail(alpha: Str, s: Str, i: nat, pad: bool) returns (tail: Str)
    requires |alpha| == 64 && i < |s| < i + 3
    ensures tail == Encode(alpha, s, i, pad)
  {
    var a: int := s[i];
    var n := a * 0x1_0000;
    var two := i + 1 < |s|;
    if two {
      var b: int := s[i + 1];
      n := n + b * 0x100;
    }
    assert n == Three(s, i);
    tail := [alpha[n / 0x4_0000 % 64], alpha[n / 0x1000 % 64]];
    if two {
      tail := tail + [alpha[n / 0x40 % 64]];
    } else if pad {
      tail := tail + [PAD];
    }
    if pad { tail := tail + [PAD]; }
  }

  method FourChars(alpha: Str, n: nat) returns (group: Str)
    requires |alpha| == 64
    ensures group == Chars(alpha, n, 4)
  {
    group := [alpha[n / 0x4_0000 % 64], alpha[n / 0x1000 % 64], alpha[n / 0x40 % 64], alpha[n % 64]];
  }

  // ---- decoding -----------------------------------------------------------------------

  function Pow2(n: nat): nat
    ensures Pow2(n) > 0
  {
    if n == 0 then 1 else 2 * Pow2(n - 1)
  }

  /** `(buf << 6) | d` as a `uint32_t`. */
  function ShiftIn(buf: nat, d: nat): nat { buf * 64 % WORD + d }

  /** What the decoder still yields on `s` with `bits` bits pending in `buf`. */
  function Decode(alpha: Str, s: Str, buf: nat, bits: nat, strict: bool): Option<Str>
    decreases |s|
  {
    if s == [] || s[0] == PAD then Some([])
    else
      match IndexOf(alpha, s[0])
      case None => if strict then None else Decode(alpha, s[1..], buf, bits, strict)
      case Some(d) =>
        var buf' := ShiftIn(buf, d);
        if bits + 6 >= 8 then
          Prepend([buf' / Pow2(bits - 2) % 256], Decode(alpha, s[1..], buf', bits - 2, strict))
        else Decode(alpha, s[1..], buf', bits + 6, strict)
  }

  method B64Decode(alpha: Str, s: Str, strict: bool) returns (r: Option<Str>)
    ensures r == Decode(alpha, s, 0, 0, strict)
  {
    var out: Str, buf: nat, bits: nat := [], 0, 0;
    PrependNone(Decode(alpha, s, 0, 0, strict));
    assert s[0..] == s;
    for i := 0 to |s|
      invariant Prepend(out, Decode(alpha, s[i..], buf, bits, strict)) == Decode(alpha, s, 0, 0, strict)
    {
      assert s[i..][0] == s[i] && s[i..][1..] == s[i + 1..];
      assert out + [] == out;
      if s[i] == PAD { return Some(out); }
      var p := IndexOf(alpha, s[i]);
      if p.None? {
        if strict { return None; }
      } else {
        buf := ShiftIn(buf, p.value);
        bits := bits + 6;
        if bits >= 8 {
          bits := bits - 8;
          PrependJoin(out, [buf / Pow2(bits) % 256], Decode(alpha, s[i + 1..], buf, bits, strict));
          out := out + [buf / Pow2(bits) % 256];
        }
      }
    }
    assert out + [] == out;
    r := Some(out);
  }

  predicate Break(c: Byte) { c == 13 || c == 10 }

  /** The characters that count: up to the padding, without the line breaks. */
  function Body(s: Str): Str {
    if s == [] || s[0] == PAD then [] else if Break(s[0]) then Body(s[1..]) else [s[0]] + Body(s[1..])
  }

  predicate Legal(alpha: Str, t: Str) { forall i | 0 <= i < |t| :: IndexOf(alpha, t[i]).Some? }

  /** `b64_decode_or_throw`: a check of every character, then the lax decoder. */
  method DecodeOrThrow(alpha: Str, s: Str) returns (r: Option<Str>)
    ensures r.Some? <==> Legal(alpha, Body(s)) && |Body(s)| % 4 != 1
    ensures r.Some? ==> r == Decode(alpha, s, 0, 0, false)
  {
    hide IndexOf, Decode;
    var chars := 0;
    var i := 0;
    ghost var seen: Str := [];
    assert s[0..] == s && seen + Body(s) == Body(s);
    while i < |s|
      invariant i <= |s| && chars == |seen| && Legal(alpha, seen)
      invariant seen + Body(s[i..]) == Body(s)
      decreases |s| - i
    {
      assert s[i..][0] == s[i] && s[i..][1..] == s[i + 1..];
      if s[i] == PAD { break; }
      if !Break(s[i]) {
        if IndexOf(alpha, s[i]).None? {
          assert Body(s)[|seen|] == s[i];
          return None;
        }
        assert seen + ([s[i]] + Body(s[i + 1..])) == (seen + [s[i]]) + Body(s[i + 1..]);
        seen := seen + [s[i]];
        chars := chars + 1;
      }
      i := i + 1;
    }
    assert Body(s[i..]) == [] && seen + [] == seen;
    if chars % 4 == 1 { return None; }
    r := B64Decode(alpha, s, false);
    LaxSucceeds(alpha, s, 0, 0);
  }

  lemma {:induction false} LaxSucceeds(alpha: Str, s: Str, buf: nat, bits: nat)
    ensures Decode(alpha, s, buf, bits, false).Some?
    decreases |s|
  {
    if s != [] && s[0] != PAD {
      match IndexOf(alpha, s[0]) {
        case None => LaxSucceeds(alpha, s[1..], buf, bits);
        case Some(d) => LaxSucceeds(alpha, s[1..], ShiftIn(buf, d), if bits + 6 >= 8 then bits - 2 else bits + 6);
      }
    }
  }

  /** Line breaks, and whatever follows the padding, do not change what is decoded. */
  lemma {:induction false} OnlyBodyCounts(alpha: Str, s: Str, buf: nat, bits: nat)
    requires Base64(alpha)
    ensures Decode(alpha, s, buf, bits, false) == Decode(alpha, Body(s), buf, bits, false)
    decreases |s|
  {
    if s != [] && s[0] != PAD {
      var t := s[1..];
      if Break(s[0]) {
        OnlyBodyCounts(alpha, t, buf, bits);
      } else {
        assert ([s[0]] + Body(t))[1..] == Body(t);
        match IndexOf(alpha, s[0]) {
          case None => OnlyBodyCounts(alpha, t, buf, bits);
          case Some(d) => OnlyBodyCounts(alpha, t, ShiftIn(buf, d), if bits + 6 >= 8 then bits - 2 else bits + 6);
        }
      }
    }
  }

  /** Every four characters give three bytes; a short group gives what its bits fill. */
  lemma {:induction false} DecodedLength(alpha: Str, t: Str, buf: nat, bits: nat)
    requires Base64(alpha) && Legal(alpha, t) && bits < 8
    ensures var r := Decode(alpha, t, buf, bits, false); r.Some? && |r.value| == (bits + 6 * |t|) / 8
    decreases |t|
  {
    if t != [] {
      var u := t[1..];
      assert Legal(alpha, u);
      assert IndexOf(alpha, t[0]).Some?;
      DecodedLength(alpha, u, ShiftIn(buf, IndexOf(alpha, t[0]).value), if bits + 6 >= 8 then bits - 2 else bits + 6);
    }
  }

  // ---- decoding undoes encoding ---------------------------------------------------------

  /** Shifting in a digit extends the known low bits by six; what wraps lies above them. */
  lemma LowBits(buf: nat, d: nat, m: nat, k: nat)
    requires d < 64 && m > 0 && 64 * m * k == WORD
    ensures ShiftIn(buf, d) % (64 * m) == 64 * (buf % m) + d
  {
    var q := buf * 64 / WORD;
    var h := buf / m;
    assert buf * 64 % WORD == buf * 64 - q * WORD;
    assert buf == m * h + buf % m;
    assert 64 * m * (h - q * k) == 64 * (m * h) - q * WORD by {
      assert 64 * m * (q * k) == q * (64 * m * k);
      assert 64 * m * (h - q * k) == 64 * m * h - 64 * m * (q * k);
    }
    DivModUnique(ShiftIn(buf, d), 64 * m, h - q * k, 64 * (buf % m) + d);
  }

  lemma DecodeChar(alpha: Str, d: nat, rest: Str, buf: nat, bits: nat, strict: bool)
    requires Base64(alpha) && d < 64
    ensures Decode(alpha, [alpha[d]] + rest, buf, bits, strict) ==
            if bits + 6 >= 8 then
              Prepend([ShiftIn(buf, d) / Pow2(bits - 2) % 256], Decode(alpha, rest, ShiftIn(buf, d), bits - 2, strict))
            else Decode(alpha, rest, ShiftIn(buf, d), bits + 6, strict)
  {
    IndexOfAt(alpha, d);
    assert ([alpha[d]] + rest)[1..] == rest;
  }

  /** The bits `[lo, lo * 256)` of a number do not depend on those above `hi`. */
  lemma Window(b: nat, lo: nat, hi: nat, k: nat)
    requires lo > 0 && hi == lo * 256 * k && k > 0
    ensures b / lo % 256 == b % hi / lo % 256
  {
    var q, r := b / hi, b % hi;
    assert b == hi * q + r;
    assert hi * q == lo * (256 * (k * q)) by {
      assert lo * 256 * k * q == lo * (256 * (k * q));
    }
    assert lo * (256 * (k * q) + r / lo) == lo * (256 * (k * q)) + lo * (r / lo);
    DivModUnique(b, lo, 256 * (k * q) + r / lo, r % lo);
    DivModUnique(b / lo, 256, k * q + r / lo / 256, r / lo % 256);
  }

  /** The leading sextets of a group, put together again. */
  lemma Sextets(n: nat)
    requires n < 0x100_0000
    ensures Sextet(n, 0) == n / 0x4_0000
    ensures 64 * Sextet(n, 0) + Sextet(n, 1) == n / 0x1000
    ensures 64 * (n / 0x1000) + Sextet(n, 2) == n / 0x40
    ensures 64 * (n / 0x40) + Sextet(n, 3) == n
  {
    DivDiv(n, 0x1000, 64);
    DivDiv(n, 0x40, 64);
  }

  lemma Shifted(buf: nat, n: nat, d: nat, m: nat, k: nat)
    requires d < 64 && m > 0 && 64 * m * k == WORD && buf % m == n
    ensures ShiftIn(buf, d) % (64 * m) == 64 * n + d
  {
    LowBits(buf, d, m, k);
  }

  /** The three bytes a run of digits yields, whatever was in the buffer before. */
  lemma Octets(buf: nat, n: nat)
    requires n < 0x100_0000
    ensures var b0 := ShiftIn(buf, Sextet(n, 0));
            var b1 := ShiftIn(b0, Sextet(n, 1));
            var b2 := ShiftIn(b1, Sextet(n, 2));
            var b3 := ShiftIn(b2, Sextet(n, 3));
            && b1 / 16 % 256 == n / 0x1_0000
            && b2 / 4 % 256 == n / 0x100 % 256
            && b3 % 256 == n % 256
  {
    hide Sextet, ShiftIn;
    Sextets(n);
    var b0 := ShiftIn(buf, Sextet(n, 0));
    var b1 := ShiftIn(b0, Sextet(n, 1));
    var b2 := ShiftIn(b1, Sextet(n, 2));
    var b3 := ShiftIn(b2, Sextet(n, 3));
    Shifted(buf, 0, Sextet(n, 0), 1, 0x400_0000);
    Shifted(b0, Sextet(n, 0), Sextet(n, 1), 64, 0x10_0000);
    Shifted(b1, n / 0x1000, Sextet(n, 2), 0x1000, 0x4000);
    Shifted(b2, n / 0x40, Sextet(n, 3), 0x4_0000, 0x100);
    assert b1 / 16 % 256 == n / 0x1_0000 by { FirstByte(b1, n); }
    assert b2 / 4 % 256 == n / 0x100 % 256 by { SecondByte(b2, n); }
    assert b3 % 256 == n % 256 by { Window(b3, 1, 0x100_0000, 0x1_0000); }
  }

  lemma FirstByte(b: nat, n: nat)
    requires n < 0x100_0000 && b % 0x1000 == n / 0x1000
    ensures b / 16 % 256 == n / 0x1_0000
  {
    Window(b, 16, 0x1000, 1);
    DivDiv(n, 0x1000, 16);
  }

  lemma SecondByte(b: nat, n: nat)
    requires n < 0x100_0000 && b % 0x4_0000 == n / 0x40
    ensures b / 4 % 256 == n / 0x100 % 256
  {
    Window(b, 4, 0x4_0000, 0x100);
    DivDiv(n, 0x40, 4);
  }

  /** The buffer after the first `k` digits of a group. */
  function Rolled(buf: nat, n: nat, k: nat): nat
    requires k <= 4
  {
    if k == 0 then buf else ShiftIn(Rolled(buf, n, k - 1), Sextet(n, k - 1))
  }

  function Bytes3(n: nat): Str
    requires n < 0x100_0000
  {
    [n / 0x1_0000, n / 0x100 % 256, n % 256]
  }

  /** Digit `k` of a group completes byte `k - 1`. */
  lemma RolledByte(buf: nat, n: nat, k: nat)
    requires n < 0x100_0000 && 1 <= k <= 3
    ensures Rolled(buf, n, k + 1) / Pow2(6 - 2 * k) % 256 == Bytes3(n)[k - 1]
  {
    hide Sextet, ShiftIn;
    Octets(buf, n);
    var b1, b2, b3, b4 := Rolled(buf, n, 1), Rolled(buf, n, 2), Rolled(buf, n, 3), Rolled(buf, n, 4);
    assert Rolled(buf, n, 0) == buf;
    assert b1 == ShiftIn(Rolled(buf, n, 0), Sextet(n, 0)) && b2 == ShiftIn(b1, Sextet(n, 1));
    assert b3 == ShiftIn(b2, Sextet(n, 2)) && b4 == ShiftIn(b3, Sextet(n, 3));
    assert Pow2(0) == 1 && Pow2(2) == 4 && Pow2(4) == 16;
  }

  /** The digits of a group from `k` on complete the bytes from `k - 1` on. */
  lemma {:induction false} DecodeDigits(alpha: Str, n: nat, count: nat, k: nat, rest: Str, buf: nat, strict: bool)
    requires Base64(alpha) && n < 0x100_0000 && 1 <= k <= count <= 4
    ensures Decode(alpha, Chars(alpha, n, count)[k..] + rest, Rolled(buf, n, k), 8 - 2 * k, strict) ==
            Prepend(Bytes3(n)[k - 1..count - 1], Decode(alpha, rest, Rolled(buf, n, count), 8 - 2 * count, strict))
    decreases count - k
  {
    hide Decode, Sextet, ShiftIn;
    var end := Decode(alpha, rest, Rolled(buf, n, count), 8 - 2 * count, strict);
    var g := Chars(alpha, n, count);
    if k == count {
      NothingLeft(g, rest);
      PrependNone(end);
      assert Bytes3(n)[k - 1..count - 1] == [];
    } else {
      var u := g[k + 1..] + rest;
      assert g[k] == alpha[Sextet(n, k)];
      HeadOfSuffix(g, k, rest);
      DecodeChar(alpha, Sextet(n, k), u, Rolled(buf, n, k), 8 - 2 * k, strict);
      RolledByte(buf, n, k);
      DecodeDigits(alpha, n, count, k + 1, rest, buf, strict);
      PrependJoin([Bytes3(n)[k - 1]], Bytes3(n)[k..count - 1], end);
      HeadOfSlice(Bytes3(n), k - 1, count - 1);
    }
  }

  /** A group of `count` characters yields one byte less, and leaves fewer than six bits. */
  lemma DecodeGroup(alpha: Str, n: nat, count: nat, rest: Str, buf: nat, strict: bool)
    requires Base64(alpha) && n < 0x100_0000 && 2 <= count <= 4
    ensures Decode(alpha, Chars(alpha, n, count) + rest, buf, 0, strict) ==
            Prepend(Bytes3(n)[..count - 1], Decode(alpha, rest, Rolled(buf, n, count), 8 - 2 * count, strict))
  {
    hide Decode, Sextet, ShiftIn;
    var u := Chars(alpha, n, count)[1..] + rest;
    assert Chars(alpha, n, count)[0..] == Chars(alpha, n, count) && Chars(alpha, n, count)[0] == alpha[Sextet(n, 0)];
    HeadOfSuffix(Chars(alpha, n, count), 0, rest);
    DecodeChar(alpha, Sextet(n, 0), u, buf, 0, strict);
    assert Rolled(buf, n, 1) == ShiftIn(Rolled(buf, n, 0), Sextet(n, 0));
    DecodeDigits(alpha, n, count, 1, rest, buf, strict);
  }

  lemma BytesOfThree(s: Str, i: nat, n: nat)
    requires 1 <= n <= 3 && i + n <= |s| && (n < 3 ==> i + n == |s|)
    ensures Bytes3(Three(s, i))[..n] == s[i..i + n]
  {
    var a: int, b: int, c: int := s[i], if n > 1 then s[i + 1] else 0, if n > 2 then s[i + 2] else 0;
    var v := Three(s, i);
    DivModUnique(v, 0x1_0000, a, 0x100 * b + c);
    DivModUnique(v, 0x100, 0x100 * a + b, c);
    DivModUnique(0x100 * a + b, 0x100, a, b);
  }

  /** Decoding undoes encoding, padded or not, strict or lax. */
  lemma {:induction false} DecodeEncode(alpha: Str, s: Str, i: nat, pad: bool, buf: nat, strict: bool)
    requires Base64(alpha) && i <= |s|
    ensures Decode(alpha, Encode(alpha, s, i, pad), buf, 0, strict) == Some(s[i..])
    decreases |s| - i
  {
    hide Decode, Chars, Three, Bytes3;
    if i + 3 <= |s| {
      var rest := Encode(alpha, s, i + 3, pad);
      DecodeGroup(alpha, Three(s, i), 4, rest, buf, strict);
      DecodeEncode(alpha, s, i + 3, pad, Rolled(buf, Three(s, i), 4), strict);
      BytesOfThree(s, i, 3);
      assert s[i..i + 3] + s[i + 3..] == s[i..];
    } else if i == |s| {
      DecodeStops(alpha, [], buf, 0, strict);
      assert s[i..] == [];
    } else {
      var n := |s| - i;
      var rest := Padding(pad, 3 - n);
      DecodeGroup(alpha, Three(s, i), n + 1, rest, buf, strict);
      DecodeStops(alpha, rest, Rolled(buf, Three(s, i), n + 1), 6 - 2 * n, strict);
      BytesOfThree(s, i, n);
      assert s[i..i + n] + [] == s[i..];
    }
  }

  lemma DecodeStops(alpha: Str, rest: Str, buf: nat, bits: nat, strict: bool)
    requires rest != [] ==> rest[0] == PAD
    ensures Decode(alpha, rest, buf, bits, strict) == Some([])
  {
  }

  /** The characters of an encoding are legal, and never one more than a multiple of four. */
  lemma {:induction false} EncodingLegal(alpha: Str, s: Str, i: nat, pad: bool)
    requires Base64(alpha) && i <= |s|
    ensures var t := Body(Encode(alpha, s, i, pad)); Legal(alpha, t) && |t| % 4 != 1
    decreases |s| - i
  {
    hide Chars, Three, Legal, Body;
    if i + 3 <= |s| {
      var rest := Encode(alpha, s, i + 3, pad);
      BodyOfChars(alpha, Three(s, i), 4, rest);
      EncodingLegal(alpha, s, i + 3, pad);
      LegalJoin(alpha, Chars(alpha, Three(s, i), 4), Body(rest));
    } else {
      var n := |s| - i;
      BodyStops(alpha, if n == 0 then [] else Padding(pad, 3 - n));
      if n > 0 {
        BodyOfChars(alpha, Three(s, i), n + 1, Padding(pad, 3 - n));
        LegalJoin(alpha, Chars(alpha, Three(s, i), n + 1), []);
      }
    }
  }

  lemma LegalJoin(alpha: Str, a: Str, b: Str)
    requires Legal(alpha, a) && Legal(alpha, b)
    ensures Legal(alpha, a + b)
  {
  }

  lemma BodyStops(alpha: Str, rest: Str)
    requires rest != [] ==> rest[0] == PAD
    ensures Body(rest) == [] && Legal(alpha, [])
  {
  }

  lemma {:induction false} BodyOfChars(alpha: Str, n: nat, count: nat, rest: Str)
    requires Base64(alpha) && count <= 4
    ensures Body(Chars(alpha, n, count) + rest) == Chars(alpha, n, count) + Body(rest)
    ensures Legal(alpha, Chars(alpha, n, count))
  {
    hide Sextet;
    var t := Chars(alpha, n, count);
    forall i | 0 <= i < count
      ensures IndexOf(alpha, t[i]).Some?
    {
      IndexOfAt(alpha, Sextet(n, i));
    }
    BodyOfPlain(t, rest);
  }

  lemma {:induction false} BodyOfPlain(t: Str, rest: Str)
    requires forall i | 0 <= i < |t| :: t[i] !in {10, 13, 61}
    ensures Body(t + rest) == t + Body(rest)
  {
    if t == [] {
      assert t + rest == rest && t + Body(rest) == Body(rest);
    } else {
      assert (t + rest)[1..] == t[1..] + rest;
      BodyOfPlain(t[1..], rest);
      assert t == [t[0]] + t[1..];
    }
  }

  /** All three spellings survive `b64_decode_or_throw`, wherever lines are broken and
      whatever follows the padding: only the characters that count matter. */
  lemma Base64RoundTrip(alpha: Str, s: Str, pad: bool, t: Str)
    requires alpha == B64_STD || alpha == B64_URL
    requires Body(t) == Body(Encode(alpha, s, 0, pad))
    ensures Legal(alpha, Body(t)) && |Body(t)| % 4 != 1 && Decode(alpha, t, 0, 0, false) == Some(s)
  {
    Base64Alphabets();
    EncodingLegal(alpha, s, 0, pad);
    OnlyBodyCounts(alpha, t, 0, 0);
    OnlyBodyCounts(alpha, Encode(alpha, s, 0, pad), 0, 0);
    DecodeEncode(alpha, s, 0, pad, 0, false);
  }
}
