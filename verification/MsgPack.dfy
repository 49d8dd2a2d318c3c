/** MessagePack: the encoder's choice of representations, and the bounded reader. */
module MsgPack {
  import opened Values
  import opened Numbers
  import opened Arithmetic

  /** How timestamps print, and what an integer above the signed range reads as. */
  datatype Texts = Texts(show: (Int64, int) -> Str, big: Bits64 -> Bits64)

  const MAX_DEPTH: nat := 1024

  // ---- big-endian numbers -----------------------------------------------------------

  function PutBe(v: nat, n: nat): (r: Str)
    ensures |r| == n
  {
    if n == 0 then [] else PutBe(v / 256, n - 1) + [v % 256]
  }

  function Number(t: Str): nat {
    if t == [] then 0 else Number(t[..|t| - 1]) * 256 + t[|t| - 1]
  }

  function Pow(n: nat): (p: nat)
    ensures p > 0
  {
    if n == 0 then 1 else 256 * Pow(n - 1)
  }

  lemma {:induction false} PutBeReads(v: nat, n: nat)
    ensures Number(PutBe(v, n)) == v % Pow(n)
  {
    if n > 0 {
      PutBeReads(v / 256, n - 1);
      DivDiv(v, 256, Pow(n - 1));
    }
  }

  lemma Powers()
    ensures Pow(1) == 0x100 && Pow(2) == 0x1_0000 && Pow(4) == 0x1_0000_0000 && Pow(8) == TWO64
  {
    assert Pow(3) == 0x100_0000 && Pow(5) == 0x100_0000_0000 && Pow(6) == 0x1_0000_0000_0000 && Pow(7) == 0x100_0000_0000_0000;
  }

  // ---- encoding -----------------------------------------------------------------------

  function Lead(b: int, v: nat, n: nat): Str
    requires 0 <= b < 256
  {
    [b] + PutBe(v, n)
  }

  function EncodeUint(u: nat): Str
    requires u < TWO64
  {
    if u < 0x80 then [u]
    else if u <= 0xFF then Lead(0xCC, u, 1)
    else if u <= 0xFFFF then Lead(0xCD, u, 2)
    else if u <= 0xFFFF_FFFF then Lead(0xCE, u, 4)
    else Lead(0xCF, u, 8)
  }

  /** A negative integer keeps the low bytes of its two's complement. */
  function EncodeInt(i: Int64): Str {
    if i >= 0 then EncodeUint(i)
    else if i >= -32 then [0xE0 + (i + 32)]
    else if i >= -128 then Lead(0xD0, ToU64(i), 1)
    else if i >= -32768 then Lead(0xD1, ToU64(i), 2)
    else if i >= -2147483648 then Lead(0xD2, ToU64(i), 4)
    else Lead(0xD3, ToU64(i), 8)
  }

  /** The header for a length. */
  function Header(n: nat, fix: int, limit: nat, w1: int, w2: int, w4: int): Str
    requires 0 <= fix && limit <= 32 && fix + limit <= 256 && 0 <= w1 < 256 && 0 <= w2 < 256 && 0 <= w4 < 256
  {
    if n < limit then [fix + n]
    else if w1 != 0 && n <= 0xFF then Lead(w1, n, 1)
    else if n <= 0xFFFF then Lead(w2, n, 2)
    else Lead(w4, n, 4)
  }

  function ArrHeader(n: nat): Str { Header(n, 0x90, 16, 0, 0xDC, 0xDD) }

  function MapHeader(n: nat): Str { Header(n, 0x80, 16, 0, 0xDE, 0xDF) }

  function EncodeStr(s: Str): Str { Header(|s|, 0xA0, 32, 0xD9, 0xDA, 0xDB) + s }

  function EncodeBin(s: Str): Str { Header(|s|, 0, 0, 0xC4, 0xC5, 0xC6) + s }

  function Encode(x: Texts, v: Value): (r: Str)
    ensures |r| >= 1
  {
    match v
    case Null | Deleted | Nothing => [0xC0]
    case Bool(b) => [if b then 0xC3 else 0xC2]
    case I64(i) => EncodeInt(i)
    case RawNumber(s) => EncodeStr(s)
    case F32(bits) => Lead(0xCA, bits, 4)
    case F64(bits) => Lead(0xCB, bits, 8)
    case Timestamp(n, o) => EncodeStr(x.show(n, o))
    case String(s) => EncodeStr(s)
    case Bytes(s) => EncodeBin(s)
    case Arr(items) => ArrHeader(|items|) + EncodeItems(x, items)
    case Obj(es) => MapHeader(|es|) + EncodeEntries(x, es)
  }

  function EncodeItems(x: Texts, items: seq<Value>): (r: Str)
    ensures |r| >= |items|
  {
    if items == [] then [] else Encode(x, items[0]) + EncodeItems(x, items[1..])
  }

  function EncodeEntries(x: Texts, es: seq<Entry>): (r: Str)
    ensures |r| >= |es|
  {
    if es == [] then [] else EncodeStr(es[0].key) + Encode(x, es[0].val) + EncodeEntries(x, es[1..])
  }

  // ---- reading ------------------------------------------------------------------------

  /** A value and the position after it, or a thrown error. */
  datatype Read<+T> = Got(v: T, i: nat) | Fail

  function BeAt(s: Str, i: nat, n: nat): (r: Read<nat>)
    ensures r.Got? ==> r.i == i + n <= |s|
  {
    if i + n > |s| then Fail else Got(Number(s[i..i + n]), i + n)
  }

  function TakeAt(s: Str, i: nat, n: nat): (r: Read<Str>)
    ensures r.Got? ==> r.i == i + n <= |s|
  {
    if i + n > |s| then Fail else Got(s[i..i + n], i + n)
  }

  function TakeCountedAt(s: Str, i: nat, w: nat): (r: Read<Str>)
    ensures r.Got? ==> i <= r.i <= |s|
  {
    match BeAt(s, i, w) case Fail => Fail case Got(n, j) => TakeAt(s, j, n)
  }

  function AsValue(r: Read<Str>, bytes: bool): Read<Value> {
    match r case Fail => Fail case Got(t, i) => Got(if bytes then Bytes(t) else String(t), i)
  }

  function Signed(u: int, m: int): int { if u >= m / 2 then u - m else u }

  /** An integer of `w` bytes, as `signed` says. */
  function IntAt(x: Texts, s: Str, i: nat, w: nat, signed: bool): Read<Value> {
    match BeAt(s, i, w)
    case Fail => Fail
    case Got(u, j) =>
      var m := Pow(w);
      var k := if signed then Signed(u, m) else u;
      if -0x8000_0000_0000_0000 <= k < 0x8000_0000_0000_0000 then Got(I64(k), j)
      else if 0 <= k < TWO64 then Got(F64(x.big(k)), j)
      else Fail
  }

  function FloatAt(s: Str, i: nat, w: nat): Read<Value> {
    match BeAt(s, i, w)
    case Fail => Fail
    case Got(u, j) =>
      if w == 4 && u < 0x1_0000_0000 then Got(F32(u), j)
      else if w == 8 && u < TWO64 then Got(F64(u), j)
      else Fail
  }

  /** What a type byte announces; a `width` counts the bytes of the number behind it. */
  datatype Form =
    | FixInt(k: Int64) | FixMap(n: nat) | FixArr(n: nat) | FixStr(n: nat)
    | Literal(v: Value)
    | BinForm(width: nat) | StrForm(width: nat) | ArrForm(width: nat) | MapForm(width: nat)
    | FloatForm(width: nat) | IntForm(width: nat, signed: bool)
    | Unsupported

  function FormOf(b: Byte): Form {
    if b <= 0x7F then FixInt(b)
    else if b >= 0xE0 then FixInt((b as int) - 0x100)
    else if b <= 0x8F then FixMap(b - 0x80)
    else if b <= 0x9F then FixArr(b - 0x90)
    else if b <= 0xBF then FixStr(b - 0xA0)
    else
      match b
      case 0xC0 => Literal(Null)
      case 0xC2 => Literal(Bool(false))
      case 0xC3 => Literal(Bool(true))
      case 0xC4 => BinForm(1)
      case 0xC5 => BinForm(2)
      case 0xC6 => BinForm(4)
      case 0xCA => FloatForm(4)
      case 0xCB => FloatForm(8)
      case 0xCC => IntForm(1, false)
      case 0xCD => IntForm(2, false)
      case 0xCE => IntForm(4, false)
      case 0xCF => IntForm(8, false)
      case 0xD0 => IntForm(1, true)
      case 0xD1 => IntForm(2, true)
      case 0xD2 => IntForm(4, true)
      case 0xD3 => IntForm(8, true)
      case 0xD9 => StrForm(1)
      case 0xDA => StrForm(2)
      case 0xDB => StrForm(4)
      case 0xDC => ArrForm(2)
      case 0xDD => ArrForm(4)
      case 0xDE => MapForm(2)
      case 0xDF => MapForm(4)
      case _ => Unsupported
  }

  /** `reader::read` at position `i`, inside `depth` other reads. */
  function Decode(x: Texts, s: Str, i: nat, depth: nat): (r: Read<Value>)
    requires i <= |s|
    ensures r.Got? ==> i < r.i <= |s|
    decreases |s| - i, 0
  {
    if depth >= MAX_DEPTH || i == |s| then Fail
    else
      match FormOf(s[i])
      case FixInt(k) => Got(I64(k), i + 1)
      case FixMap(n) => DecodeMap(x, s, i + 1, n, depth + 1)
      case FixArr(n) => DecodeArray(x, s, i + 1, n, depth + 1)
      case FixStr(n) => AsValue(TakeAt(s, i + 1, n), false)
      case Literal(v) => Got(v, i + 1)
      case BinForm(w) => AsValue(TakeCountedAt(s, i + 1, w), true)
      case StrForm(w) => AsValue(TakeCountedAt(s, i + 1, w), false)
      case FloatForm(w) => FloatAt(s, i + 1, w)
      case IntForm(w, signed) => IntAt(x, s, i + 1, w, signed)
      case ArrForm(w) =>
        (match BeAt(s, i + 1, w) case Fail => Fail case Got(n, j) => DecodeArray(x, s, j, n, depth + 1))
      case MapForm(w) =>
        (match BeAt(s, i + 1, w) case Fail => Fail case Got(n, j) => DecodeMap(x, s, j, n, depth + 1))
      case Unsupported => Fail
  }

  function DecodeArray(x: Texts, s: Str, i: nat, n: nat, depth: nat): (r: Read<Value>)
    requires i <= |s|
    ensures r.Got? ==> i <= r.i <= |s|
    decreases |s| - i, 2
  {
    if n > |s| then Fail
    else match DecodeItems(x, s, i, n, depth) case Fail => Fail case Got(vs, j) => Got(Arr(vs), j)
  }

  function DecodeItems(x: Texts, s: Str, i: nat, n: nat, depth: nat): (r: Read<seq<Value>>)
    requires i <= |s|
    ensures r.Got? ==> i <= r.i <= |s|
    decreases |s| - i, 1
  {
    if n == 0 then Got([], i)
    else
      match Decode(x, s, i, depth)
      case Fail => Fail
      case Got(v, j) =>
        match DecodeItems(x, s, j, n - 1, depth) case Fail => Fail case Got(vs, k) => Got([v] + vs, k)
  }

  function DecodeMap(x: Texts, s: Str, i: nat, n: nat, depth: nat): (r: Read<Value>)
    requires i <= |s|
    ensures r.Got? ==> i <= r.i <= |s| && r.v.Obj?
    decreases |s| - i, 2
  {
    if n > |s| then Fail else DecodeEntries(x, s, i, n, Obj([]), depth)
  }

  function DecodeEntries(x: Texts, s: Str, i: nat, n: nat, o: Value, depth: nat): (r: Read<Value>)
    requires i <= |s|
    ensures r.Got? ==> i <= r.i <= |s| && (o.Obj? ==> r.v.Obj?)
    decreases |s| - i, 1
  {
    if n == 0 then Got(o, i)
    else
      match Decode(x, s, i, depth)
      case Fail => Fail
      case Got(key, j) =>
        if !key.IsStringy() then Fail
        else
          match Decode(x, s, j, depth)
          case Fail => Fail
          case Got(v, k) => DecodeEntries(x, s, k, n - 1, SetField(o, key.Text(), v), depth)
  }

  // ---- decode undoes encode -----------------------------------------------------------

  predicate At(s: Str, i: nat, t: Str) { i + |t| <= |s| && s[i..i + |t|] == t }

  lemma AtBoth(s: Str, i: nat, a: Str, b: Str)
    requires At(s, i, a + b)
    ensures At(s, i, a) && At(s, i + |a|, b)
  {
    assert a == (a + b)[..|a|] && b == (a + b)[|a|..];
    assert s[i..i + |a|] == s[i..i + |a + b|][..|a|];
    assert s[i + |a|..i + |a + b|] == s[i..i + |a + b|][|a|..];
  }

  /** A lead byte and the number behind it. */
  lemma AtLead(s: Str, i: nat, b: Byte, v: nat, n: nat)
    requires At(s, i, Lead(b, v, n))
    ensures i < |s| && s[i] == b && BeAt(s, i + 1, n) == Got(v % Pow(n), i + 1 + n)
  {
    AtBoth(s, i, [b], PutBe(v, n));
    PutBeReads(v, n);
    assert s[i] == s[i..i + 1][0];
  }

  /** What a value reads back as: numbers kept as text and timestamps are strings on the
      wire, and the markers are null. */
  function Canon(x: Texts, v: Value): (r: Value)
    ensures !r.Deleted? && !r.Nothing?
  {
    match v
    case Deleted | Nothing => Null
    case RawNumber(t) => String(t)
    case Timestamp(n, o) => String(x.show(n, o))
    case Arr(items) => Arr(CanonItems(x, items))
    case Obj(es) => Obj(CanonEntries(x, es))
    case _ => v
  }

  function CanonItems(x: Texts, items: seq<Value>): (r: seq<Value>)
    ensures |r| == |items|
  {
    if items == [] then [] else [Canon(x, items[0])] + CanonItems(x, items[1..])
  }

  function CanonEntries(x: Texts, es: seq<Entry>): (r: seq<Entry>)
    ensures |r| == |es|
  {
    if es == [] then [] else [Entry(es[0].key, Canon(x, es[0].val))] + CanonEntries(x, es[1..])
  }

  function Depth(v: Value): (d: nat)
    ensures d >= 1
  {
    match v
    case Arr(items) => 1 + DepthItems(items)
    case Obj(es) => 1 + DepthEntries(es)
    case _ => 1
  }

  function Max(a: nat, b: nat): nat { if a < b then b else a }

  function DepthItems(items: seq<Value>): nat {
    if items == [] then 0 else Max(Depth(items[0]), DepthItems(items[1..]))
  }

  function DepthEntries(es: seq<Entry>): nat {
    if es == [] then 0 else Max(Depth(es[0].val), DepthEntries(es[1..]))
  }

  /** Lengths fit 32 bits and objects are sorted, as every reachable value's are. */
  predicate Encodable(x: Texts, v: Value) {
    match v
    case String(t) => Short(|t|)
    case Bytes(t) => Short(|t|)
    case RawNumber(t) => Short(|t|)
    case Timestamp(n, o) => Short(|x.show(n, o)|)
    case Arr(items) => Short(|items|) && forall k | 0 <= k < |items| :: Encodable(x, items[k])
    case Obj(es) =>
      && Short(|es|) && Sorted(es)
      && forall k | 0 <= k < |es| :: Short(|es[k].key|) && Encodable(x, es[k].val)
    case _ => true
  }

  predicate Short(n: nat) { n < 0x1_0000_0000 }

  function UintWidth(u: nat): nat { if u <= 0xFF then 1 else if u <= 0xFFFF then 2 else if u <= 0xFFFF_FFFF then 4 else 8 }

  function IntWidth(k: Int64): nat { if k >= -128 then 1 else if k >= -32768 then 2 else if k >= -2147483648 then 4 else 8 }

  lemma DecodeInt(x: Texts, s: Str, i: nat, k: Int64, depth: nat)
    requires At(s, i, EncodeInt(k)) && depth < MAX_DEPTH
    ensures Decode(x, s, i, depth) == Got(I64(k), i + |EncodeInt(k)|)
  {
    assert s[i] == s[i..i + |EncodeInt(k)|][0];
    if k >= 0x80 {
      DecodeUnsigned(x, s, i, k, s[i], UintWidth(k), depth);
    } else if k < -32 {
      DecodeSigned(x, s, i, k, s[i], IntWidth(k), depth);
    }
  }

  lemma DecodeUnsigned(x: Texts, s: Str, i: nat, k: Int64, b: Byte, w: nat, depth: nat)
    requires 0x80 <= k && w == UintWidth(k) && depth < MAX_DEPTH && At(s, i, Lead(b, k, w))
    requires b == if w == 1 then 0xCC else if w == 2 then 0xCD else if w == 4 then 0xCE else 0xCF
    ensures Decode(x, s, i, depth) == Got(I64(k), i + 1 + w)
  {
    WidthHolds(k);
    WideNumber(s, i, b, k, w);
    assert FormOf(b) == IntForm(w, false);
  }

  lemma DecodeSigned(x: Texts, s: Str, i: nat, k: Int64, b: Byte, w: nat, depth: nat)
    requires At(s, i, Lead(b, ToU64(k), w)) && depth < MAX_DEPTH && k < -32 && w == IntWidth(k)
    requires b == if w == 1 then 0xD0 else if w == 2 then 0xD1 else if w == 4 then 0xD2 else 0xD3
    ensures Decode(x, s, i, depth) == Got(I64(k), i + 1 + w)
  {
    Powers();
    AtLead(s, i, b, ToU64(k), w);
    assert FormOf(b) == IntForm(w, true);
    LowBytes(k, w);
    assert Signed(k + Pow(w), Pow(w)) == k;
  }

  lemma LowBytes(k: Int64, w: nat)
    requires k < 0 && w in {1, 2, 4, 8} && 0 <= k + Pow(w) / 2
    ensures ToU64(k) % Pow(w) == k + Pow(w)
  {
    Powers();
  }

  lemma DecodeStr(x: Texts, s: Str, i: nat, t: Str, depth: nat)
    requires At(s, i, EncodeStr(t)) && Short(|t|) && depth < MAX_DEPTH
    ensures Decode(x, s, i, depth) == Got(String(t), i + |EncodeStr(t)|)
  {
    hide Decode, FormOf, PutBe, Header;
    var h := Header(|t|, 0xA0, 32, 0xD9, 0xDA, 0xDB);
    StrHeader(|t|);
    AtBoth(s, i, h, t);
    assert s[i] == s[i..i + |h|][0];
    if |t| >= 32 {
      DecodeLongStr(x, s, i, t, h[0], UintWidth(|t|), depth);
    } else {
      DecodeShortStr(x, s, i, t, depth);
    }
  }

  lemma StrHeader(n: nat)
    requires Short(n)
    ensures var h := Header(n, 0xA0, 32, 0xD9, 0xDA, 0xDB); var w := UintWidth(n);
            if n < 32 then h == [0xA0 + n]
            else h[0] == (if w == 1 then 0xD9 else if w == 2 then 0xDA else 0xDB)
                 && h == Lead(h[0], n, w) && |h| == 1 + w
  {
  }

  lemma DecodeShortStr(x: Texts, s: Str, i: nat, t: Str, depth: nat)
    requires depth < MAX_DEPTH && |t| < 32 && i < |s| && s[i] == 0xA0 + |t| && At(s, i + 1, t)
    ensures Decode(x, s, i, depth) == Got(String(t), i + 1 + |t|)
  {
    assert FormOf(s[i]) == FixStr(|t|);
  }

  lemma DecodeLongStr(x: Texts, s: Str, i: nat, t: Str, b: Byte, w: nat, depth: nat)
    requires Short(|t|) && depth < MAX_DEPTH && w == UintWidth(|t|)
    requires b == if w == 1 then 0xD9 else if w == 2 then 0xDA else 0xDB
    requires At(s, i, Lead(b, |t|, w)) && At(s, i + 1 + w, t)
    ensures Decode(x, s, i, depth) == Got(String(t), i + 1 + w + |t|)
  {
    WidthHolds(|t|);
    WideNumber(s, i, b, |t|, w);
    assert FormOf(b) == StrForm(w);
  }

  lemma WidthHolds(n: nat)
    requires n < TWO64
    ensures n < Pow(UintWidth(n))
  {
    Powers();
  }

  lemma WideNumber(s: Str, i: nat, b: Byte, n: nat, w: nat)
    requires At(s, i, Lead(b, n, w)) && n < Pow(w)
    ensures i < |s| && s[i] == b && BeAt(s, i + 1, w) == Got(n, i + 1 + w)
  {
    AtLead(s, i, b, n, w);
    DivModUnique(n, Pow(w), 0, n);
  }

  lemma DecodeBin(x: Texts, s: Str, i: nat, t: Str, depth: nat)
    requires At(s, i, EncodeBin(t)) && Short(|t|) && depth < MAX_DEPTH
    ensures Decode(x, s, i, depth) == Got(Bytes(t), i + |EncodeBin(t)|)
  {
    var h := Header(|t|, 0, 0, 0xC4, 0xC5, 0xC6);
    AtBoth(s, i, h, t);
    assert s[i] == s[i..i + |h|][0];
    WidthHolds(|t|);
    WideNumber(s, i, s[i], |t|, UintWidth(|t|));
    assert FormOf(s[i]) == BinForm(UintWidth(|t|));
  }

  /** A header hands its count to the reader of items or of entries. */
  lemma DecodeArrHeader(x: Texts, s: Str, i: nat, n: nat, depth: nat)
    requires At(s, i, ArrHeader(n)) && Short(n) && depth < MAX_DEPTH
    ensures Decode(x, s, i, depth) == DecodeArray(x, s, i + |ArrHeader(n)|, n, depth + 1)
  {
    assert s[i] == s[i..i + |ArrHeader(n)|][0];
    if n >= 16 {
      var w := if n <= 0xFFFF then 2 else 4;
      assert FormOf(s[i]) == ArrForm(w);
      WideCount(s, i, n, w);
    } else {
      assert FormOf(s[i]) == FixArr(n);
    }
  }

  lemma DecodeMapHeader(x: Texts, s: Str, i: nat, n: nat, depth: nat)
    requires At(s, i, MapHeader(n)) && Short(n) && depth < MAX_DEPTH
    ensures Decode(x, s, i, depth) == DecodeMap(x, s, i + |MapHeader(n)|, n, depth + 1)
  {
    assert s[i] == s[i..i + |MapHeader(n)|][0];
    if n >= 16 {
      var w := if n <= 0xFFFF then 2 else 4;
      assert FormOf(s[i]) == MapForm(w);
      WideCount(s, i, n, w);
    } else {
      assert FormOf(s[i]) == FixMap(n);
    }
  }

  lemma WideCount(s: Str, i: nat, n: nat, w: nat)
    requires i < |s| && Short(n) && w == (if n <= 0xFFFF then 2 else 4) && At(s, i, Lead(s[i], n, w))
    ensures BeAt(s, i + 1, w) == Got(n, i + 1 + w)
  {
    Powers();
    WideNumber(s, i, s[i], n, w);
  }

  lemma DecodeLeaf(x: Texts, s: Str, i: nat, v: Value, depth: nat)
    requires At(s, i, Encode(x, v)) && Encodable(x, v) && !v.Arr? && !v.Obj? && depth < MAX_DEPTH
    ensures Decode(x, s, i, depth) == Got(Canon(x, v), i + |Encode(x, v)|)
  {
    assert s[i] == s[i..i + |Encode(x, v)|][0];
    match v
    case I64(k) => DecodeInt(x, s, i, k, depth);
    case String(t) => DecodeStr(x, s, i, t, depth);
    case RawNumber(t) => DecodeStr(x, s, i, t, depth);
    case Timestamp(n, o) => DecodeStr(x, s, i, x.show(n, o), depth);
    case Bytes(t) => DecodeBin(x, s, i, t, depth);
    case F32(bits) =>
      DecodeFloat(x, s, i, bits, 4, depth);
    case F64(bits) =>
      DecodeFloat(x, s, i, bits, 8, depth);
    case Null =>
    case Deleted =>
    case Nothing =>
    case Bool(_) =>
  }

  lemma DecodeFloat(x: Texts, s: Str, i: nat, bits: nat, w: nat, depth: nat)
    requires depth < MAX_DEPTH && w in {4, 8} && bits < if w == 4 then 0x1_0000_0000 else TWO64
    requires At(s, i, Lead(if w == 4 then 0xCA else 0xCB, bits, w))
    ensures Decode(x, s, i, depth) == Got(if w == 4 then F32(bits) else F64(bits), i + 1 + w)
  {
    hide PutBe, Number;
    Powers();
    WideNumber(s, i, if w == 4 then 0xCA else 0xCB, bits, w);
    assert FormOf(s[i]) == FloatForm(w);
  }

  /** Reading an encoding, whatever surrounds it, gives the value and the exact end, or
      fails if and only if the value nests deeper than the reader allows. */
  lemma {:induction false} DecodeEncode(x: Texts, s: Str, i: nat, v: Value, depth: nat)
    requires At(s, i, Encode(x, v)) && Encodable(x, v)
    ensures Decode(x, s, i, depth) ==
            if depth + Depth(v) <= MAX_DEPTH then Got(Canon(x, v), i + |Encode(x, v)|) else Fail
    decreases v, 3
  {
    hide Decode, Encode;
    if depth < MAX_DEPTH {
      if v.Arr? {
        DecodeEncodedArr(x, s, i, v, depth);
      } else if v.Obj? {
        DecodeEncodedObj(x, s, i, v, depth);
      } else {
        DecodeLeaf(x, s, i, v, depth);
      }
    } else {
      DecodeTooDeep(x, s, i, depth);
    }
  }

  lemma {:induction false} DecodeEncodedArr(x: Texts, s: Str, i: nat, v: Value, depth: nat)
    requires v.Arr? && At(s, i, Encode(x, v)) && Encodable(x, v) && depth < MAX_DEPTH
    ensures Decode(x, s, i, depth) ==
            if depth + Depth(v) <= MAX_DEPTH then Got(Canon(x, v), i + |Encode(x, v)|) else Fail
    decreases v, 2
  {
    hide Decode, DecodeItems;
    var h := ArrHeader(|v.items|);
    AtBoth(s, i, h, EncodeItems(x, v.items));
    DecodeArrHeader(x, s, i, |v.items|, depth);
    DecodeEncodedItems(x, s, i + |h|, v, v.items, depth + 1);
  }

  lemma {:induction false} DecodeEncodedObj(x: Texts, s: Str, i: nat, v: Value, depth: nat)
    requires v.Obj? && At(s, i, Encode(x, v)) && Encodable(x, v) && depth < MAX_DEPTH
    ensures Decode(x, s, i, depth) ==
            if depth + Depth(v) <= MAX_DEPTH then Got(Canon(x, v), i + |Encode(x, v)|) else Fail
    decreases v, 2
  {
    hide Decode, DecodeEntries;
    var h, es := MapHeader(|v.entries|), v.entries;
    ObjParts(x, s, i, v);
    DecodeMapHeader(x, s, i, |es|, depth);
    DecodeEncodedEntries(x, s, i + |h|, v, es, [], depth + 1);
  }

  lemma ObjParts(x: Texts, s: Str, i: nat, v: Value)
    requires v.Obj? && At(s, i, Encode(x, v)) && Encodable(x, v)
    ensures At(s, i, MapHeader(|v.entries|)) && At(s, i + |MapHeader(|v.entries|)|, EncodeEntries(x, v.entries))
    ensures EntriesOf(x, v, v.entries) && Sorted(v.entries) && AllBelow([], v.entries)
    ensures [] + CanonEntries(x, v.entries) == CanonEntries(x, v.entries)
  {
    AtBoth(s, i, MapHeader(|v.entries|), EncodeEntries(x, v.entries));
  }

  lemma {:induction false} DecodeEncodedItems(x: Texts, s: Str, i: nat, v: Value, items: seq<Value>, depth: nat)
    requires At(s, i, EncodeItems(x, items)) && depth <= MAX_DEPTH
    requires forall k | 0 <= k < |items| :: items[k] < v && Encodable(x, items[k])
    ensures DecodeItems(x, s, i, |items|, depth) ==
            if depth + DepthItems(items) <= MAX_DEPTH then Got(CanonItems(x, items), i + |EncodeItems(x, items)|) else Fail
    decreases v, 1, |items|
  {
    hide Decode, Depth, Canon, Encode;
    if items != [] {
      var c, rest := Encode(x, items[0]), items[1..];
      AtBoth(s, i, c, EncodeItems(x, rest));
      assert forall k | 0 <= k < |rest| :: rest[k] == items[k + 1];
      DecodeEncode(x, s, i, items[0], depth);
      if depth + Depth(items[0]) <= MAX_DEPTH { DecodeEncodedItems(x, s, i + |c|, v, rest, depth); }
    }
  }

  lemma {:induction false} DecodeEncodedEntries(x: Texts, s: Str, i: nat, v: Value, es: seq<Entry>, pre: seq<Entry>, depth: nat)
    requires At(s, i, EncodeEntries(x, es)) && depth <= MAX_DEPTH && Sorted(es)
    requires EntriesOf(x, v, es) && AllBelow(pre, es)
    ensures DecodeEntries(x, s, i, |es|, Obj(pre), depth) ==
            if depth + DepthEntries(es) <= MAX_DEPTH then Got(Obj(pre + CanonEntries(x, es)), i + |EncodeEntries(x, es)|) else Fail
    decreases v, 1, |es|
  {
    hide Decode, DecodeEntries, Encode, EncodeStr, Depth, Canon;
    if es == [] {
      NoEntries(x, s, i, pre, depth);
    } else {
      var k, c, rest := EncodeStr(es[0].key), Encode(x, es[0].val), es[1..];
      EntryParts(x, s, i, v, es);
      var e := Entry(es[0].key, Canon(x, es[0].val));
      OneEntry(x, s, i, v, es, depth);
      if depth + Depth(es[0].val) <= MAX_DEPTH {
        SetLast(pre, e.key, e.val);
        NextBelow(pre, es, e);
        EntryStep(x, s, i, |es|, pre, e, i + |k|, i + |k| + |c|, depth);
        DecodeEncodedEntries(x, s, i + |k| + |c|, v, rest, pre + [e], depth);
        Join(pre, [e], CanonEntries(x, rest));
      } else {
        EntriesFail(x, s, i, |es|, pre, e.key, i + |k|, depth);
      }
    }
  }

  /** A key and its value. */
  lemma {:induction false} OneEntry(x: Texts, s: Str, i: nat, v: Value, es: seq<Entry>, depth: nat)
    requires es != [] && At(s, i, EncodeEntries(x, es)) && depth <= MAX_DEPTH && EntriesOf(x, v, es)
    ensures var j := i + |EncodeStr(es[0].key)|;
            && j <= |s|
            && (if depth + Depth(es[0].val) <= MAX_DEPTH
                then Decode(x, s, i, depth) == Got(String(es[0].key), j)
                     && Decode(x, s, j, depth) == Got(Canon(x, es[0].val), j + |Encode(x, es[0].val)|)
                else Decode(x, s, i, depth) == Fail
                     || (Decode(x, s, i, depth) == Got(String(es[0].key), j) && Decode(x, s, j, depth) == Fail))
    decreases v, 0
  {
    hide Decode, Encode, EncodeStr, Depth, Canon;
    EntryParts(x, s, i, v, es);
    if depth < MAX_DEPTH { DecodeStr(x, s, i, es[0].key, depth); } else { DecodeTooDeep(x, s, i, depth); }
    DecodeEncode(x, s, i + |EncodeStr(es[0].key)|, es[0].val, depth);
  }

  lemma Join(a: seq<Entry>, b: seq<Entry>, c: seq<Entry>)
    ensures a + b + c == a + (b + c)
  {
  }

  lemma EntryParts(x: Texts, s: Str, i: nat, v: Value, es: seq<Entry>)
    requires es != [] && At(s, i, EncodeEntries(x, es)) && EntriesOf(x, v, es)
    ensures var k, c := EncodeStr(es[0].key), Encode(x, es[0].val);
            && At(s, i, k) && At(s, i + |k|, c) && At(s, i + |k| + |c|, EncodeEntries(x, es[1..]))
            && |EncodeEntries(x, es)| == |k| + |c| + |EncodeEntries(x, es[1..])|
    ensures EntriesOf(x, v, es[1..])
  {
    var k, c := EncodeStr(es[0].key), Encode(x, es[0].val);
    AtBoth(s, i, k + c, EncodeEntries(x, es[1..]));
    AtBoth(s, i, k, c);
  }

  lemma NoEntries(x: Texts, s: Str, i: nat, pre: seq<Entry>, depth: nat)
    requires i <= |s|
    ensures DecodeEntries(x, s, i, 0, Obj(pre), depth) == Got(Obj(pre + CanonEntries(x, [])), i)
  {
    assert pre + [] == pre;
  }

  lemma EntriesFail(x: Texts, s: Str, i: nat, n: nat, pre: seq<Entry>, key: Str, j: nat, depth: nat)
    requires n > 0 && i <= |s| && j <= |s|
    requires Decode(x, s, i, depth) == Fail || (Decode(x, s, i, depth) == Got(String(key), j) && Decode(x, s, j, depth) == Fail)
    ensures DecodeEntries(x, s, i, n, Obj(pre), depth) == Fail
  {
    hide Decode;
  }

  lemma DecodeTooDeep(x: Texts, s: Str, i: nat, depth: nat)
    requires i <= |s| && depth >= MAX_DEPTH
    ensures Decode(x, s, i, depth) == Fail
  {
  }

  lemma EntryStep(x: Texts, s: Str, i: nat, n: nat, pre: seq<Entry>, e: Entry, j: nat, k: nat, depth: nat)
    requires n > 0 && i <= |s| && j <= |s| && k <= |s|
    requires Decode(x, s, i, depth) == Got(String(e.key), j) && Decode(x, s, j, depth) == Got(e.val, k)
    requires SetField(Obj(pre), e.key, e.val) == Obj(pre + [e])
    ensures DecodeEntries(x, s, i, n, Obj(pre), depth) == DecodeEntries(x, s, k, n - 1, Obj(pre + [e]), depth)
  {
    hide Decode;
  }

  ghost predicate EntriesOf(x: Texts, v: Value, es: seq<Entry>) {
    forall e | e in es :: e.val < v && Short(|e.key|) && Encodable(x, e.val)
  }

  /** Every key already read comes before every key to come. */
  predicate AllBelow(pre: seq<Entry>, es: seq<Entry>) {
    forall a, b | 0 <= a < |pre| && 0 <= b < |es| :: Less(pre[a].key, es[b].key)
  }

  lemma NextBelow(pre: seq<Entry>, es: seq<Entry>, e: Entry)
    requires AllBelow(pre, es) && Sorted(es) && es != [] && e.key == es[0].key
    ensures AllBelow(pre + [e], es[1..])
  {
    HeadBelow(es);
  }

  lemma {:induction false} HeadBelow(es: seq<Entry>)
    requires Sorted(es) && es != []
    ensures forall b | 1 <= b < |es| :: Less(es[0].key, es[b].key)
  {
    if |es| > 1 {
      HeadBelow(es[1..]);
      forall b | 1 <= b < |es|
        ensures Less(es[0].key, es[b].key)
      {
        if b > 1 {
          assert es[b] == es[1..][b - 1];
          LessTransitive(es[0].key, es[1].key, es[b].key);
        }
      }
    }
  }

  /** Setting a key above all others appends it. */
  lemma {:induction false} SetLast(pre: seq<Entry>, key: Str, v: Value)
    requires (forall a | 0 <= a < |pre| :: Less(pre[a].key, key)) && !v.Deleted?
    ensures SetField(Obj(pre), key, v) == Obj(pre + [Entry(key, v)])
  {
    if pre != [] {
      SetLast(pre[1..], key, v);
      assert pre + [Entry(key, v)] == [pre[0]] + (pre[1..] + [Entry(key, v)]);
    }
  }

  // ---- the whole document ---------------------------------------------------------------

  /** `parse_msgpack`: one value and nothing after it. */
  function Parse(x: Texts, s: Str): Option<Value> {
    match Decode(x, s, 0, 0) case Got(v, i) => if i == |s| then Some(v) else None case Fail => None
  }

  /** Parsing what was formatted gives the value back, as the wire spells it, exactly when
      it nests no deeper than the reader allows. */
  lemma FormatThenParse(x: Texts, v: Value)
    requires Encodable(x, v)
    ensures Parse(x, Encode(x, v)) == if Depth(v) <= MAX_DEPTH then Some(Canon(x, v)) else None
  {
    DecodeEncode(x, Encode(x, v), 0, v, 0);
  }

  /** The wire spelling is the value itself unless it holds a marker, text-kept number or timestamp. */
  predicate WireValue(v: Value) {
    match v
    case Deleted | Nothing | RawNumber(_) | Timestamp(_, _) => false
    case Arr(items) => forall k | 0 <= k < |items| :: WireValue(items[k])
    case Obj(es) => forall k | 0 <= k < |es| :: WireValue(es[k].val)
    case _ => true
  }

  lemma {:induction false} CanonSame(x: Texts, v: Value)
    ensures Canon(x, v) == v <==> WireValue(v)
    decreases v, 1
  {
    match v
    case Arr(items) => CanonItemsSame(x, v, items);
    case Obj(es) => CanonEntriesSame(x, v, es);
    case _ =>
  }

  lemma {:induction false} CanonItemsSame(x: Texts, v: Value, items: seq<Value>)
    requires forall a | a in items :: a < v
    ensures CanonItems(x, items) == items <==> forall k | 0 <= k < |items| :: WireValue(items[k])
    decreases v, 0, |items|
  {
    if items != [] {
      assert items[0] in items && forall a | a in items[1..] :: a in items;
      CanonSame(x, items[0]);
      CanonItemsSame(x, v, items[1..]);
      assert items == [items[0]] + items[1..];
      assert CanonItems(x, items)[1..] == CanonItems(x, items[1..]);
    }
  }

  lemma {:induction false} CanonEntriesSame(x: Texts, v: Value, es: seq<Entry>)
    requires forall a | a in es :: a.val < v
    ensures CanonEntries(x, es) == es <==> forall k | 0 <= k < |es| :: WireValue(es[k].val)
    decreases v, 0, |es|
  {
    if es != [] {
      assert es[0] in es && forall a | a in es[1..] :: a in es;
      CanonSame(x, es[0].val);
      CanonEntriesSame(x, v, es[1..]);
      assert es == [es[0]] + es[1..];
      assert CanonEntries(x, es)[1..] == CanonEntries(x, es[1..]);
    }
  }

  /** No document reads back as an integer and is shorter than the encoding chosen for it. */
  lemma IntegersShortest(x: Texts, t: Str, k: Int64)
    requires Decode(x, t, 0, 0) == Got(I64(k), |t|)
    ensures |EncodeInt(k)| <= |t|
  {
    Powers();
    var form := FormOf(t[0]);
    match form
    case FixInt(n) =>
      assert n == k && -32 <= k <= 127;
    case IntForm(w, signed) =>
      NumberBound(t[1..1 + w]);
      assert w in {1, 2, 4, 8} && |t| == 1 + w;
      assert k == if signed then Signed(Number(t[1..1 + w]), Pow(w)) else Number(t[1..1 + w]);
    case _ =>
  }

  lemma {:induction false} NumberBound(t: Str)
    ensures Number(t) < Pow(|t|)
  {
    if t != [] { NumberBound(t[..|t| - 1]); }
  }

  // ---- the writer and the reader --------------------------------------------------------

  class Writer {
    var out: Str

    constructor ()
      ensures out == []
    {
      out := [];
    }

    method Append(t: Str)
      modifies this
      ensures out == old(out) + t
    {
      out := out + t;
    }

    /** `put_be`: most significant byte first. */
    method PutNumber(v: nat, n: nat)
      modifies this
      ensures out == old(out) + PutBe(v, n)
    {
      var i := n;
      ghost var start := out;
      while i > 0
        invariant 0 <= i <= n && out + PutBe(v, i) == start + PutBe(v, n)
      {
        PutBeHead(v, i);
        out := out + [v / Pow(i - 1) % 256];
        i := i - 1;
      }
    }

    method PutLead(b: int, v: nat, n: nat)
      requires 0 <= b < 256
      modifies this
      ensures out == old(out) + Lead(b, v, n)
    {
      Append([b]);
      PutNumber(v, n);
    }

    /** `encode_uint`. */
    method PutUint(u: nat)
      requires u < TWO64
      modifies this
      ensures out == old(out) + EncodeUint(u)
    {
      if u < 0x80 {
        Append([u]);
      } else if u <= 0xFF {
        PutLead(0xCC, u, 1);
      } else if u <= 0xFFFF {
        PutLead(0xCD, u, 2);
      } else if u <= 0xFFFF_FFFF {
        PutLead(0xCE, u, 4);
      } else {
        PutLead(0xCF, u, 8);
      }
    }

    /** `encode_int`. */
    method PutInt(k: Int64)
      modifies this
      ensures out == old(out) + EncodeInt(k)
    {
      if k >= 0 {
        PutUint(k);
      } else if k >= -32 {
        Append([0xE0 + (k + 32)]);
      } else if k >= -128 {
        PutLead(0xD0, ToU64(k), 1);
      } else if k >= -32768 {
        PutLead(0xD1, ToU64(k), 2);
      } else if k >= -2147483648 {
        PutLead(0xD2, ToU64(k), 4);
      } else {
        PutLead(0xD3, ToU64(k), 8);
      }
    }

    method PutHeader(n: nat, fix: int, limit: nat, w1: int, w2: int, w4: int)
      requires 0 <= fix && limit <= 32 && fix + limit <= 256 && 0 <= w1 < 256 && 0 <= w2 < 256 && 0 <= w4 < 256
      modifies this
      ensures out == old(out) + Header(n, fix, limit, w1, w2, w4)
    {
      if n < limit {
        Append([fix + n]);
      } else if w1 != 0 && n <= 0xFF {
        PutLead(w1, n, 1);
      } else if n <= 0xFFFF {
        PutLead(w2, n, 2);
      } else {
        PutLead(w4, n, 4);
      }
    }

    /** `encode_str`. */
    method PutStr(s: Str)
      modifies this
      ensures out == old(out) + EncodeStr(s)
    {
      PutHeader(|s|, 0xA0, 32, 0xD9, 0xDA, 0xDB);
      Append(s);
    }

    /** `encode_bin`. */
    method PutBin(s: Str)
      modifies this
      ensures out == old(out) + EncodeBin(s)
    {
      PutHeader(|s|, 0, 0, 0xC4, 0xC5, 0xC6);
      Append(s);
    }

    /** `encode`. */
    method Value(x: Texts, v: Value)
      modifies this
      ensures out == old(out) + Encode(x, v)
      decreases v, 1
    {
      hide EncodeInt, EncodeStr, EncodeBin, EncodeItems, EncodeEntries, Header, PutBe;
      match v {
        case Null | Deleted | Nothing => Append([0xC0]);
        case Bool(b) => Append([if b then 0xC3 else 0xC2]);
        case I64(k) => PutInt(k);
        case RawNumber(s) => PutStr(s);
        case F32(bits) => PutLead(0xCA, bits, 4);
        case F64(bits) => PutLead(0xCB, bits, 8);
        case Timestamp(n, o) => PutStr(x.show(n, o));
        case String(s) => PutStr(s);
        case Bytes(s) => PutBin(s);
        case Arr(items) =>
          PutHeader(|items|, 0x90, 16, 0, 0xDC, 0xDD);
          Items(x, v, items);
        case Obj(es) =>
          PutHeader(|es|, 0x80, 16, 0, 0xDE, 0xDF);
          Entries(x, v, es);
      }
    }

    method Item(x: Texts, ghost v: Value, item: Value, ghost rest: Str)
      requires item < v
      modifies this
      ensures out + rest == old(out) + (Encode(x, item) + rest)
      decreases v, 0, 0
    {
      Value(x, item);
    }

    method Items(x: Texts, ghost v: Value, items: seq<Value>)
      requires forall a | a in items :: a < v
      modifies this
      ensures out == old(out) + EncodeItems(x, items)
      decreases v, 0, 1
    {
      ghost var start := out;
      for k := 0 to |items|
        invariant out + EncodeItems(x, items[k..]) == start + EncodeItems(x, items)
      {
        assert items[k..][1..] == items[k + 1..] && items[k] in items;
        Item(x, v, items[k], EncodeItems(x, items[k + 1..]));
      }
    }

    method Entry(x: Texts, ghost v: Value, e: Values.Entry, ghost rest: Str)
      requires e.val < v
      modifies this
      ensures out + rest == old(out) + (EncodeStr(e.key) + Encode(x, e.val) + rest)
      decreases v, 0, 0
    {
      PutStr(e.key);
      Value(x, e.val);
    }

    method Entries(x: Texts, ghost v: Value, es: seq<Entry>)
      requires forall a | a in es :: a.val < v
      modifies this
      ensures out == old(out) + EncodeEntries(x, es)
      decreases v, 0, 1
    {
      ghost var start := out;
      for k := 0 to |es|
        invariant out + EncodeEntries(x, es[k..]) == start + EncodeEntries(x, es)
      {
        assert es[k..][1..] == es[k + 1..] && es[k] in es;
        Entry(x, v, es[k], EncodeEntries(x, es[k + 1..]));
      }
    }
  }

  /** The most significant of `i` bytes is the one `put_be` writes first. */
  lemma {:induction false} PutBeHead(v: nat, i: nat)
    requires i > 0
    ensures PutBe(v, i) == [v / Pow(i - 1) % 256] + PutBe(v, i - 1)
  {
    if i > 1 {
      PutBeHead(v / 256, i - 1);
      DivDiv(v, 256, Pow(i - 2));
    }
  }

  class Reader {
    const s: Str
    var i: nat
    var depth: nat

    constructor (s: Str)
      ensures this.s == s && i == 0 && depth == 0
    {
      this.s, i, depth := s, 0, 0;
    }

    /** `be(n)`: the loop shifts one byte in at a time. */
    method Be(n: nat) returns (r: Option<nat>)
      requires i <= |s|
      modifies this`i
      ensures old(i) <= i <= |s|
      ensures var d := BeAt(s, old(i), n); if d.Got? then r == Some(d.v) && i == d.i else r == None
    {
      var v: nat := 0;
      var start := i;
      for k := 0 to n
        invariant start <= i <= |s| && i == start + k && v == Number(s[start..i])
      {
        if i >= |s| { return None; }
        v := v * 256 + s[i];
        assert s[start..i + 1][..k] == s[start..i];
        i := i + 1;
      }
      r := Some(v);
    }

    method Take(n: nat) returns (r: Option<Str>)
      requires i <= |s|
      modifies this`i
      ensures old(i) <= i <= |s|
      ensures var d := TakeAt(s, old(i), n); if d.Got? then r == Some(d.v) && i == d.i else r == None
    {
      if i + n > |s| { return None; }
      r := Some(s[i..i + n]);
      i := i + n;
    }

    method TakeCounted(w: nat) returns (r: Option<Str>)
      requires i <= |s|
      modifies this`i
      ensures old(i) <= i <= |s|
      ensures var d := TakeCountedAt(s, old(i), w); if d.Got? then r == Some(d.v) && i == d.i else r == None
    {
      var n := Be(w);
      if n.None? { return None; }
      r := Take(n.value);
    }

    /** `read`: a value gives the depth back. So does an error, but for the one that the document
        is nested too deeply, which is thrown after counting and before anything counts back. */
    method Read(x: Texts) returns (r: Option<Value>)
      requires i <= |s|
      modifies this
      ensures old(i) <= i <= |s| && Counted(r, old(depth))
      ensures old(depth) >= MAX_DEPTH ==> r.None? && depth == old(depth) + 1
      ensures var d := Decode(x, s, old(i), old(depth)); if d.Got? then r == Some(d.v) && i == d.i else r == None
      decreases |s| - i, 0
    {
      depth := depth + 1;
      if depth > MAX_DEPTH { return None; }
      if i < |s| {
        i := i + 1;
        r := Body(x, FormOf(s[i - 1]));
      } else {
        r := None;
      }
      depth := depth - 1;
    }

    predicate Counted(r: Option<Value>, was: nat)
      reads this`depth
    {
      depth == was || (r.None? && depth == was + 1)
    }

    method Body(x: Texts, form: Form) returns (r: Option<Value>)
      requires 0 < i <= |s| && 0 < depth <= MAX_DEPTH && form == FormOf(s[i - 1])
      modifies this
      ensures old(i) <= i <= |s| && Counted(r, old(depth))
      ensures var d := Decode(x, s, old(i) - 1, old(depth) - 1); if d.Got? then r == Some(d.v) && i == d.i else r == None
      decreases |s| - i, 3
    {
      match form {
        case FixInt(k) => r := Some(I64(k));
        case Literal(v) => r := Some(v);
        case FixMap(n) => r := ReadMap(x, n);
        case FixArr(n) => r := ReadArray(x, n);
        case FixStr(n) =>
          var t := Take(n);
          r := if t.Some? then Some(String(t.value)) else None;
        case BinForm(w) =>
          var t := TakeCounted(w);
          r := if t.Some? then Some(Bytes(t.value)) else None;
        case StrForm(w) =>
          var t := TakeCounted(w);
          r := if t.Some? then Some(String(t.value)) else None;
        case FloatForm(w) =>
          var d := FloatAt(s, i, w);
          if d.Fail? { return None; }
          r, i := Some(d.v), d.i;
        case IntForm(w, signed) =>
          var d := IntAt(x, s, i, w, signed);
          if d.Fail? { return None; }
          r, i := Some(d.v), d.i;
        case ArrForm(w) =>
          var n := Be(w);
          if n.None? { return None; }
          r := ReadArray(x, n.value);
        case MapForm(w) =>
          var n := Be(w);
          if n.None? { return None; }
          r := ReadMap(x, n.value);
        case Unsupported => r := None;
      }
    }

    method ReadArray(x: Texts, n: nat) returns (r: Option<Value>)
      requires i <= |s|
      modifies this
      ensures old(i) <= i <= |s| && Counted(r, old(depth))
      ensures var d := DecodeArray(x, s, old(i), n, old(depth)); if d.Got? then r == Some(d.v) && i == d.i else r == None
      decreases |s| - i, 2
    {
      if n > |s| { return None; }
      var items := [];
      ghost var d := depth;
      ghost var goal := DecodeItems(x, s, i, n, d);
      PrependNone(goal);
      for k := 0 to n
        invariant old(i) <= i <= |s| && depth == d
        invariant Prepend(items, DecodeItems(x, s, i, n - k, d)) == goal
      {
        var v := Read(x);
        if v.None? { return None; }
        PrependOne(items, v.value, DecodeItems(x, s, i, n - k - 1, d));
        items := items + [v.value];
      }
      assert items + [] == items;
      r := Some(Arr(items));
    }

    method ReadMap(x: Texts, n: nat) returns (r: Option<Value>)
      requires i <= |s|
      modifies this
      ensures old(i) <= i <= |s| && Counted(r, old(depth))
      ensures var d := DecodeMap(x, s, old(i), n, old(depth)); if d.Got? then r == Some(d.v) && i == d.i else r == None
      decreases |s| - i, 2
    {
      hide Decode, DecodeEntries, SetField;
      if n > |s| { return None; }
      var o := Obj([]);
      ghost var d := depth;
      ghost var goal := DecodeEntries(x, s, i, n, o, d);
      for k := 0 to n
        invariant old(i) <= i <= |s| && depth == d
        invariant DecodeEntries(x, s, i, n - k, o, d) == goal
      {
        EntriesStep(x, s, i, n - k, o, d);
        var key := Read(x);
        if key.None? || !key.value.IsStringy() { return None; }
        var v := Read(x);
        if v.None? { return None; }
        o := SetField(o, key.value.Text(), v.value);
      }
      EntriesStep(x, s, i, 0, o, d);
      r := Some(o);
    }
  }

  /** One turn of the loop of `read_map`. */
  lemma EntriesStep(x: Texts, s: Str, i: nat, n: nat, o: Value, depth: nat)
    requires i <= |s|
    ensures n == 0 ==> DecodeEntries(x, s, i, n, o, depth) == Got(o, i)
    ensures n > 0 ==>
      var key := Decode(x, s, i, depth);
      DecodeEntries(x, s, i, n, o, depth)
      == if key.Fail? || !key.v.IsStringy() then Fail
         else
           match Decode(x, s, key.i, depth)
           case Fail => Fail
           case Got(v, k) => DecodeEntries(x, s, k, n - 1, SetField(o, key.v.Text(), v), depth)
  {
  }

  function Prepend(vs: seq<Value>, r: Read<seq<Value>>): Read<seq<Value>> {
    match r case Got(rest, i) => Got(vs + rest, i) case Fail => Fail
  }

  lemma PrependNone(r: Read<seq<Value>>)
    ensures Prepend([], r) == r
  {
    if r.Got? { assert [] + r.v == r.v; }
  }

  lemma PrependOne(vs: seq<Value>, v: Value, r: Read<seq<Value>>)
    ensures Prepend(vs + [v], r) == Prepend(vs, Prepend([v], r))
  {
    if r.Got? { assert vs + [v] + r.v == vs + ([v] + r.v); }
  }
}
