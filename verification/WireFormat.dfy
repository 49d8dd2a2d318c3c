/** MessagePack's wire format as its specification tables it, against the writer and the reader. */
module WireFormat {
  import opened Values
  import opened Numbers
  import opened Arithmetic
  import opened MsgPack

  // ---- numbers --------------------------------------------------------------------------

  /** A number of so many bytes has its most significant byte first. */
  lemma {:induction false} BigEndian(v: nat, n: nat, j: nat)
    requires j < n
    ensures PutBe(v, n)[j] == v / Pow(n - 1 - j) % 256
    decreases n
  {
    if j < n - 1 {
      BigEndian(v / 256, n - 1, j);
      DivDiv(v, 256, Pow(n - 2 - j));
    } else {
      assert v / 1 == v;
    }
  }

  /** One, two, four and eight bytes are the codes 0, 1, 2 and 3 of a family of formats. */
  function CodeOf(w: nat): nat
    requires w in {1, 2, 4, 8}
  {
    if w == 1 then 0 else if w == 2 then 1 else if w == 4 then 2 else 3
  }

  // ---- what is written --------------------------------------------------------------------

  /** The format a value is written in: the type byte, the width of the number behind it, that number. */
  datatype Format = Format(code: int, width: nat, number: nat)

  function CountFormat(n: nat, fix: int, room: nat, family: int, narrowest: nat): Format
    requires n < 0x1_0000_0000 && narrowest in {1, 2}
  {
    if n < room then Format(fix + n, 0, 0)
    else
      var w := if UintWidth(n) < narrowest then narrowest else UintWidth(n);
      Format(family + CodeOf(w), w, n)
  }

  /** The formats overview of the specification, with the narrowest format that holds the value. */
  function FormatOf(x: Texts, v: Value): Format
    requires Encodable(x, v)
  {
    match v
    case Null | Deleted | Nothing => Format(0xC0, 0, 0)
    case Bool(b) => Format(0xC2 + if b then 1 else 0, 0, 0)
    case F32(bits) => Format(0xCA, 4, bits)
    case F64(bits) => Format(0xCB, 8, bits)
    case I64(i) =>
      if -32 <= i < 128 then Format(if i < 0 then 256 + i else i, 0, 0)
      else if i >= 0 then Format(0xCC + CodeOf(UintWidth(i)), UintWidth(i), i)
      else Format(0xD0 + CodeOf(IntWidth(i)), IntWidth(i), Pow(IntWidth(i)) + i)
    case Bytes(s) => CountFormat(|s|, 0, 0, 0xC4, 1)
    case RawNumber(s) => CountFormat(|s|, 0xA0, 32, 0xD9, 1)
    case String(s) => CountFormat(|s|, 0xA0, 32, 0xD9, 1)
    case Timestamp(n, o) => CountFormat(|x.show(n, o)|, 0xA0, 32, 0xD9, 1)
    case Arr(items) => CountFormat(|items|, 0x90, 16, 0xDB, 2)
    case Obj(es) => CountFormat(|es|, 0x80, 16, 0xDD, 2)
  }

  /** What follows the format. */
  function Content(x: Texts, v: Value): Str {
    match v
    case Bytes(s) => s
    case RawNumber(s) => s
    case String(s) => s
    case Timestamp(n, o) => x.show(n, o)
    case Arr(items) => EncodeItems(x, items)
    case Obj(es) => EncodeEntries(x, es)
    case Null | Bool(_) | I64(_) | F64(_) | F32(_) | Deleted | Nothing => []
  }

  /** Every value is written as its format's type byte, its number and its content. */
  lemma Written(x: Texts, v: Value)
    requires Encodable(x, v)
    ensures var f := FormatOf(x, v);
            0 <= f.code < 256 && Encode(x, v) == [f.code] + PutBe(f.number, f.width) + Content(x, v)
  {
    hide PutBe, Pow, EncodeInt, Header, CountFormat;
    NoBytes();
    match v {
      case I64(i) => IntegerWritten(i);
      case Bytes(s) => CountWritten(|s|, 0, 0, 0xC4, 1);
      case RawNumber(s) => CountWritten(|s|, 0xA0, 32, 0xD9, 1);
      case String(s) => CountWritten(|s|, 0xA0, 32, 0xD9, 1);
      case Timestamp(n, o) => CountWritten(|x.show(n, o)|, 0xA0, 32, 0xD9, 1);
      case Arr(items) => CountWritten(|items|, 0x90, 16, 0xDB, 2);
      case Obj(es) => CountWritten(|es|, 0x80, 16, 0xDD, 2);
      case Null | Bool(_) | F64(_) | F32(_) | Deleted | Nothing =>
    }
  }

  lemma NoBytes()
    ensures forall v :: PutBe(v, 0) == []
  {
  }

  lemma CountWritten(n: nat, fix: int, room: nat, family: int, narrowest: nat)
    requires n < 0x1_0000_0000 && narrowest in {1, 2}
    requires 0 <= fix && room <= 32 && fix + room <= 256 && 0xC4 <= family <= 0xDD
    ensures var f := CountFormat(n, fix, room, family, narrowest);
            && 0 <= f.code < 256
            && Header(n, fix, room, if narrowest == 1 then family else 0, family + 1, family + 2) == [f.code] + PutBe(f.number, f.width)
  {
    hide PutBe;
    NoBytes();
  }

  lemma IntegerWritten(i: Int64)
    ensures var f := FormatOf(Texts((_, _) => [], b => b), I64(i)); EncodeInt(i) == [f.code] + PutBe(f.number, f.width)
  {
    hide PutBe, Pow;
    NoBytes();
    Powers();
    if i < -32 {
      var w := IntWidth(i);
      WholeBytes(w);
      SameLowBytes(ToU64(i), Pow(w) + i, w, TWO64 / Pow(w) - 1);
    }
  }

  lemma WholeBytes(w: nat)
    requires w in {1, 2, 4, 8}
    ensures TWO64 / Pow(w) * Pow(w) == TWO64
  {
    hide Pow;
    Powers();
  }

  /** Numbers that differ by a multiple of 256^n have the same low bytes. */
  lemma {:induction false} SameLowBytes(v: nat, u: nat, n: nat, k: nat)
    requires v == u + k * Pow(n)
    ensures PutBe(v, n) == PutBe(u, n)
  {
    if n > 0 {
      var m := k * Pow(n - 1);
      assert k * (256 * Pow(n - 1)) == 256 * m;
      assert v / 256 == u / 256 + m && v % 256 == u % 256;
      SameLowBytes(v / 256, u / 256, n - 1, k);
    }
  }

  // ---- what is read -----------------------------------------------------------------------

  /** An integer is read from every width, signed in two's complement or unsigned, whether the writer
      would have chosen it or not; above the signed range it becomes a double. */
  lemma IntegersRead(x: Texts, w: nat, u: nat, signed: bool)
    requires w in {1, 2, 4, 8} && u < Pow(w)
    ensures var doc := [(if signed then 0xD0 else 0xCC) + CodeOf(w)] + PutBe(u, w);
            Decode(x, doc, 0, 0) ==
            if signed && u >= Pow(w) / 2 then Got(I64(u - Pow(w)), 1 + w)
            else if u < 0x8000_0000_0000_0000 then Got(I64(u), 1 + w)
            else Got(F64(x.big(u)), 1 + w)
  {
    hide PutBe, Pow;
    Powers();
    var b := (if signed then 0xD0 else 0xCC) + CodeOf(w);
    var doc := [b] + PutBe(u, w);
    assert doc == Lead(b, u, w) && doc[0..0 + |doc|] == doc;
    AtLead(doc, 0, b, u, w);
    assert u % Pow(w) == u;
  }

  /** Strings and byte strings are read behind a count of every width. */
  lemma CountsRead(x: Texts, w: nat, t: Str)
    requires w in {1, 2, 4} && |t| < Pow(w)
    ensures Decode(x, [0xC4 + CodeOf(w)] + PutBe(|t|, w) + t, 0, 0) == Got(Bytes(t), 1 + w + |t|)
    ensures Decode(x, [0xD9 + CodeOf(w)] + PutBe(|t|, w) + t, 0, 0) == Got(String(t), 1 + w + |t|)
  {
    hide PutBe, Pow, BeAt, TakeCountedAt;
    CountRead(0xC4 + CodeOf(w), w, t);
    CountRead(0xD9 + CodeOf(w), w, t);
  }

  lemma CountThenText(doc: Str, w: nat, t: Str)
    requires BeAt(doc, 1, w) == Got(|t|, 1 + w) && At(doc, 1 + w, t)
    ensures TakeCountedAt(doc, 1, w) == Got(t, 1 + w + |t|)
  {
    hide BeAt;
  }

  lemma LeadAndText(b: Byte, w: nat, t: Str)
    ensures var doc := [b] + PutBe(|t|, w) + t; At(doc, 0, Lead(b, |t|, w)) && At(doc, 1 + w, t)
  {
    hide PutBe;
  }

  lemma CountRead(b: Byte, w: nat, t: Str)
    requires |t| < Pow(w)
    ensures var doc := [b] + PutBe(|t|, w) + t; doc[0] == b && TakeCountedAt(doc, 1, w) == Got(t, 1 + w + |t|)
  {
    hide *;
    var doc := [b] + PutBe(|t|, w) + t;
    LeadAndText(b, w, t);
    WideNumber(doc, 0, b, |t|, w);
    CountThenText(doc, w, t);
  }

  /** The reserved byte and the extension types are refused, and nothing else is for its type byte. */
  lemma Refused(b: Byte)
    ensures FormOf(b).Unsupported? <==> b == 0xC1 || 0xC7 <= b <= 0xC9 || 0xD4 <= b <= 0xD8
  {
  }

  /** A document up to a thousand and twenty-four deep is read, a deeper one is not. */
  lemma DepthLimit(x: Texts, v: Value)
    requires Encodable(x, v)
    ensures Parse(x, Encode(x, v)).Some? <==> Depth(v) <= 1024
  {
    FormatThenParse(x, v);
  }
}
