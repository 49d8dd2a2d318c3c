/** Boxed arithmetic and comparison (`sf::num::*`, `cmp_*`) over an arbitrary
    interpretation of double arithmetic. */
module Numbers {
  import opened Values

  /** Everything the program asks of IEEE arithmetic, left uninterpreted. */
  datatype FloatOps = FloatOps(
    add: (Bits64, Bits64) -> Bits64,
    sub: (Bits64, Bits64) -> Bits64,
    mul: (Bits64, Bits64) -> Bits64,
    div: (Bits64, Bits64) -> Bits64,
    neg: Bits64 -> Bits64,
    isZero: Bits64 -> bool,
    less: (Bits64, Bits64) -> bool,
    equal: (Bits64, Bits64) -> bool,
    ofInt: Int64 -> Bits64,
    toInt: Bits64 -> Int64,
    widen: Bits32 -> Bits64,
    parse: Str -> Bits64,
    parseInt: Str -> Int64)

  const TWO64: int := 0x1_0000_0000_0000_0000

  /** `static_cast<uint64_t>` and back. */
  function ToU64(i: Int64): Bits64 { if i < 0 then i + TWO64 else i }

  function ToI64(u: Bits64): Int64 { if u < 0x8000_0000_0000_0000 then u else u - TWO64 }

  datatype ArithOp = Add | Sub | Mul

  function FastInt(op: ArithOp, a: Int64, b: Int64): Int64 {
    var x, y := ToU64(a), ToU64(b);
    ToI64(match op
          case Add => (x + y) % TWO64
          case Sub => (x - y) % TWO64
          case Mul => (x * y) % TWO64)
  }

  function Exact(op: ArithOp, a: int, b: int): int {
    match op case Add => a + b case Sub => a - b case Mul => a * b
  }

  /** Integer arithmetic wraps as Go's does: the result, which lies in the signed
      64-bit range, differs from the exact one by a multiple of 2^64. */
  lemma FastIntWraps(op: ArithOp, a: Int64, b: Int64) returns (k: int)
    ensures FastInt(op, a, b) == Exact(op, a, b) + k * TWO64
  {
    var i: int := if a < 0 then 1 else 0;
    var j: int := if b < 0 then 1 else 0;
    var u: int;
    match op {
      case Add => u, k := ToU64(a) + ToU64(b), i + j;
      case Sub => u, k := ToU64(a) - ToU64(b), i - j;
      case Mul =>
        u, k := ToU64(a) * ToU64(b), i * b + j * a + i * j * TWO64;
        ShiftedProduct(a, b, i, j, TWO64);
    }
    var r := Reduced(u);
    k := k + r;
  }

  lemma ShiftedProduct(a: int, b: int, i: int, j: int, m: int)
    ensures (a + i * m) * (b + j * m) == a * b + (i * b + j * a + i * j * m) * m
  {
    calc {
      (a + i * m) * (b + j * m);
      a * (b + j * m) + i * m * (b + j * m);
      a * b + a * (j * m) + (i * m * b + i * m * (j * m));
      { assert a * (j * m) == j * a * m; assert i * m * b == i * b * m; assert i * m * (j * m) == i * j * m * m; }
      a * b + (i * b + j * a + i * j * m) * m;
    }
  }

  lemma Reduced(u: int) returns (r: int)
    ensures ToI64(u % TWO64) == u + r * TWO64
  {
    r := -(u / TWO64) - (if u % TWO64 < 0x8000_0000_0000_0000 then 0 else 1);
  }

  /** C++ remainder: truncated towards zero. */
  function TruncRem(a: int, b: int): int
    requires b != 0
  {
    if a >= 0 then a % (if b < 0 then -b else b) else -((-a) % (if b < 0 then -b else b))
  }

  function FastMod(a: Int64, b: Int64): Option<Int64> {
    if b == 0 then None
    else if b == -1 then Some(0)
    else Some(TruncRem(a, b))
  }

  function AsI64(fl: FloatOps, v: Value): Option<Int64> {
    match v
    case I64(i) => Some(i)
    case F64(d) => Some(fl.toInt(d))
    case F32(d) => Some(fl.toInt(fl.widen(d)))
    case RawNumber(s) => Some(fl.parseInt(s))
    case _ => None
  }

  /** `as_f64` on a number. */
  function AsF64(fl: FloatOps, v: Value): Bits64
    requires v.IsNumber()
  {
    match v
    case I64(i) => fl.ofInt(i)
    case F64(d) => d
    case F32(d) => fl.widen(d)
    case RawNumber(s) => fl.parse(s)
  }

  function FloatArith(fl: FloatOps, op: ArithOp, a: Bits64, b: Bits64): Bits64 {
    match op
    case Add => fl.add(a, b)
    case Sub => fl.sub(a, b)
    case Mul => fl.mul(a, b)
  }

  /** Integral operands stay integral, anything else degrades to double. */
  function Degrade(fl: FloatOps, op: ArithOp, l: Value, r: Value): Result {
    if l.I64? && r.I64? then Ok(I64(FastInt(op, l.i, r.i)))
    else if !l.IsNumber() || !r.IsNumber() then Err
    else Ok(F64(FloatArith(fl, op, AsF64(fl, l), AsF64(fl, r))))
  }

  /** `+` dispatches on its left operand; on strings it concatenates. */
  function AddValues(fl: FloatOps, l: Value, r: Value): Result {
    if l.IsNumber() then Degrade(fl, Add, l, r)
    else if l.IsStringy() && r.IsStringy() then Ok(String(l.Text() + r.Text()))
    else Err
  }

  function DivValues(fl: FloatOps, l: Value, r: Value): Result {
    if !l.IsNumber() || !r.IsNumber() then Err
    else if fl.isZero(AsF64(fl, r)) then Err
    else Ok(F64(fl.div(AsF64(fl, l), AsF64(fl, r))))
  }

  function ModValues(fl: FloatOps, l: Value, r: Value): Result {
    match (AsI64(fl, l), AsI64(fl, r))
    case (Some(a), Some(b)) =>
      (match FastMod(a, b)
       case Some(m) => Ok(I64(m))
       case None => Err)
    case _ => Err
  }

  /** `compare`: -1, 0 or 1, or no order at all. */
  function Compare(fl: FloatOps, l: Value, r: Value): Option<int> {
    if l.IsNumber() && r.IsNumber() then
      var a, b := AsF64(fl, l), AsF64(fl, r);
      Some(if fl.less(a, b) then -1 else if fl.less(b, a) then 1 else 0)
    else if l.IsStringy() && r.IsStringy() then
      Some(if Less(l.Text(), r.Text()) then -1 else if Less(r.Text(), l.Text()) then 1 else 0)
    else None
  }

  /** `operator==`. */
  predicate ValueEq(fl: FloatOps, a: Value, b: Value)
    decreases a
  {
    if a.IsNumber() && b.IsNumber() then
      if a.I64? && b.I64? then a.i == b.i else fl.equal(AsF64(fl, a), AsF64(fl, b))
    else if a.IsStringy() && b.IsStringy() then a.Text() == b.Text()
    else
      match (a, b)
      case (Timestamp(x, _), Timestamp(y, _)) => x == y
      case (Null, Null) => true
      case (Deleted, Deleted) => true
      case (Nothing, Nothing) => true
      case (Bool(x), Bool(y)) => x == y
      case (Arr(x), Arr(y)) =>
        |x| == |y| && forall i :: 0 <= i < |x| ==> ValueEq(fl, x[i], y[i])
      case (Obj(x), Obj(y)) =>
        |x| == |y| && forall i :: 0 <= i < |x| ==> x[i].key == y[i].key && ValueEq(fl, x[i].val, y[i].val)
      case _ => false
  }
}
