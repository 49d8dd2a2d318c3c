/** The unboxed fast path emitted under a type guard, and its refinement of the
    boxed arithmetic the interpreter performs. */
module FastPath {
  import opened Values
  import opened Numbers
  import opened Bloblang
  import opened Interp

  /** Unboxed C++ arithmetic over the leaves f0, f1, ... */
  datatype FExpr =
    | FInt(i: Int64)
    | FFloat(d: Bits64)
    | FLeaf(k: nat)
    | FIntOp(op: ArithOp, l: FExpr, r: FExpr)
    | FFloatOp(op: ArithOp, l: FExpr, r: FExpr)
    | FNegFloat(x: FExpr)
    | FDiv(l: FExpr, r: FExpr)
    | FMod(l: FExpr, r: FExpr)
    | FWiden(x: FExpr)

  predicate IsFloat(x: FExpr) { x.FFloat? || x.FFloatOp? || x.FNegFloat? || x.FDiv? || x.FWiden? }

  datatype Built = Built(code: FExpr, leaves: seq<Str>)

  function LeafVar(leaves: seq<Str>, key: Str): (k: nat)
    ensures k <= |leaves| && (k < |leaves| ==> leaves[k] == key)
  {
    if leaves == [] || leaves[0] == key then 0 else 1 + LeafVar(leaves[1..], key)
  }

  function AsFloat(x: FExpr): FExpr { if IsFloat(x) then x else FWiden(x) }

  function ArithOf(op: BinOp): Option<ArithOp> {
    match op
    case AddOp => Some(Add)
    case SubOp => Some(Sub)
    case MulOp => Some(Mul)
    case _ => None
  }

  /** `fast_path::visit`: declines anything but arithmetic over `this.<field>` and
      numeric literals; `leaves` grows in first-seen order. */
  function Build(e: Expr, leaves: seq<Str>): (b: Option<Built>)
    ensures b.Some? ==> leaves <= b.value.leaves
  {
    match e
    case Lit(I64(i)) => Some(Built(FInt(i), leaves))
    case Lit(F64(d)) => Some(Built(FFloat(d), leaves))
    case Field(t, key) =>
      if !t.This? then None
      else
        var k := LeafVar(leaves, key);
        Some(Built(FLeaf(k), if k < |leaves| then leaves else leaves + [key]))
    case Neg(x) =>
      (match Build(x, leaves)
       case None => None
       case Some(b) =>
         Some(Built(Negated(b.code), b.leaves)))
    case Binary(op, x, y) =>
      (match Build(x, leaves)
       case None => None
       case Some(a) =>
         match Build(y, a.leaves)
         case None => None
         case Some(b) =>
           match Combined(op, a.code, b.code)
           case None => None
           case Some(code) => Some(Built(code, b.leaves)))
    case _ => None
  }

  datatype FVal = FI(i: Int64) | FD(d: Bits64)

  /** Running the unboxed code; `None` is the thrown division or modulo by zero. */
  function FEval(fl: FloatOps, x: FExpr, fs: seq<Int64>): Option<FVal> {
    match x
    case FInt(i) => Some(FI(i))
    case FFloat(d) => Some(FD(d))
    case FLeaf(k) => if k < |fs| then Some(FI(fs[k])) else None
    case FIntOp(op, l, r) =>
      (match (FEval(fl, l, fs), FEval(fl, r, fs))
       case (Some(FI(a)), Some(FI(b))) => Some(FI(FastInt(op, a, b)))
       case _ => None)
    case FFloatOp(op, l, r) =>
      (match (FEval(fl, l, fs), FEval(fl, r, fs))
       case (Some(FD(a)), Some(FD(b))) => Some(FD(FloatArith(fl, op, a, b)))
       case _ => None)
    case FNegFloat(y) =>
      (match FEval(fl, y, fs) case Some(FD(a)) => Some(FD(fl.neg(a))) case _ => None)
    case FDiv(l, r) =>
      (match (FEval(fl, l, fs), FEval(fl, r, fs))
       case (Some(FD(a)), Some(FD(b))) => if fl.isZero(b) then None else Some(FD(fl.div(a, b)))
       case _ => None)
    case FMod(l, r) =>
      (match (FEval(fl, l, fs), FEval(fl, r, fs))
       case (Some(FI(a)), Some(FI(b))) =>
         (match FastMod(a, b) case Some(m) => Some(FI(m)) case None => None)
       case _ => None)
    case FWiden(y) =>
      (match FEval(fl, y, fs) case Some(FI(a)) => Some(FD(fl.ofInt(a))) case _ => None)
  }

  /** `sf::value(code)`. */
  function Box(v: Option<FVal>): Result {
    match v case Some(FI(i)) => Ok(I64(i)) case Some(FD(d)) => Ok(F64(d)) case None => Err
  }

  /** Unary minus is subtraction from zero at this double. */
  predicate NegAgreesAt(fl: FloatOps, d: Bits64) { fl.neg(d) == fl.sub(fl.ofInt(0), d) }

  /** It is at every double that the expression negates. */
  predicate NegsAgree(fl: FloatOps, e: Expr, self: Value) {
    match e
    case Neg(x) =>
      NegsAgree(fl, x, self) && (match BySign(fl, x, self) case Ok(F64(d)) => NegAgreesAt(fl, d) case _ => true)
    case Binary(_, x, y) => NegsAgree(fl, x, self) && NegsAgree(fl, y, self)
    case _ => true
  }

  /** The guard: every leaf read is an int64, and these are the values. */
  ghost predicate Guarded(self: Value, leaves: seq<Str>, fs: seq<Int64>) {
    |fs| == |leaves| && forall k :: 0 <= k < |leaves| ==> GetField(self, leaves[k]) == I64(fs[k])
  }

  function Keys(leaves: seq<Str>): set<Str> { set k | k in leaves }

  /** What can be built is arithmetic; its leaves are the fields read, and its static type is
      the one its parts give it. */
  lemma {:induction false} BuildIff(e: Expr, leaves: seq<Str>)
    ensures Build(e, leaves).Some? <==> Arithmetic(e)
    ensures var b := Build(e, leaves);
            b.Some? ==> IsFloat(b.value.code) == FloatTyped(e) && Keys(b.value.leaves) == Keys(leaves) + FieldsRead(e)
  {
    if e.Neg? {
      BuildIff(e.operand, leaves);
    } else if e.Binary? {
      BuildIff(e.lhs, leaves);
      var a := Build(e.lhs, leaves);
      if a.Some? { BuildIff(e.rhs, a.value.leaves); }
    }
  }

  /** The built code has the static type its value turns out to have, and boxes to the value
      of the expression. */
  ghost predicate Refines(fl: FloatOps, e: Expr, self: Value, x: FExpr, fs: seq<Int64>) {
    Typed(fl, x, fs) && Box(FEval(fl, x, fs)) == BySign(fl, e, self)
  }

  /** Under the guard the unboxed code computes the expression, minus on doubles by sign. */
  lemma {:induction false} FastIsBySign(fl: FloatOps, e: Expr, self: Value, leaves: seq<Str>, all: seq<Str>, fs: seq<Int64>)
    requires Build(e, leaves).Some? && Build(e, leaves).value.leaves <= all && Guarded(self, all, fs)
    ensures Refines(fl, e, self, Build(e, leaves).value.code, fs)
    decreases e
  {
    if e.Field? {
      FieldReads(fl, e, self, leaves, all, fs);
    } else if e.Neg? {
      var b := Build(e.operand, leaves).value;
      FastIsBySign(fl, e.operand, self, leaves, all, fs);
      NegIsBySign(fl, b.code, fs);
    } else if e.Binary? {
      var a := Build(e.lhs, leaves).value;
      var b := Build(e.rhs, a.leaves).value;
      FastIsBySign(fl, e.lhs, self, leaves, all, fs);
      FastIsBySign(fl, e.rhs, self, a.leaves, all, fs);
      RefinesBinary(fl, e, self, a.code, b.code, fs);
    } else {
      RefinesLiteral(fl, e, self, leaves, fs);
    }
  }

  lemma RefinesLiteral(fl: FloatOps, e: Expr, self: Value, leaves: seq<Str>, fs: seq<Int64>)
    requires Build(e, leaves).Some? && !e.Field? && !e.Neg? && !e.Binary?
    ensures Refines(fl, e, self, Build(e, leaves).value.code, fs)
  {
  }

  lemma RefinesBinary(fl: FloatOps, e: Expr, self: Value, a: FExpr, b: FExpr, fs: seq<Int64>)
    requires e.Binary? && Combined(e.op, a, b).Some?
    requires Refines(fl, e.lhs, self, a, fs) && Refines(fl, e.rhs, self, b, fs)
    ensures Refines(fl, e, self, Combined(e.op, a, b).value, fs)
  {
    hide Apply2, Combined, FEval;
    CombinedIsBoxed(fl, e.op, a, b, fs);
  }

  /** Where minus on doubles is subtraction from zero, that is what the interpreter computes. */
  lemma {:induction false} BySignIsBoxed(l: Lib, p: Mapping, e: Expr, c: Ctx)
    requires Arithmetic(e) && c.thisV.Some? && NegsAgree(l.fl, e, c.thisV.value)
    ensures Eval(l, p, e, c) == Out(BySign(l.fl, e, c.thisV.value), c)
    decreases e
  {
    hide Apply2, Degrade;
    if e.Field? {
      assert Eval(l, p, e.target, c) == Out(Ok(c.thisV.value), c);
    } else if e.Neg? {
      BySignIsBoxed(l, p, e.operand, c);
      EvalNeg(l, p, e.operand, c);
      NegAgrees(l.fl, e.operand, c.thisV.value);
    } else if e.Binary? {
      BySignIsBoxed(l, p, e.lhs, c);
      BySignIsBoxed(l, p, e.rhs, c);
      EvalStrict(l, p, e, c);
    }
  }

  lemma NegAgrees(fl: FloatOps, x: Expr, self: Value)
    requires NegsAgree(fl, Neg(x), self)
    ensures BySign(fl, Neg(x), self) ==
            match BySign(fl, x, self) case Ok(v) => Degrade(fl, Sub, I64(0), v) case Err => Err
  {
  }

  /** The unboxed expression gives the boxed one's value or failure. */
  lemma FastRefinesBoxed(l: Lib, p: Mapping, e: Expr, c: Ctx, fs: seq<Int64>)
    requires Build(e, []).Some? && c.thisV.Some? && Guarded(c.thisV.value, Build(e, []).value.leaves, fs)
    requires NegsAgree(l.fl, e, c.thisV.value)
    ensures Eval(l, p, e, c) == Out(Box(FEval(l.fl, Build(e, []).value.code, fs)), c)
  {
    BuildIff(e, []);
    FastIsBySign(l.fl, e, c.thisV.value, [], Build(e, []).value.leaves, fs);
    BySignIsBoxed(l, p, e, c);
  }

  lemma EvalNeg(l: Lib, p: Mapping, x: Expr, c: Ctx)
    requires Eval(l, p, x, c).c == c
    ensures Eval(l, p, Neg(x), c) ==
            Out(var r := Eval(l, p, x, c).r; if r.Err? then Err else Degrade(l.fl, Sub, I64(0), r.v), c)
  {
  }

  lemma EvalStrict(l: Lib, p: Mapping, e: Expr, c: Ctx)
    requires e.Binary? && !e.op.AndOp? && !e.op.OrOp? && !e.op.Coalesce?
    requires Eval(l, p, e.lhs, c).c == c && Eval(l, p, e.rhs, c).c == c
    ensures Eval(l, p, e, c) ==
            Out(var x, y := Eval(l, p, e.lhs, c).r, Eval(l, p, e.rhs, c).r;
                if x.Err? || y.Err? then Err else Apply2(l.fl, e.op, x.v, y.v), c)
  {
    assert Eval(l, p, e, c) == EvalBinary(l, p, e, c);
  }

  function Negated(x: FExpr): FExpr { if IsFloat(x) then FNegFloat(x) else FIntOp(Sub, FInt(0), x) }

  lemma NegIsBySign(fl: FloatOps, x: FExpr, fs: seq<Int64>)
    requires Typed(fl, x, fs)
    ensures Typed(fl, Negated(x), fs)
    ensures Box(FEval(fl, Negated(x), fs)) ==
            match Box(FEval(fl, x, fs))
            case Ok(F64(d)) => Ok(F64(fl.neg(d)))
            case Ok(v) => Degrade(fl, Sub, I64(0), v)
            case Err => Err
  {
    assert FEval(fl, FInt(0), fs) == Some(FI(0));
  }

  lemma FieldReads(fl: FloatOps, e: Expr, self: Value, leaves: seq<Str>, all: seq<Str>, fs: seq<Int64>)
    requires e.Field? && e.target.This? && Guarded(self, all, fs)
    requires Build(e, leaves).value.leaves <= all
    ensures Refines(fl, e, self, Build(e, leaves).value.code, fs)
  {
    var k, b := LeafVar(leaves, e.key), Build(e, leaves).value;
    assert all[k] == b.leaves[k] == e.key;
    assert GetField(self, all[k]) == I64(fs[k]);
  }

  /** The value a code fragment stands for, once promoted to double. */
  lemma Promoted(fl: FloatOps, x: FExpr, fs: seq<Int64>)
    requires Typed(fl, x, fs)
    ensures FEval(fl, AsFloat(x), fs) ==
            match FEval(fl, x, fs)
            case Some(FI(i)) => Some(FD(fl.ofInt(i)))
            case Some(FD(d)) => Some(FD(d))
            case None => None
  {
  }

  /** What a binary node is built into. */
  function Combined(op: BinOp, a: FExpr, b: FExpr): Option<FExpr> {
    var bothInt := !IsFloat(a) && !IsFloat(b);
    if ArithOf(op).Some? then
      Some(if bothInt then FIntOp(ArithOf(op).value, a, b)
           else FFloatOp(ArithOf(op).value, AsFloat(a), AsFloat(b)))
    else if op.DivOp? then Some(FDiv(AsFloat(a), AsFloat(b)))
    else if op.ModOp? && bothInt then Some(FMod(a, b))
    else None
  }

  predicate Typed(fl: FloatOps, x: FExpr, fs: seq<Int64>) {
    var v := FEval(fl, x, fs); v.Some? ==> v.value.FD? == IsFloat(x)
  }

  /** Combining the operands' values, boxed: wrap-around on integers, promotion otherwise. */
  lemma CombinedIsBoxed(fl: FloatOps, op: BinOp, a: FExpr, b: FExpr, fs: seq<Int64>)
    requires Combined(op, a, b).Some? && Typed(fl, a, fs) && Typed(fl, b, fs)
    ensures var x := Combined(op, a, b).value;
            var va, vb := Box(FEval(fl, a, fs)), Box(FEval(fl, b, fs));
            && Typed(fl, x, fs)
            && Box(FEval(fl, x, fs)) == if va.Err? || vb.Err? then Err else Apply2(fl, op, va.v, vb.v)
  {
    if ArithOf(op).Some? {
      ArithIsBoxed(fl, op, a, b, fs);
    } else {
      hide Degrade, AddValues;
      Promoted(fl, a, fs);
      Promoted(fl, b, fs);
    }
  }

  lemma ArithIsBoxed(fl: FloatOps, op: BinOp, a: FExpr, b: FExpr, fs: seq<Int64>)
    requires ArithOf(op).Some? && Typed(fl, a, fs) && Typed(fl, b, fs)
    ensures var x := Combined(op, a, b).value;
            var va, vb := Box(FEval(fl, a, fs)), Box(FEval(fl, b, fs));
            && Typed(fl, x, fs)
            && Box(FEval(fl, x, fs)) == if va.Err? || vb.Err? then Err else Apply2(fl, op, va.v, vb.v)
  {
    hide DivValues, ModValues, FastInt, FloatArith;
    Promoted(fl, a, fs);
    Promoted(fl, b, fs);
  }

  /** A float-typed negation agrees exactly where negating a double is subtracting it from zero. */
  lemma NegationAgreesAt(l: Lib, p: Mapping, x: Expr, c: Ctx, fs: seq<Int64>)
    requires Build(x, []).Some? && IsFloat(Build(x, []).value.code)
    requires c.thisV.Some? && Guarded(c.thisV.value, Build(x, []).value.leaves, fs)
    requires NegsAgree(l.fl, x, c.thisV.value)
    ensures var operand := Eval(l, p, x, c).r;
            && (operand.Ok? ==> operand.v.F64?)
            && (Box(FEval(l.fl, Build(Neg(x), []).value.code, fs)) == Eval(l, p, Neg(x), c).r
                <==> (operand.Ok? ==> NegAgreesAt(l.fl, operand.v.bits)))
  {
    FastRefinesBoxed(l, p, x, c, fs);
    FastIsBySign(l.fl, x, c.thisV.value, [], Build(x, []).value.leaves, fs);
    NegIsBySign(l.fl, Build(x, []).value.code, fs);
    EvalNeg(l, p, x, c);
  }

  const SIGN: int := 0x8000_0000_0000_0000
  const INFINITY: int := 0x7FF0_0000_0000_0000

  predicate Negative(d: Bits64) { d >= SIGN }

  function FlipSign(d: Bits64): Bits64 { if Negative(d) then d - SIGN else d + SIGN }

  predicate IsNaN(d: Bits64) { (if Negative(d) then d - SIGN else d) > INFINITY }

  /** By the fields of the format: the eleven exponent bits set and a fraction of fifty-two that is not zero. */
  lemma NaNFields(d: Bits64)
    ensures IsNaN(d) <==> d / 0x10_0000_0000_0000 % 0x800 == 0x7FF && d % 0x10_0000_0000_0000 != 0
    ensures Negative(d) <==> d / 0x8000_0000_0000_0000 == 1
  {
  }

  /** What IEEE 754 and the hardware say of `-x` and of `0 - x`: the one flips the sign bit of
      anything; the other gives +0.0 for either zero, hands a NaN on with the sign it has,
      and flips the sign of everything else. */
  ghost predicate IeeeNegation(fl: FloatOps) {
    forall d: Bits64 ::
      && fl.neg(d) == FlipSign(d)
      && var r := fl.sub(fl.ofInt(0), d);
         if d == 0 || d == SIGN then r == 0
         else if IsNaN(d) then IsNaN(r) && Negative(r) == Negative(d)
         else r == FlipSign(d)
  }

  /** With IEEE arithmetic a float-typed negation agrees, bit for bit, if and only if its
      operand fails or is neither +0.0 nor a NaN. */
  lemma NegationAgreesIff(l: Lib, p: Mapping, x: Expr, c: Ctx, fs: seq<Int64>)
    requires Build(x, []).Some? && IsFloat(Build(x, []).value.code)
    requires c.thisV.Some? && Guarded(c.thisV.value, Build(x, []).value.leaves, fs)
    requires NegsAgree(l.fl, x, c.thisV.value)
    requires IeeeNegation(l.fl)
    ensures var operand := Eval(l, p, x, c).r;
            && (operand.Ok? ==> operand.v.F64?)
            && (Box(FEval(l.fl, Build(Neg(x), []).value.code, fs)) == Eval(l, p, Neg(x), c).r
                <==> (operand.Ok? ==> operand.v.bits != 0 && !IsNaN(operand.v.bits)))
  {
    hide Eval, FEval, Build, NegsAgree, FlipSign;
    NegationAgreesAt(l, p, x, c, fs);
    var operand := Eval(l, p, x, c).r;
    if operand.Ok? { IeeeAgreesIff(l.fl, operand.v.bits); }
  }

  lemma IeeeAgreesIff(fl: FloatOps, d: Bits64)
    requires IeeeNegation(fl)
    ensures NegAgreesAt(fl, d) <==> d != 0 && !IsNaN(d)
  {
    assert fl.neg(d) == FlipSign(d);
  }

  /** No double that the expression negates is +0.0 or a NaN. */
  predicate NegatesNumbers(fl: FloatOps, e: Expr, self: Value) {
    match e
    case Neg(x) =>
      && NegatesNumbers(fl, x, self)
      && (match BySign(fl, x, self) case Ok(F64(d)) => d != 0 && !IsNaN(d) case _ => true)
    case Binary(_, x, y) => NegatesNumbers(fl, x, self) && NegatesNumbers(fl, y, self)
    case _ => true
  }

  /** What the refinement asks for, in terms of the values: with IEEE arithmetic it is that. */
  lemma {:induction false} NegsAgreeIff(fl: FloatOps, e: Expr, self: Value)
    requires IeeeNegation(fl)
    ensures NegsAgree(fl, e, self) <==> NegatesNumbers(fl, e, self)
  {
    hide IeeeNegation, BySign, NegAgreesAt, IsNaN;
    match e {
      case Neg(x) =>
        NegsAgreeIff(fl, x, self);
        match BySign(fl, x, self) {
          case Ok(F64(d)) => IeeeAgreesIff(fl, d);
          case _ =>
        }
      case Binary(_, x, y) =>
        NegsAgreeIff(fl, x, self);
        NegsAgreeIff(fl, y, self);
      case _ =>
    }
  }

  function ZeroTimes(key: Str): Expr { Binary(MulOp, Lit(F64(0)), Field(This, key)) }

  lemma ZeroTimesNegates(fl: FloatOps, key: Str, self: Value)
    ensures NegsAgree(fl, ZeroTimes(key), self)
  {
  }

  lemma ZeroTimesBuilds(key: Str)
    ensures Build(ZeroTimes(key), []) == Some(Built(FFloatOp(Mul, FFloat(0), FWiden(FLeaf(0))), [key]))
    ensures Build(Neg(ZeroTimes(key)), []).Some? && Build(Neg(ZeroTimes(key)), []).value.leaves == [key]
  {
    var none: seq<Str> := [];
    assert none + [key] == [key];
    assert Build(Lit(F64(0)), none) == Some(Built(FFloat(0), none));
    assert Build(Field(This, key), none) == Some(Built(FLeaf(0), [key]));
  }

  /** At +0.0 the two negations differ: `-(0.0 * this.a)` is -0.0 unboxed and +0.0 boxed. */
  lemma FloatNegationDiverges(l: Lib, p: Mapping, c: Ctx, key: Str)
    requires c.thisV == Some(Obj([Entry(key, I64(1))]))
    requires l.fl.mul(0, l.fl.ofInt(1)) == 0                    // +0.0 * 1.0 == +0.0
    requires l.fl.sub(l.fl.ofInt(0), 0) == 0                    // +0.0 - +0.0 == +0.0
    requires l.fl.neg(0) == 0x8000_0000_0000_0000               // -(+0.0) == -0.0
    ensures var e := Neg(ZeroTimes(key));
            && Build(e, []).Some? && Guarded(c.thisV.value, Build(e, []).value.leaves, [1])
            && Box(FEval(l.fl, Build(e, []).value.code, [1])) != Eval(l, p, e, c).r
  {
    hide Eval, FEval, Build, ZeroTimes;
    var m := ZeroTimes(key);
    ZeroTimesBuilds(key);
    LessTrichotomy(key, key);
    assert Find([Entry(key, I64(1))], key) == Some(I64(1));
    assert Guarded(c.thisV.value, [key], [1]);
    ZeroTimesNegates(l.fl, key, c.thisV.value);
    FastRefinesBoxed(l, p, m, c, [1]);
    ZeroTimesValue(l.fl);
    NegationAgreesAt(l, p, m, c, [1]);
  }

  lemma ZeroTimesValue(fl: FloatOps)
    ensures FEval(fl, FFloatOp(Mul, FFloat(0), FWiden(FLeaf(0))), [1]) == Some(FD(fl.mul(0, fl.ofInt(1))))
  {
    assert FEval(fl, FLeaf(0), [1]) == Some(FI(1));
    assert FEval(fl, FWiden(FLeaf(0)), [1]) == Some(FD(fl.ofInt(1)));
  }
}
