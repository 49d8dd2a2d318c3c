/** The Bloblang AST, the execution context and the runtime surface that the
    interpreter and the generated code share. */
module Bloblang {
  import opened Values
  import opened Numbers

  // ---- syntax ---------------------------------------------------------------------

  datatype BinOp =
    | MulOp | DivOp | ModOp | Coalesce
    | AddOp | SubOp
    | EqOp | NeqOp | LtOp | LteOp | GtOp | GteOp
    | AndOp | OrOp

  /** Methods with their own handling in both backends, and the table-driven rest. */
  datatype MethodName =
    | Number | ToBool | Or | From | FromAll | Catch | ApplyMethod
    | MapEach | Filter | AllOf | AnyOf | FindBy | FindAllBy | SortBy | MapEachKey
    | Fold
    | Sort | Unique
    | Plain(id: string)

  /** `meta`/`metadata`; functions of the message (`content`, `errored`, ...), those with an
      argument (`json`, `root_meta`); and the table-driven rest. */
  datatype FunctionName = Meta | MessageFn(id: string) | MessageArgFn(id: string) | PlainFn(id: string)

  datatype Expr =
    | Lit(v: Value)
    | This
    | Var(name: Str)
    | Field(target: Expr, key: Str)
    | Index(target: Expr, index: Expr)
    | Call(fname: FunctionName, args: seq<Expr>)
    | Method(target: Expr, mname: MethodName, args: seq<Expr>)
    | Lambda(param: Str, body: Expr)
    | Binary(op: BinOp, lhs: Expr, rhs: Expr)
    | Neg(operand: Expr)
    | Not(operand: Expr)
    | If(cond: Expr, thn: Expr, els: Option<Expr>)
    | Array(items: seq<Expr>)
    | Object(fields: seq<ObjectField>)
    | Match(context: Option<Expr>, cases: seq<Case>)

  datatype ObjectField = ObjectField(key: Expr, val: Expr)
  datatype Case = Case(cond: Option<Expr>, val: Expr)

  datatype Target = Root | RootPath(path: seq<Str>) | VarTarget(name: Str) | MetaTarget(name: Str)
  datatype Statement = Statement(target: Target, expr: Expr)
  datatype NamedMap = NamedMap(name: Str, body: seq<Statement>)

  /** The two executions treat `catch()` without a handler, arguments beyond what a runtime
      function takes, and minus on a double in unboxed arithmetic differently; everything
      else of the language is common. */
  datatype Rules = Interpreted | Emitted
  datatype Mapping = Mapping(statements: seq<Statement>, maps: seq<NamedMap>, rules: Rules)

  /** As many arguments as the runtime function takes. */
  function Used(args: seq<Expr>, arity: nat): seq<Expr> {
    if |args| <= arity then args else args[..arity]
  }

  /** The arguments that are evaluated: all of them, or those the function takes. */
  function Evaluated(p: Mapping, args: seq<Expr>, arity: Option<nat>): seq<Expr> {
    if p.rules.Emitted? && arity.Some? then Used(args, arity.value) else args
  }

  /** `find_map`: the first declaration with the name. */
  function FindMap(maps: seq<NamedMap>, name: Str): Option<nat> {
    if maps == [] then None
    else if maps[0].name == name then Some(0)
    else match FindMap(maps[1..], name) case Some(i) => Some(i + 1) case None => None
  }

  lemma {:induction false} FindMapInRange(maps: seq<NamedMap>, name: Str)
    ensures FindMap(maps, name).Some? ==> FindMap(maps, name).value < |maps|
  {
    if maps != [] { FindMapInRange(maps[1..], name); }
  }

  // ---- context --------------------------------------------------------------------

  datatype Message = Message(raw: Str, doc: Result, meta: seq<Entry>, error: Option<Str>)

  const MAX_APPLY_DEPTH: nat := 64

  /** The parts of `exec_ctx` that only `from` and `from_all` rebind. */
  datatype Ambient = Ambient(
    rootInit: Option<Value>,
    metaIn: Option<seq<Entry>>,
    msg: Option<Message>,
    all: Option<seq<Message>>,
    batchIndex: nat,
    batchSize: nat)

  datatype Ctx = Ctx(
    thisV: Option<Value>,
    vars: map<Str, Value>,
    depth: nat,
    meta: Option<seq<Entry>>,
    amb: Ambient)

  /** Message `i` of the batch in place of the current one. */
  function AtMessage(a: Ambient, i: nat): Ambient
    requires a.all.Some? && i < |a.all.value|
  {
    var m := a.all.value[i];
    a.(msg := Some(m), metaIn := Some(m.meta), batchIndex := i)
  }

  /** How many more applications may nest. */
  function Room(c: Ctx): nat {
    if c.depth >= MAX_APPLY_DEPTH then 0 else MAX_APPLY_DEPTH - c.depth
  }

  /** What the context functions (`content`, `json`, `root_meta`, ...) may look at. */
  datatype View = View(msg: Option<Message>, meta: Option<seq<Entry>>, batchIndex: nat, batchSize: nat)

  function ViewOf(c: Ctx): View { View(c.amb.msg, c.meta, c.amb.batchIndex, c.amb.batchSize) }

  datatype Out = Out(r: Result, c: Ctx)
  datatype Outs = Outs(r: Option<seq<Value>>, c: Ctx)

  // ---- registry -------------------------------------------------------------------

  /** A table-driven method: `None` is variadic, otherwise the runtime function's arity. */
  datatype MethodDef = MethodDef(arity: Option<nat>, impl: (Value, seq<Value>) -> Result)
  datatype FunctionDef = FunctionDef(arity: nat, impl: seq<Value> -> Result)

  /** A lambda-taking method is driven by its callback's results so far: it either
      asks for the callback on one more element or is done. */
  datatype Step = Ask(elem: Value) | Done(r: Result)

  datatype Lib = Lib(
    fl: FloatOps,
    methods: MethodName -> Option<MethodDef>,
    functions: string -> Option<FunctionDef>,
    ctxFn: (FunctionName, View, Value) -> Result,
    lambdaStep: (MethodName, Value, Value, seq<Value>) -> Step,
    lambdaCalls: (MethodName, Value, Value) -> nat,
    number: Value -> Result,
    toBool: Value -> Result)

  /** `find_method` with an implementation: the special rows have none, `sort` and `unique` do. */
  function FindMethod(l: Lib, name: MethodName): Option<MethodDef> {
    if name.Plain? || name.Sort? || name.Unique? then l.methods(name) else None
  }

  function ArityOf(l: Lib, name: MethodName): Option<nat> {
    match FindMethod(l, name) case Some(d) => d.arity case None => None
  }

  /** Leading ordinary arguments of a lambda-taking method, and whether the query may be absent. */
  datatype LambdaMethod = LambdaMethod(leading: nat, optional: bool)

  function FindLambdaMethod(name: MethodName): Option<LambdaMethod> {
    match name
    case Number | ToBool | Or | From | FromAll | Catch | ApplyMethod => None
    case Plain(_) => None
    case Fold => Some(LambdaMethod(1, false))
    case Sort | Unique => Some(LambdaMethod(0, true))
    case _ => Some(LambdaMethod(0, false))
  }

  /** Missing optional arguments arrive as null and surplus ones are dropped (`adapt`). */
  function Pad(args: seq<Value>, n: nat): seq<Value> {
    seq(n, i requires 0 <= i => if i < |args| then args[i] else Null)
  }

  function Invoke(d: MethodDef, t: Value, args: seq<Value>): Result {
    match d.arity
    case None => d.impl(t, args)
    case Some(n) => d.impl(t, Pad(args, n))
  }

  function InvokeFn(d: FunctionDef, args: seq<Value>): Result { d.impl(Pad(args, d.arity)) }

  // ---- shared operations ------------------------------------------------------------

  predicate IsDigits(s: Str) { forall i :: 0 <= i < |s| ==> 48 <= s[i] <= 57 }

  function Decimal(s: Str): nat
    requires IsDigits(s)
  {
    if s == [] then 0 else Decimal(s[..|s| - 1]) * 10 + (s[|s| - 1] - 48)
  }

  /** A missing field reads as null; a numeric key indexes an array. */
  function GetField(v: Value, key: Str): Value {
    match v
    case Arr(a) =>
      if key == [] || !IsDigits(key) || Decimal(key) >= |a| then Null else a[Decimal(key)]
    case Obj(_) => (match FindField(v, key) case Some(x) => x case None => Null)
    case _ => Null
  }

  function IndexOf(fl: FloatOps, v: Value, idx: Value): Result {
    if !v.Arr? then Err
    else
      match AsI64(fl, idx)
      case None => Err
      case Some(i) =>
        var j := if i < 0 then i + |v.items| else i;
        if 0 <= j < |v.items| then Ok(v.items[j]) else Err
  }

  predicate LiteralOmits(v: Value) { v.Nothing? || v.Deleted? }

  predicate Present(r: Result) { r.Ok? && !r.v.Null? && !r.v.Nothing? }

  predicate TruthyBool(v: Value) { v == Bool(true) }

  /** `truthy` throws on anything but a boolean. */
  function Truthy(r: Result): Option<bool> {
    if r.Ok? && r.v.Bool? then Some(r.v.b) else None
  }

  function BoolResult(b: Option<bool>): Result {
    match b case Some(x) => Ok(Bool(x)) case None => Err
  }

  /** The strict operators. */
  function Apply2(fl: FloatOps, op: BinOp, x: Value, y: Value): Result {
    match op
    case MulOp => Degrade(fl, Mul, x, y)
    case DivOp => DivValues(fl, x, y)
    case ModOp => ModValues(fl, x, y)
    case AddOp => AddValues(fl, x, y)
    case SubOp => Degrade(fl, Sub, x, y)
    case EqOp => Ok(Bool(ValueEq(fl, x, y)))
    case NeqOp => Ok(Bool(!ValueEq(fl, x, y)))
    case LtOp => BoolResult(Ordered(Compare(fl, x, y), o => o < 0))
    case LteOp => BoolResult(Ordered(Compare(fl, x, y), o => o <= 0))
    case GtOp => BoolResult(Ordered(Compare(fl, x, y), o => o > 0))
    case GteOp => BoolResult(Ordered(Compare(fl, x, y), o => o >= 0))
    case _ => Err
  }

  function Ordered(o: Option<int>, f: int -> bool): Option<bool> {
    match o case Some(x) => Some(f(x)) case None => None
  }

  // ---- arithmetic that is emitted unboxed -------------------------------------------

  /** A `double` rather than an `int64_t`, once the fields read are integers. */
  predicate FloatTyped(e: Expr) {
    match e
    case Lit(v) => v.F64?
    case Neg(x) => FloatTyped(x)
    case Binary(op, x, y) => op.DivOp? || (!op.ModOp? && (FloatTyped(x) || FloatTyped(y)))
    case _ => false
  }

  /** Arithmetic over fields of `this` and numeric literals; modulo of integers only. */
  predicate Arithmetic(e: Expr) {
    match e
    case Lit(v) => v.I64? || v.F64?
    case Field(t, _) => t.This?
    case Neg(x) => Arithmetic(x)
    case Binary(op, x, y) =>
      && Arithmetic(x) && Arithmetic(y)
      && (op in {AddOp, SubOp, MulOp, DivOp} || (op.ModOp? && !FloatTyped(x) && !FloatTyped(y)))
    case _ => false
  }

  function FieldsRead(e: Expr): set<Str> {
    match e
    case Field(_, key) => {key}
    case Neg(x) => FieldsRead(x)
    case Binary(_, x, y) => FieldsRead(x) + FieldsRead(y)
    case _ => {}
  }

  /** The guard: some field is read, and every field read is an int64. */
  predicate Unboxed(e: Expr, self: Option<Value>) {
    && Arithmetic(e) && FieldsRead(e) != {} && self.Some?
    && forall k | k in FieldsRead(e) :: GetField(self.value, k).I64?
  }

  /** Boxed arithmetic, except that minus on a double is its own operation and not
      subtraction from zero. */
  function BySign(fl: FloatOps, e: Expr, self: Value): Result {
    match e
    case Lit(v) => Ok(v)
    case Field(_, key) => Ok(GetField(self, key))
    case Neg(x) =>
      (match BySign(fl, x, self)
       case Ok(F64(d)) => Ok(F64(fl.neg(d)))
       case Ok(v) => Degrade(fl, Sub, I64(0), v)
       case Err => Err)
    case Binary(op, x, y) =>
      (match (BySign(fl, x, self), BySign(fl, y, self))
       case (Ok(a), Ok(b)) => Apply2(fl, op, a, b)
       case _ => Err)
    case _ => Err
  }

  function Coerce(l: Lib, mname: MethodName, r: Result): Result {
    match r
    case Err => Err
    case Ok(v) => if mname.Number? then l.number(v) else l.toBool(v)
  }

  function SelfOf(t: Option<Value>): Result {
    match t case Some(v) => Ok(v) case None => Err
  }

  function VarOf(c: Ctx, name: Str): Result {
    if name in c.vars then Ok(c.vars[name]) else Err
  }

  function ObjectOf(es: seq<Entry>, acc: Value): Value {
    if es == [] then acc else ObjectOf(es[1..], SetField(acc, es[0].key, es[0].val))
  }

  function MetaAll(c: Ctx): Result {
    match c.amb.metaIn case None => Err case Some(es) => Ok(ObjectOf(es, Obj([])))
  }

  /** `meta(key)`: an empty key means every entry. */
  function MetaGet(c: Ctx, key: Value): Result {
    if !key.IsStringy() then Err
    else if key.Text() == [] then MetaAll(c)
    else match c.amb.metaIn
         case None => Err
         case Some(es) => (match Find(es, key.Text()) case Some(v) => Ok(v) case None => Ok(Null))
  }

  /** `meta_set`; the written metadata may be absent. */
  function MetaSet(c: Ctx, name: Str, v: Value): Option<Ctx> {
    match c.meta
    case None => None
    case Some(es) =>
      Some(c.(meta := Some(if v.Deleted? then RemoveEntry(es, name) else PutEntry(es, name, v))))
  }

  /** The error message a handler sees; its text is not modelled. */
  const ERROR_TEXT: Value := String([])

  /** `root.a.b = v`, creating intermediate objects. */
  function AssignPath(root: Value, path: seq<Str>, v: Value): Value
    decreases |path|
  {
    if path == [] then v
    else
      var child := match FindField(root, path[0]) case Some(x) => x case None => Obj([]);
      SetField(root, path[0], AssignPath(child, path[1..], v))
  }

  // ---- variable scopes ------------------------------------------------------------

  function Saved(vars: map<Str, Value>, p: Str): Option<Value> {
    if p in vars then Some(vars[p]) else None
  }

  /** Puts a variable back, to unbound when it was never set. */
  function Restore(vars: map<Str, Value>, p: Str, saved: Option<Value>): map<Str, Value> {
    match saved case Some(v) => vars[p := v] case None => vars - {p}
  }

  ghost predicate SameExcept(a: map<Str, Value>, b: map<Str, Value>, p: Str) { a - {p} == b - {p} }

  lemma RestoreUndoes(now: map<Str, Value>, before: map<Str, Value>, p: Str)
    requires SameExcept(now, before, p)
    ensures Restore(now, p, Saved(before, p)) == before
  {
    var r := Restore(now, p, Saved(before, p));
    forall k
      ensures k in r <==> k in before
      ensures k in r ==> r[k] == before[k]
    {
      assert k in now - {p} <==> k in before - {p};
      if k != p && k in before { assert (now - {p})[k] == (before - {p})[k]; }
    }
  }

  lemma BindSame(now: map<Str, Value>, before: map<Str, Value>, p: Str, v: Value)
    requires SameExcept(now, before, p)
    ensures now[p := v] == before[p := v]
  {
    var a, b := now[p := v], before[p := v];
    forall k
      ensures k in a <==> k in b
      ensures k in a ==> a[k] == b[k]
    {
      assert k in now - {p} <==> k in before - {p};
      if k != p && k in before { assert (now - {p})[k] == (before - {p})[k]; }
    }
  }
}
