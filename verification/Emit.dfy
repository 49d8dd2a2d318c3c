/** The C++ emitter: the forms of generated code, and the translation of
    expressions, statements and maps into them. */
module Emit {
  import opened Values
  import opened Bloblang
  import opened FastPath

  /** Generated expressions. `TSelf` is the prologue's `self_`, `TLocal` an `el_n` or
      `mc_n` binding, `TTemp` the `t_` that holds a method's target. */
  datatype TExpr =
    | TLit(v: Value)
    | TSelf
    | TLocal(n: nat)
    | TTemp
    | TVar(name: Str)
    | TGetField(t: TExpr, key: Str)
    | TIndexOf(t: TExpr, i: TExpr)
    | TNot(t: TExpr)
    | TNegate(t: TExpr)
    | TBin(op: BinOp, l: TExpr, r: TExpr)
    | TAnd(l: TExpr, r: TExpr)
    | TOr(l: TExpr, r: TExpr)
    | TCoalesce(l: TExpr, r: TExpr)
    | TIf(c: TExpr, l: TExpr, r: TExpr)
    | TArray(items: seq<TExpr>)
    | TObject(fields: seq<TField>)
    | TMatch(bind: Option<TExpr>, n: nat, arms: seq<TArm>)
    | TMetaAll
    | TMetaKey(k: TExpr)
    | TCtxFn(fname: FunctionName, arg: TExpr)
    | TCallFn(id: string, args: seq<TExpr>)
    | TMethod(mname: MethodName, t: TExpr, args: seq<TExpr>)
    | TLet(t: TExpr, body: TExpr)
    | TApply(t: TExpr, m: nat)
    | TCatchVar(t: TExpr, param: Str, body: TExpr)
    | TCatchThis(t: TExpr, n: nat, body: TExpr)
    | TCoerce(mname: MethodName, t: TExpr)
    | TCoerceOr(mname: MethodName, t: TExpr, d: TExpr)
    | TFrom(i: TExpr, t: TExpr)
    | TFromAll(t: TExpr)
    | TLambdaVar(mname: MethodName, t: TExpr, lead: seq<TExpr>, param: Str, body: TExpr)
    | TLambdaThis(mname: MethodName, t: TExpr, lead: seq<TExpr>, n: nat, body: TExpr)

  /** A written-out key is emitted as a literal, a computed one through `object_key`. */
  datatype TField = TFixed(key: Str, val: TExpr) | TComputed(kexpr: TExpr, val: TExpr)
  datatype TArm = TArm(cond: Option<TExpr>, val: TExpr)

  datatype TStmt = TStmt(target: Target, generic: TExpr, fast: Option<Built>)
  datatype Generated = Generated(maps: seq<seq<TStmt>>, main: seq<TStmt>)

  datatype Em<T> = Em(t: T, n: nat)

  /** Whether `describe_source` names the target, so that it is bound to `t_` first. */
  predicate HasPath(e: Expr) {
    match e case This => true case Var(_) => true case Field(t, _) => HasPath(t) case _ => false
  }

  predicate Named(e: Expr) {
    match e
    case Field(t, _) => HasPath(t)
    case This => true
    case Method(_, _, _) => true
    case Call(_, _) => true
    case Lit(v) => v.String?
    case _ => false
  }

  predicate LazyTarget(m: MethodName) { m.Catch? || m.Or? || m.From? || m.FromAll? || m.Number? || m.ToBool? }

  /** `expr`: `stack` is `this_stack_`, `n` is `lambda_seq_`; failing to emit is `None`. */
  function Code(l: Lib, ms: seq<NamedMap>, e: Expr, stack: seq<nat>, n: nat): Option<Em<TExpr>>
    decreases e, 4, 0
  {
    match e
    case Lit(v) => if v.Null? || v.Bool? || v.I64? || v.F32? || v.F64? || v.String? then Some(Em(TLit(v), n)) else None
    case This => Some(Em(if stack != [] then TLocal(stack[|stack| - 1]) else TSelf, n))
    case Var(name) => Some(Em(TVar(name), n))
    case Field(t, key) =>
      (match Code(l, ms, t, stack, n) case None => None case Some(a) => Some(Em(TGetField(a.t, key), a.n)))
    case Index(t, i) =>
      (match TwoCode(l, ms, e, t, i, stack, n) case None => None case Some(a) => Some(Em(TIndexOf(a.t.0, a.t.1), a.n)))
    case Call(_, _) => CallCode(l, ms, e, stack, n)
    case Method(t, mname, _) =>
      (match Code(l, ms, t, stack, n)
       case None => None
       case Some(a) =>
         if LazyTarget(mname) || !Named(t) then MethodCode(l, ms, e, a.t, stack, a.n)
         else
           match MethodCode(l, ms, e, TTemp, stack, a.n)
           case None => None
           case Some(b) => Some(Em(TLet(a.t, b.t), b.n)))
    case Lambda(_, _) => None
    case Binary(op, x, y) =>
      (match TwoCode(l, ms, e, x, y, stack, n)
       case None => None
       case Some(a) =>
         Some(Em(match op
                 case AndOp => TAnd(a.t.0, a.t.1)
                 case OrOp => TOr(a.t.0, a.t.1)
                 case Coalesce => TCoalesce(a.t.0, a.t.1)
                 case _ => TBin(op, a.t.0, a.t.1), a.n)))
    case Neg(x) =>
      (match Code(l, ms, x, stack, n) case None => None case Some(a) => Some(Em(TNegate(a.t), a.n)))
    case Not(x) =>
      (match Code(l, ms, x, stack, n) case None => None case Some(a) => Some(Em(TNot(a.t), a.n)))
    case If(cond, thn, els) =>
      (match TwoCode(l, ms, e, cond, thn, stack, n)
       case None => None
       case Some(a) =>
         if els.None? then Some(Em(TIf(a.t.0, a.t.1, TLit(Nothing)), a.n))
         else
           match Code(l, ms, els.value, stack, a.n)
           case None => None
           case Some(b) => Some(Em(TIf(a.t.0, a.t.1, b.t), b.n)))
    case Array(items) =>
      (match AllCode(l, ms, items, stack, n) case None => None case Some(a) => Some(Em(TArray(a.t), a.n)))
    case Object(_) =>
      (match FieldsCode(l, ms, e, 0, stack, n) case None => None case Some(a) => Some(Em(TObject(a.t), a.n)))
    case Match(context, _) =>
      var v := n + 1;
      if context.None? then
        match ArmsCode(l, ms, e, 0, stack, v) case None => None case Some(a) => Some(Em(TMatch(None, v, a.t), a.n))
      else
        match Code(l, ms, context.value, stack, v)
        case None => None
        case Some(b) =>
          match ArmsCode(l, ms, e, 0, stack + [v], b.n)
          case None => None
          case Some(a) => Some(Em(TMatch(Some(b.t), v, a.t), a.n))
  }

  function TwoCode(l: Lib, ms: seq<NamedMap>, e: Expr, x: Expr, y: Expr, stack: seq<nat>, n: nat): Option<Em<(TExpr, TExpr)>>
    requires x < e && y < e
    decreases e, 3, 0
  {
    match Code(l, ms, x, stack, n)
    case None => None
    case Some(a) =>
      match Code(l, ms, y, stack, a.n)
      case None => None
      case Some(b) => Some(Em((a.t, b.t), b.n))
  }

  function AllCode(l: Lib, ms: seq<NamedMap>, es: seq<Expr>, stack: seq<nat>, n: nat): (r: Option<Em<seq<TExpr>>>)
    ensures r.Some? ==> |r.value.t| == |es|
    decreases es, 2, 0
  {
    if es == [] then Some(Em([], n))
    else
      match Code(l, ms, es[0], stack, n)
      case None => None
      case Some(a) =>
        match AllCode(l, ms, es[1..], stack, a.n)
        case None => None
        case Some(b) => Some(Em([a.t] + b.t, b.n))
  }

  function FieldsCode(l: Lib, ms: seq<NamedMap>, e: Expr, i: nat, stack: seq<nat>, n: nat): (r: Option<Em<seq<TField>>>)
    requires e.Object? && i <= |e.fields|
    ensures r.Some? ==> |r.value.t| == |e.fields| - i
    decreases e, 2, |e.fields| - i
  {
    if i == |e.fields| then Some(Em([], n))
    else
      var f := e.fields[i];
      match FieldCode(l, ms, f, stack, n)
      case None => None
      case Some(a) =>
        match FieldsCode(l, ms, e, i + 1, stack, a.n)
        case None => None
        case Some(b) => Some(Em([a.t] + b.t, b.n))
  }

  function FieldCode(l: Lib, ms: seq<NamedMap>, f: ObjectField, stack: seq<nat>, n: nat): Option<Em<TField>>
    decreases f, 0, 0
  {
    if f.key.Lit? && f.key.v.String? then
      match Code(l, ms, f.val, stack, n) case None => None case Some(a) => Some(Em(TFixed(f.key.v.s, a.t), a.n))
    else
      match Code(l, ms, f.key, stack, n)
      case None => None
      case Some(k) =>
        match Code(l, ms, f.val, stack, k.n) case None => None case Some(a) => Some(Em(TComputed(k.t, a.t), a.n))
  }

  function ArmsCode(l: Lib, ms: seq<NamedMap>, e: Expr, i: nat, stack: seq<nat>, n: nat): (r: Option<Em<seq<TArm>>>)
    requires e.Match? && i <= |e.cases|
    ensures r.Some? ==> |r.value.t| == |e.cases| - i
    decreases e, 2, |e.cases| - i
  {
    if i == |e.cases| then Some(Em([], n))
    else
      match ArmCode(l, ms, e.cases[i], stack, n)
      case None => None
      case Some(a) =>
        match ArmsCode(l, ms, e, i + 1, stack, a.n)
        case None => None
        case Some(b) => Some(Em([a.t] + b.t, b.n))
  }

  function ArmCode(l: Lib, ms: seq<NamedMap>, k: Case, stack: seq<nat>, n: nat): Option<Em<TArm>>
    decreases k, 0, 0
  {
    if k.cond.None? then
      match Code(l, ms, k.val, stack, n) case None => None case Some(a) => Some(Em(TArm(None, a.t), a.n))
    else
      match Code(l, ms, k.cond.value, stack, n)
      case None => None
      case Some(b) =>
        match Code(l, ms, k.val, stack, b.n)
        case None => None
        case Some(a) => Some(Em(TArm(Some(b.t), a.t), a.n))
  }

  function CallCode(l: Lib, ms: seq<NamedMap>, e: Expr, stack: seq<nat>, n: nat): Option<Em<TExpr>>
    requires e.Call?
    decreases e, 3, 0
  {
    if e.fname.Meta? then
      if e.args == [] then Some(Em(TMetaAll, n))
      else match Code(l, ms, e.args[0], stack, n) case None => None case Some(a) => Some(Em(TMetaKey(a.t), a.n))
    else if e.fname.MessageFn? then Some(Em(TCtxFn(e.fname, TLit(Null)), n))
    else if e.fname.MessageArgFn? then
      if e.args == [] then Some(Em(TCtxFn(e.fname, TLit(Null)), n))
      else match Code(l, ms, e.args[0], stack, n) case None => None case Some(a) => Some(Em(TCtxFn(e.fname, a.t), a.n))
    else
      match l.functions(e.fname.id)
      case None => None
      case Some(d) =>
        match AllCode(l, ms, Used(e.args, d.arity), stack, n)
        case None => None
        case Some(a) => Some(Em(TCallFn(e.fname.id, a.t), a.n))
  }

  /** `emit_method`: `t` is the code of the target. */
  function MethodCode(l: Lib, ms: seq<NamedMap>, e: Expr, t: TExpr, stack: seq<nat>, n: nat): Option<Em<TExpr>>
    requires e.Method?
    decreases e, 3, 1
  {
    var lm := FindLambdaMethod(e.mname);
    var def := FindMethod(l, e.mname);
    if lm.Some? && |e.args| > lm.value.leading then LambdaCode(l, ms, e, t, lm.value.leading, stack, n)
    else if def.Some? then
      // only as many arguments as the runtime function takes are emitted
      var used := if def.value.arity.Some? then Used(e.args, def.value.arity.value) else e.args;
      match AllCode(l, ms, used, stack, n)
      case None => None
      case Some(a) => Some(Em(TMethod(e.mname, t, a.t), a.n))
    else if e.mname.ApplyMethod? then
      if e.args == [] || !e.args[0].Lit? || !e.args[0].v.IsStringy() then None
      else match FindMap(ms, e.args[0].v.Text()) case None => None case Some(m) => Some(Em(TApply(t, m), n))
    else if e.mname.Catch? then
      if e.args == [] then Some(Em(t, n)) else CatchCode(l, ms, e, t, stack, n)
    else if e.mname.Number? || e.mname.ToBool? then
      if e.args == [] then Some(Em(TCoerce(e.mname, t), n))
      else
        match Code(l, ms, e.args[0], stack, n)
        case None => None
        case Some(a) => Some(Em(TCoerceOr(e.mname, t, a.t), a.n))
    else if e.mname.From? then
      if e.args == [] then None
      else
        match TwoCode(l, ms, e, e.args[0], e.target, stack, n)
        case None => None
        case Some(a) => Some(Em(TFrom(a.t.0, a.t.1), a.n))
    else if e.mname.FromAll? then
      match Code(l, ms, e.target, stack, n) case None => None case Some(a) => Some(Em(TFromAll(a.t), a.n))
    else if e.mname.Or? then
      if e.args == [] then Some(Em(TCoalesce(t, TLit(Null)), n))
      else match Code(l, ms, e.args[0], stack, n) case None => None case Some(a) => Some(Em(TCoalesce(t, a.t), a.n))
    else None
  }

  function CatchCode(l: Lib, ms: seq<NamedMap>, e: Expr, t: TExpr, stack: seq<nat>, n: nat): Option<Em<TExpr>>
    requires e.Method? && e.args != []
    decreases e, 2, 0
  {
    var h := e.args[0];
    if h.Lambda? then
      match Code(l, ms, h.body, stack, n) case None => None case Some(a) => Some(Em(TCatchVar(t, h.param, a.t), a.n))
    else
      match Code(l, ms, h, stack + [n + 1], n + 1)
      case None => None
      case Some(a) => Some(Em(TCatchThis(t, n + 1, a.t), a.n))
  }

  function LambdaCode(l: Lib, ms: seq<NamedMap>, e: Expr, t: TExpr, qi: nat, stack: seq<nat>, n: nat): Option<Em<TExpr>>
    requires e.Method? && |e.args| > qi
    decreases e, 2, 0
  {
    match AllCode(l, ms, e.args[..qi], stack, n)
    case None => None
    case Some(lead) =>
      var q := e.args[qi];
      if q.Lambda? then
        match Code(l, ms, q.body, stack, lead.n)
        case None => None
        case Some(a) => Some(Em(TLambdaVar(e.mname, t, lead.t, q.param, a.t), a.n))
      else
        match Code(l, ms, q, stack + [lead.n + 1], lead.n + 1)
        case None => None
        case Some(a) => Some(Em(TLambdaThis(e.mname, t, lead.t, lead.n + 1, a.t), a.n))
  }

  // ---- statements and maps ------------------------------------------------------------

  /** `emit_statement`: the fast path is used only when it reads some field. */
  function StmtCode(l: Lib, ms: seq<NamedMap>, s: Statement, n: nat): Option<Em<TStmt>> {
    match Code(l, ms, s.expr, [], n)
    case None => None
    case Some(g) =>
      var fast := Build(s.expr, []);
      Some(Em(TStmt(s.target, g.t, if fast.Some? && fast.value.leaves != [] then fast else None), g.n))
  }

  function StmtsCode(l: Lib, ms: seq<NamedMap>, ss: seq<Statement>, n: nat): Option<Em<seq<TStmt>>> {
    if ss == [] then Some(Em([], n))
    else
      match StmtCode(l, ms, ss[0], n)
      case None => None
      case Some(a) =>
        match StmtsCode(l, ms, ss[1..], a.n)
        case None => None
        case Some(b) => Some(Em([a.t] + b.t, b.n))
  }

  function MapsCode(l: Lib, ms: seq<NamedMap>, todo: seq<NamedMap>, n: nat): Option<Em<seq<seq<TStmt>>>> {
    if todo == [] then Some(Em([], n))
    else
      match StmtsCode(l, ms, todo[0].body, n)
      case None => None
      case Some(a) =>
        match MapsCode(l, ms, todo[1..], a.n)
        case None => None
        case Some(b) => Some(Em([a.t] + b.t, b.n))
  }

  /** `run`: every map first, then the mapping itself. */
  function ProgramCode(l: Lib, p: Mapping): Option<Generated> {
    match MapsCode(l, p.maps, p.maps, 0)
    case None => None
    case Some(m) =>
      match StmtsCode(l, p.maps, p.statements, m.n)
      case None => None
      case Some(b) => Some(Generated(m.t, b.t))
  }

  /** Every map's function is some emission of its body. */
  lemma {:induction false} MapsEmitted(l: Lib, ms: seq<NamedMap>, todo: seq<NamedMap>, n: nat, i: nat) returns (k: nat)
    requires MapsCode(l, ms, todo, n).Some? && i < |todo|
    ensures |MapsCode(l, ms, todo, n).value.t| == |todo|
    ensures var r := StmtsCode(l, ms, todo[i].body, k);
            r.Some? && r.value.t == MapsCode(l, ms, todo, n).value.t[i]
    decreases |todo|
  {
    var a := StmtsCode(l, ms, todo[0].body, n).value;
    if |todo| > 1 {
      var k' := MapsEmitted(l, ms, todo[1..], a.n, if i == 0 then 0 else i - 1);
      k := if i == 0 then n else k';
    } else {
      k := n;
    }
  }
}
