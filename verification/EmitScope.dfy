/** Which programs the emitter accepts: exactly those with a form in the generated code everywhere. */
module EmitScope {
  import opened Values
  import opened Bloblang
  import opened Emit

  /** Literals that can be written in the generated code. */
  predicate Writable(v: Value) {
    match v
    case Null | Bool(_) | I64(_) | F64(_) | F32(_) | String(_) => true
    case Timestamp(_, _) | RawNumber(_) | Bytes(_) | Arr(_) | Obj(_) | Deleted | Nothing => false
  }

  /** Arguments beyond the arity are not looked at. */
  predicate FirstOk(l: Lib, ms: seq<NamedMap>, args: seq<Expr>, arity: Option<nat>)
    decreases args, 0
  {
    forall i | 0 <= i < |args| :: (arity.Some? && i >= arity.value) || Emittable(l, ms, args[i])
  }

  /** A query or handler, whose lambda is not an expression of its own. */
  predicate QueryOk(l: Lib, ms: seq<NamedMap>, q: Expr)
    decreases q, 1
  {
    if q.Lambda? then Emittable(l, ms, q.body) else Emittable(l, ms, q)
  }

  predicate Emittable(l: Lib, ms: seq<NamedMap>, e: Expr)
    decreases e, 0
  {
    match e
    case Lit(v) => Writable(v)
    case This => true
    case Var(_) => true
    case Field(t, _) => Emittable(l, ms, t)
    case Index(t, i) => Emittable(l, ms, t) && Emittable(l, ms, i)
    case Call(f, args) =>
      if f.PlainFn? then l.functions(f.id).Some? && FirstOk(l, ms, args, Some(l.functions(f.id).value.arity))
      else FirstOk(l, ms, args, Some(if f.MessageFn? then 0 else 1))
    case Method(t, name, args) => Emittable(l, ms, t) && ArgsOk(l, ms, e)
    case Lambda(_, _) => false
    case Binary(_, x, y) => Emittable(l, ms, x) && Emittable(l, ms, y)
    case Neg(x) => Emittable(l, ms, x)
    case Not(x) => Emittable(l, ms, x)
    case If(c, x, y) => Emittable(l, ms, c) && Emittable(l, ms, x) && (y.Some? ==> Emittable(l, ms, y.value))
    case Array(items) => FirstOk(l, ms, items, None)
    case Object(fields) => forall i | 0 <= i < |fields| :: Emittable(l, ms, fields[i].key) && Emittable(l, ms, fields[i].val)
    case Match(context, cases) =>
      && (context.Some? ==> Emittable(l, ms, context.value))
      && forall i | 0 <= i < |cases| :: (cases[i].cond.Some? ==> Emittable(l, ms, cases[i].cond.value)) && Emittable(l, ms, cases[i].val)
  }

  /** What a method asks of its arguments. */
  predicate ArgsOk(l: Lib, ms: seq<NamedMap>, e: Expr)
    requires e.Method?
    decreases e, 0, 0
  {
    var args := e.args;
    match e.mname
    case Number | ToBool | Or => FirstOk(l, ms, args, Some(1))
    case From => args != [] && Emittable(l, ms, args[0])
    case FromAll => true
    case Catch => args != [] ==> QueryOk(l, ms, args[0])
    case ApplyMethod => args != [] && args[0].Lit? && args[0].v.IsStringy() && exists m :: m in ms && m.name == args[0].v.Text()
    case Fold => |args| > 1 && Emittable(l, ms, args[0]) && QueryOk(l, ms, args[1])
    case MapEach | Filter | AllOf | AnyOf | FindBy | FindAllBy | SortBy | MapEachKey => args != [] && QueryOk(l, ms, args[0])
    case Sort | Unique => if args != [] then QueryOk(l, ms, args[0]) else l.methods(e.mname).Some?
    case Plain(_) => l.methods(e.mname).Some? && FirstOk(l, ms, args, l.methods(e.mname).value.arity)
  }

  // ---- expressions ----------------------------------------------------------------------

  lemma UsedOk(l: Lib, ms: seq<NamedMap>, args: seq<Expr>, arity: nat)
    ensures FirstOk(l, ms, args, Some(arity)) <==> FirstOk(l, ms, Used(args, arity), None)
  {
    hide Emittable;
    var u := Used(args, arity);
    if FirstOk(l, ms, u, None) {
      forall i | 0 <= i < |args| && i < arity
        ensures Emittable(l, ms, args[i])
      {
        assert u[i] == args[i];
      }
    }
  }

  lemma {:induction false} AllIff(l: Lib, ms: seq<NamedMap>, es: seq<Expr>, stack: seq<nat>, n: nat)
    ensures AllCode(l, ms, es, stack, n).Some? <==> FirstOk(l, ms, es, None)
    decreases es, 2, 0
  {
    hide Code, Emittable;
    if es != [] {
      EmitsIff(l, ms, es[0], stack, n);
      var a := Code(l, ms, es[0], stack, n);
      if a.Some? { AllIff(l, ms, es[1..], stack, a.value.n); }
      assert FirstOk(l, ms, es, None) <==> Emittable(l, ms, es[0]) && FirstOk(l, ms, es[1..], None) by {
        assert forall i | 1 <= i < |es| :: es[i] == es[1..][i - 1];
      }
    }
  }

  lemma {:induction false} FieldsIff(l: Lib, ms: seq<NamedMap>, e: Expr, i: nat, stack: seq<nat>, n: nat)
    requires e.Object? && i <= |e.fields|
    ensures FieldsCode(l, ms, e, i, stack, n).Some? <==>
            forall j | i <= j < |e.fields| :: Emittable(l, ms, e.fields[j].key) && Emittable(l, ms, e.fields[j].val)
    decreases e, 2, |e.fields| - i
  {
    hide Code, Emittable, FieldCode;
    if i < |e.fields| {
      FieldIff(l, ms, e.fields[i], stack, n);
      var a := FieldCode(l, ms, e.fields[i], stack, n);
      if a.Some? { FieldsIff(l, ms, e, i + 1, stack, a.value.n); }
    }
  }

  lemma {:induction false} FieldIff(l: Lib, ms: seq<NamedMap>, f: ObjectField, stack: seq<nat>, n: nat)
    ensures FieldCode(l, ms, f, stack, n).Some? <==> Emittable(l, ms, f.key) && Emittable(l, ms, f.val)
    decreases f, 0, 0
  {
    hide Code;
    EmitsIff(l, ms, f.key, stack, n);
    var k := Code(l, ms, f.key, stack, n);
    EmitsIff(l, ms, f.val, stack, n);
    if k.Some? { EmitsIff(l, ms, f.val, stack, k.value.n); }
    if f.key.Lit? { LiteralOk(l, ms, f.key); }
    hide Emittable;
  }

  lemma LiteralOk(l: Lib, ms: seq<NamedMap>, e: Expr)
    requires e.Lit?
    ensures Emittable(l, ms, e) <==> Writable(e.v)
  {
  }

  lemma {:induction false} ArmsIff(l: Lib, ms: seq<NamedMap>, e: Expr, i: nat, stack: seq<nat>, n: nat)
    requires e.Match? && i <= |e.cases|
    ensures ArmsCode(l, ms, e, i, stack, n).Some? <==>
            forall j | i <= j < |e.cases| ::
              (e.cases[j].cond.Some? ==> Emittable(l, ms, e.cases[j].cond.value)) && Emittable(l, ms, e.cases[j].val)
    decreases e, 2, |e.cases| - i
  {
    hide Code, Emittable, ArmCode;
    if i < |e.cases| {
      ArmIff(l, ms, e.cases[i], stack, n);
      var a := ArmCode(l, ms, e.cases[i], stack, n);
      if a.Some? { ArmsIff(l, ms, e, i + 1, stack, a.value.n); }
    }
  }

  lemma {:induction false} ArmIff(l: Lib, ms: seq<NamedMap>, k: Case, stack: seq<nat>, n: nat)
    ensures ArmCode(l, ms, k, stack, n).Some? <==> (k.cond.Some? ==> Emittable(l, ms, k.cond.value)) && Emittable(l, ms, k.val)
    decreases k, 0, 0
  {
    hide Code, Emittable;
    if k.cond.None? {
      EmitsIff(l, ms, k.val, stack, n);
    } else {
      EmitsIff(l, ms, k.cond.value, stack, n);
      var b := Code(l, ms, k.cond.value, stack, n);
      if b.Some? { EmitsIff(l, ms, k.val, stack, b.value.n); }
    }
  }

  lemma {:induction false} TwoIff(l: Lib, ms: seq<NamedMap>, e: Expr, x: Expr, y: Expr, stack: seq<nat>, n: nat)
    requires x < e && y < e
    ensures TwoCode(l, ms, e, x, y, stack, n).Some? <==> Emittable(l, ms, x) && Emittable(l, ms, y)
    decreases e, 3, 0
  {
    hide Code, Emittable;
    EmitsIff(l, ms, x, stack, n);
    var a := Code(l, ms, x, stack, n);
    if a.Some? { EmitsIff(l, ms, y, stack, a.value.n); }
  }

  lemma {:induction false} FirstArg(l: Lib, ms: seq<NamedMap>, args: seq<Expr>)
    ensures FirstOk(l, ms, args, Some(0))
    ensures FirstOk(l, ms, args, Some(1)) <==> (args != [] ==> Emittable(l, ms, args[0]))
  {
    hide Emittable;
  }

  lemma {:induction false} CallIff(l: Lib, ms: seq<NamedMap>, e: Expr, stack: seq<nat>, n: nat)
    requires e.Call?
    ensures CallCode(l, ms, e, stack, n).Some? <==>
            if e.fname.PlainFn?
            then l.functions(e.fname.id).Some? && FirstOk(l, ms, e.args, Some(l.functions(e.fname.id).value.arity))
            else FirstOk(l, ms, e.args, Some(if e.fname.MessageFn? then 0 else 1))
    decreases e, 3, 0
  {
    hide Code, Emittable, AllCode, FirstOk;
    FirstArg(l, ms, e.args);
    if e.fname.PlainFn? {
      var d := l.functions(e.fname.id);
      if d.Some? {
        UsedOk(l, ms, e.args, d.value.arity);
        AllIff(l, ms, Used(e.args, d.value.arity), stack, n);
      }
    } else if !e.fname.MessageFn? && e.args != [] {
      EmitsIff(l, ms, e.args[0], stack, n);
    }
  }

  lemma {:induction false} QueryIff(l: Lib, ms: seq<NamedMap>, q: Expr, stack: seq<nat>, n: nat)
    ensures Code(l, ms, if q.Lambda? then q.body else q, stack, n).Some? <==> QueryOk(l, ms, q)
    decreases q, 5, 0
  {
    hide Code, Emittable;
    EmitsIff(l, ms, if q.Lambda? then q.body else q, stack, n);
  }

  lemma {:induction false} LambdaIff(l: Lib, ms: seq<NamedMap>, e: Expr, t: TExpr, qi: nat, stack: seq<nat>, n: nat)
    requires e.Method? && |e.args| > qi
    ensures LambdaCode(l, ms, e, t, qi, stack, n).Some? <==> FirstOk(l, ms, e.args[..qi], None) && QueryOk(l, ms, e.args[qi])
    decreases e, 2, 0
  {
    hide Code, Emittable, AllCode, QueryOk, FirstOk;
    AllIff(l, ms, e.args[..qi], stack, n);
    var lead := AllCode(l, ms, e.args[..qi], stack, n);
    if lead.Some? {
      if e.args[qi].Lambda? {
        QueryIff(l, ms, e.args[qi], stack, lead.value.n);
      } else {
        QueryIff(l, ms, e.args[qi], stack + [lead.value.n + 1], lead.value.n + 1);
      }
    }
  }

  lemma {:induction false} CatchIff(l: Lib, ms: seq<NamedMap>, e: Expr, t: TExpr, stack: seq<nat>, n: nat)
    requires e.Method? && e.args != []
    ensures CatchCode(l, ms, e, t, stack, n).Some? <==> QueryOk(l, ms, e.args[0])
    decreases e, 2, 0
  {
    hide Code, Emittable, QueryOk;
    if e.args[0].Lambda? {
      QueryIff(l, ms, e.args[0], stack, n);
    } else {
      QueryIff(l, ms, e.args[0], stack + [n + 1], n + 1);
    }
  }

  lemma {:induction false} NamedIff(ms: seq<NamedMap>, name: Str)
    ensures FindMap(ms, name).Some? <==> exists m :: m in ms && m.name == name
  {
    if ms != [] { NamedIff(ms[1..], name); }
  }

  /** Given that the target has a form. */
  lemma {:induction false} MethodIff(l: Lib, ms: seq<NamedMap>, e: Expr, t: TExpr, stack: seq<nat>, n: nat)
    requires e.Method? && Emittable(l, ms, e.target)
    ensures MethodCode(l, ms, e, t, stack, n).Some? <==> ArgsOk(l, ms, e)
    decreases e, 3, 1
  {
    hide Code, Emittable, AllCode, QueryOk, FirstOk, LambdaCode, CatchCode, TwoCode;
    FirstArg(l, ms, e.args);
    var lm := FindLambdaMethod(e.mname);
    var def := FindMethod(l, e.mname);
    if lm.Some? && |e.args| > lm.value.leading {
      LambdaIff(l, ms, e, t, lm.value.leading, stack, n);
      LeadOk(l, ms, e.args);
    } else if def.Some? {
      var used := if def.value.arity.Some? then Used(e.args, def.value.arity.value) else e.args;
      if def.value.arity.Some? { UsedOk(l, ms, e.args, def.value.arity.value); }
      AllIff(l, ms, used, stack, n);
      if e.args == [] { NoArgs(l, ms, def.value.arity); }
    } else if e.mname.ApplyMethod? {
      if e.args != [] && e.args[0].Lit? && e.args[0].v.IsStringy() { NamedIff(ms, e.args[0].v.Text()); }
    } else if e.mname.Catch? {
      if e.args != [] { CatchIff(l, ms, e, t, stack, n); }
    } else if e.mname.From? {
      if e.args != [] { TwoIff(l, ms, e, e.args[0], e.target, stack, n); }
    } else if e.mname.FromAll? {
      EmitsIff(l, ms, e.target, stack, n);
    } else if e.args != [] {
      EmitsIff(l, ms, e.args[0], stack, n);
    }
  }

  lemma LeadOk(l: Lib, ms: seq<NamedMap>, args: seq<Expr>)
    ensures FirstOk(l, ms, args[..0], None)
    ensures |args| > 1 ==> (FirstOk(l, ms, args[..1], None) <==> Emittable(l, ms, args[0]))
  {
    hide Emittable;
  }

  lemma NoArgs(l: Lib, ms: seq<NamedMap>, arity: Option<nat>)
    ensures FirstOk(l, ms, [], arity) && FirstOk(l, ms, [], None)
  {
  }

  /** An expression has a form in the generated code if and only if all its parts have that are emitted,
      wherever it stands. */
  lemma {:induction false} EmitsIff(l: Lib, ms: seq<NamedMap>, e: Expr, stack: seq<nat>, n: nat)
    ensures Code(l, ms, e, stack, n).Some? <==> Emittable(l, ms, e)
    decreases e, 4, 0
  {
    hide MethodCode, CallCode, AllCode, FieldsCode, ArmsCode, TwoCode, ArgsOk, FirstOk;
    match e {
      case Lit(v) =>
      case This =>
      case Var(name) =>
      case Field(t, key) => EmitsIff(l, ms, t, stack, n);
      case Index(t, i) => TwoIff(l, ms, e, t, i, stack, n);
      case Call(f, args) => CallIff(l, ms, e, stack, n);
      case Method(t, name, args) =>
        EmitsIff(l, ms, t, stack, n);
        var a := Code(l, ms, t, stack, n);
        if a.Some? {
          MethodIff(l, ms, e, a.value.t, stack, a.value.n);
          MethodIff(l, ms, e, TTemp, stack, a.value.n);
        }
      case Lambda(x, b) =>
      case Binary(op, x, y) => TwoIff(l, ms, e, x, y, stack, n);
      case Neg(x) => EmitsIff(l, ms, x, stack, n);
      case Not(x) => EmitsIff(l, ms, x, stack, n);
      case If(c, x, y) =>
        TwoIff(l, ms, e, c, x, stack, n);
        var a := TwoCode(l, ms, e, c, x, stack, n);
        if a.Some? && y.Some? { EmitsIff(l, ms, y.value, stack, a.value.n); }
      case Array(items) => AllIff(l, ms, items, stack, n);
      case Object(fields) => FieldsIff(l, ms, e, 0, stack, n);
      case Match(context, cases) =>
        if context.None? {
          ArmsIff(l, ms, e, 0, stack, n + 1);
        } else {
          EmitsIff(l, ms, context.value, stack, n + 1);
          var b := Code(l, ms, context.value, stack, n + 1);
          if b.Some? { ArmsIff(l, ms, e, 0, stack + [n + 1], b.value.n); }
        }
    }
  }

  // ---- programs -------------------------------------------------------------------------

  predicate BodyOk(l: Lib, ms: seq<NamedMap>, ss: seq<Statement>) { forall s | s in ss :: Emittable(l, ms, s.expr) }

  lemma {:induction false} BodyIff(l: Lib, ms: seq<NamedMap>, ss: seq<Statement>, n: nat)
    ensures StmtsCode(l, ms, ss, n).Some? <==> BodyOk(l, ms, ss)
  {
    hide Code, Emittable;
    if ss != [] {
      EmitsIff(l, ms, ss[0].expr, [], n);
      var a := StmtCode(l, ms, ss[0], n);
      if a.Some? { BodyIff(l, ms, ss[1..], a.value.n); }
      assert forall s :: s in ss <==> s == ss[0] || s in ss[1..];
    }
  }

  lemma {:induction false} MapsIff(l: Lib, ms: seq<NamedMap>, todo: seq<NamedMap>, n: nat)
    ensures MapsCode(l, ms, todo, n).Some? <==> forall m | m in todo :: BodyOk(l, ms, m.body)
  {
    hide StmtsCode, BodyOk;
    if todo != [] {
      BodyIff(l, ms, todo[0].body, n);
      var a := StmtsCode(l, ms, todo[0].body, n);
      if a.Some? { MapsIff(l, ms, todo[1..], a.value.n); }
      assert forall m :: m in todo <==> m == todo[0] || m in todo[1..];
    }
  }

  /** A program is emitted if and only if every statement of it and of its maps can be, whatever it nests. */
  lemma ProgramIff(l: Lib, p: Mapping)
    ensures ProgramCode(l, p).Some? <==>
            BodyOk(l, p.maps, p.statements) && forall m | m in p.maps :: BodyOk(l, p.maps, m.body)
  {
    hide MapsCode, StmtsCode, BodyOk;
    MapsIff(l, p.maps, p.maps, 0);
    var m := MapsCode(l, p.maps, p.maps, 0);
    if m.Some? { BodyIff(l, p.maps, p.statements, m.value.n); }
  }
}
