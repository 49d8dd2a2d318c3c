/** Where the two executions part, and exactly when: arguments beyond what the runtime
    function takes are evaluated by the interpreter and dropped by the emitter, and `catch()`
    without a handler is an error to the one and its target to the other. Validation lets
    `timestamp(default)` through, and anything below `!`. */
module SurplusArguments {
  import opened Values
  import opened Bloblang
  import opened Interp
  import opened Emit
  import opened GeneratedCode
  import opened Simulation
  import opened RuleAgreement

  /** A call of a table-driven method or function that takes `k` arguments. */
  predicate Takes(l: Lib, e: Expr, k: nat) {
    match e
    case Method(_, name, _) => name.Plain? && FindMethod(l, name).Some? && ArityOf(l, name) == Some(k)
    case Call(name, _) => name.PlainFn? && l.functions(name.id).Some? && l.functions(name.id).value.arity == k
    case _ => false
  }

  predicate Surplus(l: Lib, e: Expr, k: nat) { Takes(l, e, k) && |e.args| > k }

  function Trimmed(e: Expr, k: nat): Expr
    requires (e.Method? || e.Call?) && |e.args| > k
  {
    if e.Method? then Method(e.target, e.mname, e.args[..k]) else Call(e.fname, e.args[..k])
  }

  /** The emitter does not see the surplus. */
  lemma SameCode(w: World, e: Expr, k: nat, stack: seq<nat>, n: nat)
    requires Surplus(w.l, e, k)
    ensures Code(w.l, w.p.maps, e, stack, n) == Code(w.l, w.p.maps, Trimmed(e, k), stack, n)
  {
    var u := Trimmed(e, k);
    assert Used(e.args, k) == Used(u.args, k) == u.args;
    if e.Method? {
      forall t: TExpr, m: nat
        ensures MethodCode(w.l, w.p.maps, e, t, stack, m) == MethodCode(w.l, w.p.maps, u, t, stack, m)
      {
      }
    } else {
      assert CallCode(w.l, w.p.maps, e, stack, n) == CallCode(w.l, w.p.maps, u, stack, n);
    }
  }

  /** What comes before the arguments: a method's target; a function has none. */
  function First(l: Lib, p: Mapping, e: Expr, c: Ctx): Out {
    if e.Method? then Eval(l, p, e.target, c) else Out(Ok(Null), c)
  }

  function Applied(l: Lib, e: Expr, k: nat, t: Value, args: seq<Value>): Result
    requires Takes(l, e, k)
  {
    if e.Method? then FindMethod(l, e.mname).value.impl(t, Pad(args, k))
    else l.functions(e.fname.id).value.impl(Pad(args, k))
  }

  /** The arguments that are evaluated, then padded or cut, by either rules. */
  lemma TableIsBy(l: Lib, p: Mapping, e: Expr, k: nat, c: Ctx)
    requires Takes(l, e, k)
    ensures var t := First(l, p, e, c);
            Eval(l, p, e, c) ==
            if t.r.Err? then t
            else
              var a := EvalArgs(l, p, Evaluated(p, e.args, Some(k)), t.c);
              Out(if a.r.None? then Err else Applied(l, e, k, t.r.v, a.r.value), a.c)
  {
    if e.Method? {
      MethodIsBy(l, p, e, c);
      MethodTableIsBy(l, p, e, k, c);
    } else {
      CallIsBy(l, p, e, c);
    }
  }

  lemma MethodTableIsBy(l: Lib, p: Mapping, e: Expr, k: nat, c: Ctx)
    requires e.Method? && Takes(l, e, k)
    ensures var t := Eval(l, p, e.target, c);
            EvalMethod(l, p, e, c) ==
            if t.r.Err? then t
            else
              var a := EvalArgs(l, p, Evaluated(p, e.args, Some(k)), t.c);
              Out(if a.r.None? then Err else Applied(l, e, k, t.r.v, a.r.value), a.c)
  {
    hide Eval, EvalArgs, Pad;
    assert FindLambdaMethod(e.mname) == None;
  }

  /** What the surplus arguments evaluate to, once target and used arguments are done. */
  function SurplusOuts(l: Lib, p: Mapping, e: Expr, k: nat, c: Ctx): Outs
    requires (e.Method? || e.Call?) && |e.args| > k
  {
    EvalArgs(l, p, e.args[k..], EvalArgs(l, p, e.args[..k], First(l, p, e, c).c).c)
  }

  lemma InterpreterSees(l: Lib, p: Mapping, e: Expr, k: nat, c: Ctx)
    requires Surplus(l, e, k) && p.rules.Interpreted?
    ensures var o, u := Eval(l, p, e, c).r, Eval(l, p, Trimmed(e, k), c).r;
            o == if u.Ok? && SurplusOuts(l, p, e, k, c).r.None? then Err else u
  {
    hide Eval, EvalArgs, Pad;
    TableIsBy(l, p, e, k, c);
    TableIsBy(l, p, Trimmed(e, k), k, c);
    var t := First(l, p, e, c);
    if t.r.Ok? {
      ArgsSplit(l, p, e.args, k, t.c);
      var a := EvalArgs(l, p, e.args[..k], t.c);
      var b := SurplusOuts(l, p, e, k, c);
      if a.r.Some? && b.r.Some? { PadCuts(a.r.value, b.r.value, k); }
    }
  }

  /** By the emitted rules the surplus is not there. */
  lemma EmittedCuts(l: Lib, p: Mapping, e: Expr, k: nat, c: Ctx)
    requires Surplus(l, e, k) && p.rules.Emitted?
    ensures Eval(l, p, e, c) == Eval(l, p, Trimmed(e, k), c)
  {
    hide Eval, EvalArgs, Pad;
    TableIsBy(l, p, e, k, c);
    TableIsBy(l, p, Trimmed(e, k), k, c);
    assert e.args[..k][..k] == e.args[..k];
  }

  /** With surplus arguments the two executions of a call agree if and only if it fails anyway
      or every surplus argument evaluates, where its other parts meet only what is shared. */
  lemma SurplusAgreesIff(l: Lib, p: Mapping, e: Expr, k: nat, c: Ctx)
    requires p.rules.Interpreted? && Surplus(l, e, k) && Clear(l, p, Trimmed(e, k), c)
    ensures var o, t := Eval(l, p, e, c).r, Eval(l, ByRules(p, Emitted), e, c).r;
            && (o == t <==> t.Err? || SurplusOuts(l, p, e, k, c).r.Some?)
            && (o.Ok? && t.Ok? ==> o == t)
  {
    hide Eval, EvalArgs, Clear;
    EmittedCuts(l, ByRules(p, Emitted), e, k, c);
    EvalAgrees(l, p, Trimmed(e, k), c);
    InterpreterSees(l, p, e, k, c);
  }

  function BareCatch(target: Expr): Expr { Method(target, Catch, []) }

  lemma BareCatchIs(l: Lib, p: Mapping, target: Expr, c: Ctx)
    ensures Eval(l, p, BareCatch(target), c) == if p.rules.Emitted? then Eval(l, p, target, c) else Out(Err, c)
  {
    MethodIsBy(l, p, BareCatch(target), c);
  }

  /** `x.catch()` is an error interpreted and `x` emitted, so the two agree if and only if
      `x` fails. */
  lemma BareCatchAgreesIff(l: Lib, p: Mapping, target: Expr, c: Ctx)
    requires p.rules.Interpreted? && Clear(l, p, target, c)
    ensures var o, t := Eval(l, p, BareCatch(target), c).r, Eval(l, ByRules(p, Emitted), BareCatch(target), c).r;
            o.Err? && (o == t <==> Eval(l, p, target, c).r.Err?)
  {
    hide Eval, Clear;
    BareCatchIs(l, p, target, c);
    BareCatchIs(l, ByRules(p, Emitted), target, c);
    EvalAgrees(l, p, target, c);
  }

  // ---- mappings that contain them -------------------------------------------------------

  /** `root = e` */
  predicate Assigns(p: Mapping, e: Expr) { p.statements == [Statement(Root, e)] }

  function RootWith(v: Value, c: Ctx): Value { if v.Nothing? then RootOf(c) else v }

  lemma RunOne(l: Lib, p: Mapping, e: Expr, c: Ctx)
    requires Assigns(p, e) && (e.Method? || e.Call? || e.Not?)
    ensures var o := Eval(l, p, e, c);
            Run(l, p, c) == if o.r.Err? then o else Out(Ok(RootWith(o.r.v, c)), o.c)
  {
    var ss := p.statements;
    assert ss[0] == Statement(Root, e) && ss[1..] == [];
    hide Eval;
    assert Outcome(l, p, e, c) == Eval(l, p, e, c);
    RunStep(l, p, ss, RootOf(c), false, c);
  }

  /** The generated function of such a mapping and the interpreter agree if and only if the
      two evaluations of its one expression do. */
  lemma OneStatement(w: World, e: Expr, c: Ctx)
    requires Accepted(w) && w.p.rules.Interpreted? && Assigns(w.p, e) && (e.Method? || e.Call? || e.Not?)
    requires var o, t := Eval(w.l, w.p, e, c).r, Eval(w.l, ByRules(w.p, Emitted), e, c).r; o.Ok? && t.Ok? ==> o == t
    ensures RunMain(w.l, w.g, w.ord, c).r == Run(w.l, w.p, c).r
            <==> Eval(w.l, w.p, e, c).r == Eval(w.l, ByRules(w.p, Emitted), e, c).r
  {
    hide Eval, Accepted, RunMain, Run;
    EmittedMeaning(w, c);
    RunOne(w.l, w.p, e, c);
    RunOne(w.l, ByRules(w.p, Emitted), e, c);
  }

  /** `root = x.m(…)` or `root = f(…)` with surplus arguments. */
  lemma SurplusMappingAgreesIff(w: World, e: Expr, k: nat, c: Ctx)
    requires Accepted(w) && w.p.rules.Interpreted? && Assigns(w.p, e)
    requires Surplus(w.l, e, k) && Clear(w.l, w.p, Trimmed(e, k), c)
    ensures RunMain(w.l, w.g, w.ord, c).r == Run(w.l, w.p, c).r
            <==> Eval(w.l, w.p, Trimmed(e, k), c).r.Err? || SurplusOuts(w.l, w.p, e, k, c).r.Some?
  {
    hide Eval, Accepted, RunMain, Run, Clear, SurplusOuts;
    SurplusAgreesIff(w.l, w.p, e, k, c);
    OneStatement(w, e, c);
    EmittedCuts(w.l, ByRules(w.p, Emitted), e, k, c);
    EvalAgrees(w.l, w.p, Trimmed(e, k), c);
  }

  /** `root = x.catch()` */
  lemma BareCatchMappingAgreesIff(w: World, target: Expr, c: Ctx)
    requires Accepted(w) && w.p.rules.Interpreted? && Assigns(w.p, BareCatch(target)) && Clear(w.l, w.p, target, c)
    ensures RunMain(w.l, w.g, w.ord, c).r == Run(w.l, w.p, c).r <==> Eval(w.l, w.p, target, c).r.Err?
  {
    hide Eval, Accepted, RunMain, Run, Clear;
    BareCatchAgreesIff(w.l, w.p, target, c);
    OneStatement(w, BareCatch(target), c);
  }

  // ---- at an input ------------------------------------------------------------------------

  const FAILING: Expr := Neg(Lit(Bool(true)))

  function Only(e: Expr): Mapping { Mapping([Statement(Root, e)], [], Interpreted) }

  lemma OnlyEmits(l: Lib, e: Expr)
    requires Code(l, [], e, [], 0).Some?
    ensures ProgramCode(l, Only(e)).Some?
  {
    var s := Statement(Root, e);
    assert [s][1..] == [];
    assert StmtCode(l, [], s, 0).Some? && StmtsCode(l, [], [], StmtCode(l, [], s, 0).value.n).Some?;
    assert StmtsCode(l, [], [s], 0).Some? && MapsCode(l, [], [], 0) == Some(Em([], 0));
  }

  lemma FailingFails(l: Lib, p: Mapping, c: Ctx)
    ensures EvalArgs(l, p, [FAILING], c).r.None?
  {
    assert Eval(l, p, Lit(Bool(true)), c) == Out(Ok(Bool(true)), c);
    assert Eval(l, p, FAILING, c).r == Err;
  }

  /** A call of no arguments that succeeds, given one that fails. */
  lemma FailingSurplus(w: World, e: Expr, c: Ctx, v: Value)
    requires Accepted(w) && w.p == Only(e) && Surplus(w.l, e, 0) && e.args == [FAILING]
    requires First(w.l, w.p, e, c) == Out(Ok(v), c) && Clear(w.l, w.p, Trimmed(e, 0), c) && Applied(w.l, e, 0, v, []).Ok?
    ensures Run(w.l, w.p, c).r == Err && RunMain(w.l, w.g, w.ord, c).r.Ok?
  {
    hide Eval, Accepted, RunMain, Run, Clear;
    var u := Trimmed(e, 0);
    assert e.args[..0] == [] && e.args[0..] == [FAILING];
    FailingFails(w.l, w.p, c);
    NoArguments(w.l, w.p, c);
    TableIsBy(w.l, w.p, u, 0, c);
    InterpreterSees(w.l, w.p, e, 0, c);
    SurplusMappingAgreesIff(w, e, 0, c);
    RunOne(w.l, w.p, e, c);
  }

  lemma NoArguments(l: Lib, p: Mapping, c: Ctx)
    ensures EvalArgs(l, p, [], c) == Outs(Some([]), c)
  {
  }

  /** `root = this.timestamp(-true)`: emitted; an error interpreted and a value compiled. */
  lemma SurplusDiverges(w: World, c: Ctx, v: Value, name: string)
    requires w.l.methods(Plain(name)).Some? && w.l.methods(Plain(name)).value.arity == Some(0)
    requires w.l.methods(Plain(name)).value.impl(v, []).Ok? && c.thisV == Some(v)
    requires w.p == Only(Method(This, Plain(name), [FAILING])) && (ProgramCode(w.l, w.p).Some? ==> Accepted(w))
    ensures ProgramCode(w.l, w.p).Some?
    ensures Run(w.l, w.p, c).r == Err && RunMain(w.l, w.g, w.ord, c).r.Ok?
  {
    var e := Method(This, Plain(name), [FAILING]);
    MethodEmits(w.l, e, name);
    OnlyEmits(w.l, e);
    hide Accepted, RunMain, Run;
    MethodParts(w.l, w.p, e, c, v);
    FailingSurplus(w, e, c, v);
  }

  lemma MethodEmits(l: Lib, e: Expr, name: string)
    requires e == Method(This, Plain(name), [FAILING]) && FindMethod(l, Plain(name)).Some?
    requires FindMethod(l, Plain(name)).value.arity == Some(0)
    ensures Code(l, [], e, [], 0).Some?
  {
    assert Code(l, [], This, [], 0) == Some(Em(TSelf, 0));
    assert Used(e.args, 0) == [] && AllCode(l, [], [], [], 0).Some?;
  }

  lemma MethodParts(l: Lib, p: Mapping, e: Expr, c: Ctx, v: Value)
    requires e.Method? && e.target.This? && e.mname.Plain? && e.args != [] && c.thisV == Some(v) && Takes(l, e, 0)
    ensures First(l, p, e, c) == Out(Ok(v), c) && Clear(l, p, Trimmed(e, 0), c)
    ensures Applied(l, e, 0, v, []) == FindMethod(l, e.mname).value.impl(v, [])
  {
    assert e.args[..0] == [] && Pad([], 0) == [];
    var u := Trimmed(e, 0);
    assert ClearAll(l, p, [], c);
    assert ClearArgs(l, p, u.args, ArityOf(l, e.mname), c);
    assert FindLambdaMethod(e.mname) == None && ClearEager(l, p, u, v, c);
    assert Eval(l, p, u.target, c) == Out(Ok(v), c);
    assert ClearMethod(l, p, u, c);
  }

  /** `root = f(-true)`, as can stand below `!`. */
  lemma SurplusFunctionDiverges(w: World, c: Ctx, id: string)
    requires w.l.functions(id).Some? && w.l.functions(id).value.arity == 0 && w.l.functions(id).value.impl([]).Ok?
    requires w.p == Only(Call(PlainFn(id), [FAILING])) && (ProgramCode(w.l, w.p).Some? ==> Accepted(w))
    ensures ProgramCode(w.l, w.p).Some?
    ensures Run(w.l, w.p, c).r == Err && RunMain(w.l, w.g, w.ord, c).r.Ok?
  {
    var e := Call(PlainFn(id), [FAILING]);
    FunctionEmits(w.l, e, id);
    OnlyEmits(w.l, e);
    hide Accepted, RunMain, Run;
    FunctionParts(w.l, w.p, e, c);
    FailingSurplus(w, e, c, Null);
  }

  lemma FunctionEmits(l: Lib, e: Expr, id: string)
    requires e == Call(PlainFn(id), [FAILING]) && l.functions(id).Some? && l.functions(id).value.arity == 0
    ensures Code(l, [], e, [], 0).Some?
  {
    assert Used(e.args, 0) == [] && AllCode(l, [], [], [], 0).Some?;
    assert CallCode(l, [], e, [], 0).Some?;
  }

  lemma FunctionParts(l: Lib, p: Mapping, e: Expr, c: Ctx)
    requires e.Call? && e.args != [] && Takes(l, e, 0)
    ensures First(l, p, e, c) == Out(Ok(Null), c) && Clear(l, p, Trimmed(e, 0), c)
    ensures Applied(l, e, 0, Null, []) == l.functions(e.fname.id).value.impl([])
  {
    assert e.args[..0] == [] && Pad([], 0) == [];
    assert ClearAll(l, p, [], c);
    assert ClearCall(l, p, Trimmed(e, 0), c);
  }

  const OK_FIELD: Str := [111, 107]
  const FIELD: Expr := Field(This, OK_FIELD)

  /** `root = !this.ok.catch()`, which validation lets through. */
  const NEGATED_CATCH: Expr := Not(BareCatch(FIELD))

  /** On `{"ok": true}` the interpreter fails and the generated function yields false. */
  lemma BareCatchDiverges(w: World, c: Ctx)
    requires w.p == Only(NEGATED_CATCH) && (ProgramCode(w.l, w.p).Some? ==> Accepted(w))
    requires c.thisV == Some(Obj([Entry(OK_FIELD, Bool(true))]))
    ensures ProgramCode(w.l, w.p).Some?
    ensures Run(w.l, w.p, c).r == Err && RunMain(w.l, w.g, w.ord, c).r == Ok(Bool(false))
  {
    NegatedEmits(w.l);
    OnlyEmits(w.l, NEGATED_CATCH);
    hide Accepted, RunMain, Run, Eval;
    NegatedInterpreted(w.l, w.p, c);
    NegatedEmitted(w.l, ByRules(w.p, Emitted), c);
    RunOne(w.l, w.p, NEGATED_CATCH, c);
    RunOne(w.l, ByRules(w.p, Emitted), NEGATED_CATCH, c);
    EmittedMeaning(w, c);
  }

  lemma NegatedEmits(l: Lib)
    ensures Code(l, [], NEGATED_CATCH, [], 0).Some?
  {
    assert Code(l, [], This, [], 0) == Some(Em(TSelf, 0));
    assert Code(l, [], FIELD, [], 0) == Some(Em(TGetField(TSelf, OK_FIELD), 0));
    assert MethodCode(l, [], BareCatch(FIELD), TGetField(TSelf, OK_FIELD), [], 0).Some?;
  }

  lemma NotIs(l: Lib, p: Mapping, x: Expr, c: Ctx)
    ensures var o := Eval(l, p, x, c);
            Eval(l, p, Not(x), c).r == match Truthy(o.r) case Some(b) => Ok(Bool(!b)) case None => Err
  {
  }

  lemma NegatedInterpreted(l: Lib, p: Mapping, c: Ctx)
    requires p.rules.Interpreted?
    ensures Eval(l, p, NEGATED_CATCH, c).r == Err
  {
    hide Eval;
    NotIs(l, p, BareCatch(FIELD), c);
    BareCatchIs(l, p, FIELD, c);
  }

  lemma NegatedEmitted(l: Lib, p: Mapping, c: Ctx)
    requires p.rules.Emitted? && c.thisV == Some(Obj([Entry(OK_FIELD, Bool(true))]))
    ensures Eval(l, p, NEGATED_CATCH, c).r == Ok(Bool(false))
  {
    OkField(l, p, c);
    hide Eval;
    NotIs(l, p, BareCatch(FIELD), c);
    BareCatchIs(l, p, FIELD, c);
  }

  lemma OkField(l: Lib, p: Mapping, c: Ctx)
    requires c.thisV == Some(Obj([Entry(OK_FIELD, Bool(true))]))
    ensures Eval(l, p, FIELD, c) == Out(Ok(Bool(true)), c)
  {
    LessTrichotomy(OK_FIELD, OK_FIELD);
    assert GetField(c.thisV.value, OK_FIELD) == Bool(true);
    assert Eval(l, p, This, c) == Out(Ok(c.thisV.value), c);
  }
}
