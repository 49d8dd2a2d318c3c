/** When the two rules of evaluation have the same outcome: in every run that meets only what
    they share. With what generated code means, this is when it agrees with the interpreter. */
module RuleAgreement {
  import opened Values
  import opened Numbers
  import opened Bloblang
  import opened Interp
  import opened FastPath
  import opened GeneratedCode
  import opened Simulation

  // ---- runs that meet only what the rules share -----------------------------------------

  /** In the interpreter's evaluation of `e` every `catch()` without a handler has a target
      that fails and leaves nothing behind, every surplus argument yields a value and leaves
      nothing behind, and every unboxed statement of a map that is applied negates only
      doubles at which minus is subtraction from zero. */
  predicate Clear(l: Lib, p: Mapping, e: Expr, c: Ctx)
    decreases 3 * Room(c) + 1, e, 4, 0
  {
    match e
    case Field(t, _) => Clear(l, p, t, c)
    case Index(t, i) => Clear(l, p, t, c) && (Eval(l, p, t, c).r.Ok? ==> Clear(l, p, i, Eval(l, p, t, c).c))
    case Call(_, _) => ClearCall(l, p, e, c)
    case Method(_, _, _) => ClearMethod(l, p, e, c)
    case Binary(op, x, y) =>
      Clear(l, p, x, c) && (NeedsRight(op, Eval(l, p, x, c).r) ==> Clear(l, p, y, Eval(l, p, x, c).c))
    case Neg(x) => Clear(l, p, x, c)
    case Not(x) => Clear(l, p, x, c)
    case If(q, x, y) =>
      var o := Eval(l, p, q, c);
      && Clear(l, p, q, c)
      && (Truthy(o.r) == Some(true) ==> Clear(l, p, x, o.c))
      && (Truthy(o.r) == Some(false) && y.Some? ==> Clear(l, p, y.value, o.c))
    case Array(items) => ClearAll(l, p, items, c)
    case Object(_) => ClearFields(l, p, e, 0, c)
    case Match(context, _) =>
      if context.None? then ClearArms(l, p, e, 0, c)
      else
        var o := Eval(l, p, context.value, c);
        Clear(l, p, context.value, c) && (o.r.Ok? ==> ClearArms(l, p, e, 0, o.c.(thisV := Some(o.r.v))))
    case _ => true
  }

  /** Whether the right operand is evaluated. */
  predicate NeedsRight(op: BinOp, r: Result) {
    match op
    case AndOp => Truthy(r) == Some(true)
    case OrOp => Truthy(r) == Some(false)
    case Coalesce => !Present(r)
    case _ => r.Ok?
  }

  predicate ClearAll(l: Lib, p: Mapping, es: seq<Expr>, c: Ctx)
    decreases 3 * Room(c) + 1, es, 2, 0
  {
    es == [] ||
    (var o := Eval(l, p, es[0], c);
     Clear(l, p, es[0], c) && (o.r.Ok? ==> ClearAll(l, p, es[1..], o.c)))
  }

  predicate ClearFields(l: Lib, p: Mapping, e: Expr, i: nat, c: Ctx)
    requires e.Object? && i <= |e.fields|
    decreases 3 * Room(c) + 1, e, 2, |e.fields| - i
  {
    i == |e.fields| ||
    (var k := Eval(l, p, e.fields[i].key, c);
     && Clear(l, p, e.fields[i].key, c)
     && (k.r.Ok? && k.r.v.IsStringy() ==>
           var o := Eval(l, p, e.fields[i].val, k.c);
           Clear(l, p, e.fields[i].val, k.c) && (o.r.Ok? ==> ClearFields(l, p, e, i + 1, o.c))))
  }

  predicate ClearArms(l: Lib, p: Mapping, e: Expr, i: nat, c: Ctx)
    requires e.Match? && i <= |e.cases|
    decreases 3 * Room(c) + 1, e, 2, |e.cases| - i
  {
    i == |e.cases| ||
    (var k := e.cases[i];
     if k.cond.None? then Clear(l, p, k.val, c)
     else
       var o := Eval(l, p, k.cond.value, c);
       && Clear(l, p, k.cond.value, c)
       && (o.r.Ok? ==> if TruthyBool(o.r.v) then Clear(l, p, k.val, o.c) else ClearArms(l, p, e, i + 1, o.c)))
  }

  /** Arguments of which the function takes `arity`, all if it is variadic. */
  predicate ClearArgs(l: Lib, p: Mapping, args: seq<Expr>, arity: Option<nat>, c: Ctx)
    decreases 3 * Room(c) + 1, args, 3, 0
  {
    ClearAll(l, p, args, c) && (arity.Some? && arity.value < |args| ==> Spared(l, p, args, arity.value, c))
  }

  /** Evaluating what is beyond the first `k` arguments makes no difference. */
  predicate Spared(l: Lib, p: Mapping, args: seq<Expr>, k: nat, c: Ctx)
    requires k < |args|
  {
    var u := EvalArgs(l, p, args[..k], c);
    var x := EvalArgs(l, p, args[k..], u.c);
    u.r.Some? ==> x.r.Some? && x.c == u.c
  }

  predicate ClearCall(l: Lib, p: Mapping, e: Expr, c: Ctx)
    requires e.Call?
    decreases 3 * Room(c) + 1, e, 3, 0
  {
    if e.fname.PlainFn? then
      match l.functions(e.fname.id) case None => true case Some(d) => ClearArgs(l, p, e.args, Some(d.arity), c)
    else e.fname.MessageFn? || e.args == [] || Clear(l, p, e.args[0], c)
  }

  predicate ClearMethod(l: Lib, p: Mapping, e: Expr, c: Ctx)
    requires e.Method?
    decreases 3 * Room(c) + 1, e, 3, 0
  {
    if e.mname.FromAll? then c.amb.all.None? || ClearEach(l, p, e, 0, c)
    else if e.mname.From? then
      e.args == [] ||
      (var i := Eval(l, p, e.args[0], c);
       && Clear(l, p, e.args[0], c)
       && (match (if i.r.Ok? then AsI64(l.fl, i.r.v) else None)
           case None => true
           case Some(idx) =>
             i.c.amb.all.Some? && 0 <= idx < |i.c.amb.all.value| ==>
               Clear(l, p, e.target, i.c.(amb := AtMessage(i.c.amb, idx)))))
    else
      var t := Eval(l, p, e.target, c);
      && Clear(l, p, e.target, c)
      && (if e.mname.Number? || e.mname.ToBool? then
            Coerce(l, e.mname, t.r).Err? && e.args != [] ==> Clear(l, p, e.args[0], t.c)
          else if e.mname.Or? then !Present(t.r) && e.args != [] ==> Clear(l, p, e.args[0], t.c)
          else if e.mname.Catch? then
            if e.args == [] then t == Out(Err, c) else t.r.Err? ==> ClearHandler(l, p, e, t.c)
          else t.r.Ok? ==> ClearEager(l, p, e, t.r.v, t.c))
  }

  predicate ClearHandler(l: Lib, p: Mapping, e: Expr, c: Ctx)
    requires e.Method? && e.args != []
    decreases 3 * Room(c) + 1, e, 2, 0
  {
    var h := e.args[0];
    if h.Lambda? then Clear(l, p, h.body, c.(vars := c.vars[h.param := ERROR_TEXT]))
    else Clear(l, p, h, c.(thisV := Some(ERROR_TEXT)))
  }

  predicate ClearEach(l: Lib, p: Mapping, e: Expr, i: nat, c: Ctx)
    requires e.Method? && c.amb.all.Some? && i <= |c.amb.all.value|
    decreases 3 * Room(c) + 1, e, 2, |c.amb.all.value| - i
  {
    i == |c.amb.all.value| ||
    (var b := c.(amb := AtMessage(c.amb, i));
     var o := Eval(l, p, e.target, b);
     Clear(l, p, e.target, b) && (o.r.Ok? ==> ClearEach(l, p, e, i + 1, o.c)))
  }

  predicate ClearEager(l: Lib, p: Mapping, e: Expr, t: Value, c: Ctx)
    requires e.Method?
    decreases 3 * Room(c) + 1, e, 2, 0
  {
    if e.mname.ApplyMethod? then
      e.args == [] ||
      (var n := Eval(l, p, e.args[0], c);
       && Clear(l, p, e.args[0], c)
       && (n.r.Ok? && n.r.v.IsStringy() ==>
             match FindMap(p.maps, n.r.v.Text()) case None => true case Some(i) => ClearMap(l, p, i, t, n.c)))
    else
      var lm := FindLambdaMethod(e.mname);
      if lm.Some? && !(lm.value.optional && |e.args| <= lm.value.leading) then ClearLambda(l, p, e, t, c)
      else ClearArgs(l, p, e.args, ArityOf(l, e.mname), c)
  }

  predicate ClearLambda(l: Lib, p: Mapping, e: Expr, t: Value, c: Ctx)
    requires e.Method? && FindLambdaMethod(e.mname).Some?
    decreases 3 * Room(c) + 1, e, 1, 0
  {
    var qi := FindLambdaMethod(e.mname).value.leading;
    |e.args| <= qi ||
    (var init := if qi > 0 then Eval(l, p, e.args[0], c) else Out(Ok(Null), c);
     && (qi > 0 ==> Clear(l, p, e.args[0], c))
     && (init.r.Ok? ==>
           if e.args[qi].Lambda? then ClearVar(l, p, e.mname, t, init.r.v, e.args[qi], [], init.c)
           else ClearThis(l, p, e.mname, t, init.r.v, e.args[qi], [], init.c)))
  }

  predicate ClearVar(l: Lib, p: Mapping, name: MethodName, t: Value, init: Value, q: Expr, hist: seq<Value>, c: Ctx)
    requires q.Lambda?
    decreases 3 * Room(c) + 1, q, 0, Calls(l, name, t, init, hist)
  {
    match l.lambdaStep(name, t, init, hist)
    case Done(_) => true
    case Ask(el) =>
      var b := c.(vars := c.vars[q.param := el]);
      var o := Eval(l, p, q.body, b);
      Calls(l, name, t, init, hist) == 0 ||
      (Clear(l, p, q.body, b) && (o.r.Ok? ==> ClearVar(l, p, name, t, init, q, hist + [o.r.v], o.c)))
  }

  predicate ClearThis(l: Lib, p: Mapping, name: MethodName, t: Value, init: Value, q: Expr, hist: seq<Value>, c: Ctx)
    decreases 3 * Room(c) + 1, q, 5, Calls(l, name, t, init, hist)
  {
    match l.lambdaStep(name, t, init, hist)
    case Done(_) => true
    case Ask(el) =>
      var b := c.(thisV := Some(el));
      var o := Eval(l, p, q, b);
      Calls(l, name, t, init, hist) == 0 ||
      (Clear(l, p, q, b) && (o.r.Ok? ==> ClearThis(l, p, name, t, init, q, hist + [o.r.v], o.c)))
  }

  predicate ClearMap(l: Lib, p: Mapping, i: nat, t: Value, c: Ctx)
    decreases 3 * Room(c)
  {
    c.depth >= MAX_APPLY_DEPTH || i >= |p.maps| ||
    (var inner := c.(thisV := Some(t), vars := map[], depth := c.depth + 1);
     ClearStmts(l, p, p.maps[i].body, RootOf(inner), false, inner))
  }

  predicate ClearStmts(l: Lib, p: Mapping, ss: seq<Statement>, root: Value, rootSet: bool, c: Ctx)
    decreases 3 * Room(c) + 2, ss
  {
    ss == [] ||
    (var o := Eval(l, p, ss[0].expr, c);
     && Clear(l, p, ss[0].expr, c) && NegsAgreeOn(l, ss[0].expr, c.thisV)
     && (o.r.Ok? ==>
           var x := NextState(ss[0].target, o.r.v, root, rootSet, o.c);
           x.Assigned? ==> ClearStmts(l, p, ss[1..], x.root, x.rootSet, x.c)))
  }

  /** If the statement runs unboxed on this `this`, every double that it negates is one at
      which minus is subtraction from zero. */
  predicate NegsAgreeOn(l: Lib, e: Expr, self: Option<Value>) {
    Unboxed(e, self) ==> NegsAgree(l.fl, e, self.value)
  }

  // ---- such runs have one outcome -------------------------------------------------------

  lemma {:induction false} EvalAgrees(l: Lib, p: Mapping, e: Expr, c: Ctx)
    requires p.rules.Interpreted? && Clear(l, p, e, c)
    ensures Eval(l, ByRules(p, Emitted), e, c) == Eval(l, p, e, c)
    decreases 3 * Room(c) + 1, e, 5, 0
  {
    hide Eval, Clear;
    match e
    case Lit(_) => LeafAgrees(l, p, e, c);
    case This => LeafAgrees(l, p, e, c);
    case Var(_) => LeafAgrees(l, p, e, c);
    case Lambda(_, _) => LeafAgrees(l, p, e, c);
    case Field(_, _) => UnaryAgrees(l, p, e, e.target, c);
    case Neg(_) => UnaryAgrees(l, p, e, e.operand, c);
    case Not(_) => UnaryAgrees(l, p, e, e.operand, c);
    case Index(_, _) => IndexAgrees(l, p, e, c);
    case Binary(_, _, _) => BinaryAgrees(l, p, e, c);
    case If(_, _, _) => IfAgrees(l, p, e, c);
    case Array(_) => ArrayAgrees(l, p, e, c);
    case Object(_) => ObjectAgrees(l, p, e, c);
    case Match(_, _) => MatchAgrees(l, p, e, c);
    case Call(_, _) => CallAgrees(l, p, e, c);
    case Method(_, _, _) => MethodAgrees(l, p, e, c);
  }

  lemma LeafAgrees(l: Lib, p: Mapping, e: Expr, c: Ctx)
    requires e.Lit? || e.This? || e.Var? || e.Lambda?
    ensures Eval(l, ByRules(p, Emitted), e, c) == Eval(l, p, e, c)
  {
  }

  lemma {:induction false} UnaryAgrees(l: Lib, p: Mapping, e: Expr, x: Expr, c: Ctx)
    requires p.rules.Interpreted? && Clear(l, p, e, c)
    requires (e.Field? && x == e.target) || ((e.Neg? || e.Not?) && x == e.operand)
    ensures Eval(l, ByRules(p, Emitted), e, c) == Eval(l, p, e, c)
    decreases 3 * Room(c) + 1, e, 4, 0
  {
    EvalAgrees(l, p, x, c);
  }

  lemma {:induction false} IndexAgrees(l: Lib, p: Mapping, e: Expr, c: Ctx)
    requires p.rules.Interpreted? && e.Index? && Clear(l, p, e, c)
    ensures Eval(l, ByRules(p, Emitted), e, c) == Eval(l, p, e, c)
    decreases 3 * Room(c) + 1, e, 4, 0
  {
    var o := Eval(l, p, e.target, c);
    EvalAgrees(l, p, e.target, c);
    if o.r.Ok? { EvalAgrees(l, p, e.index, o.c); }
  }

  lemma {:induction false} BinaryAgrees(l: Lib, p: Mapping, e: Expr, c: Ctx)
    requires p.rules.Interpreted? && e.Binary? && Clear(l, p, e, c)
    ensures Eval(l, ByRules(p, Emitted), e, c) == Eval(l, p, e, c)
    decreases 3 * Room(c) + 1, e, 4, 0
  {
    hide Apply2;
    var o := Eval(l, p, e.lhs, c);
    EvalAgrees(l, p, e.lhs, c);
    if NeedsRight(e.op, o.r) { EvalAgrees(l, p, e.rhs, o.c); }
    hide Eval;
    BinaryAlike(l, p, e, c);
  }

  lemma BinaryAlike(l: Lib, p: Mapping, e: Expr, c: Ctx)
    requires e.Binary?
    requires var q := ByRules(p, Emitted);
             var o := Eval(l, p, e.lhs, c);
             Eval(l, q, e.lhs, c) == o && (NeedsRight(e.op, o.r) ==> Eval(l, q, e.rhs, o.c) == Eval(l, p, e.rhs, o.c))
    ensures Eval(l, ByRules(p, Emitted), e, c) == Eval(l, p, e, c)
  {
    hide Eval, Apply2;
    BinaryIsBy(l, p, e, c);
    BinaryIsBy(l, ByRules(p, Emitted), e, c);
  }

  lemma BinaryIsBy(l: Lib, p: Mapping, e: Expr, c: Ctx)
    requires e.Binary?
    ensures Eval(l, p, e, c) == EvalBinary(l, p, e, c)
  {
  }

  lemma {:induction false} IfAgrees(l: Lib, p: Mapping, e: Expr, c: Ctx)
    requires p.rules.Interpreted? && e.If? && Clear(l, p, e, c)
    ensures Eval(l, ByRules(p, Emitted), e, c) == Eval(l, p, e, c)
    decreases 3 * Room(c) + 1, e, 4, 0
  {
    var o := Eval(l, p, e.cond, c);
    EvalAgrees(l, p, e.cond, c);
    if Truthy(o.r) == Some(true) {
      EvalAgrees(l, p, e.thn, o.c);
    } else if Truthy(o.r) == Some(false) && e.els.Some? {
      EvalAgrees(l, p, e.els.value, o.c);
    }
  }

  lemma {:induction false} ArrayAgrees(l: Lib, p: Mapping, e: Expr, c: Ctx)
    requires p.rules.Interpreted? && e.Array? && Clear(l, p, e, c)
    ensures Eval(l, ByRules(p, Emitted), e, c) == Eval(l, p, e, c)
    decreases 3 * Room(c) + 1, e, 4, 0
  {
    ItemsAgree(l, p, e.items, [], c);
  }

  lemma {:induction false} ItemsAgree(l: Lib, p: Mapping, items: seq<Expr>, acc: seq<Value>, c: Ctx)
    requires p.rules.Interpreted? && ClearAll(l, p, items, c)
    ensures EvalItems(l, ByRules(p, Emitted), items, acc, c) == EvalItems(l, p, items, acc, c)
    decreases 3 * Room(c) + 1, items, 2, 0
  {
    hide Eval, Clear;
    if items != [] {
      var o := Eval(l, p, items[0], c);
      EvalAgrees(l, p, items[0], c);
      if o.r.Ok? { ItemsAgree(l, p, items[1..], if LiteralOmits(o.r.v) then acc else acc + [o.r.v], o.c); }
    }
  }

  lemma {:induction false} AllAgree(l: Lib, p: Mapping, es: seq<Expr>, c: Ctx)
    requires p.rules.Interpreted? && ClearAll(l, p, es, c)
    ensures EvalArgs(l, ByRules(p, Emitted), es, c) == EvalArgs(l, p, es, c)
    decreases 3 * Room(c) + 1, es, 2, 0
  {
    hide Eval, Clear;
    if es != [] {
      var o := Eval(l, p, es[0], c);
      EvalAgrees(l, p, es[0], c);
      if o.r.Ok? { AllAgree(l, p, es[1..], o.c); }
    }
  }

  lemma {:induction false} ObjectAgrees(l: Lib, p: Mapping, e: Expr, c: Ctx)
    requires p.rules.Interpreted? && e.Object? && Clear(l, p, e, c)
    ensures Eval(l, ByRules(p, Emitted), e, c) == Eval(l, p, e, c)
    decreases 3 * Room(c) + 1, e, 4, 0
  {
    FieldsAgree(l, p, e, 0, Obj([]), c);
  }

  lemma {:induction false} FieldsAgree(l: Lib, p: Mapping, e: Expr, i: nat, acc: Value, c: Ctx)
    requires p.rules.Interpreted? && e.Object? && i <= |e.fields| && ClearFields(l, p, e, i, c)
    ensures EvalFields(l, ByRules(p, Emitted), e, i, acc, c) == EvalFields(l, p, e, i, acc, c)
    decreases 3 * Room(c) + 1, e, 2, |e.fields| - i
  {
    hide Eval, Clear;
    if i < |e.fields| {
      var k := Eval(l, p, e.fields[i].key, c);
      EvalAgrees(l, p, e.fields[i].key, c);
      if k.r.Ok? && k.r.v.IsStringy() {
        var o := Eval(l, p, e.fields[i].val, k.c);
        EvalAgrees(l, p, e.fields[i].val, k.c);
        if o.r.Ok? {
          FieldsAgree(l, p, e, i + 1, if LiteralOmits(o.r.v) then acc else SetField(acc, k.r.v.Text(), o.r.v), o.c);
        }
      }
    }
  }

  lemma {:induction false} MatchAgrees(l: Lib, p: Mapping, e: Expr, c: Ctx)
    requires p.rules.Interpreted? && e.Match? && Clear(l, p, e, c)
    ensures Eval(l, ByRules(p, Emitted), e, c) == Eval(l, p, e, c)
    decreases 3 * Room(c) + 1, e, 4, 0
  {
    if e.context.None? {
      ArmsAgree(l, p, e, 0, c);
    } else {
      var o := Eval(l, p, e.context.value, c);
      EvalAgrees(l, p, e.context.value, c);
      if o.r.Ok? { ArmsAgree(l, p, e, 0, o.c.(thisV := Some(o.r.v))); }
    }
  }

  lemma {:induction false} ArmsAgree(l: Lib, p: Mapping, e: Expr, i: nat, c: Ctx)
    requires p.rules.Interpreted? && e.Match? && i <= |e.cases| && ClearArms(l, p, e, i, c)
    ensures EvalCases(l, ByRules(p, Emitted), e, i, c) == EvalCases(l, p, e, i, c)
    decreases 3 * Room(c) + 1, e, 2, |e.cases| - i
  {
    hide Eval, Clear;
    if i < |e.cases| {
      var k := e.cases[i];
      if k.cond.None? {
        EvalAgrees(l, p, k.val, c);
      } else {
        var o := Eval(l, p, k.cond.value, c);
        EvalAgrees(l, p, k.cond.value, c);
        if o.r.Ok? {
          if TruthyBool(o.r.v) { EvalAgrees(l, p, k.val, o.c); } else { ArmsAgree(l, p, e, i + 1, o.c); }
        }
      }
    }
  }

  // ---- calls ------------------------------------------------------------------------------

  /** What the arguments that are used evaluate to, and what all of them do. */
  lemma {:induction false} ArgsAgree(l: Lib, p: Mapping, args: seq<Expr>, arity: Option<nat>, c: Ctx)
    requires p.rules.Interpreted? && ClearArgs(l, p, args, arity, c)
    ensures var a, b := EvalArgs(l, ByRules(p, Emitted), Evaluated(ByRules(p, Emitted), args, arity), c), EvalArgs(l, p, args, c);
            && a.c == b.c && a.r.Some? == b.r.Some?
            && (a.r.Some? && arity.Some? ==> Pad(a.r.value, arity.value) == Pad(b.r.value, arity.value))
            && (arity.None? ==> a == b)
    decreases 3 * Room(c) + 1, args, 4, 0
  {
    hide Eval, Clear, EvalArgs;
    var q := ByRules(p, Emitted);
    if arity.Some? && arity.value < |args| {
      var k := arity.value;
      ClearPrefix(l, p, args, k, c);
      AllAgree(l, p, args[..k], c);
      ArgsSplit(l, p, args, k, c);
      var a := EvalArgs(l, p, args[..k], c);
      if a.r.Some? {
        var b := EvalArgs(l, p, args[k..], a.c);
        PadCuts(a.r.value, b.r.value, k);
      }
    } else {
      AllAgree(l, p, args, c);
    }
  }

  lemma PadCuts(a: seq<Value>, b: seq<Value>, k: nat)
    requires |a| == k
    ensures Pad(a + b, k) == Pad(a, k)
  {
  }

  lemma {:induction false} ClearPrefix(l: Lib, p: Mapping, es: seq<Expr>, k: nat, c: Ctx)
    requires k <= |es| && ClearAll(l, p, es, c)
    ensures ClearAll(l, p, es[..k], c)
    decreases k
  {
    hide Eval, Clear;
    if k > 0 {
      var o := Eval(l, p, es[0], c);
      assert es[..k][1..] == es[1..][..k - 1];
      if o.r.Ok? { ClearPrefix(l, p, es[1..], k - 1, o.c); }
    }
  }

  lemma {:induction false} ArgsSplit(l: Lib, p: Mapping, args: seq<Expr>, k: nat, c: Ctx)
    requires k <= |args|
    ensures var a, o := EvalArgs(l, p, args[..k], c), EvalArgs(l, p, args, c);
            var b := EvalArgs(l, p, args[k..], a.c);
            o == if a.r.None? then a else Outs(if b.r.Some? then Some(a.r.value + b.r.value) else None, b.c)
    decreases k
  {
    hide Eval;
    var a := EvalArgs(l, p, args[..k], c);
    if k == 0 {
      assert args[..k] == [] && args[k..] == args;
      var b := EvalArgs(l, p, args[k..], a.c);
      if b.r.Some? { assert [] + b.r.value == b.r.value; }
    } else {
      var o := Eval(l, p, args[0], c);
      assert args[..k][1..] == args[1..][..k - 1] && args[1..][k - 1..] == args[k..];
      if o.r.Ok? {
        ArgsSplit(l, p, args[1..], k - 1, o.c);
        var rest := EvalArgs(l, p, args[1..][..k - 1], o.c);
        if rest.r.Some? {
          var b := EvalArgs(l, p, args[k..], rest.c);
          if b.r.Some? { assert [o.r.v] + (rest.r.value + b.r.value) == ([o.r.v] + rest.r.value) + b.r.value; }
        }
      }
    }
  }

  lemma {:induction false} CallAgrees(l: Lib, p: Mapping, e: Expr, c: Ctx)
    requires p.rules.Interpreted? && e.Call? && Clear(l, p, e, c)
    ensures Eval(l, ByRules(p, Emitted), e, c) == Eval(l, p, e, c)
    decreases 3 * Room(c) + 1, e, 4, 0
  {
    assert ClearCall(l, p, e, c);
    CallIsBy(l, p, e, c);
    CallIsBy(l, ByRules(p, Emitted), e, c);
    hide Eval, Clear, Pad, EvalArgs, ClearArgs;
    if e.fname.PlainFn? {
      if l.functions(e.fname.id).Some? { ArgsAgree(l, p, e.args, Some(l.functions(e.fname.id).value.arity), c); }
    } else if !e.fname.MessageFn? && e.args != [] {
      EvalAgrees(l, p, e.args[0], c);
    }
  }

  lemma CallIsBy(l: Lib, p: Mapping, e: Expr, c: Ctx)
    requires e.Call?
    ensures Eval(l, p, e, c) == EvalCall(l, p, e, c)
  {
  }

  // ---- methods ----------------------------------------------------------------------------

  lemma MethodIsBy(l: Lib, p: Mapping, e: Expr, c: Ctx)
    requires e.Method?
    ensures Eval(l, p, e, c) == EvalMethod(l, p, e, c)
  {
  }

  lemma {:induction false} MethodAgrees(l: Lib, p: Mapping, e: Expr, c: Ctx)
    requires p.rules.Interpreted? && e.Method? && Clear(l, p, e, c)
    ensures Eval(l, ByRules(p, Emitted), e, c) == Eval(l, p, e, c)
    decreases 3 * Room(c) + 1, e, 4, 0
  {
    assert ClearMethod(l, p, e, c);
    MethodIsBy(l, p, e, c);
    MethodIsBy(l, ByRules(p, Emitted), e, c);
    hide Eval, Clear;
    if e.mname.FromAll? {
      if c.amb.all.Some? { EachAgrees(l, p, e, 0, [], c); }
    } else if e.mname.From? {
      FromAgrees(l, p, e, c);
    } else {
      var t := Eval(l, p, e.target, c);
      EvalAgrees(l, p, e.target, c);
      if LazyDefault(e.mname) {
        DefaultAgrees(l, p, e, c);
      } else if e.mname.Catch? {
        if e.args != [] && t.r.Err? { HandlerAgrees(l, p, e, t.c); }
      } else if t.r.Ok? {
        EagerAgrees(l, p, e, t.r.v, t.c);
      }
    }
  }

  predicate LazyDefault(m: MethodName) { m.Number? || m.ToBool? || m.Or? }

  lemma {:induction false} DefaultAgrees(l: Lib, p: Mapping, e: Expr, c: Ctx)
    requires p.rules.Interpreted? && e.Method? && LazyDefault(e.mname) && ClearMethod(l, p, e, c)
    requires Eval(l, ByRules(p, Emitted), e.target, c) == Eval(l, p, e.target, c)
    ensures EvalMethod(l, ByRules(p, Emitted), e, c) == EvalMethod(l, p, e, c)
    decreases 3 * Room(c) + 1, e, 3, 0
  {
    hide Eval, Clear;
    var t := Eval(l, p, e.target, c);
    if e.args != [] && (if e.mname.Or? then !Present(t.r) else Coerce(l, e.mname, t.r).Err?) {
      EvalAgrees(l, p, e.args[0], t.c);
    }
  }

  lemma {:induction false} FromAgrees(l: Lib, p: Mapping, e: Expr, c: Ctx)
    requires p.rules.Interpreted? && e.Method? && e.mname.From? && ClearMethod(l, p, e, c)
    ensures EvalMethod(l, ByRules(p, Emitted), e, c) == EvalMethod(l, p, e, c)
    decreases 3 * Room(c) + 1, e, 3, 0
  {
    hide Eval, Clear;
    if e.args != [] {
      var i := Eval(l, p, e.args[0], c);
      EvalAgrees(l, p, e.args[0], c);
      if i.r.Ok? && AsI64(l.fl, i.r.v).Some? && i.c.amb.all.Some? {
        var idx := AsI64(l.fl, i.r.v).value;
        if 0 <= idx < |i.c.amb.all.value| { EvalAgrees(l, p, e.target, i.c.(amb := AtMessage(i.c.amb, idx))); }
      }
    }
  }

  lemma {:induction false} HandlerAgrees(l: Lib, p: Mapping, e: Expr, c: Ctx)
    requires p.rules.Interpreted? && e.Method? && e.args != [] && ClearHandler(l, p, e, c)
    ensures EvalHandler(l, ByRules(p, Emitted), e, c) == EvalHandler(l, p, e, c)
    decreases 3 * Room(c) + 1, e, 2, 0
  {
    hide Eval, Clear;
    var h := e.args[0];
    if h.Lambda? {
      EvalAgrees(l, p, h.body, c.(vars := c.vars[h.param := ERROR_TEXT]));
    } else {
      EvalAgrees(l, p, h, c.(thisV := Some(ERROR_TEXT)));
    }
  }

  lemma {:induction false} EachAgrees(l: Lib, p: Mapping, e: Expr, i: nat, acc: seq<Value>, c: Ctx)
    requires p.rules.Interpreted? && e.Method? && c.amb.all.Some? && i <= |c.amb.all.value| && ClearEach(l, p, e, i, c)
    ensures EachMessage(l, ByRules(p, Emitted), e, i, acc, c) == EachMessage(l, p, e, i, acc, c)
    decreases 3 * Room(c) + 1, e, 2, |c.amb.all.value| - i
  {
    hide Eval, Clear;
    if i < |c.amb.all.value| {
      var b := c.(amb := AtMessage(c.amb, i));
      var o := Eval(l, p, e.target, b);
      EvalAgrees(l, p, e.target, b);
      if o.r.Ok? { EachAgrees(l, p, e, i + 1, acc + [o.r.v], o.c); }
    }
  }

  lemma {:induction false} EagerAgrees(l: Lib, p: Mapping, e: Expr, t: Value, c: Ctx)
    requires p.rules.Interpreted? && e.Method? && ClearEager(l, p, e, t, c)
    ensures EvalEager(l, ByRules(p, Emitted), e, t, c) == EvalEager(l, p, e, t, c)
    decreases 3 * Room(c) + 1, e, 2, 0
  {
    hide Eval, Clear, Pad, EvalArgs, ClearArgs, ApplyMap, ClearMap, EvalLambdaMethod, ClearLambda;
    if e.mname.ApplyMethod? {
      if e.args != [] {
        var n := Eval(l, p, e.args[0], c);
        EvalAgrees(l, p, e.args[0], c);
        if n.r.Ok? && n.r.v.IsStringy() && FindMap(p.maps, n.r.v.Text()).Some? {
          MapAgrees(l, p, FindMap(p.maps, n.r.v.Text()).value, t, n.c);
        }
      }
    } else {
      var lm := FindLambdaMethod(e.mname);
      if lm.Some? && !(lm.value.optional && |e.args| <= lm.value.leading) {
        LambdaAgrees(l, p, e, t, c);
      } else {
        ArgsAgree(l, p, e.args, ArityOf(l, e.mname), c);
      }
    }
  }

  lemma {:induction false} LambdaAgrees(l: Lib, p: Mapping, e: Expr, t: Value, c: Ctx)
    requires p.rules.Interpreted? && e.Method? && FindLambdaMethod(e.mname).Some? && ClearLambda(l, p, e, t, c)
    ensures EvalLambdaMethod(l, ByRules(p, Emitted), e, t, c) == EvalLambdaMethod(l, p, e, t, c)
    decreases 3 * Room(c) + 1, e, 1, 0
  {
    hide Eval, Clear, ClearVar, ClearThis, DriveVar, DriveThis;
    var qi := FindLambdaMethod(e.mname).value.leading;
    if |e.args| > qi {
      if qi > 0 { EvalAgrees(l, p, e.args[0], c); }
      var init := if qi > 0 then Eval(l, p, e.args[0], c) else Out(Ok(Null), c);
      if init.r.Ok? {
        if e.args[qi].Lambda? {
          VarAgrees(l, p, e.mname, t, init.r.v, e.args[qi], [], init.c);
        } else {
          ThisAgrees(l, p, e.mname, t, init.r.v, e.args[qi], [], init.c);
        }
      }
    }
  }

  lemma {:induction false} VarAgrees(l: Lib, p: Mapping, name: MethodName, t: Value, init: Value, q: Expr, hist: seq<Value>, c: Ctx)
    requires p.rules.Interpreted? && q.Lambda? && ClearVar(l, p, name, t, init, q, hist, c)
    ensures DriveVar(l, ByRules(p, Emitted), name, t, init, q, hist, c) == DriveVar(l, p, name, t, init, q, hist, c)
    decreases 3 * Room(c) + 1, q, 0, Calls(l, name, t, init, hist)
  {
    hide Eval, Clear;
    VarStep(l, p, name, t, init, q, hist, c);
    VarStep(l, ByRules(p, Emitted), name, t, init, q, hist, c);
    hide DriveVar;
    var step := l.lambdaStep(name, t, init, hist);
    if step.Ask? && Calls(l, name, t, init, hist) > 0 {
      var b := c.(vars := c.vars[q.param := step.elem]);
      var o := Eval(l, p, q.body, b);
      EvalAgrees(l, p, q.body, b);
      if o.r.Ok? { VarAgrees(l, p, name, t, init, q, hist + [o.r.v], o.c); }
    }
  }

  lemma {:induction false} ThisAgrees(l: Lib, p: Mapping, name: MethodName, t: Value, init: Value, q: Expr, hist: seq<Value>, c: Ctx)
    requires p.rules.Interpreted? && ClearThis(l, p, name, t, init, q, hist, c)
    ensures DriveThis(l, ByRules(p, Emitted), name, t, init, q, hist, c) == DriveThis(l, p, name, t, init, q, hist, c)
    decreases 3 * Room(c) + 1, q, 6, Calls(l, name, t, init, hist)
  {
    hide Eval, Clear;
    ThisStep(l, p, name, t, init, q, hist, c);
    ThisStep(l, ByRules(p, Emitted), name, t, init, q, hist, c);
    hide DriveThis;
    var step := l.lambdaStep(name, t, init, hist);
    if step.Ask? && Calls(l, name, t, init, hist) > 0 {
      var b := c.(thisV := Some(step.elem));
      var o := Eval(l, p, q, b);
      EvalAgrees(l, p, q, b);
      if o.r.Ok? { ThisAgrees(l, p, name, t, init, q, hist + [o.r.v], o.c); }
    }
  }

  // ---- maps, statements, whole mappings -----------------------------------------------------

  lemma {:induction false} MapAgrees(l: Lib, p: Mapping, i: nat, t: Value, c: Ctx)
    requires p.rules.Interpreted? && ClearMap(l, p, i, t, c)
    ensures ApplyMap(l, ByRules(p, Emitted), i, t, c) == ApplyMap(l, p, i, t, c)
    decreases 3 * Room(c)
  {
    hide RunFrom, ClearStmts;
    if c.depth < MAX_APPLY_DEPTH && i < |p.maps| {
      var inner := c.(thisV := Some(t), vars := map[], depth := c.depth + 1);
      StmtsAgree(l, p, p.maps[i].body, RootOf(inner), false, inner);
    }
  }

  /** A run of statements, by its first one. */
  lemma RunStep(l: Lib, p: Mapping, ss: seq<Statement>, root: Value, rootSet: bool, c: Ctx)
    requires ss != []
    ensures var o := Outcome(l, p, ss[0].expr, c);
            RunFrom(l, p, ss, root, rootSet, c) ==
            if o.r.Err? then o
            else
              match NextState(ss[0].target, o.r.v, root, rootSet, o.c)
              case Failed => Out(Err, o.c)
              case Assigned(root', set', c') => RunFrom(l, p, ss[1..], root', set', c')
  {
    hide Outcome, Assign;
  }

  lemma {:induction false} StmtsAgree(l: Lib, p: Mapping, ss: seq<Statement>, root: Value, rootSet: bool, c: Ctx)
    requires p.rules.Interpreted? && ClearStmts(l, p, ss, root, rootSet, c)
    ensures RunFrom(l, ByRules(p, Emitted), ss, root, rootSet, c) == RunFrom(l, p, ss, root, rootSet, c)
    decreases 3 * Room(c) + 2, ss
  {
    hide Eval, Clear, Outcome, NegsAgreeOn;
    if ss != [] {
      var e := ss[0].expr;
      var o := Eval(l, p, e, c);
      EvalAgrees(l, p, e, c);
      OutcomeAgrees(l, p, e, c);
      if o.r.Ok? {
        var x := NextState(ss[0].target, o.r.v, root, rootSet, o.c);
        NextDepth(ss[0].target, o.r.v, root, rootSet, o.c);
        if x.Assigned? { StmtsAgree(l, p, ss[1..], x.root, x.rootSet, x.c); }
      }
      hide RunFrom, NextState, ClearStmts;
      RunStep(l, p, ss, root, rootSet, c);
      RunStep(l, ByRules(p, Emitted), ss, root, rootSet, c);
    }
  }

  lemma NextDepth(target: Target, v: Value, root: Value, rootSet: bool, c: Ctx)
    ensures var x := NextState(target, v, root, rootSet, c); x.Assigned? ==> x.c.depth == c.depth && x.c.thisV == c.thisV
  {
  }

  lemma OutcomeAgrees(l: Lib, p: Mapping, e: Expr, c: Ctx)
    requires p.rules.Interpreted? && NegsAgreeOn(l, e, c.thisV)
    requires Eval(l, ByRules(p, Emitted), e, c) == Eval(l, p, e, c)
    ensures Outcome(l, p, e, c) == Eval(l, p, e, c) && Outcome(l, ByRules(p, Emitted), e, c) == Eval(l, p, e, c)
  {
    hide Eval, BySign, NegsAgreeOn, Unboxed, Outcome, Kept;
    OutcomeBoxed(l, p, e, c);
    if Unboxed(e, c.thisV) {
      SignIsBoxed(l, p, e, c);
      OutcomeUnboxed(l, ByRules(p, Emitted), e, c);
    } else {
      OutcomeBoxed(l, ByRules(p, Emitted), e, c);
    }
  }

  lemma OutcomeBoxed(l: Lib, p: Mapping, e: Expr, c: Ctx)
    requires p.rules.Interpreted? || !Unboxed(e, c.thisV)
    ensures Outcome(l, p, e, c) == Eval(l, p, e, c)
  {
    hide Eval, BySign, Unboxed, Kept;
  }

  lemma OutcomeUnboxed(l: Lib, p: Mapping, e: Expr, c: Ctx)
    requires p.rules.Emitted? && Unboxed(e, c.thisV) && c.thisV.Some?
    ensures Outcome(l, p, e, c) == Out(BySign(l.fl, e, c.thisV.value), c)
  {
    hide Eval, BySign, Unboxed, Kept;
  }

  lemma SignIsBoxed(l: Lib, p: Mapping, e: Expr, c: Ctx)
    requires Unboxed(e, c.thisV) && NegsAgreeOn(l, e, c.thisV)
    ensures c.thisV.Some? && Eval(l, p, e, c) == Out(BySign(l.fl, e, c.thisV.value), c)
  {
    hide Eval, BySign, NegsAgree, Arithmetic, FieldsRead;
    BySignIsBoxed(l, p, e, c);
  }

  /** The generated function and the interpreter agree on every mapping and context whose run
      meets only what the rules share: the same root or both fail, with the same variables
      and metadata left behind. */
  lemma MappingEquivalence(w: World, c: Ctx)
    requires Accepted(w) && w.p.rules.Interpreted? && ClearStmts(w.l, w.p, w.p.statements, RootOf(c), false, c)
    ensures RunMain(w.l, w.g, w.ord, c) == Run(w.l, w.p, c)
  {
    EmittedMeaning(w, c);
    StmtsAgree(w.l, w.p, w.p.statements, RootOf(c), false, c);
  }
}
