/** A check of the program text under which every run meets only what the rules share: what
    validation looks for, at runtime arity and everywhere, and minus only where it is
    subtraction. */
module CheckedPrograms {
  import opened Values
  import opened Numbers
  import opened Bloblang
  import opened Interp
  import opened GeneratedCode
  import opened Simulation
  import opened RuleAgreement

  /** No argument is beyond what a runtime function takes and every `catch` has a handler. */
  predicate Checked(l: Lib, e: Expr) {
    match e
    case Field(t, _) => Checked(l, t)
    case Index(t, i) => Checked(l, t) && Checked(l, i)
    case Call(name, args) =>
      && (forall i :: 0 <= i < |args| ==> Checked(l, args[i]))
      && (name.PlainFn? && l.functions(name.id).Some? ==> |args| <= l.functions(name.id).value.arity)
    case Method(t, name, args) =>
      && Checked(l, t)
      && (forall i :: 0 <= i < |args| ==> Checked(l, args[i]))
      && (name.Catch? ==> args != [])
      && (FindLambdaMethod(name).None? || |args| <= FindLambdaMethod(name).value.leading ==> NoSurplus(l, name, args))
    case Lambda(_, body) => Checked(l, body)
    case Binary(_, x, y) => Checked(l, x) && Checked(l, y)
    case Neg(x) => Checked(l, x)
    case Not(x) => Checked(l, x)
    case If(c, t, f) => Checked(l, c) && Checked(l, t) && (f.Some? ==> Checked(l, f.value))
    case Array(items) => forall i :: 0 <= i < |items| ==> Checked(l, items[i])
    case Object(fs) => forall i :: 0 <= i < |fs| ==> Checked(l, fs[i].key) && Checked(l, fs[i].val)
    case Match(c, ks) =>
      && (c.Some? ==> Checked(l, c.value))
      && (forall i :: 0 <= i < |ks| ==> (ks[i].cond.Some? ==> Checked(l, ks[i].cond.value)) && Checked(l, ks[i].val))
    case _ => true
  }

  predicate NoSurplus(l: Lib, name: MethodName, args: seq<Expr>) {
    ArityOf(l, name).Some? ==> |args| <= ArityOf(l, name).value
  }

  ghost predicate CheckedStmts(l: Lib, ss: seq<Statement>, self: Option<Value>) {
    forall i :: 0 <= i < |ss| ==> Checked(l, ss[i].expr) && NegsAgreeOn(l, ss[i].expr, self)
  }

  /** Maps are checked for every `this` they may be applied to. */
  ghost predicate CheckedMaps(l: Lib, p: Mapping) {
    forall i, v :: 0 <= i < |p.maps| ==> CheckedStmts(l, p.maps[i].body, Some(v))
  }

  lemma {:induction false} CheckedIsClear(l: Lib, p: Mapping, e: Expr, c: Ctx)
    requires CheckedMaps(l, p) && Checked(l, e)
    ensures Clear(l, p, e, c)
    decreases 3 * Room(c) + 1, e, 5, 0
  {
    hide Eval, CheckedMaps, ClearMethod, ClearCall, ClearAll, ClearFields, ClearArms;
    match e
    case Field(t, _) => CheckedIsClear(l, p, t, c);
    case Index(t, i) =>
      CheckedIsClear(l, p, t, c);
      CheckedIsClear(l, p, i, Eval(l, p, t, c).c);
    case Binary(_, x, y) =>
      CheckedIsClear(l, p, x, c);
      CheckedIsClear(l, p, y, Eval(l, p, x, c).c);
    case Neg(x) => CheckedIsClear(l, p, x, c);
    case Not(x) => CheckedIsClear(l, p, x, c);
    case If(q, x, y) =>
      CheckedIsClear(l, p, q, c);
      CheckedIsClear(l, p, x, Eval(l, p, q, c).c);
      if y.Some? { CheckedIsClear(l, p, y.value, Eval(l, p, q, c).c); }
    case Array(items) => AllChecked(l, p, items, c);
    case Object(_) => FieldsChecked(l, p, e, 0, c);
    case Match(context, _) =>
      if context.None? {
        ArmsChecked(l, p, e, 0, c);
      } else {
        var o := Eval(l, p, context.value, c);
        CheckedIsClear(l, p, context.value, c);
        if o.r.Ok? { ArmsChecked(l, p, e, 0, o.c.(thisV := Some(o.r.v))); }
      }
    case Call(_, _) => CallChecked(l, p, e, c);
    case Method(_, _, _) => MethodChecked(l, p, e, c);
    case _ =>
  }

  lemma {:induction false} AllChecked(l: Lib, p: Mapping, es: seq<Expr>, c: Ctx)
    requires CheckedMaps(l, p) && forall i :: 0 <= i < |es| ==> Checked(l, es[i])
    ensures ClearAll(l, p, es, c)
    decreases 3 * Room(c) + 1, es, 2, 0
  {
    hide Eval, Clear, CheckedMaps, Checked;
    if es != [] {
      CheckedIsClear(l, p, es[0], c);
      AllChecked(l, p, es[1..], Eval(l, p, es[0], c).c);
    }
  }

  lemma {:induction false} FieldsChecked(l: Lib, p: Mapping, e: Expr, i: nat, c: Ctx)
    requires CheckedMaps(l, p) && e.Object? && i <= |e.fields| && Checked(l, e)
    ensures ClearFields(l, p, e, i, c)
    decreases 3 * Room(c) + 1, e, 2, |e.fields| - i
  {
    hide Eval, Clear, CheckedMaps;
    if i < |e.fields| {
      var k := Eval(l, p, e.fields[i].key, c);
      CheckedIsClear(l, p, e.fields[i].key, c);
      CheckedIsClear(l, p, e.fields[i].val, k.c);
      FieldsChecked(l, p, e, i + 1, Eval(l, p, e.fields[i].val, k.c).c);
    }
  }

  lemma {:induction false} ArmsChecked(l: Lib, p: Mapping, e: Expr, i: nat, c: Ctx)
    requires CheckedMaps(l, p) && e.Match? && i <= |e.cases| && Checked(l, e)
    ensures ClearArms(l, p, e, i, c)
    decreases 3 * Room(c) + 1, e, 2, |e.cases| - i
  {
    hide Eval, Clear, CheckedMaps;
    if i < |e.cases| {
      var k := e.cases[i];
      if k.cond.None? {
        CheckedIsClear(l, p, k.val, c);
      } else {
        var o := Eval(l, p, k.cond.value, c);
        CheckedIsClear(l, p, k.cond.value, c);
        CheckedIsClear(l, p, k.val, o.c);
        ArmsChecked(l, p, e, i + 1, o.c);
      }
    }
  }

  lemma {:induction false} CallChecked(l: Lib, p: Mapping, e: Expr, c: Ctx)
    requires CheckedMaps(l, p) && e.Call? && Checked(l, e)
    ensures ClearCall(l, p, e, c)
    decreases 3 * Room(c) + 1, e, 3, 0
  {
    hide Eval, Clear, CheckedMaps, ClearAll;
    if e.fname.PlainFn? { AllChecked(l, p, e.args, c); } else if e.args != [] { CheckedIsClear(l, p, e.args[0], c); }
  }

  lemma {:induction false} MethodChecked(l: Lib, p: Mapping, e: Expr, c: Ctx)
    requires CheckedMaps(l, p) && e.Method? && Checked(l, e)
    ensures ClearMethod(l, p, e, c)
    decreases 3 * Room(c) + 1, e, 3, 0
  {
    hide Eval, Clear, CheckedMaps, ClearEager, ClearEach;
    if e.mname.FromAll? {
      if c.amb.all.Some? { EachChecked(l, p, e, 0, c); }
    } else if e.mname.From? {
      FromChecked(l, p, e, c);
    } else {
      var t := Eval(l, p, e.target, c);
      CheckedIsClear(l, p, e.target, c);
      if LazyDefault(e.mname) {
        if e.args != [] { CheckedIsClear(l, p, e.args[0], t.c); }
      } else if e.mname.Catch? {
        HandlerChecked(l, p, e, t.c);
      } else if t.r.Ok? {
        EagerChecked(l, p, e, t.r.v, t.c);
      }
    }
  }

  lemma {:induction false} FromChecked(l: Lib, p: Mapping, e: Expr, c: Ctx)
    requires CheckedMaps(l, p) && e.Method? && e.mname.From? && Checked(l, e)
    ensures ClearMethod(l, p, e, c)
    decreases 3 * Room(c) + 1, e, 2, 0
  {
    hide Eval, Clear, CheckedMaps;
    if e.args != [] {
      var i := Eval(l, p, e.args[0], c);
      CheckedIsClear(l, p, e.args[0], c);
      if i.r.Ok? && AsI64(l.fl, i.r.v).Some? && i.c.amb.all.Some? {
        var idx := AsI64(l.fl, i.r.v).value;
        if 0 <= idx < |i.c.amb.all.value| { CheckedIsClear(l, p, e.target, i.c.(amb := AtMessage(i.c.amb, idx))); }
      }
    }
  }

  lemma {:induction false} HandlerChecked(l: Lib, p: Mapping, e: Expr, c: Ctx)
    requires CheckedMaps(l, p) && e.Method? && e.args != [] && Checked(l, e)
    ensures ClearHandler(l, p, e, c)
    decreases 3 * Room(c) + 1, e, 2, 0
  {
    hide Clear, CheckedMaps;
    var h := e.args[0];
    assert Checked(l, h);
    if h.Lambda? {
      CheckedIsClear(l, p, h.body, c.(vars := c.vars[h.param := ERROR_TEXT]));
    } else {
      CheckedIsClear(l, p, h, c.(thisV := Some(ERROR_TEXT)));
    }
  }

  lemma {:induction false} EachChecked(l: Lib, p: Mapping, e: Expr, i: nat, c: Ctx)
    requires CheckedMaps(l, p) && e.Method? && Checked(l, e.target)
    requires c.amb.all.Some? && i <= |c.amb.all.value|
    ensures ClearEach(l, p, e, i, c)
    decreases 3 * Room(c) + 1, e, 2, |c.amb.all.value| - i
  {
    hide Eval, Clear, CheckedMaps, Checked;
    if i < |c.amb.all.value| {
      var b := c.(amb := AtMessage(c.amb, i));
      CheckedIsClear(l, p, e.target, b);
      EachChecked(l, p, e, i + 1, Eval(l, p, e.target, b).c);
    }
  }

  lemma {:induction false} EagerChecked(l: Lib, p: Mapping, e: Expr, t: Value, c: Ctx)
    requires CheckedMaps(l, p) && e.Method? && !e.mname.Catch? && Checked(l, e)
    ensures ClearEager(l, p, e, t, c)
    decreases 3 * Room(c) + 1, e, 2, 0
  {
    hide Eval, Clear, CheckedMaps, ClearMap, ClearLambda, ClearAll;
    if e.mname.ApplyMethod? {
      if e.args != [] {
        var n := Eval(l, p, e.args[0], c);
        CheckedIsClear(l, p, e.args[0], c);
        if n.r.Ok? && n.r.v.IsStringy() && FindMap(p.maps, n.r.v.Text()).Some? {
          MapChecked(l, p, FindMap(p.maps, n.r.v.Text()).value, t, n.c);
        }
      }
    } else {
      var lm := FindLambdaMethod(e.mname);
      if lm.Some? && !(lm.value.optional && |e.args| <= lm.value.leading) {
        LambdaChecked(l, p, e, t, c);
      } else {
        AllChecked(l, p, e.args, c);
      }
    }
  }

  lemma {:induction false} LambdaChecked(l: Lib, p: Mapping, e: Expr, t: Value, c: Ctx)
    requires CheckedMaps(l, p) && e.Method? && FindLambdaMethod(e.mname).Some? && Checked(l, e)
    ensures ClearLambda(l, p, e, t, c)
    decreases 3 * Room(c) + 1, e, 1, 0
  {
    hide Eval, Clear, CheckedMaps, ClearVar, ClearThis;
    var qi := FindLambdaMethod(e.mname).value.leading;
    if |e.args| > qi {
      var q := e.args[qi];
      assert Checked(l, q);
      if qi > 0 { CheckedIsClear(l, p, e.args[0], c); }
      var init := if qi > 0 then Eval(l, p, e.args[0], c) else Out(Ok(Null), c);
      if init.r.Ok? {
        if q.Lambda? {
          VarChecked(l, p, e.mname, t, init.r.v, q, [], init.c);
        } else {
          ThisChecked(l, p, e.mname, t, init.r.v, q, [], init.c);
        }
      }
    }
  }

  lemma {:induction false} VarChecked(l: Lib, p: Mapping, name: MethodName, t: Value, init: Value, q: Expr, hist: seq<Value>, c: Ctx)
    requires CheckedMaps(l, p) && q.Lambda? && Checked(l, q.body)
    ensures ClearVar(l, p, name, t, init, q, hist, c)
    decreases 3 * Room(c) + 1, q, 0, Calls(l, name, t, init, hist)
  {
    hide Eval, Clear, CheckedMaps, Checked;
    var step := l.lambdaStep(name, t, init, hist);
    if step.Ask? && Calls(l, name, t, init, hist) > 0 {
      var b := c.(vars := c.vars[q.param := step.elem]);
      var o := Eval(l, p, q.body, b);
      CheckedIsClear(l, p, q.body, b);
      if o.r.Ok? { VarChecked(l, p, name, t, init, q, hist + [o.r.v], o.c); }
    }
  }

  lemma {:induction false} ThisChecked(l: Lib, p: Mapping, name: MethodName, t: Value, init: Value, q: Expr, hist: seq<Value>, c: Ctx)
    requires CheckedMaps(l, p) && Checked(l, q)
    ensures ClearThis(l, p, name, t, init, q, hist, c)
    decreases 3 * Room(c) + 1, q, 6, Calls(l, name, t, init, hist)
  {
    hide Eval, Clear, ClearThis, CheckedMaps, Checked;
    var step := l.lambdaStep(name, t, init, hist);
    if step.Ask? && Calls(l, name, t, init, hist) > 0 {
      var b := c.(thisV := Some(step.elem));
      var o := Eval(l, p, q, b);
      CheckedIsClear(l, p, q, b);
      if o.r.Ok? { ThisChecked(l, p, name, t, init, q, hist + [o.r.v], o.c); }
    }
    ThisIsClear(l, p, name, t, init, q, hist, c);
  }

  lemma ThisIsClear(l: Lib, p: Mapping, name: MethodName, t: Value, init: Value, q: Expr, hist: seq<Value>, c: Ctx)
    requires var step := l.lambdaStep(name, t, init, hist);
             step.Ask? && Calls(l, name, t, init, hist) > 0 ==>
               var b := c.(thisV := Some(step.elem));
               var o := Eval(l, p, q, b);
               Clear(l, p, q, b) && (o.r.Ok? ==> ClearThis(l, p, name, t, init, q, hist + [o.r.v], o.c))
    ensures ClearThis(l, p, name, t, init, q, hist, c)
  {
    hide Eval, Clear;
  }

  lemma {:induction false} MapChecked(l: Lib, p: Mapping, i: nat, t: Value, c: Ctx)
    requires CheckedMaps(l, p)
    ensures ClearMap(l, p, i, t, c)
    decreases 3 * Room(c)
  {
    hide ClearStmts, CheckedStmts;
    if c.depth < MAX_APPLY_DEPTH && i < |p.maps| {
      var inner := c.(thisV := Some(t), vars := map[], depth := c.depth + 1);
      StmtsChecked(l, p, p.maps[i].body, RootOf(inner), false, inner);
    }
  }

  lemma {:induction false} StmtsChecked(l: Lib, p: Mapping, ss: seq<Statement>, root: Value, rootSet: bool, c: Ctx)
    requires CheckedMaps(l, p) && CheckedStmts(l, ss, c.thisV)
    ensures ClearStmts(l, p, ss, root, rootSet, c)
    decreases 3 * Room(c) + 2, ss
  {
    hide Eval, Clear, CheckedMaps, Checked, NegsAgreeOn, NextState;
    if ss != [] {
      var o := Eval(l, p, ss[0].expr, c);
      CheckedIsClear(l, p, ss[0].expr, c);
      if o.r.Ok? {
        var x := NextState(ss[0].target, o.r.v, root, rootSet, o.c);
        NextDepth(ss[0].target, o.r.v, root, rootSet, o.c);
        if x.Assigned? { StmtsChecked(l, p, ss[1..], x.root, x.rootSet, x.c); }
      }
    }
  }

  /** A program that passes the check runs as generated code as it does in the interpreter, in
      every context, but for minus on doubles in the main body, checked at the actual `this`. */
  lemma CheckedProgramsAgree(w: World, c: Ctx)
    requires Accepted(w) && w.p.rules.Interpreted?
    requires CheckedMaps(w.l, w.p) && CheckedStmts(w.l, w.p.statements, c.thisV)
    ensures RunMain(w.l, w.g, w.ord, c) == Run(w.l, w.p, c)
  {
    hide Accepted, CheckedMaps, CheckedStmts;
    StmtsChecked(w.l, w.p, w.p.statements, RootOf(c), false, c);
    MappingEquivalence(w, c);
  }
}
