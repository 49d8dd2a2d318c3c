/** The tree-walking interpreter: a dynamically rebound context, saved and
    restored around every construct that changes it. Each function's contract
    says the context comes back as it was found, whether it returns or throws;
    only written metadata may differ, and only if some map writes it.

    With `Interpreted` rules this is the interpreter; with `Emitted` rules it says what
    the generated code of the same program means. */
module Interp {
  import opened Values
  import opened Numbers
  import opened Bloblang

  /** No map body assigns metadata. */
  predicate NoMetaWrites(p: Mapping) {
    forall i, j :: 0 <= i < |p.maps| && 0 <= j < |p.maps[i].body| ==> !p.maps[i].body[j].target.MetaTarget?
  }

  ghost predicate Kept(p: Mapping, c: Ctx, d: Ctx) {
    d == c.(meta := d.meta) && (NoMetaWrites(p) ==> d.meta == c.meta)
  }

  function Eval(l: Lib, p: Mapping, e: Expr, c: Ctx): (o: Out)
    ensures Kept(p, c, o.c)
    decreases 3 * Room(c) + 1, e, 4, 0
  {
    match e
    case Lit(v) => Out(Ok(v), c)
    case This => Out(SelfOf(c.thisV), c)
    case Var(name) => Out(VarOf(c, name), c)
    case Field(t, key) =>
      var o := Eval(l, p, t, c);
      if o.r.Err? then o else Out(Ok(GetField(o.r.v, key)), o.c)
    case Index(t, i) =>
      var o := Eval(l, p, t, c);
      if o.r.Err? then o else
      var oi := Eval(l, p, i, o.c);
      if oi.r.Err? then oi else Out(IndexOf(l.fl, o.r.v, oi.r.v), oi.c)
    case Call(name, args) => EvalCall(l, p, e, c)
    case Method(_, _, _) => EvalMethod(l, p, e, c)
    case Lambda(_, _) => Out(Err, c)
    case Binary(_, _, _) => EvalBinary(l, p, e, c)
    case Neg(x) =>
      var o := Eval(l, p, x, c);
      if o.r.Err? then o else Out(Degrade(l.fl, Sub, I64(0), o.r.v), o.c)
    case Not(x) =>
      var o := Eval(l, p, x, c);
      (match Truthy(o.r) case Some(b) => Out(Ok(Bool(!b)), o.c) case None => Out(Err, o.c))
    case If(cond, thn, els) =>
      var o := Eval(l, p, cond, c);
      (match Truthy(o.r)
       case None => Out(Err, o.c)
       case Some(b) =>
         if b then Eval(l, p, thn, o.c)
         else if els.Some? then Eval(l, p, els.value, o.c)
         else Out(Ok(Nothing), o.c))
    case Array(items) => EvalItems(l, p, items, [], c)
    case Object(_) => EvalFields(l, p, e, 0, Obj([]), c)
    case Match(context, _) =>
      if context.None? then EvalCases(l, p, e, 0, c)
      else
        var o := Eval(l, p, context.value, c);
        if o.r.Err? then o else
        var saved := o.c.thisV;
        var m := EvalCases(l, p, e, 0, o.c.(thisV := Some(o.r.v)));
        Out(m.r, m.c.(thisV := saved))
  }

  function EvalBinary(l: Lib, p: Mapping, e: Expr, c: Ctx): (o: Out)
    requires e.Binary?
    ensures Kept(p, c, o.c)
    decreases 3 * Room(c) + 1, e, 3, 0
  {
    var a := Eval(l, p, e.lhs, c);
    if e.op.AndOp? || e.op.OrOp? then
      match Truthy(a.r)
      case None => Out(Err, a.c)
      case Some(b) =>
        if b == e.op.OrOp? then Out(Ok(Bool(b)), a.c)
        else
          var r := Eval(l, p, e.rhs, a.c);
          Out(BoolResult(Truthy(r.r)), r.c)
    else if e.op.Coalesce? then
      if Present(a.r) then a else Eval(l, p, e.rhs, a.c)
    else if a.r.Err? then a
    else
      var b := Eval(l, p, e.rhs, a.c);
      if b.r.Err? then b else Out(Apply2(l.fl, e.op, a.r.v, b.r.v), b.c)
  }

  /** The arms of a `match`, with `this` already rebound. */
  function EvalCases(l: Lib, p: Mapping, e: Expr, i: nat, c: Ctx): (o: Out)
    requires e.Match? && i <= |e.cases|
    ensures Kept(p, c, o.c)
    decreases 3 * Room(c) + 1, e, 2, |e.cases| - i
  {
    if i == |e.cases| then Out(Ok(Nothing), c)
    else
      var k := e.cases[i];
      if k.cond.None? then Eval(l, p, k.val, c)
      else
        var o := Eval(l, p, k.cond.value, c);
        if o.r.Err? then o
        else if TruthyBool(o.r.v) then Eval(l, p, k.val, o.c)
        else EvalCases(l, p, e, i + 1, o.c)
  }

  function EvalItems(l: Lib, p: Mapping, items: seq<Expr>, acc: seq<Value>, c: Ctx): (o: Out)
    ensures Kept(p, c, o.c)
    decreases 3 * Room(c) + 1, items, 2, 0
  {
    if items == [] then Out(Ok(Arr(acc)), c)
    else
      var o := Eval(l, p, items[0], c);
      if o.r.Err? then o
      else EvalItems(l, p, items[1..], if LiteralOmits(o.r.v) then acc else acc + [o.r.v], o.c)
  }

  function EvalFields(l: Lib, p: Mapping, e: Expr, i: nat, acc: Value, c: Ctx): (o: Out)
    requires e.Object? && i <= |e.fields|
    ensures Kept(p, c, o.c)
    decreases 3 * Room(c) + 1, e, 2, |e.fields| - i
  {
    if i == |e.fields| then Out(Ok(acc), c)
    else
      var k := Eval(l, p, e.fields[i].key, c);
      if k.r.Err? then k
      else if !k.r.v.IsStringy() then Out(Err, k.c)
      else
        var o := Eval(l, p, e.fields[i].val, k.c);
        if o.r.Err? then o
        else
          var acc' := if LiteralOmits(o.r.v) then acc else SetField(acc, k.r.v.Text(), o.r.v);
          EvalFields(l, p, e, i + 1, acc', o.c)
  }

  function EvalArgs(l: Lib, p: Mapping, args: seq<Expr>, c: Ctx): (o: Outs)
    ensures Kept(p, c, o.c)
    ensures o.r.Some? ==> |o.r.value| == |args|
    decreases 3 * Room(c) + 1, args, 2, 0
  {
    if args == [] then Outs(Some([]), c)
    else
      var o := Eval(l, p, args[0], c);
      if o.r.Err? then Outs(None, o.c)
      else
        var rest := EvalArgs(l, p, args[1..], o.c);
        Outs(if rest.r.Some? then Some([o.r.v] + rest.r.value) else None, rest.c)
  }

  function EvalCall(l: Lib, p: Mapping, e: Expr, c: Ctx): (o: Out)
    requires e.Call?
    ensures Kept(p, c, o.c)
    decreases 3 * Room(c) + 1, e, 3, 0
  {
    if e.fname.Meta? then
      if e.args == [] then Out(MetaAll(c), c)
      else
        var k := Eval(l, p, e.args[0], c);
        if k.r.Err? then k else Out(MetaGet(k.c, k.r.v), k.c)
    else if e.fname.MessageFn? then Out(l.ctxFn(e.fname, ViewOf(c), Null), c)
    else if e.fname.MessageArgFn? then
      if e.args == [] then Out(l.ctxFn(e.fname, ViewOf(c), Null), c)
      else
        var k := Eval(l, p, e.args[0], c);
        if k.r.Err? then k else Out(l.ctxFn(e.fname, ViewOf(k.c), k.r.v), k.c)
    else
      match l.functions(e.fname.id)
      case None => Out(Err, c)
      case Some(d) =>
        var a := EvalArgs(l, p, Evaluated(p, e.args, Some(d.arity)), c);
        if a.r.None? then Out(Err, a.c) else Out(InvokeFn(d, a.r.value), a.c)
  }

  /** Methods that must see their target unevaluated come first, in the source's order. */
  function EvalMethod(l: Lib, p: Mapping, e: Expr, c: Ctx): (o: Out)
    requires e.Method?
    ensures Kept(p, c, o.c)
    decreases 3 * Room(c) + 1, e, 3, 0
  {
    if e.mname.Number? || e.mname.ToBool? then
      var t := Eval(l, p, e.target, c);
      var r := Coerce(l, e.mname, t.r);
      if r.Ok? || e.args == [] then Out(r, t.c)
      else
        var d := Eval(l, p, e.args[0], t.c);
        Out(Coerce(l, e.mname, d.r), d.c)
    else if e.mname.FromAll? then
      if c.amb.all.None? then Out(Err, c)
      else
        var o := EachMessage(l, p, e, 0, [], c);
        Out(o.r, o.c.(amb := c.amb))
    else if e.mname.From? then
      if e.args == [] then Out(Err, c)
      else
        var i := Eval(l, p, e.args[0], c);
        match (if i.r.Ok? then AsI64(l.fl, i.r.v) else None)
        case None => Out(Err, i.c)
        case Some(idx) =>
          if i.c.amb.all.None? || idx < 0 || idx >= |i.c.amb.all.value| then Out(Err, i.c)
          else
            var o := Eval(l, p, e.target, i.c.(amb := AtMessage(i.c.amb, idx)));
            Out(o.r, o.c.(amb := i.c.amb))
    else if e.mname.Or? then
      var t := Eval(l, p, e.target, c);
      if Present(t.r) then t
      else if e.args == [] then Out(Ok(Null), t.c)
      else Eval(l, p, e.args[0], t.c)
    else if e.mname.Catch? then
      if e.args == [] then (if p.rules.Emitted? then Eval(l, p, e.target, c) else Out(Err, c))
      else
        var t := Eval(l, p, e.target, c);
        if t.r.Ok? then t else EvalHandler(l, p, e, t.c)
    else
      var t := Eval(l, p, e.target, c);
      if t.r.Err? then t else EvalEager(l, p, e, t.r.v, t.c)
  }

  /** The fallback of a `catch`: a lambda binds its parameter, a query rebinds `this`. */
  function EvalHandler(l: Lib, p: Mapping, e: Expr, c: Ctx): (o: Out)
    requires e.Method? && e.args != []
    ensures Kept(p, c, o.c)
    decreases 3 * Room(c) + 1, e, 2, 0
  {
    var h := e.args[0];
    if h.Lambda? then
      var saved := Saved(c.vars, h.param);
      var o := Eval(l, p, h.body, c.(vars := c.vars[h.param := ERROR_TEXT]));
      RestoreUndoes(c.vars[h.param := ERROR_TEXT], c.vars, h.param);
      Out(o.r, o.c.(vars := Restore(o.c.vars, h.param, saved)))
    else
      var o := Eval(l, p, h, c.(thisV := Some(ERROR_TEXT)));
      Out(o.r, o.c.(thisV := c.thisV))
  }

  /** `from_all`: the target once per message of the batch. */
  function EachMessage(l: Lib, p: Mapping, e: Expr, i: nat, acc: seq<Value>, c: Ctx): (o: Out)
    requires e.Method? && c.amb.all.Some? && i <= |c.amb.all.value|
    ensures o.c == c.(meta := o.c.meta, amb := o.c.amb)
    ensures NoMetaWrites(p) ==> o.c.meta == c.meta
    decreases 3 * Room(c) + 1, e, 2, |c.amb.all.value| - i
  {
    if i == |c.amb.all.value| then Out(Ok(Arr(acc)), c)
    else
      var o := Eval(l, p, e.target, c.(amb := AtMessage(c.amb, i)));
      if o.r.Err? then o else EachMessage(l, p, e, i + 1, acc + [o.r.v], o.c)
  }

  /** Methods applied to an evaluated target. */
  function EvalEager(l: Lib, p: Mapping, e: Expr, t: Value, c: Ctx): (o: Out)
    requires e.Method?
    ensures Kept(p, c, o.c)
    decreases 3 * Room(c) + 1, e, 2, 0
  {
    if e.mname.ApplyMethod? then
      if e.args == [] then Out(Err, c)
      else
        var n := Eval(l, p, e.args[0], c);
        if n.r.Err? then n
        else if !n.r.v.IsStringy() then Out(Err, n.c)
        else
          match FindMap(p.maps, n.r.v.Text())
          case None => Out(Err, n.c)
          case Some(i) => ApplyMap(l, p, i, t, n.c)
    else
      var lm := FindLambdaMethod(e.mname);
      if lm.Some? && !(lm.value.optional && |e.args| <= lm.value.leading) then
        EvalLambdaMethod(l, p, e, t, c)
      else
        var a := EvalArgs(l, p, Evaluated(p, e.args, ArityOf(l, e.mname)), c);
        if a.r.None? then Out(Err, a.c)
        else
          match FindMethod(l, e.mname)
          case None => Out(Err, a.c)
          case Some(d) => Out(Invoke(d, t, a.r.value), a.c)
  }

  function EvalLambdaMethod(l: Lib, p: Mapping, e: Expr, t: Value, c: Ctx): (o: Out)
    requires e.Method? && FindLambdaMethod(e.mname).Some?
    ensures Kept(p, c, o.c)
    decreases 3 * Room(c) + 1, e, 1, 0
  {
    var qi := FindLambdaMethod(e.mname).value.leading;
    if |e.args| <= qi then Out(Err, c)
    else
      var init := if qi > 0 then Eval(l, p, e.args[0], c) else Out(Ok(Null), c);
      if init.r.Err? then init
      else
        var q := e.args[qi];
        if q.Lambda? then
          var saved := Saved(init.c.vars, q.param);
          var o := DriveVar(l, p, e.mname, t, init.r.v, q, [], init.c);
          RestoreUndoes(o.c.vars, init.c.vars, q.param);
          Out(o.r, o.c.(vars := Restore(o.c.vars, q.param, saved)))
        else
          var o := DriveThis(l, p, e.mname, t, init.r.v, q, [], init.c);
          Out(o.r, o.c.(thisV := init.c.thisV))
  }

  /** Runs the method's loop with the element bound to the lambda's parameter, which
      stays bound from one element to the next. */
  function DriveVar(l: Lib, p: Mapping, name: MethodName, t: Value, init: Value, q: Expr,
                    hist: seq<Value>, c: Ctx): (o: Out)
    requires q.Lambda?
    ensures o.c == c.(meta := o.c.meta, vars := o.c.vars) && SameExcept(o.c.vars, c.vars, q.param)
    ensures NoMetaWrites(p) ==> o.c.meta == c.meta
    decreases 3 * Room(c) + 1, q, 0, Calls(l, name, t, init, hist)
  {
    match l.lambdaStep(name, t, init, hist)
    case Done(r) => Out(r, c)
    case Ask(el) =>
      if Calls(l, name, t, init, hist) == 0 then Out(Err, c)
      else
        var o := Eval(l, p, q.body, c.(vars := c.vars[q.param := el]));
        assert SameExcept(c.vars[q.param := el], c.vars, q.param);
        if o.r.Err? then o
        else DriveVar(l, p, name, t, init, q, hist + [o.r.v], o.c)
  }

  /** The bare-query form: `this` is the element. */
  function DriveThis(l: Lib, p: Mapping, name: MethodName, t: Value, init: Value, q: Expr,
                     hist: seq<Value>, c: Ctx): (o: Out)
    ensures o.c == c.(meta := o.c.meta, thisV := o.c.thisV)
    ensures NoMetaWrites(p) ==> o.c.meta == c.meta
    decreases 3 * Room(c) + 1, q, 5, Calls(l, name, t, init, hist)
  {
    match l.lambdaStep(name, t, init, hist)
    case Done(r) => Out(r, c)
    case Ask(el) =>
      if Calls(l, name, t, init, hist) == 0 then Out(Err, c)
      else
        var o := Eval(l, p, q, c.(thisV := Some(el)));
        if o.r.Err? then o
        else DriveThis(l, p, name, t, init, q, hist + [o.r.v], o.c)
  }

  /** Callback invocations the method still has. */
  function Calls(l: Lib, name: MethodName, t: Value, init: Value, hist: seq<Value>): nat {
    var n := l.lambdaCalls(name, t, init);
    if |hist| >= n then 0 else n - |hist|
  }

  /** `.apply(name)`: the target as `this`, fresh variables, bounded nesting. */
  function ApplyMap(l: Lib, p: Mapping, i: nat, t: Value, c: Ctx): (o: Out)
    ensures Kept(p, c, o.c)
    decreases 3 * Room(c)
  {
    if c.depth >= MAX_APPLY_DEPTH || i >= |p.maps| then Out(Err, c)
    else
      var inner := c.(thisV := Some(t), vars := map[], depth := c.depth + 1);
      var o := RunFrom(l, p, p.maps[i].body, RootOf(inner), false, inner);
      Out(o.r, o.c.(thisV := c.thisV, vars := c.vars, depth := c.depth))
  }

  function RootOf(c: Ctx): Value {
    match c.amb.rootInit case Some(v) => v case None => Nothing
  }

  // ---- statements -------------------------------------------------------------------

  /** What one statement does with its value: the new root and context, or a failure. */
  datatype Assigned = Assigned(root: Value, rootSet: bool, c: Ctx) | Failed

  function Assign(target: Target, v: Value, root: Value, rootSet: bool, c: Ctx): Assigned {
    match target
    case VarTarget(n) =>
      Assigned(root, rootSet, c.(vars := if v.Deleted? then c.vars - {n} else c.vars[n := v]))
    case MetaTarget(n) =>
      (match MetaSet(c, n, v) case Some(d) => Assigned(root, rootSet, d) case None => Failed)
    case Root => Assigned(v, true, c)
    case RootPath(path) =>
      // only an unset root that is `nothing` is replaced by an object to build on
      Assigned(AssignPath(if !rootSet && root.Nothing? then Obj([]) else root, path, v), true, c)
  }

  /** The value of a statement's expression; only the emitted rules know unboxed arithmetic. */
  function Outcome(l: Lib, p: Mapping, e: Expr, c: Ctx): (o: Out)
    ensures Kept(p, c, o.c)
    decreases 3 * Room(c) + 1, e, 5, 0
  {
    if p.rules.Emitted? && Unboxed(e, c.thisV) then Out(BySign(l.fl, e, c.thisV.value), c) else Eval(l, p, e, c)
  }

  /** The statements of a mapping body, in order; what they wrote survives a failure. */
  function RunFrom(l: Lib, p: Mapping, ss: seq<Statement>, root: Value, rootSet: bool, c: Ctx): (o: Out)
    ensures o.c == c.(meta := o.c.meta, vars := o.c.vars)
    ensures NoMetaWrites(p) && (forall i :: 0 <= i < |ss| ==> !ss[i].target.MetaTarget?) ==> o.c.meta == c.meta
    decreases 3 * Room(c) + 2, ss
  {
    if ss == [] then Out(Ok(root), c)
    else
      var o := Outcome(l, p, ss[0].expr, c);
      if o.r.Err? then o
      else if o.r.v.Nothing? then RunFrom(l, p, ss[1..], root, rootSet, o.c)
      else
        match Assign(ss[0].target, o.r.v, root, rootSet, o.c)
        case Failed => Out(Err, o.c)
        case Assigned(root', set', c') => RunFrom(l, p, ss[1..], root', set', c')
  }

  function Run(l: Lib, p: Mapping, c: Ctx): Out { RunFrom(l, p, p.statements, RootOf(c), false, c) }

  /** `run_ctx`, as the loop over statements that updates root, root_set and the context. */
  method RunCtx(l: Lib, p: Mapping, ctx: Ctx) returns (o: Out)
    ensures o == Run(l, p, ctx)
  {
    var root, rootSet, c := RootOf(ctx), false, ctx;
    var i := 0;
    while i < |p.statements|
      invariant 0 <= i <= |p.statements|
      invariant RunFrom(l, p, p.statements[i..], root, rootSet, c) == Run(l, p, ctx)
    {
      var st := p.statements[i];
      assert p.statements[i..][1..] == p.statements[i + 1..];
      var e := Outcome(l, p, st.expr, c);
      c := e.c;
      if e.r.Err? { return Out(Err, c); }
      i := i + 1;
      if e.r.v.Nothing? { continue; }
      match st.target {
        case VarTarget(n) =>
          c := c.(vars := if e.r.v.Deleted? then c.vars - {n} else c.vars[n := e.r.v]);
        case MetaTarget(n) =>
          var d := MetaSet(c, n, e.r.v);
          if d.None? { return Out(Err, c); }
          c := d.value;
        case Root =>
          root, rootSet := e.r.v, true;
        case RootPath(path) =>
          if !rootSet {
            if root.Nothing? { root := Obj([]); }
            rootSet := true;
          }
          root := AssignPath(root, path, e.r.v);
      }
    }
    return Out(Ok(root), c);
  }
}
