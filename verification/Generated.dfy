/** What generated code does when it runs. `this` is lexical: the prologue's
    `self_` or an enclosing element binding. C++ leaves the order of call
    arguments open, so the order is a parameter. */
module GeneratedCode {
  import opened Values
  import opened Numbers
  import opened Bloblang
  import opened Interp
  import opened FastPath
  import opened Emit

  /** The order in which arguments are evaluated: the same one everywhere, or one that is
      picked call by call. */
  datatype Order = LeftToRight | RightToLeft | Picked(pick: seq<TExpr> -> seq<nat>)

  predicate Permutation(turns: seq<nat>, n: nat) {
    |turns| == n && (forall k | 0 <= k < n :: turns[k] < n) && forall k | 0 <= k < n :: k in turns
  }

  function Ascending(n: nat): (turns: seq<nat>)
    ensures Permutation(turns, n)
  {
    if n == 0 then [] else Ascending(n - 1) + [n - 1]
  }

  /** The order picked for these arguments. */
  function Turns(ord: Order, ts: seq<TExpr>): (turns: seq<nat>)
    ensures Permutation(turns, |ts|)
  {
    if ord.Picked? && Permutation(ord.pick(ts), |ts|) then ord.pick(ts) else Ascending(|ts|)
  }

  /** Whether the first of two arguments comes first. */
  predicate FirstFirst(ord: Order, x: TExpr, y: TExpr) {
    ord.LeftToRight? || (ord.Picked? && Turns(ord, [x, y])[0] == 0)
  }

  /** No map of the program writes metadata. */
  predicate NoMetaStores(g: Generated) {
    forall i, j :: 0 <= i < |g.maps| && 0 <= j < |g.maps[i]| ==> !g.maps[i][j].target.MetaTarget?
  }

  ghost predicate MetaOnly(g: Generated, c: Ctx, d: Ctx) {
    d == c.(meta := d.meta) && (NoMetaStores(g) ==> d.meta == c.meta)
  }

  /** The C++ scope: `self_`, the `el_n`/`mc_n` bindings and `t_`. */
  datatype Env = Env(self: Option<Value>, locals: map<nat, Value>, temp: Option<Value>)

  function Exec(l: Lib, g: Generated, ord: Order, t: TExpr, env: Env, c: Ctx): (o: Out)
    ensures MetaOnly(g, c, o.c)
    decreases 4 * Room(c) + 1, t, 4, 0
  {
    match t
    case TLit(v) => Out(Ok(v), c)
    case TSelf => Out(SelfOf(env.self), c)
    case TLocal(n) => Out(if n in env.locals then Ok(env.locals[n]) else Err, c)
    case TTemp => Out(SelfOf(env.temp), c)
    case TVar(name) => Out(VarOf(c, name), c)
    case TGetField(x, _) => ExecUnary(l, g, ord, t, x, env, c)
    case TIndexOf(x, i) =>
      var o := ExecPair(l, g, ord, t, x, i, env, c);
      if o.r.None? then Out(Err, o.c) else Out(IndexOf(l.fl, o.r.value[0], o.r.value[1]), o.c)
    case TNot(x) => ExecUnary(l, g, ord, t, x, env, c)
    case TNegate(x) => ExecUnary(l, g, ord, t, x, env, c)
    case TBin(_, _, _) => ExecBin(l, g, ord, t, env, c)
    case TAnd(x, y) => ShortCircuit(l, g, ord, t, x, y, false, env, c)
    case TOr(x, y) => ShortCircuit(l, g, ord, t, x, y, true, env, c)
    case TCoalesce(_, _) => ExecCoalesce(l, g, ord, t, env, c)
    case TIf(_, _, _) => ExecIf(l, g, ord, t, env, c)
    case TArray(items) => ExecItems(l, g, ord, items, [], env, c)
    case TObject(_) => ExecFields(l, g, ord, t, 0, Obj([]), env, c)
    case TMatch(bind, n, _) =>
      if bind.None? then ExecArms(l, g, ord, t, 0, env, c)
      else
        var o := Exec(l, g, ord, bind.value, env, c);
        if o.r.Err? then o else ExecArms(l, g, ord, t, 0, env.(locals := env.locals[n := o.r.v]), o.c)
    case TMetaAll => Out(MetaAll(c), c)
    case TMetaKey(k) => ExecUnary(l, g, ord, t, k, env, c)
    case TCtxFn(_, a) => ExecUnary(l, g, ord, t, a, env, c)
    case TCallFn(name, args) =>
      var a := if ord.Picked? then ExecTurns(l, g, ord, t, args, Turns(ord, args), map[], env, c)
               else ExecArgs(l, g, ord, ord, args, env, c);
      (match l.functions(name)
       case None => Out(Err, a.c)
       case Some(d) => if a.r.None? then Out(Err, a.c) else Out(InvokeFn(d, a.r.value), a.c))
    case TLet(_, _) => ExecLet(l, g, ord, t, env, c)
    case TCatchVar(_, _, _) => ExecCatch(l, g, ord, t, env, c)
    case TCatchThis(_, _, _) => ExecCatch(l, g, ord, t, env, c)
    case TCoerce(_, x) => ExecUnary(l, g, ord, t, x, env, c)
    case TCoerceOr(_, _, _) => ExecCoerceOr(l, g, ord, t, env, c)
    case TFrom(_, _) => ExecFrom(l, g, ord, t, env, c)
    case TFromAll(_) =>
      if c.amb.all.None? then Out(Err, c)
      else
        var o := ExecFromAll(l, g, ord, t, 0, [], env, c);
        Out(o.r, o.c.(amb := c.amb))
    case TMethod(_, _, _) => ExecMethod(l, g, ord, t, env, c)
    case TApply(_, _) => ExecApply(l, g, ord, t, env, c)
    case TLambdaVar(_, _, _, _, _) => ExecLambda(l, g, ord, t, env, c)
    case TLambdaThis(_, _, _, _, _) => ExecLambda(l, g, ord, t, env, c)
  }

  /** What a node with one operand makes of it; conversions see failures. */
  function Unary(l: Lib, t: TExpr, o: Out): Result {
    if t.TNot? then (match Truthy(o.r) case Some(b) => Ok(Bool(!b)) case None => Err)
    else if t.TCoerce? then Coerce(l, t.mname, o.r)
    else if o.r.Err? then Err
    else if t.TGetField? then Ok(GetField(o.r.v, t.key))
    else if t.TNegate? then Degrade(l.fl, Sub, I64(0), o.r.v)
    else if t.TMetaKey? then MetaGet(o.c, o.r.v)
    else if t.TCtxFn? then l.ctxFn(t.fname, ViewOf(o.c), o.r.v)
    else Err
  }

  function ExecUnary(l: Lib, g: Generated, ord: Order, t: TExpr, x: TExpr, env: Env, c: Ctx): (o: Out)
    requires x < t
    ensures MetaOnly(g, c, o.c)
    decreases 4 * Room(c) + 1, t, 3, 0
  {
    var o := Exec(l, g, ord, x, env, c);
    Out(Unary(l, t, o), o.c)
  }

  function ExecBin(l: Lib, g: Generated, ord: Order, t: TExpr, env: Env, c: Ctx): (o: Out)
    requires t.TBin?
    ensures MetaOnly(g, c, o.c)
    decreases 4 * Room(c) + 1, t, 3, 0
  {
    var a := Exec(l, g, ord, t.l, env, c);
    if a.r.Err? then a
    else
      var b := Exec(l, g, ord, t.r, env, a.c);
      if b.r.Err? then b else Out(Apply2(l.fl, t.op, a.r.v, b.r.v), b.c)
  }

  function ExecCoalesce(l: Lib, g: Generated, ord: Order, t: TExpr, env: Env, c: Ctx): (o: Out)
    requires t.TCoalesce?
    ensures MetaOnly(g, c, o.c)
    decreases 4 * Room(c) + 1, t, 3, 0
  {
    var a := Exec(l, g, ord, t.l, env, c);
    if Present(a.r) then a else Exec(l, g, ord, t.r, env, a.c)
  }

  function ExecIf(l: Lib, g: Generated, ord: Order, t: TExpr, env: Env, c: Ctx): (o: Out)
    requires t.TIf?
    ensures MetaOnly(g, c, o.c)
    decreases 4 * Room(c) + 1, t, 3, 0
  {
    var o := Exec(l, g, ord, t.c, env, c);
    match Truthy(o.r)
    case None => Out(Err, o.c)
    case Some(b) => if b then Exec(l, g, ord, t.l, env, o.c) else Exec(l, g, ord, t.r, env, o.c)
  }

  function ExecLet(l: Lib, g: Generated, ord: Order, t: TExpr, env: Env, c: Ctx): (o: Out)
    requires t.TLet?
    ensures MetaOnly(g, c, o.c)
    decreases 4 * Room(c) + 1, t, 3, 0
  {
    var o := Exec(l, g, ord, t.t, env, c);
    if o.r.Err? then o else Exec(l, g, ord, t.body, env.(temp := Some(o.r.v)), o.c)
  }

  function ExecApply(l: Lib, g: Generated, ord: Order, t: TExpr, env: Env, c: Ctx): (o: Out)
    requires t.TApply?
    ensures MetaOnly(g, c, o.c)
    decreases 4 * Room(c) + 1, t, 3, 0
  {
    var o := Exec(l, g, ord, t.t, env, c);
    if o.r.Err? then o else ExecMap(l, g, ord, t.m, o.r.v, o.c)
  }

  function ExecCatch(l: Lib, g: Generated, ord: Order, t: TExpr, env: Env, c: Ctx): (o: Out)
    requires t.TCatchVar? || t.TCatchThis?
    ensures MetaOnly(g, c, o.c)
    decreases 4 * Room(c) + 1, t, 3, 0
  {
    var o := Exec(l, g, ord, t.t, env, c);
    if o.r.Ok? then o
    else if t.TCatchVar? then ScopedVar(l, g, ord, t, t.param, ERROR_TEXT, env, o.c)
    else Exec(l, g, ord, t.body, env.(locals := env.locals[t.n := ERROR_TEXT]), o.c)
  }

  function ExecCoerceOr(l: Lib, g: Generated, ord: Order, t: TExpr, env: Env, c: Ctx): (o: Out)
    requires t.TCoerceOr?
    ensures MetaOnly(g, c, o.c)
    decreases 4 * Room(c) + 1, t, 3, 0
  {
    var o := Exec(l, g, ord, t.t, env, c);
    var r := Coerce(l, t.mname, o.r);
    if r.Ok? then Out(r, o.c)
    else
      var d := Exec(l, g, ord, t.d, env, o.c);
      Out(Coerce(l, t.mname, d.r), d.c)
  }

  /** `eval_from`: the message, its metadata and the batch index are rebound, `this` is not. */
  function ExecFrom(l: Lib, g: Generated, ord: Order, t: TExpr, env: Env, c: Ctx): (o: Out)
    requires t.TFrom?
    ensures MetaOnly(g, c, o.c)
    decreases 4 * Room(c) + 1, t, 3, 0
  {
    var i := Exec(l, g, ord, t.i, env, c);
    match (if i.r.Ok? then AsI64(l.fl, i.r.v) else None)
    case None => Out(Err, i.c)
    case Some(idx) =>
      if i.c.amb.all.None? || idx < 0 || idx >= |i.c.amb.all.value| then Out(Err, i.c)
      else
        var o := Exec(l, g, ord, t.t, env, i.c.(amb := AtMessage(i.c.amb, idx)));
        Out(o.r, o.c.(amb := i.c.amb))
  }

  /** Two call arguments. */
  function ExecPair(l: Lib, g: Generated, ord: Order, t: TExpr, x: TExpr, y: TExpr, env: Env, c: Ctx): (o: Outs)
    requires x < t && y < t
    ensures MetaOnly(g, c, o.c)
    ensures o.r.Some? ==> |o.r.value| == 2
    decreases 4 * Room(c) + 1, t, 3, 0
  {
    var ahead := FirstFirst(ord, x, y);
    var first, second := if ahead then x else y, if ahead then y else x;
    var a := Exec(l, g, ord, first, env, c);
    if a.r.Err? then Outs(None, a.c)
    else
      var b := Exec(l, g, ord, second, env, a.c);
      if b.r.Err? then Outs(None, b.c)
      else Outs(Some(if ahead then [a.r.v, b.r.v] else [b.r.v, a.r.v]), b.c)
  }

  /** C++ `&&` and `||` over `truthy`. */
  function ShortCircuit(l: Lib, g: Generated, ord: Order, t: TExpr, x: TExpr, y: TExpr, stop: bool, env: Env, c: Ctx): (o: Out)
    requires x < t && y < t
    ensures MetaOnly(g, c, o.c)
    decreases 4 * Room(c) + 1, t, 3, 0
  {
    var a := Exec(l, g, ord, x, env, c);
    match Truthy(a.r)
    case None => Out(Err, a.c)
    case Some(b) =>
      if b == stop then Out(Ok(Bool(b)), a.c)
      else
        var r := Exec(l, g, ord, y, env, a.c);
        Out(BoolResult(Truthy(r.r)), r.c)
  }

  function ExecItems(l: Lib, g: Generated, ord: Order, items: seq<TExpr>, acc: seq<Value>, env: Env, c: Ctx): (o: Out)
    ensures MetaOnly(g, c, o.c)
    decreases 4 * Room(c) + 1, items, 2, 0
  {
    if items == [] then Out(Ok(Arr(acc)), c)
    else
      var o := Exec(l, g, ord, items[0], env, c);
      if o.r.Err? then o
      else ExecItems(l, g, ord, items[1..], if LiteralOmits(o.r.v) then acc else acc + [o.r.v], env, o.c)
  }

  function ExecFields(l: Lib, g: Generated, ord: Order, t: TExpr, i: nat, acc: Value, env: Env, c: Ctx): (o: Out)
    requires t.TObject? && i <= |t.fields|
    ensures MetaOnly(g, c, o.c)
    decreases 4 * Room(c) + 1, t, 2, |t.fields| - i
  {
    if i == |t.fields| then Out(Ok(acc), c)
    else
      var f := t.fields[i];
      var k := if f.TFixed? then Out(Ok(String(f.key)), c) else Exec(l, g, ord, f.kexpr, env, c);
      if k.r.Err? then k
      else if !k.r.v.IsStringy() then Out(Err, k.c)
      else
        var o := Exec(l, g, ord, f.val, env, k.c);
        if o.r.Err? then o
        else
          var acc' := if LiteralOmits(o.r.v) then acc else SetField(acc, k.r.v.Text(), o.r.v);
          ExecFields(l, g, ord, t, i + 1, acc', env, o.c)
  }

  function ExecArms(l: Lib, g: Generated, ord: Order, t: TExpr, i: nat, env: Env, c: Ctx): (o: Out)
    requires t.TMatch? && i <= |t.arms|
    ensures MetaOnly(g, c, o.c)
    decreases 4 * Room(c) + 1, t, 2, |t.arms| - i
  {
    if i == |t.arms| then Out(Ok(Nothing), c)
    else
      var a := t.arms[i];
      if a.cond.None? then Exec(l, g, ord, a.val, env, c)
      else
        var o := Exec(l, g, ord, a.cond.value, env, c);
        if o.r.Err? then o
        else if TruthyBool(o.r.v) then Exec(l, g, ord, a.val, env, o.c)
        else ExecArms(l, g, ord, t, i + 1, env, o.c)
  }

  /** Call arguments, `mine` being the order of this list (a braced list is always in order). */
  function ExecArgs(l: Lib, g: Generated, ord: Order, mine: Order, ts: seq<TExpr>, env: Env, c: Ctx): (o: Outs)
    ensures MetaOnly(g, c, o.c)
    ensures o.r.Some? ==> |o.r.value| == |ts|
    decreases 4 * Room(c) + 1, ts, 2, 0
  {
    if ts == [] then Outs(Some([]), c)
    else if mine.LeftToRight? then
      var o := Exec(l, g, ord, ts[0], env, c);
      if o.r.Err? then Outs(None, o.c)
      else
        var rest := ExecArgs(l, g, ord, mine, ts[1..], env, o.c);
        Outs(if rest.r.Some? then Some([o.r.v] + rest.r.value) else None, rest.c)
    else
      var rest := ExecArgs(l, g, ord, mine, ts[1..], env, c);
      if rest.r.None? then rest
      else
        var o := Exec(l, g, ord, ts[0], env, rest.c);
        Outs(if o.r.Ok? then Some([o.r.v] + rest.r.value) else None, o.c)
  }

  /** Arguments whose turns are picked, with the values that are there already. */
  function ExecTurns(l: Lib, g: Generated, ord: Order, t: TExpr, ts: seq<TExpr>, turns: seq<nat>, got: map<nat, Value>,
                     env: Env, c: Ctx): (o: Outs)
    requires (forall k | 0 <= k < |ts| :: ts[k] < t) && forall k | 0 <= k < |turns| :: turns[k] < |ts|
    ensures MetaOnly(g, c, o.c)
    ensures o.r.Some? ==> |o.r.value| == |ts|
    decreases 4 * Room(c) + 1, t, 1, |turns|
  {
    if turns == [] then
      Outs(if forall i | 0 <= i < |ts| :: i in got then Some(InPlace(got, |ts|)) else None, c)
    else
      var o := Exec(l, g, ord, ts[turns[0]], env, c);
      if o.r.Err? then Outs(None, o.c)
      else ExecTurns(l, g, ord, t, ts, turns[1..], got[turns[0] := o.r.v], env, o.c)
  }

  function InPlace(got: map<nat, Value>, n: nat): seq<Value>
    requires forall i | 0 <= i < n :: i in got
  {
    seq(n, i requires 0 <= i < n => got[i])
  }

  function CallArgs(t: TExpr): seq<TExpr>
    requires t.TMethod? || t.TLambdaVar? || t.TLambdaThis?
  {
    if t.TMethod? then t.args else t.lead
  }

  /** A call's target and arguments. A braced argument list is one argument beside the target. */
  function ExecCall(l: Lib, g: Generated, ord: Order, braced: bool, t: TExpr, env: Env, c: Ctx): (o: Outs)
    requires t.TMethod? || t.TLambdaVar? || t.TLambdaThis?
    ensures MetaOnly(g, c, o.c)
    ensures o.r.Some? ==> |o.r.value| == 1 + |CallArgs(t)|
    decreases 4 * Room(c) + 1, t, 2, 1
  {
    if ord.Picked? && !braced then
      var ts := [t.t] + CallArgs(t);
      ExecTurns(l, g, ord, t, ts, Turns(ord, ts), map[], env, c)
    else
      ExecAround(l, g, ord, if braced then LeftToRight else ord, FirstFirst(ord, t.t, t), t, env, c)
  }

  /** The target before its arguments, or after them. */
  function ExecAround(l: Lib, g: Generated, ord: Order, mine: Order, ahead: bool, t: TExpr, env: Env, c: Ctx): (o: Outs)
    requires t.TMethod? || t.TLambdaVar? || t.TLambdaThis?
    ensures MetaOnly(g, c, o.c)
    ensures o.r.Some? ==> |o.r.value| == 1 + |CallArgs(t)|
    decreases 4 * Room(c) + 1, t, 2, 0
  {
    if ahead then
      var o := Exec(l, g, ord, t.t, env, c);
      if o.r.Err? then Outs(None, o.c)
      else
        var a := ExecArgs(l, g, ord, mine, CallArgs(t), env, o.c);
        Outs(if a.r.Some? then Some([o.r.v] + a.r.value) else None, a.c)
    else
      var a := ExecArgs(l, g, ord, mine, CallArgs(t), env, c);
      if a.r.None? then a
      else
        var o := Exec(l, g, ord, t.t, env, a.c);
        Outs(if o.r.Ok? then Some([o.r.v] + a.r.value) else None, o.c)
  }

  function ExecMethod(l: Lib, g: Generated, ord: Order, t: TExpr, env: Env, c: Ctx): (o: Out)
    requires t.TMethod?
    ensures MetaOnly(g, c, o.c)
    decreases 4 * Room(c) + 1, t, 3, 0
  {
    match FindMethod(l, t.mname)
    case None => Out(Err, c)
    case Some(d) =>
      var a := ExecCall(l, g, ord, d.arity.None?, t, env, c);
      if a.r.None? then Out(Err, a.c) else Out(Invoke(d, a.r.value[0], a.r.value[1..]), a.c)
  }

  /** A lambda body under `scoped_var`: bound for the body, then put back. */
  function ScopedVar(l: Lib, g: Generated, ord: Order, t: TExpr, param: Str, v: Value, env: Env, c: Ctx): (o: Out)
    requires t.TCatchVar? || t.TLambdaVar?
    ensures MetaOnly(g, c, o.c)
    decreases 4 * Room(c) + 1, t, 1, 0
  {
    var saved := Saved(c.vars, param);
    var o := Exec(l, g, ord, t.body, env, c.(vars := c.vars[param := v]));
    RestoreUndoes(c.vars[param := v], c.vars, param);
    Out(o.r, o.c.(vars := Restore(o.c.vars, param, saved)))
  }

  function ExecLambda(l: Lib, g: Generated, ord: Order, t: TExpr, env: Env, c: Ctx): (o: Out)
    requires t.TLambdaVar? || t.TLambdaThis?
    ensures MetaOnly(g, c, o.c)
    decreases 4 * Room(c) + 1, t, 3, 0
  {
    var a := ExecCall(l, g, ord, false, t, env, c);
    if a.r.None? then Out(Err, a.c)
    else
      var init := if |a.r.value| > 1 then a.r.value[1] else Null;
      ExecDrive(l, g, ord, t, a.r.value[0], init, [], env, a.c)
  }

  /** The method's loop, each callback a C++ lambda. */
  function ExecDrive(l: Lib, g: Generated, ord: Order, t: TExpr, target: Value, init: Value,
                     hist: seq<Value>, env: Env, c: Ctx): (o: Out)
    requires t.TLambdaVar? || t.TLambdaThis?
    ensures MetaOnly(g, c, o.c)
    decreases 4 * Room(c) + 1, t, 2, Calls(l, t.mname, target, init, hist)
  {
    match l.lambdaStep(t.mname, target, init, hist)
    case Done(r) => Out(r, c)
    case Ask(el) =>
      if Calls(l, t.mname, target, init, hist) == 0 then Out(Err, c)
      else
        var o :=
          if t.TLambdaVar? then ScopedVar(l, g, ord, t, t.param, el, env, c)
          else Exec(l, g, ord, t.body, env.(locals := env.locals[t.n := el]), c);
        if o.r.Err? then o
        else ExecDrive(l, g, ord, t, target, init, hist + [o.r.v], env, o.c)
  }

  function ExecFromAll(l: Lib, g: Generated, ord: Order, t: TExpr, i: nat, acc: seq<Value>, env: Env, c: Ctx): (o: Out)
    requires t.TFromAll? && c.amb.all.Some? && i <= |c.amb.all.value|
    ensures o.c == c.(meta := o.c.meta, amb := o.c.amb) && (NoMetaStores(g) ==> o.c.meta == c.meta)
    decreases 4 * Room(c) + 1, t, 2, |c.amb.all.value| - i
  {
    if i == |c.amb.all.value| then Out(Ok(Arr(acc)), c)
    else
      var o := Exec(l, g, ord, t.t, env, c.(amb := AtMessage(c.amb, i)));
      if o.r.Err? then o else ExecFromAll(l, g, ord, t, i + 1, acc + [o.r.v], env, o.c)
  }

  /** `apply_map` around a generated map function, whose prologue reads `this` again. */
  function ExecMap(l: Lib, g: Generated, ord: Order, m: nat, target: Value, c: Ctx): (o: Out)
    ensures MetaOnly(g, c, o.c)
    decreases 4 * Room(c)
  {
    if c.depth >= MAX_APPLY_DEPTH || m >= |g.maps| then Out(Err, c)
    else
      var inner := c.(thisV := Some(target), vars := map[], depth := c.depth + 1);
      var o := ExecStmts(l, g, ord, g.maps[m], inner.thisV, RootOf(inner), inner);
      Out(o.r, o.c.(thisV := c.thisV, vars := c.vars, depth := c.depth))
  }

  // ---- statements ---------------------------------------------------------------------

  /** The fast path's leaf reads, when the guard holds. */
  function Leaves(self: Value, keys: seq<Str>): (fs: Option<seq<Int64>>)
    ensures fs.Some? ==> Guarded(self, keys, fs.value)
  {
    if keys == [] then Some([])
    else
      var v := GetField(self, keys[0]);
      match Leaves(self, keys[1..])
      case Some(rest) => if v.I64? then Some([v.i] + rest) else None
      case None => None
  }

  /** The statement's value: guarded unboxed arithmetic, or the generic expression. */
  function StmtValue(l: Lib, g: Generated, ord: Order, s: TStmt, self: Option<Value>, c: Ctx): (o: Out)
    ensures MetaOnly(g, c, o.c)
    decreases 4 * Room(c) + 2
  {
    var env := Env(self, map[], None);
    match s.fast
    case None => Exec(l, g, ord, s.generic, env, c)
    case Some(b) =>
      if self.None? then Out(Err, c)
      else
        match Leaves(self.value, b.leaves)
        case Some(fs) => Out(Box(FEval(l.fl, b.code, fs)), c)
        case None => Exec(l, g, ord, s.generic, env, c)
  }

  /** `emit_assignment`: each target guards against `nothing` itself; no root flag. */
  function Store(target: Target, v: Value, root: Value, c: Ctx): Assigned {
    match target
    case Root => Assigned(if v.Nothing? then root else v, true, c)
    case RootPath(path) => Assigned(if v.Nothing? then root else AssignPath(root, path, v), true, c)
    case VarTarget(n) =>
      Assigned(root, true, if v.Deleted? then c.(vars := c.vars - {n})
                           else if v.Nothing? then c else c.(vars := c.vars[n := v]))
    case MetaTarget(n) =>
      if v.Nothing? then Assigned(root, true, c)
      else match MetaSet(c, n, v) case Some(d) => Assigned(root, true, d) case None => Failed
  }

  function ExecStmts(l: Lib, g: Generated, ord: Order, ss: seq<TStmt>, self: Option<Value>, root: Value, c: Ctx): (o: Out)
    ensures o.c == c.(meta := o.c.meta, vars := o.c.vars)
    ensures NoMetaStores(g) && (forall i :: 0 <= i < |ss| ==> !ss[i].target.MetaTarget?) ==> o.c.meta == c.meta
    decreases 4 * Room(c) + 3, ss
  {
    if ss == [] then Out(Ok(root), c)
    else
      var o := StmtValue(l, g, ord, ss[0], self, c);
      if o.r.Err? then o
      else
        match Store(ss[0].target, o.r.v, root, o.c)
        case Failed => Out(Err, o.c)
        case Assigned(root', _, c') => ExecStmts(l, g, ord, ss[1..], self, root', c')
  }

  /** The generated mapping function. */
  function RunMain(l: Lib, g: Generated, ord: Order, c: Ctx): Out {
    ExecStmts(l, g, ord, g.main, c.thisV, RootOf(c), c)
  }
}
