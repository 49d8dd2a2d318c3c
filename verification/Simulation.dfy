/** Generated code simulates the interpreter. */
module Simulation {
  import opened Values
  import opened Numbers
  import opened Bloblang
  import opened Interp
  import opened FastPath
  import opened Emit
  import opened GeneratedCode
  import opened ArgumentOrder

  /** A mapping, its generated program and the argument order the C++ compiler chose. */
  datatype World = World(l: Lib, p: Mapping, g: Generated, ord: Order)

  ghost predicate Related(ci: Ctx, ct: Ctx) { ct == ci.(thisV := ct.thisV) }

  /** Dynamic `this` is the lexical one: the innermost element binding, else `self_`. */
  ghost predicate Scope(stack: seq<nat>, env: Env, thisV: Option<Value>) {
    if stack == [] then env.self == thisV
    else stack[|stack| - 1] in env.locals && thisV == Some(env.locals[stack[|stack| - 1]])
  }

  ghost predicate Same(i: Out, t: Out) { i.r == t.r && i.c.meta == t.c.meta }

  ghost predicate Pre(w: World, e: Expr, stack: seq<nat>, n: nat, env: Env, ci: Ctx, ct: Ctx) {
    && Code(w.l, w.p.maps, e, stack, n).Some?
    && Scope(stack, env, ci.thisV)
    && Related(ci, ct)
  }

  ghost predicate Sim(w: World, e: Expr, t: TExpr, env: Env, ci: Ctx, ct: Ctx) {
    Same(Eval(w.l, w.p, e, ci), Exec(w.l, w.g, w.ord, t, env, ct))
  }

  ghost predicate SameAll(i: Outs, t: Outs) { i.r == t.r && i.c.meta == t.c.meta }

  /** The program was emitted, its rules are the emitted ones, and the order of arguments is
      the interpreter's or cannot show. */
  ghost predicate Compiled(w: World) {
    ProgramCode(w.l, w.p) == Some(w.g) && w.p.rules.Emitted? && Settled(w.g, w.ord)
  }

  lemma Emits(w: World)
    requires Compiled(w)
    ensures w.p.rules.Emitted?
  {
  }

  function CodeOf(w: World, e: Expr, stack: seq<nat>, n: nat): Em<TExpr>
    requires Code(w.l, w.p.maps, e, stack, n).Some?
  {
    Code(w.l, w.p.maps, e, stack, n).value
  }

  // ---- expressions ----------------------------------------------------------------------

  /** For every expression the emitter accepts and every context, the generated code yields
      the interpreter's value or fails with it, and writes the same metadata. */
  lemma {:induction false} SimExpr(w: World, e: Expr, stack: seq<nat>, n: nat, env: Env, ci: Ctx, ct: Ctx)
    requires Compiled(w) && Pre(w, e, stack, n, env, ci, ct)
    ensures Sim(w, e, CodeOf(w, e, stack, n).t, env, ci, ct)
    decreases 4 * Room(ci) + 1, e, 5, 0
  {
    hide Eval, Exec, Code, Compiled;
    match e
    case Lit(_) => SimLeaf(w, e, stack, n, env, ci, ct);
    case This => SimLeaf(w, e, stack, n, env, ci, ct);
    case Var(_) => SimLeaf(w, e, stack, n, env, ci, ct);
    case Field(_, _) => SimUnary(w, e, e.target, stack, n, env, ci, ct);
    case Neg(_) => SimUnary(w, e, e.operand, stack, n, env, ci, ct);
    case Not(_) => SimUnary(w, e, e.operand, stack, n, env, ci, ct);
    case Index(_, _) => SimIndex(w, e, stack, n, env, ci, ct);
    case Binary(_, _, _) => SimBinary(w, e, stack, n, env, ci, ct);
    case If(_, _, _) => SimIf(w, e, stack, n, env, ci, ct);
    case Array(_) => SimArray(w, e, stack, n, env, ci, ct);
    case Object(_) => SimObject(w, e, stack, n, env, ci, ct);
    case Match(_, _) => SimMatch(w, e, stack, n, env, ci, ct);
    case Call(_, _) => SimCall(w, e, stack, n, env, ci, ct);
    case Lambda(_, _) => NoBareLambda(w, e, stack, n);
    case Method(_, _, _) => SimMethod(w, e, stack, n, env, ci, ct);
  }

  /** A lambda outside a method call is not emitted. */
  lemma NoBareLambda(w: World, e: Expr, stack: seq<nat>, n: nat)
    requires e.Lambda?
    ensures Code(w.l, w.p.maps, e, stack, n).None?
  {
  }

  lemma ArrayIs(w: World, e: Expr, c: Ctx)
    requires e.Array?
    ensures Eval(w.l, w.p, e, c) == EvalItems(w.l, w.p, e.items, [], c)
  {
    hide EvalItems, Kept;
  }

  lemma ArrayCodeIs(w: World, t: TExpr, env: Env, c: Ctx)
    requires t.TArray?
    ensures Exec(w.l, w.g, w.ord, t, env, c) == ExecItems(w.l, w.g, w.ord, t.items, [], env, c)
  {
    hide ExecItems, MetaOnly;
  }

  lemma ObjectIs(w: World, e: Expr, c: Ctx)
    requires e.Object?
    ensures Eval(w.l, w.p, e, c) == EvalFields(w.l, w.p, e, 0, Obj([]), c)
  {
    hide EvalFields, Kept;
  }

  lemma ObjectCodeIs(w: World, t: TExpr, env: Env, c: Ctx)
    requires t.TObject?
    ensures Exec(w.l, w.g, w.ord, t, env, c) == ExecFields(w.l, w.g, w.ord, t, 0, Obj([]), env, c)
  {
    hide ExecFields, MetaOnly;
  }

  lemma {:induction false} SimArray(w: World, e: Expr, stack: seq<nat>, n: nat, env: Env, ci: Ctx, ct: Ctx)
    requires Compiled(w) && Pre(w, e, stack, n, env, ci, ct) && e.Array?
    ensures Sim(w, e, CodeOf(w, e, stack, n).t, env, ci, ct)
    decreases 4 * Room(ci) + 1, e, 4, 0
  {
    hide Compiled, Eval, Exec, EvalItems, ExecItems;
    ArrayIs(w, e, ci);
    ArrayCodeIs(w, CodeOf(w, e, stack, n).t, env, ct);
    SimItems(w, e.items, [], stack, n, env, ci, ct);
  }

  lemma {:induction false} SimObject(w: World, e: Expr, stack: seq<nat>, n: nat, env: Env, ci: Ctx, ct: Ctx)
    requires Compiled(w) && Pre(w, e, stack, n, env, ci, ct) && e.Object?
    ensures Sim(w, e, CodeOf(w, e, stack, n).t, env, ci, ct)
    decreases 4 * Room(ci) + 1, e, 4, 0
  {
    hide Compiled, Eval, Exec, EvalFields, ExecFields;
    ObjectIs(w, e, ci);
    ObjectCodeIs(w, CodeOf(w, e, stack, n).t, env, ct);
    SimFields(w, e, 0, Obj([]), stack, n, CodeOf(w, e, stack, n).t, env, ci, ct);
  }

  lemma SimLeaf(w: World, e: Expr, stack: seq<nat>, n: nat, env: Env, ci: Ctx, ct: Ctx)
    requires Pre(w, e, stack, n, env, ci, ct) && (e.Lit? || e.This? || e.Var?)
    ensures Sim(w, e, CodeOf(w, e, stack, n).t, env, ci, ct)
  {
  }

  function UnaryCode(e: Expr, t: TExpr): TExpr
    requires e.Field? || e.Neg? || e.Not?
  {
    if e.Field? then TGetField(t, e.key) else if e.Neg? then TNegate(t) else TNot(t)
  }

  function UnaryOf(l: Lib, e: Expr, r: Result): Result
    requires e.Field? || e.Neg? || e.Not?
  {
    if e.Not? then (match Truthy(r) case Some(b) => Ok(Bool(!b)) case None => Err)
    else if r.Err? then Err
    else if e.Field? then Ok(GetField(r.v, e.key)) else Degrade(l.fl, Sub, I64(0), r.v)
  }

  lemma UnaryIs(w: World, e: Expr, x: Expr, c: Ctx)
    requires (e.Field? && x == e.target) || ((e.Neg? || e.Not?) && x == e.operand)
    ensures var o := Eval(w.l, w.p, x, c); Eval(w.l, w.p, e, c) == Out(UnaryOf(w.l, e, o.r), o.c)
  {
    hide MetaOnly, Kept;
    hide Degrade, GetField;
  }

  lemma JoinUnary(w: World, e: Expr, x: Expr, t: TExpr, env: Env, ci: Ctx, ct: Ctx)
    requires (e.Field? && x == e.target) || ((e.Neg? || e.Not?) && x == e.operand)
    requires Sim(w, x, t, env, ci, ct)
    ensures Sim(w, e, UnaryCode(e, t), env, ci, ct)
  {
    hide Eval, Exec, Degrade, GetField;
    UnaryIs(w, e, x, ci);
    OneOperandIs(w, UnaryCode(e, t), t, env, ct);
  }

  lemma {:induction false} SimUnary(w: World, e: Expr, x: Expr, stack: seq<nat>, n: nat, env: Env, ci: Ctx, ct: Ctx)
    requires Compiled(w) && Pre(w, e, stack, n, env, ci, ct)
    requires (e.Field? && x == e.target) || ((e.Neg? || e.Not?) && x == e.operand)
    ensures Sim(w, e, CodeOf(w, e, stack, n).t, env, ci, ct)
    decreases 4 * Room(ci) + 1, e, 4, 0
  {
    hide Eval, Exec, Compiled;
    SimExpr(w, x, stack, n, env, ci, ct);
    JoinUnary(w, e, x, CodeOf(w, x, stack, n).t, env, ci, ct);
  }

  /** Subexpressions evaluated one after the other, in both worlds. */
  lemma {:induction false} SimThen(w: World, e: Expr, x: Expr, y: Expr, stack: seq<nat>, n: nat, env: Env, ci: Ctx, ct: Ctx)
    requires Compiled(w) && x < e && y < e
    requires TwoCode(w.l, w.p.maps, e, x, y, stack, n).Some?
    requires Scope(stack, env, ci.thisV) && Related(ci, ct)
    ensures var a := TwoCode(w.l, w.p.maps, e, x, y, stack, n).value.t;
            Sim(w, x, a.0, env, ci, ct) && SimNext(w, x, a.0, y, a.1, env, ci, ct)
    decreases 4 * Room(ci) + 1, e, 3, 0
  {
    hide Eval, Exec, Compiled;
    var a := CodeOf(w, x, stack, n);
    SimExpr(w, x, stack, n, env, ci, ct);
    SimExpr(w, y, stack, a.n, env, Eval(w.l, w.p, x, ci).c, Exec(w.l, w.g, w.ord, a.t, env, ct).c);
  }

  /** The second of two subexpressions runs in the context the first one left. */
  ghost predicate SimNext(w: World, x: Expr, tx: TExpr, y: Expr, ty: TExpr, env: Env, ci: Ctx, ct: Ctx) {
    Sim(w, y, ty, env, Eval(w.l, w.p, x, ci).c, Exec(w.l, w.g, w.ord, tx, env, ct).c)
  }

  lemma JoinIndex(w: World, e: Expr, tx: TExpr, ty: TExpr, env: Env, ci: Ctx, ct: Ctx)
    requires e.Index? && Related(ci, ct) && Settled(w.g, w.ord)
    requires Sim(w, e.target, tx, env, ci, ct) && SimNext(w, e.target, tx, e.index, ty, env, ci, ct)
    ensures Sim(w, e, TIndexOf(tx, ty), env, ci, ct)
  {
    hide Settled;
    PairInOrder(w.l, w.g, w.ord, TIndexOf(tx, ty), tx, ty, env, ct);
  }

  lemma {:induction false} SimIndex(w: World, e: Expr, stack: seq<nat>, n: nat, env: Env, ci: Ctx, ct: Ctx)
    requires Compiled(w) && Pre(w, e, stack, n, env, ci, ct) && e.Index?
    ensures Sim(w, e, CodeOf(w, e, stack, n).t, env, ci, ct)
    decreases 4 * Room(ci) + 1, e, 4, 0
  {
    hide Eval, Exec;
    var a := TwoCode(w.l, w.p.maps, e, e.target, e.index, stack, n).value.t;
    SimThen(w, e, e.target, e.index, stack, n, env, ci, ct);
    JoinIndex(w, e, a.0, a.1, env, ci, ct);
  }

  function BinaryCode(op: BinOp, x: TExpr, y: TExpr): TExpr {
    match op
    case AndOp => TAnd(x, y)
    case OrOp => TOr(x, y)
    case Coalesce => TCoalesce(x, y)
    case _ => TBin(op, x, y)
  }

  lemma JoinShortCircuit(w: World, e: Expr, tx: TExpr, ty: TExpr, env: Env, ci: Ctx, ct: Ctx)
    requires e.Binary? && (e.op.AndOp? || e.op.OrOp?)
    requires Sim(w, e.lhs, tx, env, ci, ct) && SimNext(w, e.lhs, tx, e.rhs, ty, env, ci, ct)
    ensures Sim(w, e, BinaryCode(e.op, tx, ty), env, ci, ct)
  {
    hide Eval, Exec;
    BinaryIs(w, e, ci);
    if e.op.AndOp? { AndIs(w, tx, ty, env, ct); } else { OrIs(w, tx, ty, env, ct); }
  }

  lemma BinaryIs(w: World, e: Expr, c: Ctx)
    requires e.Binary?
    ensures Eval(w.l, w.p, e, c) == EvalBinary(w.l, w.p, e, c)
  {
    hide MetaOnly, Kept;
  }

  lemma AndIs(w: World, x: TExpr, y: TExpr, env: Env, c: Ctx)
    ensures Exec(w.l, w.g, w.ord, TAnd(x, y), env, c) == ShortCircuit(w.l, w.g, w.ord, TAnd(x, y), x, y, false, env, c)
  {
    hide MetaOnly, Kept;
    hide ExecMap, ExecMethod, ExecLambda, ExecFrom, ExecFromAll, ExecCoerceOr, ExecArms, ExecFields, ExecItems;
    hide ExecArgs, ExecTurns, ExecPair, ShortCircuit, ScopedVar;
  }

  lemma OrIs(w: World, x: TExpr, y: TExpr, env: Env, c: Ctx)
    ensures Exec(w.l, w.g, w.ord, TOr(x, y), env, c) == ShortCircuit(w.l, w.g, w.ord, TOr(x, y), x, y, true, env, c)
  {
    hide MetaOnly, Kept;
    hide ExecMap, ExecMethod, ExecLambda, ExecFrom, ExecFromAll, ExecCoerceOr, ExecArms, ExecFields, ExecItems;
    hide ExecArgs, ExecTurns, ExecPair, ShortCircuit, ScopedVar;
  }

  lemma CoalesceIs(w: World, t: TExpr, env: Env, c: Ctx)
    requires t.TCoalesce?
    ensures Exec(w.l, w.g, w.ord, t, env, c) == ExecCoalesce(w.l, w.g, w.ord, t, env, c)
  {
    hide ExecCoalesce;
  }

  lemma JoinCoalesce(w: World, e: Expr, tx: TExpr, ty: TExpr, env: Env, ci: Ctx, ct: Ctx)
    requires e.Binary? && e.op.Coalesce?
    requires Sim(w, e.lhs, tx, env, ci, ct) && SimNext(w, e.lhs, tx, e.rhs, ty, env, ci, ct)
    ensures Sim(w, e, TCoalesce(tx, ty), env, ci, ct)
  {
    hide Eval, Exec;
    BinaryIs(w, e, ci);
    CoalesceIs(w, TCoalesce(tx, ty), env, ct);
  }

  lemma BinIs(w: World, t: TExpr, env: Env, c: Ctx)
    requires t.TBin?
    ensures Exec(w.l, w.g, w.ord, t, env, c) == ExecBin(w.l, w.g, w.ord, t, env, c)
  {
    hide ExecBin;
  }

  lemma JoinStrict(w: World, e: Expr, tx: TExpr, ty: TExpr, env: Env, ci: Ctx, ct: Ctx)
    requires e.Binary? && !e.op.AndOp? && !e.op.OrOp? && !e.op.Coalesce?
    requires Sim(w, e.lhs, tx, env, ci, ct) && SimNext(w, e.lhs, tx, e.rhs, ty, env, ci, ct)
    ensures Sim(w, e, TBin(e.op, tx, ty), env, ci, ct)
  {
    hide Eval, Exec, Apply2;
    BinaryIs(w, e, ci);
    BinIs(w, TBin(e.op, tx, ty), env, ct);
  }

  lemma {:induction false} SimBinary(w: World, e: Expr, stack: seq<nat>, n: nat, env: Env, ci: Ctx, ct: Ctx)
    requires Compiled(w) && Pre(w, e, stack, n, env, ci, ct) && e.Binary?
    ensures Sim(w, e, CodeOf(w, e, stack, n).t, env, ci, ct)
    decreases 4 * Room(ci) + 1, e, 4, 0
  {
    hide Eval, Exec, Compiled;
    var a := TwoCode(w.l, w.p.maps, e, e.lhs, e.rhs, stack, n).value.t;
    assert CodeOf(w, e, stack, n).t == BinaryCode(e.op, a.0, a.1);
    SimThen(w, e, e.lhs, e.rhs, stack, n, env, ci, ct);
    if e.op.AndOp? || e.op.OrOp? {
      JoinShortCircuit(w, e, a.0, a.1, env, ci, ct);
    } else if e.op.Coalesce? {
      JoinCoalesce(w, e, a.0, a.1, env, ci, ct);
    } else {
      JoinStrict(w, e, a.0, a.1, env, ci, ct);
    }
  }

  lemma IfIs(w: World, e: Expr, c: Ctx)
    requires e.If?
    ensures var o := Eval(w.l, w.p, e.cond, c);
            Eval(w.l, w.p, e, c) ==
            if Truthy(o.r).None? then Out(Err, o.c)
            else if Truthy(o.r).value then Eval(w.l, w.p, e.thn, o.c)
            else if e.els.Some? then Eval(w.l, w.p, e.els.value, o.c) else Out(Ok(Nothing), o.c)
  {
    hide MetaOnly, Kept;
  }

  lemma TIfIs(w: World, t: TExpr, env: Env, c: Ctx)
    requires t.TIf?
    ensures Exec(w.l, w.g, w.ord, t, env, c) == ExecIf(w.l, w.g, w.ord, t, env, c)
  {
    hide ExecIf;
  }

  lemma LitIs(w: World, v: Value, env: Env, c: Ctx)
    ensures Exec(w.l, w.g, w.ord, TLit(v), env, c) == Out(Ok(v), c)
  {
    hide MetaOnly, Kept;
    hide ExecMap, ExecMethod, ExecLambda, ExecFrom, ExecFromAll, ExecCoerceOr, ExecArms, ExecFields, ExecItems;
    hide ExecArgs, ExecTurns, ExecPair, ShortCircuit, ScopedVar;
  }

  lemma JoinIf(w: World, e: Expr, q: TExpr, x: TExpr, y: TExpr, env: Env, ci: Ctx, ct: Ctx)
    requires e.If? && Sim(w, e.cond, q, env, ci, ct) && SimNext(w, e.cond, q, e.thn, x, env, ci, ct)
    requires if e.els.Some? then SimNext(w, e.cond, q, e.els.value, y, env, ci, ct) else y == TLit(Nothing)
    ensures Sim(w, e, TIf(q, x, y), env, ci, ct)
  {
    hide Eval, Exec;
    IfIs(w, e, ci);
    TIfIs(w, TIf(q, x, y), env, ct);
    if e.els.None? { LitIs(w, Nothing, env, Exec(w.l, w.g, w.ord, q, env, ct).c); }
  }

  lemma {:induction false} SimIf(w: World, e: Expr, stack: seq<nat>, n: nat, env: Env, ci: Ctx, ct: Ctx)
    requires Compiled(w) && Pre(w, e, stack, n, env, ci, ct) && e.If?
    ensures Sim(w, e, CodeOf(w, e, stack, n).t, env, ci, ct)
    decreases 4 * Room(ci) + 1, e, 4, 0
  {
    hide Eval, Exec, Compiled;
    SimThen(w, e, e.cond, e.thn, stack, n, env, ci, ct);
    var a := TwoCode(w.l, w.p.maps, e, e.cond, e.thn, stack, n).value;
    if e.els.Some? {
      SimExpr(w, e.els.value, stack, a.n, env, Eval(w.l, w.p, e.cond, ci).c, Exec(w.l, w.g, w.ord, a.t.0, env, ct).c);
    }
    JoinIf(w, e, a.t.0, a.t.1, CodeOf(w, e, stack, n).t.r, env, ci, ct);
  }

  lemma {:induction false} SimItems(w: World, items: seq<Expr>, acc: seq<Value>, stack: seq<nat>, n: nat, env: Env, ci: Ctx, ct: Ctx)
    requires Compiled(w)
    requires AllCode(w.l, w.p.maps, items, stack, n).Some?
    requires Scope(stack, env, ci.thisV) && Related(ci, ct)
    ensures Same(EvalItems(w.l, w.p, items, acc, ci),
                 ExecItems(w.l, w.g, w.ord, AllCode(w.l, w.p.maps, items, stack, n).value.t, acc, env, ct))
    decreases 4 * Room(ci) + 1, items, 2, 0
  {
    hide Eval, Exec, Compiled;
    if items != [] {
      var a := CodeOf(w, items[0], stack, n);
      SimExpr(w, items[0], stack, n, env, ci, ct);
      var oi, ot := Eval(w.l, w.p, items[0], ci), Exec(w.l, w.g, w.ord, a.t, env, ct);
      var ts := AllCode(w.l, w.p.maps, items, stack, n).value.t;
      assert ts[0] == a.t && ts[1..] == AllCode(w.l, w.p.maps, items[1..], stack, a.n).value.t;
      if oi.r.Ok? {
        SimItems(w, items[1..], if LiteralOmits(oi.r.v) then acc else acc + [oi.r.v], stack, a.n, env, oi.c, ot.c);
      }
    }
  }

  lemma {:induction false} SimFields(w: World, e: Expr, i: nat, acc: Value, stack: seq<nat>, n: nat, t: TExpr, env: Env, ci: Ctx, ct: Ctx)
    requires Compiled(w) && e.Object? && i <= |e.fields|
    requires FieldsCode(w.l, w.p.maps, e, i, stack, n).Some?
    requires t.TObject? && |t.fields| == |e.fields| && t.fields[i..] == FieldsCode(w.l, w.p.maps, e, i, stack, n).value.t
    requires Scope(stack, env, ci.thisV) && Related(ci, ct)
    ensures Same(EvalFields(w.l, w.p, e, i, acc, ci), ExecFields(w.l, w.g, w.ord, t, i, acc, env, ct))
    decreases 4 * Room(ci) + 1, e, 3, |e.fields| - i
  {
    hide Eval, Exec, Compiled;
    if i < |e.fields| {
      var f := e.fields[i];
      var code := FieldCode(w.l, w.p.maps, f, stack, n).value;
      var rest := FieldsCode(w.l, w.p.maps, e, i + 1, stack, code.n).value;
      assert t.fields[i] == t.fields[i..][0] == code.t;
      assert t.fields[i + 1..] == t.fields[i..][1..] == rest.t;
      SimField(w, e, i, stack, n, env, ci, ct);
      var ki := Eval(w.l, w.p, f.key, ci);
      var kt := KeyExec(w, code.t, env, ct);
      if ki.r.Ok? && ki.r.v.IsStringy() {
        var vi, vt := Eval(w.l, w.p, f.val, ki.c), Exec(w.l, w.g, w.ord, code.t.val, env, kt.c);
        if vi.r.Ok? {
          var acc' := if LiteralOmits(vi.r.v) then acc else SetField(acc, ki.r.v.Text(), vi.r.v);
          SimFields(w, e, i + 1, acc', stack, code.n, t, env, vi.c, vt.c);
        }
      }
    }
  }

  function KeyExec(w: World, f: TField, env: Env, c: Ctx): Out {
    if f.TFixed? then Out(Ok(String(f.key)), c) else Exec(w.l, w.g, w.ord, f.kexpr, env, c)
  }

  /** One object entry: its key, then its value. */
  lemma {:induction false} SimField(w: World, e: Expr, i: nat, stack: seq<nat>, n: nat, env: Env, ci: Ctx, ct: Ctx)
    requires Compiled(w) && e.Object? && i < |e.fields|
    requires FieldCode(w.l, w.p.maps, e.fields[i], stack, n).Some?
    requires Scope(stack, env, ci.thisV) && Related(ci, ct)
    ensures var f := e.fields[i];
            var code := FieldCode(w.l, w.p.maps, f, stack, n).value.t;
            var ki, kt := Eval(w.l, w.p, f.key, ci), KeyExec(w, code, env, ct);
            Same(ki, kt) && kt.c == ct.(meta := kt.c.meta) && Sim(w, f.val, code.val, env, ki.c, kt.c)
    decreases 4 * Room(ci) + 1, e, 2, 0
  {
    hide Compiled;
    var f := e.fields[i];
    if f.key.Lit? && f.key.v.String? {
      SimExpr(w, f.val, stack, n, env, ci, ct);
    } else {
      var k := CodeOf(w, f.key, stack, n);
      SimExpr(w, f.key, stack, n, env, ci, ct);
      SimExpr(w, f.val, stack, k.n, env, Eval(w.l, w.p, f.key, ci).c, Exec(w.l, w.g, w.ord, k.t, env, ct).c);
    }
  }

  /** `match`: the context value is `this` in one world and the innermost binding in the other. */
  lemma {:induction false} SimMatch(w: World, e: Expr, stack: seq<nat>, n: nat, env: Env, ci: Ctx, ct: Ctx)
    requires Compiled(w) && Pre(w, e, stack, n, env, ci, ct) && e.Match?
    ensures Sim(w, e, CodeOf(w, e, stack, n).t, env, ci, ct)
    decreases 4 * Room(ci) + 1, e, 4, 0
  {
    hide Eval, Exec, Compiled;
    var t := CodeOf(w, e, stack, n).t;
    if e.context.None? {
      SimArms(w, e, 0, stack, n + 1, t, env, ci, ct);
      JoinMatchBare(w, e, t, env, ci, ct);
    } else {
      var b := CodeOf(w, e.context.value, stack, n + 1);
      SimExpr(w, e.context.value, stack, n + 1, env, ci, ct);
      var oi, ot := Eval(w.l, w.p, e.context.value, ci), Exec(w.l, w.g, w.ord, b.t, env, ct);
      if oi.r.Ok? {
        var env' := env.(locals := env.locals[n + 1 := oi.r.v]);
        SimArms(w, e, 0, stack + [n + 1], b.n, t, env', oi.c.(thisV := Some(oi.r.v)), ot.c);
      }
      JoinMatch(w, e, t, env, ci, ct);
    }
  }

  lemma JoinMatchBare(w: World, e: Expr, t: TExpr, env: Env, ci: Ctx, ct: Ctx)
    requires e.Match? && t.TMatch? && e.context.None? && t.bind.None?
    requires Same(EvalCases(w.l, w.p, e, 0, ci), ExecArms(w.l, w.g, w.ord, t, 0, env, ct))
    ensures Sim(w, e, t, env, ci, ct)
  {
  }

  lemma JoinMatch(w: World, e: Expr, t: TExpr, env: Env, ci: Ctx, ct: Ctx)
    requires e.Match? && t.TMatch? && e.context.Some? && t.bind.Some?
    requires Sim(w, e.context.value, t.bind.value, env, ci, ct)
    requires var oi, ot := Eval(w.l, w.p, e.context.value, ci), Exec(w.l, w.g, w.ord, t.bind.value, env, ct);
             oi.r.Ok? ==> Same(EvalCases(w.l, w.p, e, 0, oi.c.(thisV := Some(oi.r.v))),
                               ExecArms(w.l, w.g, w.ord, t, 0, env.(locals := env.locals[t.n := oi.r.v]), ot.c))
    ensures Sim(w, e, t, env, ci, ct)
  {
  }

  lemma {:induction false} SimArms(w: World, e: Expr, i: nat, stack: seq<nat>, n: nat, t: TExpr, env: Env, ci: Ctx, ct: Ctx)
    requires Compiled(w) && e.Match? && i <= |e.cases|
    requires ArmsCode(w.l, w.p.maps, e, i, stack, n).Some?
    requires t.TMatch? && |t.arms| == |e.cases| && t.arms[i..] == ArmsCode(w.l, w.p.maps, e, i, stack, n).value.t
    requires Scope(stack, env, ci.thisV) && Related(ci, ct)
    ensures Same(EvalCases(w.l, w.p, e, i, ci), ExecArms(w.l, w.g, w.ord, t, i, env, ct))
    decreases 4 * Room(ci) + 1, e, 3, |e.cases| - i
  {
    hide Eval, Exec, Compiled;
    if i < |e.cases| {
      var k := e.cases[i];
      var code := ArmCode(w.l, w.p.maps, k, stack, n).value;
      var rest := ArmsCode(w.l, w.p.maps, e, i + 1, stack, code.n).value;
      assert t.arms[i] == t.arms[i..][0] == code.t;
      assert t.arms[i + 1..] == t.arms[i..][1..] == rest.t;
      if k.cond.None? {
        SimExpr(w, k.val, stack, n, env, ci, ct);
      } else {
        var b := CodeOf(w, k.cond.value, stack, n);
        SimExpr(w, k.cond.value, stack, n, env, ci, ct);
        var oi, ot := Eval(w.l, w.p, k.cond.value, ci), Exec(w.l, w.g, w.ord, b.t, env, ct);
        SimExpr(w, k.val, stack, b.n, env, oi.c, ot.c);
        SimArms(w, e, i + 1, stack, code.n, t, env, oi.c, ot.c);
      }
    }
  }

  // ---- calls ------------------------------------------------------------------------------

  /** Arguments, one after the other. */
  lemma {:induction false} SimArgs(w: World, es: seq<Expr>, stack: seq<nat>, n: nat, env: Env, ci: Ctx, ct: Ctx)
    requires Compiled(w) && AllCode(w.l, w.p.maps, es, stack, n).Some?
    requires Scope(stack, env, ci.thisV) && Related(ci, ct)
    ensures SameAll(EvalArgs(w.l, w.p, es, ci),
                    ExecArgs(w.l, w.g, w.ord, LeftToRight, AllCode(w.l, w.p.maps, es, stack, n).value.t, env, ct))
    decreases 4 * Room(ci) + 1, es, 2, 0
  {
    hide Eval, Exec, Compiled;
    if es != [] {
      var a := CodeOf(w, es[0], stack, n);
      var ts := AllCode(w.l, w.p.maps, es, stack, n).value.t;
      assert ts[0] == a.t && ts[1..] == AllCode(w.l, w.p.maps, es[1..], stack, a.n).value.t;
      SimExpr(w, es[0], stack, n, env, ci, ct);
      var oi, ot := Eval(w.l, w.p, es[0], ci), Exec(w.l, w.g, w.ord, a.t, env, ct);
      SimArgs(w, es[1..], stack, a.n, env, oi.c, ot.c);
    }
  }

  lemma {:induction false} SimCall(w: World, e: Expr, stack: seq<nat>, n: nat, env: Env, ci: Ctx, ct: Ctx)
    requires Compiled(w) && Pre(w, e, stack, n, env, ci, ct) && e.Call?
    ensures Sim(w, e, CodeOf(w, e, stack, n).t, env, ci, ct)
    decreases 4 * Room(ci) + 1, e, 4, 0
  {
    hide Eval, Exec;
    assert Code(w.l, w.p.maps, e, stack, n) == CallCode(w.l, w.p.maps, e, stack, n);
    if e.fname.PlainFn? {
      CallParts(w, e, stack, n);
      var args := CallArguments(w, e);
      SimArgs(w, args, stack, n, env, ci, ct);
      JoinFnCall(w, e, AllCode(w.l, w.p.maps, args, stack, n).value.t, env, ci, ct);
    } else if e.fname.MessageFn? || e.args == [] {
      JoinNoArg(w, e, env, ci, ct);
    } else {
      SimExpr(w, e.args[0], stack, n, env, ci, ct);
      JoinOneArg(w, e, CodeOf(w, e.args[0], stack, n).t, env, ci, ct);
    }
  }

  /** The arguments that both executions evaluate. */
  function CallArguments(w: World, e: Expr): seq<Expr>
    requires e.Call? && e.fname.PlainFn? && w.l.functions(e.fname.id).Some?
  {
    Evaluated(w.p, e.args, Some(w.l.functions(e.fname.id).value.arity))
  }

  lemma CallParts(w: World, e: Expr, stack: seq<nat>, n: nat)
    requires w.p.rules.Emitted? && e.Call? && e.fname.PlainFn? && CallCode(w.l, w.p.maps, e, stack, n).Some?
    ensures w.l.functions(e.fname.id).Some?
    ensures var args := CallArguments(w, e);
            && AllCode(w.l, w.p.maps, args, stack, n).Some?
            && CallCode(w.l, w.p.maps, e, stack, n).value.t == TCallFn(e.fname.id, AllCode(w.l, w.p.maps, args, stack, n).value.t)
  {
  }

  lemma NoArgIs(w: World, e: Expr, c: Ctx)
    requires e.Call? && !e.fname.PlainFn? && (e.fname.MessageFn? || e.args == [])
    ensures Eval(w.l, w.p, e, c) == Out(if e.fname.Meta? then MetaAll(c) else w.l.ctxFn(e.fname, ViewOf(c), Null), c)
  {
    hide MetaOnly, Kept, MetaAll;
    assert Eval(w.l, w.p, e, c) == EvalCall(w.l, w.p, e, c);
    hide Eval;
  }

  lemma MetaAllIs(w: World, env: Env, c: Ctx)
    ensures Exec(w.l, w.g, w.ord, TMetaAll, env, c) == Out(MetaAll(c), c)
  {
    hide MetaOnly, Kept, MetaAll;
  }

  lemma JoinNoArg(w: World, e: Expr, env: Env, ci: Ctx, ct: Ctx)
    requires e.Call? && !e.fname.PlainFn? && (e.fname.MessageFn? || e.args == []) && Related(ci, ct)
    ensures Sim(w, e, if e.fname.Meta? then TMetaAll else TCtxFn(e.fname, TLit(Null)), env, ci, ct)
  {
    hide Eval, Exec, MetaAll;
    NoArgIs(w, e, ci);
    if e.fname.Meta? {
      MetaAllIs(w, env, ct);
      MetaSeen(ci, ct, Null);
    } else {
      OneOperandIs(w, TCtxFn(e.fname, TLit(Null)), TLit(Null), env, ct);
      LitIs(w, Null, env, ct);
    }
  }

  /** Metadata reads see the ambient part of a context alone. */
  lemma MetaSeen(c: Ctx, d: Ctx, key: Value)
    requires c.amb == d.amb
    ensures MetaGet(c, key) == MetaGet(d, key) && MetaAll(c) == MetaAll(d)
  {
    hide MetaOnly, Kept;
  }

  lemma OneArgIs(w: World, e: Expr, c: Ctx)
    requires e.Call? && (e.fname.Meta? || e.fname.MessageArgFn?) && e.args != []
    ensures var k := Eval(w.l, w.p, e.args[0], c);
            Eval(w.l, w.p, e, c) ==
            if k.r.Err? then k
            else if e.fname.Meta? then Out(MetaGet(k.c, k.r.v), k.c)
            else Out(w.l.ctxFn(e.fname, ViewOf(k.c), k.r.v), k.c)
  {
    hide MetaOnly, Kept;
    assert Eval(w.l, w.p, e, c) == EvalCall(w.l, w.p, e, c);
    hide Eval, MetaGet;
  }

  predicate OneOperand(t: TExpr, x: TExpr) {
    match t
    case TGetField(y, _) => x == y
    case TNot(y) => x == y
    case TNegate(y) => x == y
    case TMetaKey(y) => x == y
    case TCtxFn(_, y) => x == y
    case TCoerce(_, y) => x == y
    case _ => false
  }

  lemma OneOperandIs(w: World, t: TExpr, x: TExpr, env: Env, c: Ctx)
    requires OneOperand(t, x)
    ensures x < t && Exec(w.l, w.g, w.ord, t, env, c) == ExecUnary(w.l, w.g, w.ord, t, x, env, c)
  {
    hide ExecUnary, MetaOnly, Unary;
    match t
    case TGetField(y, _) =>
    case TNot(y) =>
    case TNegate(y) =>
    case TMetaKey(y) =>
    case TCtxFn(_, y) =>
    case TCoerce(_, y) =>
  }

  lemma JoinOneArg(w: World, e: Expr, t: TExpr, env: Env, ci: Ctx, ct: Ctx)
    requires e.Call? && (e.fname.Meta? || e.fname.MessageArgFn?) && e.args != [] && Related(ci, ct)
    requires Sim(w, e.args[0], t, env, ci, ct)
    ensures Sim(w, e, if e.fname.Meta? then TMetaKey(t) else TCtxFn(e.fname, t), env, ci, ct)
  {
    hide Eval, Exec, MetaGet;
    OneArgIs(w, e, ci);
    OneOperandIs(w, if e.fname.Meta? then TMetaKey(t) else TCtxFn(e.fname, t), t, env, ct);
    var a, b := Eval(w.l, w.p, e.args[0], ci), Exec(w.l, w.g, w.ord, t, env, ct);
    assert ViewOf(a.c) == ViewOf(b.c);
    if a.r.Ok? { MetaSeen(a.c, b.c, a.r.v); }
  }

  lemma JoinFnCall(w: World, e: Expr, ts: seq<TExpr>, env: Env, ci: Ctx, ct: Ctx)
    requires e.Call? && e.fname.PlainFn?
    requires w.l.functions(e.fname.id).Some?
    requires Settled(w.g, w.ord)
    requires SameAll(EvalArgs(w.l, w.p, CallArguments(w, e), ci), ExecArgs(w.l, w.g, w.ord, LeftToRight, ts, env, ct))
    ensures Sim(w, e, TCallFn(e.fname.id, ts), env, ci, ct)
  {
    hide Settled;
    assert Eval(w.l, w.p, e, ci) == EvalCall(w.l, w.p, e, ci);
    ArgsInOrder(w.l, w.g, w.ord, e.fname.id, ts, env, ct);
  }

  // ---- methods ----------------------------------------------------------------------------

  lemma {:induction false} SimMethod(w: World, e: Expr, stack: seq<nat>, n: nat, env: Env, ci: Ctx, ct: Ctx)
    requires Compiled(w) && Pre(w, e, stack, n, env, ci, ct) && e.Method?
    ensures Sim(w, e, CodeOf(w, e, stack, n).t, env, ci, ct)
    decreases 4 * Room(ci) + 1, e, 4, 0
  {
    hide Eval, Exec, Compiled;
    var a := CodeOf(w, e.target, stack, n);
    SimExpr(w, e.target, stack, n, env, ci, ct);
    if LazyTarget(e.mname) {
      SimLazy(w, e, a.t, stack, a.n, env, ci, ct);
    } else {
      SimNamed(w, e, a.t, stack, a.n, env, ci, ct);
    }
  }

  /** A target bound to `t_` first, or written where the call needs it. */
  lemma {:induction false} SimNamed(w: World, e: Expr, t: TExpr, stack: seq<nat>, n: nat, env: Env, ci: Ctx, ct: Ctx)
    requires Compiled(w) && e.Method? && !LazyTarget(e.mname)
    requires Scope(stack, env, ci.thisV) && Related(ci, ct) && Sim(w, e.target, t, env, ci, ct)
    requires MethodCode(w.l, w.p.maps, e, if Named(e.target) then TTemp else t, stack, n).Some?
    ensures var code := MethodCode(w.l, w.p.maps, e, if Named(e.target) then TTemp else t, stack, n).value.t;
            Sim(w, e, if Named(e.target) then TLet(t, code) else code, env, ci, ct)
    decreases 4 * Room(ci) + 1, e, 3, 2
  {
    hide Compiled;
    var oi, ot := Eval(w.l, w.p, e.target, ci), Exec(w.l, w.g, w.ord, t, env, ct);
    if !Named(e.target) {
      SimEager(w, e, t, stack, n, env, oi, ci, ct);
      JoinInline(w, e, MethodCode(w.l, w.p.maps, e, t, stack, n).value.t, env, ci, ct);
    } else {
      var code := MethodCode(w.l, w.p.maps, e, TTemp, stack, n).value.t;
      if oi.r.Ok? {
        SimEager(w, e, TTemp, stack, n, env.(temp := Some(oi.r.v)), Out(oi.r, oi.c), oi.c, ot.c);
      }
      JoinLet(w, e, t, code, env, ci, ct);
    }
  }

  /** A method that takes its target evaluated. */
  lemma EagerIs(w: World, e: Expr, c: Ctx)
    requires e.Method? && !LazyTarget(e.mname)
    ensures var o := Eval(w.l, w.p, e.target, c);
            Eval(w.l, w.p, e, c) == if o.r.Err? then o else EvalEager(w.l, w.p, e, o.r.v, o.c)
  {
    hide MetaOnly, Kept;
    assert Eval(w.l, w.p, e, c) == EvalMethod(w.l, w.p, e, c);
    hide Eval, EvalEager;
  }

  lemma JoinInline(w: World, e: Expr, code: TExpr, env: Env, ci: Ctx, ct: Ctx)
    requires e.Method? && !LazyTarget(e.mname)
    requires var o := Eval(w.l, w.p, e.target, ci);
             Same(if o.r.Err? then o else EvalEager(w.l, w.p, e, o.r.v, o.c), Exec(w.l, w.g, w.ord, code, env, ct))
    ensures Sim(w, e, code, env, ci, ct)
  {
    hide Eval, Exec, EvalEager;
    EagerIs(w, e, ci);
  }

  lemma LetIs(w: World, t: TExpr, env: Env, c: Ctx)
    requires t.TLet?
    ensures Exec(w.l, w.g, w.ord, t, env, c) == ExecLet(w.l, w.g, w.ord, t, env, c)
  {
    hide ExecLet;
  }

  lemma JoinLet(w: World, e: Expr, t: TExpr, code: TExpr, env: Env, ci: Ctx, ct: Ctx)
    requires e.Method? && !LazyTarget(e.mname) && Sim(w, e.target, t, env, ci, ct)
    requires var oi, ot := Eval(w.l, w.p, e.target, ci), Exec(w.l, w.g, w.ord, t, env, ct);
             oi.r.Ok? ==> Same(EvalEager(w.l, w.p, e, oi.r.v, oi.c),
                               Exec(w.l, w.g, w.ord, code, env.(temp := Some(oi.r.v)), ot.c))
    ensures Sim(w, e, TLet(t, code), env, ci, ct)
  {
    hide Eval, Exec, EvalEager;
    EagerIs(w, e, ci);
    LetIs(w, TLet(t, code), env, ct);
  }

  /** A method on a target whose outcome `oi` the target code `t` reproduces. */
  lemma {:induction false} SimEager(w: World, e: Expr, t: TExpr, stack: seq<nat>, n: nat, env: Env, oi: Out, ci: Ctx, ct: Ctx)
    requires Compiled(w) && e.Method? && !LazyTarget(e.mname)
    requires Scope(stack, env, ci.thisV) && Related(ci, ct) && Kept(w.p, ci, oi.c)
    requires Same(oi, Exec(w.l, w.g, w.ord, t, env, ct))
    requires MethodCode(w.l, w.p.maps, e, t, stack, n).Some?
    ensures Same(if oi.r.Err? then oi else EvalEager(w.l, w.p, e, oi.r.v, oi.c),
                 Exec(w.l, w.g, w.ord, MethodCode(w.l, w.p.maps, e, t, stack, n).value.t, env, ct))
    decreases 4 * Room(ci) + 1, e, 3, 1
  {
    hide Eval, Exec, Compiled;
    var lm := FindLambdaMethod(e.mname);
    if lm.Some? && |e.args| > lm.value.leading {
      SimLambda(w, e, t, lm.value.leading, stack, n, env, oi, ci, ct);
    } else if e.mname.ApplyMethod? {
      SimApply(w, e, t, FindMap(w.p.maps, e.args[0].v.Text()).value, env, oi, ci, ct);
    } else {
      SimTable(w, e, t, stack, n, env, oi, ci, ct);
    }
  }

  /** The arguments of a table-driven method that both executions evaluate. */
  function MethodArguments(w: World, e: Expr): seq<Expr>
    requires e.Method?
  {
    Evaluated(w.p, e.args, ArityOf(w.l, e.mname))
  }

  /** Either there is no surplus argument, or the rules drop it as the emitter does. */
  lemma TableCode(w: World, e: Expr, t: TExpr, stack: seq<nat>, n: nat)
    requires w.p.rules.Emitted? && e.Method? && !LazyTarget(e.mname) && !e.mname.ApplyMethod?
    requires FindLambdaMethod(e.mname).None? || |e.args| <= FindLambdaMethod(e.mname).value.leading
    requires MethodCode(w.l, w.p.maps, e, t, stack, n).Some?
    ensures var args := MethodArguments(w, e);
            && FindMethod(w.l, e.mname).Some? && AllCode(w.l, w.p.maps, args, stack, n).Some?
            && (FindLambdaMethod(e.mname).None? || (FindLambdaMethod(e.mname).value.optional && e.args == []))
            && MethodCode(w.l, w.p.maps, e, t, stack, n).value.t ==
               TMethod(e.mname, t, AllCode(w.l, w.p.maps, args, stack, n).value.t)
  {
  }

  lemma {:induction false} SimTable(w: World, e: Expr, t: TExpr, stack: seq<nat>, n: nat, env: Env, oi: Out, ci: Ctx, ct: Ctx)
    requires Compiled(w) && e.Method? && !LazyTarget(e.mname) && !e.mname.ApplyMethod?
    requires FindLambdaMethod(e.mname).None? || |e.args| <= FindLambdaMethod(e.mname).value.leading
    requires Scope(stack, env, ci.thisV) && Related(ci, ct) && Kept(w.p, ci, oi.c)
    requires Same(oi, Exec(w.l, w.g, w.ord, t, env, ct))
    requires MethodCode(w.l, w.p.maps, e, t, stack, n).Some?
    ensures Same(if oi.r.Err? then oi else EvalEager(w.l, w.p, e, oi.r.v, oi.c),
                 Exec(w.l, w.g, w.ord, MethodCode(w.l, w.p.maps, e, t, stack, n).value.t, env, ct))
    decreases 4 * Room(ci) + 1, e, 3, 0
  {
    hide Eval, Exec;
    TableCode(w, e, t, stack, n);
    var args := MethodArguments(w, e);
    SimArgs(w, args, stack, n, env, oi.c, Exec(w.l, w.g, w.ord, t, env, ct).c);
    JoinTable(w, e, TMethod(e.mname, t, AllCode(w.l, w.p.maps, args, stack, n).value.t), env, oi, ct);
  }

  /** A call's target and arguments, whichever order they ran in. */
  lemma JoinCall(w: World, t: TExpr, braced: bool, args: seq<Expr>, env: Env, oi: Out, ct: Ctx)
    requires (t.TMethod? || t.TLambdaVar? || t.TLambdaThis?) && Settled(w.g, w.ord)
    requires Same(oi, Exec(w.l, w.g, w.ord, t.t, env, ct))
    requires SameAll(EvalArgs(w.l, w.p, args, oi.c),
                     ExecArgs(w.l, w.g, w.ord, LeftToRight, CallArgs(t), env, Exec(w.l, w.g, w.ord, t.t, env, ct).c))
    ensures var a, o := EvalArgs(w.l, w.p, args, oi.c), ExecCall(w.l, w.g, w.ord, braced, t, env, ct);
            && o.r == (if oi.r.Ok? && a.r.Some? then Some([oi.r.v] + a.r.value) else None)
            && o.c.meta == (if oi.r.Err? then oi.c.meta else a.c.meta)
  {
    hide Eval, Exec, EvalArgs, ExecArgs, Settled, ExecCall;
    CallInOrder(w.l, w.g, w.ord, braced, t, env, ct);
  }

  lemma JoinTable(w: World, e: Expr, t: TExpr, env: Env, oi: Out, ct: Ctx)
    requires e.Method? && t.TMethod? && t.mname == e.mname && FindMethod(w.l, e.mname).Some?
    requires FindLambdaMethod(e.mname).None? || (FindLambdaMethod(e.mname).value.optional && e.args == [])
    requires Settled(w.g, w.ord) && Same(oi, Exec(w.l, w.g, w.ord, t.t, env, ct))
    requires SameAll(EvalArgs(w.l, w.p, MethodArguments(w, e), oi.c),
                     ExecArgs(w.l, w.g, w.ord, LeftToRight, t.args, env, Exec(w.l, w.g, w.ord, t.t, env, ct).c))
    ensures Same(if oi.r.Err? then oi else EvalEager(w.l, w.p, e, oi.r.v, oi.c), Exec(w.l, w.g, w.ord, t, env, ct))
  {
    hide Eval, Exec, EvalArgs, ExecArgs, ExecCall, Settled, EvalEager, Invoke;
    var d := FindMethod(w.l, e.mname).value;
    JoinCall(w, t, d.arity.None?, MethodArguments(w, e), env, oi, ct);
    TableIs(w, t, env, ct);
    if oi.r.Ok? {
      EagerTableIs(w, e, oi.r.v, oi.c);
      var a := EvalArgs(w.l, w.p, MethodArguments(w, e), oi.c);
      if a.r.Some? { assert ([oi.r.v] + a.r.value)[1..] == a.r.value; }
    }
  }

  lemma TableIs(w: World, t: TExpr, env: Env, c: Ctx)
    requires t.TMethod?
    ensures Exec(w.l, w.g, w.ord, t, env, c) == ExecMethod(w.l, w.g, w.ord, t, env, c)
  {
    hide MetaOnly, Kept;
    hide ExecMap, ExecMethod, ExecLambda, ExecFrom, ExecFromAll, ExecCoerceOr, ExecArms, ExecFields, ExecItems;
    hide ExecArgs, ExecTurns, ExecPair, ShortCircuit, ScopedVar;
  }

  lemma EagerTableIs(w: World, e: Expr, v: Value, c: Ctx)
    requires e.Method? && FindMethod(w.l, e.mname).Some?
    requires FindLambdaMethod(e.mname).None? || (FindLambdaMethod(e.mname).value.optional && e.args == [])
    ensures var a := EvalArgs(w.l, w.p, MethodArguments(w, e), c);
            EvalEager(w.l, w.p, e, v, c) ==
            Out(if a.r.None? then Err else Invoke(FindMethod(w.l, e.mname).value, v, a.r.value), a.c)
  {
    hide Eval, EvalArgs, Invoke;
  }

  // ---- lambda-taking methods ----------------------------------------------------------------

  lemma {:induction false} SimLambda(w: World, e: Expr, t: TExpr, qi: nat, stack: seq<nat>, n: nat, env: Env, oi: Out, ci: Ctx, ct: Ctx)
    requires Compiled(w) && e.Method? && FindLambdaMethod(e.mname).Some? && qi == FindLambdaMethod(e.mname).value.leading < |e.args|
    requires Scope(stack, env, ci.thisV) && Related(ci, ct) && Kept(w.p, ci, oi.c)
    requires Same(oi, Exec(w.l, w.g, w.ord, t, env, ct))
    requires LambdaCode(w.l, w.p.maps, e, t, qi, stack, n).Some?
    ensures Same(if oi.r.Err? then oi else EvalEager(w.l, w.p, e, oi.r.v, oi.c),
                 Exec(w.l, w.g, w.ord, LambdaCode(w.l, w.p.maps, e, t, qi, stack, n).value.t, env, ct))
    decreases 4 * Room(ci) + 1, e, 2, 1
  {
    hide Eval, Exec, EvalArgs, EvalEager, ExecCall, ExecArgs, ExecDrive, DriveOf, LambdaCode, AllCode, Code;
    LambdaParts(w, e, t, qi, stack, n);
    var code := LambdaCode(w.l, w.p.maps, e, t, qi, stack, n).value.t;
    var lead := AllCode(w.l, w.p.maps, e.args[..qi], stack, n).value;
    SimArgs(w, e.args[..qi], stack, n, env, oi.c, Exec(w.l, w.g, w.ord, t, env, ct).c);
    JoinCall(w, code, false, e.args[..qi], env, oi, ct);
    if oi.r.Ok? {
      var a, b := EvalArgs(w.l, w.p, e.args[..qi], oi.c), ExecCall(w.l, w.g, w.ord, false, code, env, ct);
      if a.r.Some? { SimDrive(w, e, qi, code, stack, lead.n, env, oi.r.v, InitOf(a.r.value), a.c, b.c); }
    }
    JoinLambda(w, e, code, qi, env, oi, ct);
  }

  function InitOf(lead: seq<Value>): Value { if lead == [] then Null else lead[0] }

  function DriveOf(w: World, e: Expr, q: Expr, target: Value, init: Value, c: Ctx): Out
    requires e.Method?
  {
    if q.Lambda? then DriveVar(w.l, w.p, e.mname, target, init, q, [], c)
    else DriveThis(w.l, w.p, e.mname, target, init, q, [], c)
  }

  /** The pieces of an emitted lambda method. */
  lemma LambdaParts(w: World, e: Expr, t: TExpr, qi: nat, stack: seq<nat>, n: nat)
    requires e.Method? && qi < |e.args|
    requires LambdaCode(w.l, w.p.maps, e, t, qi, stack, n).Some?
    ensures AllCode(w.l, w.p.maps, e.args[..qi], stack, n).Some?
    ensures var lead := AllCode(w.l, w.p.maps, e.args[..qi], stack, n).value;
            var code := LambdaCode(w.l, w.p.maps, e, t, qi, stack, n).value.t;
            var q := e.args[qi];
            if q.Lambda? then
              && Code(w.l, w.p.maps, q.body, stack, lead.n).Some?
              && code == TLambdaVar(e.mname, t, lead.t, q.param, CodeOf(w, q.body, stack, lead.n).t)
            else
              && Code(w.l, w.p.maps, q, stack + [lead.n + 1], lead.n + 1).Some?
              && code == TLambdaThis(e.mname, t, lead.t, lead.n + 1, CodeOf(w, q, stack + [lead.n + 1], lead.n + 1).t)
  {
  }

  lemma {:induction false} SimDrive(w: World, e: Expr, qi: nat, code: TExpr, stack: seq<nat>, n: nat, env: Env, target: Value, init: Value, ci: Ctx, ct: Ctx)
    requires Compiled(w) && e.Method? && qi < |e.args|
    requires Scope(stack, env, ci.thisV) && Related(ci, ct)
    requires var q := e.args[qi];
             if q.Lambda? then
               && Code(w.l, w.p.maps, q.body, stack, n).Some?
               && code.TLambdaVar? && code.mname == e.mname && code.param == q.param && code.body == CodeOf(w, q.body, stack, n).t
             else
               && Code(w.l, w.p.maps, q, stack + [n + 1], n + 1).Some?
               && code.TLambdaThis? && code.mname == e.mname && code.n == n + 1
               && code.body == CodeOf(w, q, stack + [n + 1], n + 1).t
    ensures Same(DriveOf(w, e, e.args[qi], target, init, ci),
                 ExecDrive(w.l, w.g, w.ord, code, target, init, [], env, ct))
    decreases 4 * Room(ci) + 1, e, 2, 0
  {
    hide Eval, Exec, Compiled;
    var q := e.args[qi];
    if q.Lambda? {
      SimDriveVar(w, q, code, target, init, [], stack, n, env, ci, ct);
    } else {
      SimDriveThis(w, q, code, target, init, [], stack, n, env, ci, ct);
    }
  }

  lemma JoinLambda(w: World, e: Expr, t: TExpr, qi: nat, env: Env, oi: Out, ct: Ctx)
    requires e.Method? && FindLambdaMethod(e.mname).Some? && qi == FindLambdaMethod(e.mname).value.leading < |e.args|
    requires t.TLambdaVar? || t.TLambdaThis?
    requires var a, o := EvalArgs(w.l, w.p, e.args[..qi], oi.c), ExecCall(w.l, w.g, w.ord, false, t, env, ct);
             && o.r == (if oi.r.Ok? && a.r.Some? then Some([oi.r.v] + a.r.value) else None)
             && o.c.meta == (if oi.r.Err? then oi.c.meta else a.c.meta)
             && (oi.r.Ok? && a.r.Some? ==>
                   Same(DriveOf(w, e, e.args[qi], oi.r.v, InitOf(a.r.value), a.c),
                        ExecDrive(w.l, w.g, w.ord, t, oi.r.v, InitOf(a.r.value), [], env, o.c)))
    ensures Same(if oi.r.Err? then oi else EvalEager(w.l, w.p, e, oi.r.v, oi.c), Exec(w.l, w.g, w.ord, t, env, ct))
  {
    hide Eval, Exec, EvalEager, EvalLambdaMethod, ExecCall, ExecDrive, DriveOf, EvalArgs;
    LambdaIs(w, t, env, ct);
    if oi.r.Ok? {
      EagerLambdaIs(w, e, oi.r.v, oi.c);
      LambdaIsDrive(w, e, qi, oi.r.v, oi.c);
    }
  }

  lemma LambdaIs(w: World, t: TExpr, env: Env, c: Ctx)
    requires t.TLambdaVar? || t.TLambdaThis?
    ensures Exec(w.l, w.g, w.ord, t, env, c) == ExecLambda(w.l, w.g, w.ord, t, env, c)
  {
    hide MetaOnly, Kept;
    hide ExecMap, ExecMethod, ExecLambda, ExecFrom, ExecFromAll, ExecCoerceOr, ExecArms, ExecFields, ExecItems;
    hide ExecArgs, ExecTurns, ExecPair, ShortCircuit, ScopedVar;
  }

  lemma EagerLambdaIs(w: World, e: Expr, target: Value, c: Ctx)
    requires e.Method? && FindLambdaMethod(e.mname).Some? && FindLambdaMethod(e.mname).value.leading < |e.args|
    ensures EvalEager(w.l, w.p, e, target, c) == EvalLambdaMethod(w.l, w.p, e, target, c)
  {
  }

  /** A lambda method evaluates its leading argument and runs its loop. */
  lemma LambdaIsDrive(w: World, e: Expr, qi: nat, target: Value, c: Ctx)
    requires e.Method? && FindLambdaMethod(e.mname).Some? && qi == FindLambdaMethod(e.mname).value.leading < |e.args|
    ensures var a, o := EvalArgs(w.l, w.p, e.args[..qi], c), EvalLambdaMethod(w.l, w.p, e, target, c);
            if a.r.None? then o.r.Err? && o.c.meta == a.c.meta
            else Same(DriveOf(w, e, e.args[qi], target, InitOf(a.r.value), a.c), o)
  {
    LeadingArgs(w, e.args, qi, c);
  }

  /** At most one leading argument: evaluating the list is evaluating it. */
  lemma LeadingArgs(w: World, args: seq<Expr>, qi: nat, c: Ctx)
    requires qi <= 1 && qi < |args|
    ensures var a := EvalArgs(w.l, w.p, args[..qi], c);
            if qi == 0 then a == Outs(Some([]), c)
            else var o := Eval(w.l, w.p, args[0], c); a == Outs(if o.r.Ok? then Some([o.r.v]) else None, o.c)
  {
    if qi == 1 {
      assert args[..1][0] == args[0];
      assert args[..1][1..] == [];
      var o := Eval(w.l, w.p, args[0], c);
      if o.r.Ok? {
        assert EvalArgs(w.l, w.p, args[..1][1..], o.c) == Outs(Some([]), o.c);
        assert [o.r.v] + [] == [o.r.v];
      }
    }
  }

  // The loops of lambda methods, one element at a time.

  lemma VarStep(l: Lib, p: Mapping, name: MethodName, t: Value, init: Value, q: Expr, hist: seq<Value>, c: Ctx)
    requires q.Lambda?
    ensures var step := l.lambdaStep(name, t, init, hist);
            DriveVar(l, p, name, t, init, q, hist, c) ==
            if step.Done? then Out(step.r, c)
            else if Calls(l, name, t, init, hist) == 0 then Out(Err, c)
            else
              var o := Eval(l, p, q.body, c.(vars := c.vars[q.param := step.elem]));
              if o.r.Err? then o else DriveVar(l, p, name, t, init, q, hist + [o.r.v], o.c)
  {
    hide Eval;
  }

  lemma ThisStep(l: Lib, p: Mapping, name: MethodName, t: Value, init: Value, q: Expr, hist: seq<Value>, c: Ctx)
    ensures var step := l.lambdaStep(name, t, init, hist);
            DriveThis(l, p, name, t, init, q, hist, c) ==
            if step.Done? then Out(step.r, c)
            else if Calls(l, name, t, init, hist) == 0 then Out(Err, c)
            else
              var o := Eval(l, p, q, c.(thisV := Some(step.elem)));
              if o.r.Err? then o else DriveThis(l, p, name, t, init, q, hist + [o.r.v], o.c)
  {
    hide Eval;
  }

  lemma DriveStep(w: World, t: TExpr, target: Value, init: Value, hist: seq<Value>, env: Env, c: Ctx)
    requires t.TLambdaVar? || t.TLambdaThis?
    ensures var step := w.l.lambdaStep(t.mname, target, init, hist);
            ExecDrive(w.l, w.g, w.ord, t, target, init, hist, env, c) ==
            if step.Done? then Out(step.r, c)
            else if Calls(w.l, t.mname, target, init, hist) == 0 then Out(Err, c)
            else
              var o := if t.TLambdaVar? then ScopedVar(w.l, w.g, w.ord, t, t.param, step.elem, env, c)
                       else Exec(w.l, w.g, w.ord, t.body, env.(locals := env.locals[t.n := step.elem]), c);
              if o.r.Err? then o else ExecDrive(w.l, w.g, w.ord, t, target, init, hist + [o.r.v], env, o.c)
  {
    hide Exec, ScopedVar, MetaOnly;
  }

  /** The parameter stays bound between elements in the interpreter and is restored after
      each one in generated code; the bodies cannot tell. */
  lemma {:induction false} SimDriveVar(w: World, q: Expr, t: TExpr, target: Value, init: Value, hist: seq<Value>,
                                       stack: seq<nat>, n: nat, env: Env, ci: Ctx, ct: Ctx)
    requires Compiled(w) && q.Lambda? && Code(w.l, w.p.maps, q.body, stack, n).Some?
    requires t.TLambdaVar? && t.param == q.param && t.body == CodeOf(w, q.body, stack, n).t
    requires Scope(stack, env, ci.thisV)
    requires ct == ci.(thisV := ct.thisV, vars := ct.vars) && SameExcept(ci.vars, ct.vars, q.param)
    ensures Same(DriveVar(w.l, w.p, t.mname, target, init, q, hist, ci),
                 ExecDrive(w.l, w.g, w.ord, t, target, init, hist, env, ct))
    decreases 4 * Room(ci) + 1, q, 0, Calls(w.l, t.mname, target, init, hist)
  {
    hide Eval, Exec, Compiled, DriveVar, ExecDrive, ScopedVar;
    VarStep(w.l, w.p, t.mname, target, init, q, hist, ci);
    DriveStep(w, t, target, init, hist, env, ct);
    var step := w.l.lambdaStep(t.mname, target, init, hist);
    if step.Ask? && Calls(w.l, t.mname, target, init, hist) > 0 {
      var bi, bt := ci.(vars := ci.vars[q.param := step.elem]), ct.(vars := ct.vars[q.param := step.elem]);
      BindSame(ci.vars, ct.vars, q.param, step.elem);
      SimExpr(w, q.body, stack, n, env, bi, bt);
      var oi := Eval(w.l, w.p, q.body, bi);
      var ot := ScopedVar(w.l, w.g, w.ord, t, t.param, step.elem, env, ct);
      ScopedIs(w, t, step.elem, env, ct);
      if oi.r.Ok? {
        assert SameExcept(ci.vars[q.param := step.elem], ci.vars, q.param);
        SimDriveVar(w, q, t, target, init, hist + [oi.r.v], stack, n, env, oi.c, ot.c);
      }
    }
  }

  lemma ScopedIs(w: World, t: TExpr, v: Value, env: Env, c: Ctx)
    requires t.TCatchVar? || t.TLambdaVar?
    ensures var o := Exec(w.l, w.g, w.ord, t.body, env, c.(vars := c.vars[t.param := v]));
            ScopedVar(w.l, w.g, w.ord, t, t.param, v, env, c) == Out(o.r, c.(meta := o.c.meta))
  {
    RestoreUndoes(c.vars[t.param := v], c.vars, t.param);
  }

  lemma {:induction false} SimDriveThis(w: World, q: Expr, t: TExpr, target: Value, init: Value, hist: seq<Value>,
                                        stack: seq<nat>, n: nat, env: Env, ci: Ctx, ct: Ctx)
    requires Compiled(w) && Code(w.l, w.p.maps, q, stack + [n + 1], n + 1).Some?
    requires t.TLambdaThis? && t.n == n + 1 && t.body == CodeOf(w, q, stack + [n + 1], n + 1).t
    requires Related(ci, ct)
    ensures Same(DriveThis(w.l, w.p, t.mname, target, init, q, hist, ci),
                 ExecDrive(w.l, w.g, w.ord, t, target, init, hist, env, ct))
    decreases 4 * Room(ci) + 1, q, 6, Calls(w.l, t.mname, target, init, hist)
  {
    hide Eval, Exec, Compiled, DriveThis, ExecDrive;
    ThisStep(w.l, w.p, t.mname, target, init, q, hist, ci);
    DriveStep(w, t, target, init, hist, env, ct);
    var step := w.l.lambdaStep(t.mname, target, init, hist);
    if step.Ask? && Calls(w.l, t.mname, target, init, hist) > 0 {
      var inner := env.(locals := env.locals[n + 1 := step.elem]);
      SimExpr(w, q, stack + [n + 1], n + 1, inner, ci.(thisV := Some(step.elem)), ct);
      var oi := Eval(w.l, w.p, q, ci.(thisV := Some(step.elem)));
      var ot := Exec(w.l, w.g, w.ord, t.body, inner, ct);
      if oi.r.Ok? {
        SimDriveThis(w, q, t, target, init, hist + [oi.r.v], stack, n, env, oi.c, ot.c);
      }
    }
  }

  // ---- methods that take their target unevaluated -----------------------------------------------

  lemma {:induction false} SimLazy(w: World, e: Expr, t: TExpr, stack: seq<nat>, n: nat, env: Env, ci: Ctx, ct: Ctx)
    requires Compiled(w) && e.Method? && LazyTarget(e.mname)
    requires Scope(stack, env, ci.thisV) && Related(ci, ct) && Sim(w, e.target, t, env, ci, ct)
    requires MethodCode(w.l, w.p.maps, e, t, stack, n).Some?
    ensures Sim(w, e, MethodCode(w.l, w.p.maps, e, t, stack, n).value.t, env, ci, ct)
    decreases 4 * Room(ci) + 1, e, 3, 2
  {
    hide Eval, Exec, Compiled;
    Emits(w);
    if e.mname.FromAll? {
      SimFromAll(w, e, stack, n, env, ci, ct);
    } else if e.mname.From? {
      SimFrom(w, e, stack, n, env, ci, ct);
    } else if e.mname.Catch? {
      if e.args == [] { JoinBareCatch(w, e, t, env, ci, ct); } else { SimCatch(w, e, t, stack, n, env, ci, ct); }
    } else if e.args == [] {
      JoinNoDefault(w, e, t, env, ci, ct);
    } else {
      var oi, ot := Eval(w.l, w.p, e.target, ci), Exec(w.l, w.g, w.ord, t, env, ct);
      SimExpr(w, e.args[0], stack, n, env, oi.c, ot.c);
      JoinDefault(w, e, t, CodeOf(w, e.args[0], stack, n).t, env, ci, ct);
    }
  }

  /** Emitted code for `catch()` is the target; so it is by the emitted rules. */
  lemma JoinBareCatch(w: World, e: Expr, t: TExpr, env: Env, ci: Ctx, ct: Ctx)
    requires e.Method? && e.mname.Catch? && e.args == [] && w.p.rules.Emitted?
    requires Sim(w, e.target, t, env, ci, ct)
    ensures Sim(w, e, t, env, ci, ct)
  {
    assert Eval(w.l, w.p, e, ci) == EvalMethod(w.l, w.p, e, ci);
  }

  /** `number`, `bool` and `or`, with or without a default. */
  lemma DefaultIs(w: World, e: Expr, c: Ctx)
    requires e.Method? && (e.mname.Number? || e.mname.ToBool? || e.mname.Or?)
    ensures var t := Eval(w.l, w.p, e.target, c);
            var r := if e.mname.Or? then t.r else Coerce(w.l, e.mname, t.r);
            Eval(w.l, w.p, e, c) ==
            if (if e.mname.Or? then Present(t.r) else r.Ok?) then Out(r, t.c)
            else if e.args == [] then Out(if e.mname.Or? then Ok(Null) else r, t.c)
            else
              var d := Eval(w.l, w.p, e.args[0], t.c);
              if e.mname.Or? then d else Out(Coerce(w.l, e.mname, d.r), d.c)
  {
    hide MetaOnly, Kept;
    assert Eval(w.l, w.p, e, c) == EvalMethod(w.l, w.p, e, c);
    hide Eval, Coerce;
  }

  lemma CoerceOrNode(w: World, t: TExpr, env: Env, c: Ctx)
    requires t.TCoerceOr?
    ensures Exec(w.l, w.g, w.ord, t, env, c) == ExecCoerceOr(w.l, w.g, w.ord, t, env, c)
  {
    hide MetaOnly, Kept;
    hide ExecMap, ExecMethod, ExecLambda, ExecFrom, ExecFromAll, ExecCoerceOr, ExecArms, ExecFields, ExecItems;
    hide ExecArgs, ExecTurns, ExecPair, ShortCircuit, ScopedVar;
  }

  lemma CoerceOrIs(w: World, m: MethodName, t: TExpr, d: TExpr, env: Env, c: Ctx)
    ensures var o := Exec(w.l, w.g, w.ord, t, env, c);
            var r, x := Coerce(w.l, m, o.r), Exec(w.l, w.g, w.ord, d, env, o.c);
            Exec(w.l, w.g, w.ord, TCoerceOr(m, t, d), env, c) ==
            if r.Ok? then Out(r, o.c) else Out(Coerce(w.l, m, x.r), x.c)
  {
    hide MetaOnly, Kept;
    hide Exec, Coerce;
    CoerceOrNode(w, TCoerceOr(m, t, d), env, c);
  }

  lemma JoinNoDefault(w: World, e: Expr, t: TExpr, env: Env, ci: Ctx, ct: Ctx)
    requires e.Method? && (e.mname.Number? || e.mname.ToBool? || e.mname.Or?) && e.args == []
    requires Sim(w, e.target, t, env, ci, ct)
    ensures Sim(w, e, if e.mname.Or? then TCoalesce(t, TLit(Null)) else TCoerce(e.mname, t), env, ci, ct)
  {
    hide Eval, Exec, Coerce;
    DefaultIs(w, e, ci);
    if e.mname.Or? {
      CoalesceIs(w, TCoalesce(t, TLit(Null)), env, ct);
      LitIs(w, Null, env, Exec(w.l, w.g, w.ord, t, env, ct).c);
    } else {
      OneOperandIs(w, TCoerce(e.mname, t), t, env, ct);
    }
  }

  lemma JoinDefault(w: World, e: Expr, t: TExpr, d: TExpr, env: Env, ci: Ctx, ct: Ctx)
    requires e.Method? && (e.mname.Number? || e.mname.ToBool? || e.mname.Or?) && e.args != []
    requires Sim(w, e.target, t, env, ci, ct) && SimNext(w, e.target, t, e.args[0], d, env, ci, ct)
    ensures Sim(w, e, if e.mname.Or? then TCoalesce(t, d) else TCoerceOr(e.mname, t, d), env, ci, ct)
  {
    hide Eval, Exec, Coerce;
    DefaultIs(w, e, ci);
    if e.mname.Or? { CoalesceIs(w, TCoalesce(t, d), env, ct); } else { CoerceOrIs(w, e.mname, t, d, env, ct); }
  }

  /** `catch`: the error text is the lambda's parameter, or the handler's `this`. */
  lemma {:induction false} SimCatch(w: World, e: Expr, t: TExpr, stack: seq<nat>, n: nat, env: Env, ci: Ctx, ct: Ctx)
    requires Compiled(w) && e.Method? && e.mname.Catch? && e.args != []
    requires Scope(stack, env, ci.thisV) && Related(ci, ct) && Sim(w, e.target, t, env, ci, ct)
    requires CatchCode(w.l, w.p.maps, e, t, stack, n).Some?
    ensures Sim(w, e, CatchCode(w.l, w.p.maps, e, t, stack, n).value.t, env, ci, ct)
    decreases 4 * Room(ci) + 1, e, 3, 1
  {
    hide Eval, Exec, Compiled;
    var h := e.args[0];
    var oi, ot := Eval(w.l, w.p, e.target, ci), Exec(w.l, w.g, w.ord, t, env, ct);
    if h.Lambda? {
      var b := CodeOf(w, h.body, stack, n);
      SimExpr(w, h.body, stack, n, env, oi.c.(vars := oi.c.vars[h.param := ERROR_TEXT]), ot.c.(vars := ot.c.vars[h.param := ERROR_TEXT]));
      JoinCatchVar(w, e, t, b.t, env, ci, ct);
    } else {
      var b := CodeOf(w, h, stack + [n + 1], n + 1);
      SimExpr(w, h, stack + [n + 1], n + 1, env.(locals := env.locals[n + 1 := ERROR_TEXT]), oi.c.(thisV := Some(ERROR_TEXT)), ot.c);
      JoinCatchThis(w, e, t, n + 1, b.t, env, ci, ct);
    }
  }

  lemma CatchIs(w: World, e: Expr, c: Ctx)
    requires e.Method? && e.mname.Catch? && e.args != []
    ensures var o := Eval(w.l, w.p, e.target, c);
            Eval(w.l, w.p, e, c) == if o.r.Ok? then o else EvalHandler(w.l, w.p, e, o.c)
  {
    hide MetaOnly, Kept;
    assert Eval(w.l, w.p, e, c) == EvalMethod(w.l, w.p, e, c);
    hide Eval, EvalHandler;
  }

  lemma CatchCodeIs(w: World, t: TExpr, env: Env, c: Ctx)
    requires t.TCatchVar? || t.TCatchThis?
    ensures Exec(w.l, w.g, w.ord, t, env, c) == ExecCatch(w.l, w.g, w.ord, t, env, c)
  {
    hide ExecCatch;
  }

  lemma JoinCatchVar(w: World, e: Expr, t: TExpr, b: TExpr, env: Env, ci: Ctx, ct: Ctx)
    requires e.Method? && e.mname.Catch? && e.args != [] && e.args[0].Lambda?
    requires Sim(w, e.target, t, env, ci, ct)
    requires var oi, ot := Eval(w.l, w.p, e.target, ci), Exec(w.l, w.g, w.ord, t, env, ct);
             var p := e.args[0].param;
             Sim(w, e.args[0].body, b, env, oi.c.(vars := oi.c.vars[p := ERROR_TEXT]), ot.c.(vars := ot.c.vars[p := ERROR_TEXT]))
    ensures Sim(w, e, TCatchVar(t, e.args[0].param, b), env, ci, ct)
  {
    hide Eval, Exec, EvalHandler, ScopedVar;
    var code := TCatchVar(t, e.args[0].param, b);
    CatchIs(w, e, ci);
    CatchCodeIs(w, code, env, ct);
    var oi, ot := Eval(w.l, w.p, e.target, ci), Exec(w.l, w.g, w.ord, t, env, ct);
    ScopedIs(w, code, ERROR_TEXT, env, ot.c);
    HandlerVar(w, e, oi.c);
  }

  lemma HandlerVar(w: World, e: Expr, c: Ctx)
    requires e.Method? && e.args != [] && e.args[0].Lambda?
    ensures var h := e.args[0];
            var o := Eval(w.l, w.p, h.body, c.(vars := c.vars[h.param := ERROR_TEXT]));
            var r := EvalHandler(w.l, w.p, e, c);
            r.r == o.r && r.c.meta == o.c.meta
  {
  }

  lemma HandlerThis(w: World, e: Expr, c: Ctx)
    requires e.Method? && e.args != [] && !e.args[0].Lambda?
    ensures var o := Eval(w.l, w.p, e.args[0], c.(thisV := Some(ERROR_TEXT)));
            EvalHandler(w.l, w.p, e, c) == Out(o.r, o.c.(thisV := c.thisV))
  {
    hide MetaOnly, Kept;
    hide Eval;
  }

  lemma JoinCatchThis(w: World, e: Expr, t: TExpr, n: nat, b: TExpr, env: Env, ci: Ctx, ct: Ctx)
    requires e.Method? && e.mname.Catch? && e.args != [] && !e.args[0].Lambda?
    requires Sim(w, e.target, t, env, ci, ct)
    requires var oi, ot := Eval(w.l, w.p, e.target, ci), Exec(w.l, w.g, w.ord, t, env, ct);
             Sim(w, e.args[0], b, env.(locals := env.locals[n := ERROR_TEXT]), oi.c.(thisV := Some(ERROR_TEXT)), ot.c)
    ensures Sim(w, e, TCatchThis(t, n, b), env, ci, ct)
  {
    hide Eval, Exec, EvalHandler;
    CatchIs(w, e, ci);
    CatchCodeIs(w, TCatchThis(t, n, b), env, ct);
    HandlerThis(w, e, Eval(w.l, w.p, e.target, ci).c);
  }

  lemma {:induction false} SimFrom(w: World, e: Expr, stack: seq<nat>, n: nat, env: Env, ci: Ctx, ct: Ctx)
    requires Compiled(w) && e.Method? && e.mname.From? && e.args != []
    requires Scope(stack, env, ci.thisV) && Related(ci, ct)
    requires TwoCode(w.l, w.p.maps, e, e.args[0], e.target, stack, n).Some?
    ensures var a := TwoCode(w.l, w.p.maps, e, e.args[0], e.target, stack, n).value.t;
            Sim(w, e, TFrom(a.0, a.1), env, ci, ct)
    decreases 4 * Room(ci) + 1, e, 3, 1
  {
    hide Eval, Exec, Compiled;
    var a := CodeOf(w, e.args[0], stack, n);
    var b := CodeOf(w, e.target, stack, a.n);
    SimExpr(w, e.args[0], stack, n, env, ci, ct);
    var oi, ot := Eval(w.l, w.p, e.args[0], ci), Exec(w.l, w.g, w.ord, a.t, env, ct);
    if oi.r.Ok? && AsI64(w.l.fl, oi.r.v).Some? && oi.c.amb.all.Some? {
      var i := AsI64(w.l.fl, oi.r.v).value;
      if 0 <= i < |oi.c.amb.all.value| {
        SimExpr(w, e.target, stack, a.n, env, oi.c.(amb := AtMessage(oi.c.amb, i)), ot.c.(amb := AtMessage(ot.c.amb, i)));
      }
    }
    JoinFrom(w, e, a.t, b.t, env, ci, ct);
  }

  lemma JoinFrom(w: World, e: Expr, ti: TExpr, t: TExpr, env: Env, ci: Ctx, ct: Ctx)
    requires e.Method? && e.mname.From? && e.args != [] && Related(ci, ct) && Sim(w, e.args[0], ti, env, ci, ct)
    requires var oi, ot := Eval(w.l, w.p, e.args[0], ci), Exec(w.l, w.g, w.ord, ti, env, ct);
             oi.r.Ok? && AsI64(w.l.fl, oi.r.v).Some? && oi.c.amb.all.Some? ==>
               var i := AsI64(w.l.fl, oi.r.v).value;
               0 <= i < |oi.c.amb.all.value| ==>
                 Sim(w, e.target, t, env, oi.c.(amb := AtMessage(oi.c.amb, i)), ot.c.(amb := AtMessage(ot.c.amb, i)))
    ensures Sim(w, e, TFrom(ti, t), env, ci, ct)
  {
    assert Eval(w.l, w.p, e, ci) == EvalMethod(w.l, w.p, e, ci);
    assert Exec(w.l, w.g, w.ord, TFrom(ti, t), env, ct) == ExecFrom(w.l, w.g, w.ord, TFrom(ti, t), env, ct);
    hide Eval, Exec;
  }

  lemma FromAllIs(w: World, e: Expr, c: Ctx)
    requires e.Method? && e.mname.FromAll?
    ensures Eval(w.l, w.p, e, c) ==
            if c.amb.all.None? then Out(Err, c)
            else var o := EachMessage(w.l, w.p, e, 0, [], c); Out(o.r, o.c.(amb := c.amb))
  {
    assert Eval(w.l, w.p, e, c) == EvalMethod(w.l, w.p, e, c);
    hide Eval, EachMessage, Kept;
  }

  lemma FromAllCodeIs(w: World, t: TExpr, env: Env, c: Ctx)
    requires t.TFromAll?
    ensures Exec(w.l, w.g, w.ord, t, env, c) ==
            if c.amb.all.None? then Out(Err, c)
            else var o := ExecFromAll(w.l, w.g, w.ord, t, 0, [], env, c); Out(o.r, o.c.(amb := c.amb))
  {
    hide ExecFromAll, MetaOnly;
  }

  lemma {:induction false} SimFromAll(w: World, e: Expr, stack: seq<nat>, n: nat, env: Env, ci: Ctx, ct: Ctx)
    requires Compiled(w) && e.Method? && e.mname.FromAll?
    requires Scope(stack, env, ci.thisV) && Related(ci, ct)
    requires Code(w.l, w.p.maps, e.target, stack, n).Some?
    ensures Sim(w, e, TFromAll(CodeOf(w, e.target, stack, n).t), env, ci, ct)
    decreases 4 * Room(ci) + 1, e, 3, 1
  {
    hide Compiled, Eval, Exec, EachMessage, ExecFromAll;
    FromAllIs(w, e, ci);
    FromAllCodeIs(w, TFromAll(CodeOf(w, e.target, stack, n).t), env, ct);
    var t := TFromAll(CodeOf(w, e.target, stack, n).t);
    if ci.amb.all.Some? { SimEachMessage(w, e, 0, [], stack, n, t, env, ci, ct); }
  }

  lemma {:induction false} SimEachMessage(w: World, e: Expr, i: nat, acc: seq<Value>, stack: seq<nat>, n: nat, t: TExpr, env: Env, ci: Ctx, ct: Ctx)
    requires Compiled(w) && e.Method?
    requires Code(w.l, w.p.maps, e.target, stack, n).Some? && t == TFromAll(CodeOf(w, e.target, stack, n).t)
    requires Scope(stack, env, ci.thisV) && Related(ci, ct)
    requires ci.amb.all.Some? && i <= |ci.amb.all.value|
    ensures Same(EachMessage(w.l, w.p, e, i, acc, ci), ExecFromAll(w.l, w.g, w.ord, t, i, acc, env, ct))
    decreases 4 * Room(ci) + 1, e, 2, |ci.amb.all.value| - i
  {
    hide Eval, Exec, Compiled;
    if i < |ci.amb.all.value| {
      var bi, bt := ci.(amb := AtMessage(ci.amb, i)), ct.(amb := AtMessage(ct.amb, i));
      SimExpr(w, e.target, stack, n, env, bi, bt);
      var oi, ot := Eval(w.l, w.p, e.target, bi), Exec(w.l, w.g, w.ord, t.t, env, bt);
      if oi.r.Ok? { SimEachMessage(w, e, i + 1, acc + [oi.r.v], stack, n, t, env, oi.c, ot.c); }
    }
  }

  // ---- maps, statements, whole mappings -----------------------------------------------------------

  lemma ApplyIs(w: World, e: Expr, m: nat, v: Value, c: Ctx)
    requires e.Method? && e.mname.ApplyMethod? && e.args != [] && e.args[0].Lit? && e.args[0].v.IsStringy()
    requires FindMap(w.p.maps, e.args[0].v.Text()) == Some(m)
    ensures EvalEager(w.l, w.p, e, v, c) == ApplyMap(w.l, w.p, m, v, c)
  {
    hide ApplyMap, Kept;
    assert Eval(w.l, w.p, e.args[0], c) == Out(Ok(e.args[0].v), c);
    hide Eval;
  }

  lemma ApplyCodeIs(w: World, t: TExpr, env: Env, c: Ctx)
    requires t.TApply?
    ensures Exec(w.l, w.g, w.ord, t, env, c) == ExecApply(w.l, w.g, w.ord, t, env, c)
  {
    hide ExecApply, MetaOnly;
  }

  lemma {:induction false} SimApply(w: World, e: Expr, t: TExpr, m: nat, env: Env, oi: Out, ci: Ctx, ct: Ctx)
    requires Compiled(w) && e.Method? && e.mname.ApplyMethod?
    requires e.args != [] && e.args[0].Lit? && e.args[0].v.IsStringy() && FindMap(w.p.maps, e.args[0].v.Text()) == Some(m)
    requires Related(ci, ct) && Kept(w.p, ci, oi.c) && Same(oi, Exec(w.l, w.g, w.ord, t, env, ct))
    ensures Same(if oi.r.Err? then oi else EvalEager(w.l, w.p, e, oi.r.v, oi.c), Exec(w.l, w.g, w.ord, TApply(t, m), env, ct))
    decreases 4 * Room(ci) + 1, e, 2, 1
  {
    hide Compiled, Eval, Exec, EvalEager, ApplyMap, ExecMap;
    ApplyCodeIs(w, TApply(t, m), env, ct);
    if oi.r.Ok? {
      ApplyIs(w, e, m, oi.r.v, oi.c);
      SimMap(w, m, oi.r.v, oi.c, Exec(w.l, w.g, w.ord, t, env, ct).c);
    }
  }

  /** An applied map: both worlds restore the caller's `this`, variables and depth. */
  lemma {:induction false} SimMap(w: World, m: nat, v: Value, ci: Ctx, ct: Ctx)
    requires Compiled(w) && Related(ci, ct)
    ensures Same(ApplyMap(w.l, w.p, m, v, ci), ExecMap(w.l, w.g, w.ord, m, v, ct))
    decreases 4 * Room(ci)
  {
    hide Eval, Exec, RunFrom, ExecStmts, StmtsCode;
    MapCount(w);
    if ci.depth < MAX_APPLY_DEPTH && m < |w.p.maps| {
      var n := MapsEmitted(w.l, w.p.maps, w.p.maps, 0, m);
      var inner := ci.(thisV := Some(v), vars := map[], depth := ci.depth + 1);
      SimStmts(w, w.p.maps[m].body, n, RootOf(inner), false, inner);
    }
  }

  lemma MapCount(w: World)
    requires ProgramCode(w.l, w.p) == Some(w.g)
    ensures |w.g.maps| == |w.p.maps|
  {
    if w.p.maps != [] { var _ := MapsEmitted(w.l, w.p.maps, w.p.maps, 0, 0); }
  }

  /** A run of statements: same root, variables and metadata, or both fail there. */
  lemma {:induction false} SimStmts(w: World, ss: seq<Statement>, n: nat, root: Value, rootSet: bool, c: Ctx)
    requires Compiled(w) && StmtsCode(w.l, w.p.maps, ss, n).Some?
    requires rootSet ==> !root.Nothing?
    ensures RunFrom(w.l, w.p, ss, root, rootSet, c) ==
            ExecStmts(w.l, w.g, w.ord, StmtsCode(w.l, w.p.maps, ss, n).value.t, c.thisV, root, c)
    decreases 4 * Room(c) + 3, ss
  {
    if ss != [] {
      var a := StmtCode(w.l, w.p.maps, ss[0], n).value;
      var rest := StmtsCode(w.l, w.p.maps, ss[1..], a.n).value;
      SimStmt(w, ss[0], n, c);
      var o := Outcome(w.l, w.p, ss[0].expr, c);
      if o.r.Ok? {
        var x := NextState(ss[0].target, o.r.v, root, rootSet, o.c);
        SameStore(ss[0].target, o.r.v, root, rootSet, o.c);
        if x.Assigned? { SimStmts(w, ss[1..], a.n, x.root, x.rootSet, x.c); }
      }
      JoinStmts(w, ss, a.t, rest.t, root, rootSet, c);
    }
  }

  /** The interpreter's state after one statement's value. */
  function NextState(target: Target, v: Value, root: Value, rootSet: bool, c: Ctx): Assigned {
    if v.Nothing? then Assigned(root, rootSet, c) else Assign(target, v, root, rootSet, c)
  }

  lemma JoinStmts(w: World, ss: seq<Statement>, t: TStmt, ts: seq<TStmt>, root: Value, rootSet: bool, c: Ctx)
    requires ss != [] && t.target == ss[0].target && (rootSet ==> !root.Nothing?)
    requires StmtValue(w.l, w.g, w.ord, t, c.thisV, c) == Outcome(w.l, w.p, ss[0].expr, c)
    requires var o := Outcome(w.l, w.p, ss[0].expr, c);
             o.r.Ok? ==>
               var x := NextState(ss[0].target, o.r.v, root, rootSet, o.c);
               x.Assigned? ==> RunFrom(w.l, w.p, ss[1..], x.root, x.rootSet, x.c) ==
                               ExecStmts(w.l, w.g, w.ord, ts, x.c.thisV, x.root, x.c)
    ensures RunFrom(w.l, w.p, ss, root, rootSet, c) == ExecStmts(w.l, w.g, w.ord, [t] + ts, c.thisV, root, c)
  {
    assert ([t] + ts)[1..] == ts;
    var o := Outcome(w.l, w.p, ss[0].expr, c);
    if o.r.Ok? { SameStore(ss[0].target, o.r.v, root, rootSet, o.c); }
  }

  /** Assignment with a root flag and assignment with per-target guards agree. */
  lemma SameStore(target: Target, v: Value, root: Value, rootSet: bool, c: Ctx)
    requires rootSet ==> !root.Nothing?
    ensures var x, y := NextState(target, v, root, rootSet, c), Store(target, v, root, c);
            && x.Failed? == y.Failed?
            && (x.Assigned? ==> x.root == y.root && x.c == y.c && x.c.thisV == c.thisV && x.c.depth == c.depth)
            && (x.Assigned? && x.rootSet ==> !x.root.Nothing?)
  {
  }

  lemma {:induction false} SimStmt(w: World, s: Statement, n: nat, c: Ctx)
    requires Compiled(w) && StmtCode(w.l, w.p.maps, s, n).Some?
    ensures StmtValue(w.l, w.g, w.ord, StmtCode(w.l, w.p.maps, s, n).value.t, c.thisV, c) == Outcome(w.l, w.p, s.expr, c)
    decreases 4 * Room(c) + 2
  {
    hide Eval, Exec, Unboxed, BySign;
    var env := Env(c.thisV, map[], None);
    SimExpr(w, s.expr, [], n, env, c, c);
    FastStmt(w.l, w.p, s.expr, c);
  }

  /** Where the generated code is unboxed and its guard holds, the unboxed value is the
      statement's; elsewhere the statement's value is the expression's. */
  lemma FastStmt(l: Lib, p: Mapping, e: Expr, c: Ctx)
    requires p.rules.Emitted?
    ensures var b := Build(e, []);
            if b.None? || b.value.leaves == [] then Outcome(l, p, e, c) == Eval(l, p, e, c)
            else if c.thisV.None? then Outcome(l, p, e, c) == Out(Err, c)
            else
              match Leaves(c.thisV.value, b.value.leaves)
              case Some(fs) => Outcome(l, p, e, c) == Out(Box(FEval(l.fl, b.value.code, fs)), c)
              case None => Outcome(l, p, e, c) == Eval(l, p, e, c)
  {
    hide Eval, FEval, BySign, Build, Arithmetic, FieldsRead;
    var b := Build(e, []);
    BuildIff(e, []);
    if b.Some? && b.value.leaves != [] {
      assert b.value.leaves[0] in Keys(b.value.leaves);
      if c.thisV.None? {
        ReadsThis(l, p, e, c, []);
      } else {
        LeavesIff(c.thisV.value, b.value.leaves);
        var fs := Leaves(c.thisV.value, b.value.leaves);
        if fs.Some? {
          FastIsBySign(l.fl, e, c.thisV.value, [], b.value.leaves, fs.value);
        }
      }
    }
  }

  lemma {:induction false} LeavesIff(self: Value, keys: seq<Str>)
    ensures Leaves(self, keys).Some? <==> forall k | k in Keys(keys) :: GetField(self, k).I64?
  {
    if keys != [] {
      LeavesIff(self, keys[1..]);
      assert keys == [keys[0]] + keys[1..];
      assert Keys(keys) == {keys[0]} + Keys(keys[1..]);
    }
  }

  /** Arithmetic that reads a field fails when the message has no structure. */
  lemma {:induction false} ReadsThis(l: Lib, p: Mapping, e: Expr, c: Ctx, leaves: seq<Str>)
    requires Build(e, leaves).Some? && c.thisV.None?
    ensures Eval(l, p, e, c).c == c
    ensures Build(e, leaves).value.leaves != leaves ==> Eval(l, p, e, c).r.Err?
  {
    if e.Neg? {
      ReadsThis(l, p, e.operand, c, leaves);
      EvalNeg(l, p, e.operand, c);
    } else if e.Binary? {
      ReadsThis(l, p, e.lhs, c, leaves);
      ReadsThis(l, p, e.rhs, c, Build(e.lhs, leaves).value.leaves);
      EvalStrict(l, p, e, c);
    } else if e.Field? {
      assert Eval(l, p, e.target, c) == Out(Err, c);
    }
  }

  // ---- every program the emitter accepts ------------------------------------------------

  /** Emitted, and the order of arguments does not show: it is the interpreter's, or any order
      at any call in a program whose maps write no metadata. */
  ghost predicate Accepted(w: World) {
    ProgramCode(w.l, w.p) == Some(w.g) && (w.ord.LeftToRight? || NoMetaWrites(w.p))
  }

  function ByRules(p: Mapping, rules: Rules): Mapping { p.(rules := rules) }

  /** For every program the emitter accepts, validated or not, generated code does what the
      program means by the emitted rules: `catch()` is its target, surplus arguments are not
      evaluated, minus on a double in arithmetic over int64 fields is not subtraction from
      zero, and everything else is as the interpreter has it. */
  lemma EmittedMeaning(w: World, c: Ctx)
    requires Accepted(w)
    ensures RunMain(w.l, w.g, w.ord, c) == Run(w.l, ByRules(w.p, Emitted), c)
  {
    var w' := w.(p := ByRules(w.p, Emitted));
    AcceptedIsCompiled(w);
    var m := MapsCode(w'.l, w'.p.maps, w'.p.maps, 0).value;
    SimStmts(w', w'.p.statements, m.n, RootOf(c), false, c);
  }

  lemma AcceptedIsCompiled(w: World)
    requires Accepted(w)
    ensures Compiled(w.(p := ByRules(w.p, Emitted)))
  {
    if !w.ord.LeftToRight? { StoresFollow(w.l, w.p, w.g); }
  }
}
