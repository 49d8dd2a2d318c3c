/** Why metadata writes matter to the order of arguments: the one way in which generated
    code can show in which order the C++ compiler evaluated the arguments of a call. */
module ArgumentOrder {
  import opened Values
  import opened Bloblang
  import opened Interp
  import opened FastPath
  import opened Emit
  import opened GeneratedCode

  const NAME: Str := [109]
  const MARK: Value := String([120])

  /** `map m { meta m = "x" }` */
  const PROGRAM: Mapping := Mapping([], [NamedMap(NAME, [Statement(MetaTarget(NAME), Lit(MARK))])], Interpreted)

  /** `0.apply("m")` */
  const APPLIED: Expr := Method(Lit(I64(0)), ApplyMethod, [Lit(String(NAME))])

  /** `-true`, which fails. */
  const FAILING: Expr := Neg(Lit(Bool(true)))

  const STORED: Generated := Generated([[TStmt(MetaTarget(NAME), TLit(MARK), None)]], [])

  lemma ProgramStored(l: Lib)
    ensures ProgramCode(l, PROGRAM) == Some(STORED)
  {
    var s := Statement(MetaTarget(NAME), Lit(MARK));
    assert StmtCode(l, PROGRAM.maps, s, 0) == Some(Em(TStmt(MetaTarget(NAME), TLit(MARK), None), 0));
    assert StmtsCode(l, PROGRAM.maps, [], 0) == Some(Em([], 0));
    assert [s][1..] == [];
    assert StmtsCode(l, PROGRAM.maps, [s], 0).value.t == [TStmt(MetaTarget(NAME), TLit(MARK), None)];
    assert PROGRAM.maps[1..] == [] && PROGRAM.maps[0].body == [s];
    assert MapsCode(l, PROGRAM.maps, [], 0) == Some(Em([], 0));
    assert MapsCode(l, PROGRAM.maps, PROGRAM.maps, 0) == Some(Em([[TStmt(MetaTarget(NAME), TLit(MARK), None)]] + [], 0));
    var body := [TStmt(MetaTarget(NAME), TLit(MARK), None)];
    assert [body] + [] == [body];
    assert StmtsCode(l, PROGRAM.maps, PROGRAM.statements, 0) == Some(Em([], 0));
  }

  lemma AppliedCode(l: Lib)
    ensures Code(l, PROGRAM.maps, APPLIED, [], 0) == Some(Em(TApply(TLit(I64(0)), 0), 0))
    ensures Code(l, PROGRAM.maps, FAILING, [], 0) == Some(Em(TNegate(TLit(Bool(true))), 0))
  {
    assert Code(l, PROGRAM.maps, Lit(I64(0)), [], 0) == Some(Em(TLit(I64(0)), 0));
    assert FindMap(PROGRAM.maps, NAME) == Some(0);
  }

  lemma AppliedWrites(l: Lib, env: Env, c: Ctx)
    requires c.depth == 0 && c.meta == Some([])
    ensures var o := Exec(l, STORED, RightToLeft, TApply(TLit(I64(0)), 0), env, c);
            o.r.Ok? && o.c.meta == Some([Entry(NAME, MARK)])
  {
    var inner := c.(thisV := Some(I64(0)), vars := map[], depth := 1);
    var ss := STORED.maps[0];
    assert ss[1..] == [];
    assert StmtValue(l, STORED, RightToLeft, ss[0], inner.thisV, inner) == Out(Ok(MARK), inner) by {
      assert Exec(l, STORED, RightToLeft, TLit(MARK), Env(inner.thisV, map[], None), inner) == Out(Ok(MARK), inner);
    }
    var after := inner.(meta := Some([Entry(NAME, MARK)]));
    assert MetaSet(inner, NAME, MARK) == Some(after);
    assert ExecStmts(l, STORED, RightToLeft, [], inner.thisV, RootOf(inner), after) == Out(Ok(RootOf(inner)), after);
    assert ExecStmts(l, STORED, RightToLeft, ss, inner.thisV, RootOf(inner), inner) == Out(Ok(RootOf(inner)), after);
    assert Exec(l, STORED, RightToLeft, TLit(I64(0)), env, c) == Out(Ok(I64(0)), c);
    assert Exec(l, STORED, RightToLeft, TApply(TLit(I64(0)), 0), env, c) == ExecMap(l, STORED, RightToLeft, 0, I64(0), c);
  }

  /** A function of a failing argument and one that writes: from the left the write never
      happens, from the right it does before the failure. */
  lemma OrderObservable(l: Lib, fname: string, c: Ctx)
    requires l.functions(fname).Some? && l.functions(fname).value.arity == 2
    requires c.depth == 0 && c.meta == Some([])
    ensures var e := Call(PlainFn(fname), [FAILING, APPLIED]);
            && ProgramCode(l, PROGRAM) == Some(STORED) && Code(l, PROGRAM.maps, e, [], 0).Some?
            && Eval(l, PROGRAM, e, c).c.meta == Some([])
            && Exec(l, STORED, RightToLeft, Code(l, PROGRAM.maps, e, [], 0).value.t, Env(c.thisV, map[], None), c).c.meta
               == Some([Entry(NAME, MARK)])
  {
    hide Eval, Exec, Code;
    ProgramStored(l);
    CallEmits(l, fname);
    FromTheLeft(l, Call(PlainFn(fname), [FAILING, APPLIED]), c);
    FromTheRight(l, fname, Env(c.thisV, map[], None), c);
  }

  const CODES: seq<TExpr> := [TNegate(TLit(Bool(true))), TApply(TLit(I64(0)), 0)]

  lemma CallEmits(l: Lib, fname: string)
    requires l.functions(fname).Some? && l.functions(fname).value.arity == 2
    ensures Code(l, PROGRAM.maps, Call(PlainFn(fname), [FAILING, APPLIED]), [], 0) == Some(Em(TCallFn(fname, CODES), 0))
  {
    var args := [FAILING, APPLIED];
    AppliedCode(l);
    assert args[1..] == [APPLIED] && [APPLIED][1..] == [];
    assert [CODES[1]] + [] == [CODES[1]] && [CODES[0]] + [CODES[1]] == CODES;
    assert AllCode(l, PROGRAM.maps, [], [], 0) == Some(Em([], 0));
    assert AllCode(l, PROGRAM.maps, [APPLIED], [], 0) == Some(Em([CODES[1]], 0));
    assert AllCode(l, PROGRAM.maps, args, [], 0) == Some(Em(CODES, 0));
  }

  lemma FromTheLeft(l: Lib, e: Expr, c: Ctx)
    requires e.Call? && e.fname.PlainFn? && l.functions(e.fname.id).Some? && e.args != [] && e.args[0] == FAILING
    ensures Eval(l, PROGRAM, e, c).c.meta == c.meta
  {
    assert Eval(l, PROGRAM, Lit(Bool(true)), c) == Out(Ok(Bool(true)), c);
    assert Eval(l, PROGRAM, FAILING, c) == Out(Err, c);
    assert EvalArgs(l, PROGRAM, e.args, c) == Outs(None, c);
    assert Eval(l, PROGRAM, e, c) == EvalCall(l, PROGRAM, e, c);
  }

  lemma FromTheRight(l: Lib, fname: string, env: Env, c: Ctx)
    requires l.functions(fname).Some? && c.depth == 0 && c.meta == Some([])
    ensures Exec(l, STORED, RightToLeft, TCallFn(fname, CODES), env, c).c.meta == Some([Entry(NAME, MARK)])
  {
    var ts := CODES;
    AppliedWrites(l, env, c);
    assert ts[1..] == [ts[1]] && ts[1..][1..] == [];
    var o := Exec(l, STORED, RightToLeft, ts[1], env, c);
    assert ExecArgs(l, STORED, RightToLeft, RightToLeft, [], env, c) == Outs(Some([]), c);
    assert [ts[1]][1..] == [];
    assert ExecArgs(l, STORED, RightToLeft, RightToLeft, [ts[1]], env, c) == Outs(Some([o.r.v] + []), o.c);
    assert Exec(l, STORED, RightToLeft, TLit(Bool(true)), env, o.c) == Out(Ok(Bool(true)), o.c);
    assert Exec(l, STORED, RightToLeft, ts[0], env, o.c).c == o.c;
  }

  // ---- where the order cannot show ------------------------------------------------------

  /** No argument, evaluated here, writes metadata. */
  ghost predicate Silent(l: Lib, g: Generated, ord: Order, ts: seq<TExpr>, env: Env, c: Ctx) {
    forall i :: 0 <= i < |ts| ==> Exec(l, g, ord, ts[i], env, c).c == c
  }

  /** Each argument evaluated by itself. */
  function Apart(l: Lib, g: Generated, ord: Order, ts: seq<TExpr>, env: Env, c: Ctx): Outs {
    if forall i :: 0 <= i < |ts| ==> Exec(l, g, ord, ts[i], env, c).r.Ok? then
      Outs(Some(seq(|ts|, i requires 0 <= i < |ts| => Exec(l, g, ord, ts[i], env, c).r.v)), c)
    else Outs(None, c)
  }

  lemma ApartStep(l: Lib, g: Generated, ord: Order, ts: seq<TExpr>, env: Env, c: Ctx)
    requires ts != []
    ensures var o, rest := Exec(l, g, ord, ts[0], env, c), Apart(l, g, ord, ts[1..], env, c);
            Apart(l, g, ord, ts, env, c).r == if o.r.Ok? && rest.r.Some? then Some([o.r.v] + rest.r.value) else None
  {
    hide Exec;
    var o, rest := Exec(l, g, ord, ts[0], env, c), Apart(l, g, ord, ts[1..], env, c);
    assert forall i :: 0 <= i < |ts| - 1 ==> ts[1..][i] == ts[i + 1];
    if o.r.Ok? && rest.r.Some? {
      forall i | 0 <= i < |ts|
        ensures Exec(l, g, ord, ts[i], env, c).r.Ok?
      {
        if i > 0 { assert ts[i] == ts[1..][i - 1]; }
      }
      assert Apart(l, g, ord, ts, env, c).r.value == [o.r.v] + rest.r.value;
    } else if rest.r.None? {
      var i :| 0 <= i < |ts| - 1 && Exec(l, g, ord, ts[1..][i], env, c).r.Err?;
      assert Exec(l, g, ord, ts[i + 1], env, c).r.Err?;
    }
  }

  lemma {:induction false} ListApart(l: Lib, g: Generated, ord: Order, mine: Order, ts: seq<TExpr>, env: Env, c: Ctx)
    requires Silent(l, g, ord, ts, env, c)
    ensures ExecArgs(l, g, ord, mine, ts, env, c) == Apart(l, g, ord, ts, env, c)
  {
    hide Exec;
    if ts == [] {
      assert Apart(l, g, ord, ts, env, c).r.value == [];
    } else {
      hide Apart;
      var rest := ts[1..];
      assert forall i :: 0 <= i < |rest| ==> rest[i] == ts[i + 1];
      ListApart(l, g, ord, mine, rest, env, c);
      ApartStep(l, g, ord, ts, env, c);
      ApartKeeps(l, g, ord, ts, env, c);
      ApartKeeps(l, g, ord, rest, env, c);
      assert Exec(l, g, ord, ts[0], env, c).c == c;
    }
  }

  lemma ApartKeeps(l: Lib, g: Generated, ord: Order, ts: seq<TExpr>, env: Env, c: Ctx)
    ensures Apart(l, g, ord, ts, env, c).c == c
  {
  }

  lemma TurnStep(l: Lib, g: Generated, ord: Order, t: TExpr, ts: seq<TExpr>, turns: seq<nat>, got: map<nat, Value>, env: Env, c: Ctx)
    requires (forall k | 0 <= k < |ts| :: ts[k] < t) && forall k | 0 <= k < |turns| :: turns[k] < |ts|
    ensures turns == [] && (forall k | 0 <= k < |ts| :: k in got) ==>
              ExecTurns(l, g, ord, t, ts, turns, got, env, c) == Outs(Some(InPlace(got, |ts|)), c)
    ensures turns != [] ==>
              var o := Exec(l, g, ord, ts[turns[0]], env, c);
              ExecTurns(l, g, ord, t, ts, turns, got, env, c) ==
              if o.r.Err? then Outs(None, o.c)
              else ExecTurns(l, g, ord, t, ts, turns[1..], got[turns[0] := o.r.v], env, o.c)
  {
    hide Exec, MetaOnly, InPlace;
  }

  /** Whatever turns they take: what is there already and what is to come is every argument. */
  lemma {:induction false} TurnsApart(l: Lib, g: Generated, ord: Order, t: TExpr, ts: seq<TExpr>, turns: seq<nat>,
                                      got: map<nat, Value>, env: Env, c: Ctx)
    requires Silent(l, g, ord, ts, env, c)
    requires (forall k | 0 <= k < |ts| :: ts[k] < t) && forall k | 0 <= k < |turns| :: turns[k] < |ts|
    requires forall k | 0 <= k < |ts| :: k in got || k in turns
    requires forall k | k in got :: k < |ts| && Exec(l, g, ord, ts[k], env, c).r == Ok(got[k])
    ensures ExecTurns(l, g, ord, t, ts, turns, got, env, c) == Apart(l, g, ord, ts, env, c)
    decreases |turns|
  {
    hide Exec, Silent, Apart, MetaOnly, ExecTurns;
    TurnStep(l, g, ord, t, ts, turns, got, env, c);
    if turns == [] {
      NoTurnsLeft(l, g, ord, ts, got, env, c);
    } else {
      var k := turns[0];
      var o := Exec(l, g, ord, ts[k], env, c);
      SilentAt(l, g, ord, ts, k, env, c);
      if o.r.Ok? {
        assert turns == [k] + turns[1..];
        TurnsApart(l, g, ord, t, ts, turns[1..], got[k := o.r.v], env, c);
      }
    }
  }

  lemma SilentAt(l: Lib, g: Generated, ord: Order, ts: seq<TExpr>, k: nat, env: Env, c: Ctx)
    requires Silent(l, g, ord, ts, env, c) && k < |ts|
    ensures Exec(l, g, ord, ts[k], env, c).c == c
    ensures Exec(l, g, ord, ts[k], env, c).r.Err? ==> Apart(l, g, ord, ts, env, c) == Outs(None, c)
  {
    hide Exec;
  }

  lemma NoTurnsLeft(l: Lib, g: Generated, ord: Order, ts: seq<TExpr>, got: map<nat, Value>, env: Env, c: Ctx)
    requires forall k | 0 <= k < |ts| :: k in got && Exec(l, g, ord, ts[k], env, c).r == Ok(got[k])
    ensures Outs(Some(InPlace(got, |ts|)), c) == Apart(l, g, ord, ts, env, c)
  {
    hide Exec;
    assert InPlace(got, |ts|) == Apart(l, g, ord, ts, env, c).r.value;
  }

  /** The arguments of a function: of all orders, call by call or throughout, none shows. */
  lemma OrderUnobservable(l: Lib, g: Generated, ord: Order, mine: Order, t: TExpr, ts: seq<TExpr>, turns: seq<nat>, env: Env, c: Ctx)
    requires Silent(l, g, ord, ts, env, c)
    requires (forall k | 0 <= k < |ts| :: ts[k] < t) && Permutation(turns, |ts|)
    ensures ExecTurns(l, g, ord, t, ts, turns, map[], env, c) == ExecArgs(l, g, ord, mine, ts, env, c)
    ensures ExecArgs(l, g, ord, mine, ts, env, c) == Apart(l, g, ord, ts, env, c)
  {
    hide Exec;
    TurnsApart(l, g, ord, t, ts, turns, map[], env, c);
    ListApart(l, g, ord, mine, ts, env, c);
  }

  // ---- programs in which it cannot show -------------------------------------------------

  /** Arguments run from the left, or no map writes metadata. */
  predicate Settled(g: Generated, ord: Order) { ord.LeftToRight? || NoMetaStores(g) }

  lemma SilentProgram(l: Lib, g: Generated, ord: Order, ts: seq<TExpr>, env: Env, c: Ctx)
    requires NoMetaStores(g)
    ensures Silent(l, g, ord, ts, env, c)
  {
    hide Exec;
  }

  /** Then every list of arguments, */
  lemma ArgsInOrder(l: Lib, g: Generated, ord: Order, id: string, ts: seq<TExpr>, env: Env, c: Ctx)
    requires Settled(g, ord)
    ensures (if ord.Picked? then ExecTurns(l, g, ord, TCallFn(id, ts), ts, Turns(ord, ts), map[], env, c)
             else ExecArgs(l, g, ord, ord, ts, env, c))
            == ExecArgs(l, g, ord, LeftToRight, ts, env, c)
  {
    hide Exec, Apart, NoMetaStores;
    if !ord.LeftToRight? {
      SilentProgram(l, g, ord, ts, env, c);
      ListApart(l, g, ord, LeftToRight, ts, env, c);
      ListApart(l, g, ord, ord, ts, env, c);
      OrderUnobservable(l, g, ord, LeftToRight, TCallFn(id, ts), ts, Turns(ord, ts), env, c);
    }
  }

  /** every target with its arguments, */
  lemma CallInOrder(l: Lib, g: Generated, ord: Order, braced: bool, t: TExpr, env: Env, c: Ctx)
    requires Settled(g, ord) && (t.TMethod? || t.TLambdaVar? || t.TLambdaThis?)
    ensures ExecCall(l, g, ord, braced, t, env, c) == ExecAround(l, g, ord, LeftToRight, true, t, env, c)
  {
    hide Exec, Apart, NoMetaStores, ExecAround;
    if !ord.LeftToRight? {
      var mine, ts := if braced then LeftToRight else ord, [t.t] + CallArgs(t);
      AroundApart(l, g, ord, LeftToRight, true, t, env, c);
      AroundApart(l, g, ord, mine, FirstFirst(ord, t.t, t), t, env, c);
      if ord.Picked? && !braced {
        SilentProgram(l, g, ord, ts, env, c);
        OrderUnobservable(l, g, ord, LeftToRight, t, ts, Turns(ord, ts), env, c);
      }
    }
  }

  lemma AroundApart(l: Lib, g: Generated, ord: Order, mine: Order, ahead: bool, t: TExpr, env: Env, c: Ctx)
    requires NoMetaStores(g) && (t.TMethod? || t.TLambdaVar? || t.TLambdaThis?)
    ensures ExecAround(l, g, ord, mine, ahead, t, env, c) == Apart(l, g, ord, [t.t] + CallArgs(t), env, c)
  {
    hide Exec, Apart;
    var ts := [t.t] + CallArgs(t);
    assert ts[1..] == CallArgs(t);
    SilentProgram(l, g, ord, CallArgs(t), env, c);
    ListApart(l, g, ord, mine, CallArgs(t), env, c);
    ApartStep(l, g, ord, ts, env, c);
    ApartKeeps(l, g, ord, ts, env, c);
    ApartKeeps(l, g, ord, CallArgs(t), env, c);
  }

  /** and every pair has the outcome it has from the left. */
  lemma PairInOrder(l: Lib, g: Generated, ord: Order, t: TExpr, x: TExpr, y: TExpr, env: Env, c: Ctx)
    requires Settled(g, ord) && x < t && y < t
    ensures ExecPair(l, g, ord, t, x, y, env, c) ==
            (var a := Exec(l, g, ord, x, env, c);
             if a.r.Err? then Outs(None, a.c)
             else
               var b := Exec(l, g, ord, y, env, a.c);
               Outs(if b.r.Ok? then Some([a.r.v, b.r.v]) else None, b.c))
  {
    hide Exec, FirstFirst;
    if ord.LeftToRight? { assert FirstFirst(ord, x, y) by { FromLeft(ord, x, y); } }
  }

  lemma FromLeft(ord: Order, x: TExpr, y: TExpr)
    requires ord.LeftToRight?
    ensures FirstFirst(ord, x, y)
  {
  }

  /** Maps that write no metadata are emitted as map functions that store none. */
  lemma StoresFollow(l: Lib, p: Mapping, g: Generated)
    requires ProgramCode(l, p) == Some(g) && NoMetaWrites(p)
    ensures NoMetaStores(g)
  {
    TargetsOfMaps(l, p.maps, p.maps, 0);
  }

  lemma {:induction false} TargetsOfMaps(l: Lib, ms: seq<NamedMap>, todo: seq<NamedMap>, n: nat)
    requires MapsCode(l, ms, todo, n).Some?
    ensures var ts := MapsCode(l, ms, todo, n).value.t;
            && |ts| == |todo|
            && (forall i :: 0 <= i < |todo| ==>
                  |ts[i]| == |todo[i].body| && forall j :: 0 <= j < |ts[i]| ==> ts[i][j].target == todo[i].body[j].target)
  {
    if todo != [] {
      var a := StmtsCode(l, ms, todo[0].body, n).value;
      var b := MapsCode(l, ms, todo[1..], a.n).value;
      TargetsOfStmts(l, ms, todo[0].body, n);
      TargetsOfMaps(l, ms, todo[1..], a.n);
      var ts: seq<seq<TStmt>> := [a.t] + b.t;
      assert MapsCode(l, ms, todo, n).value.t == ts;
      forall i | 0 <= i < |todo|
        ensures |ts[i]| == |todo[i].body| && forall j :: 0 <= j < |ts[i]| ==> ts[i][j].target == todo[i].body[j].target
      {
        if i > 0 { assert ts[i] == b.t[i - 1] && todo[i] == todo[1..][i - 1]; }
      }
    }
  }

  lemma {:induction false} TargetsOfStmts(l: Lib, ms: seq<NamedMap>, ss: seq<Statement>, n: nat)
    requires StmtsCode(l, ms, ss, n).Some?
    ensures var ts := StmtsCode(l, ms, ss, n).value.t;
            |ts| == |ss| && forall j :: 0 <= j < |ss| ==> ts[j].target == ss[j].target
  {
    hide Code, Build;
    if ss != [] {
      var a := StmtCode(l, ms, ss[0], n).value;
      TargetsOfStmts(l, ms, ss[1..], a.n);
      assert ss == [ss[0]] + ss[1..];
    }
  }
}
