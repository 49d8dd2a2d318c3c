/** The parser's fold: a flat run of operands and operators becomes a tree in four
    left-associative passes. */
module OperatorFold {
  import opened Bloblang

  /** A parsed operand, opaque to the fold, or an operator applied. */
  datatype Tree = Leaf(operand: Expr) | Node(op: BinOp, left: Tree, right: Tree)

  function PrecedencePass(op: BinOp): (p: nat)
    ensures 1 <= p <= 4
  {
    match op
    case MulOp | DivOp | ModOp | Coalesce => 1
    case AddOp | SubOp => 2
    case EqOp | NeqOp | LtOp | LteOp | GtOp | GteOp => 3
    case AndOp | OrOp => 4
  }

  // ---- what a tree reads back as --------------------------------------------------------

  function Operands(t: Tree): seq<Expr> {
    match t case Leaf(e) => [e] case Node(_, l, r) => Operands(l) + Operands(r)
  }

  function Ops(t: Tree): seq<BinOp> {
    match t case Leaf(_) => [] case Node(op, l, r) => Ops(l) + [op] + Ops(r)
  }

  predicate AtMost(ops: seq<BinOp>, p: nat) { forall i | 0 <= i < |ops| :: PrecedencePass(ops[i]) <= p }

  /** Left operands bind at least as tightly as their operator, right operands tighter. */
  predicate Shaped(t: Tree) {
    match t
    case Leaf(_) => true
    case Node(op, l, r) =>
      && Shaped(l) && Shaped(r)
      && AtMost(Ops(l), PrecedencePass(op)) && AtMost(Ops(r), PrecedencePass(op) - 1)
  }

  lemma {:induction false} YieldSizes(t: Tree)
    ensures |Operands(t)| == |Ops(t)| + 1
  {
    match t
    case Leaf(_) =>
    case Node(_, l, r) => YieldSizes(l); YieldSizes(r);
  }

  /** The shape and the yield determine the tree. */
  lemma {:induction false} ShapeUnique(a: Tree, b: Tree)
    requires Shaped(a) && Shaped(b) && Ops(a) == Ops(b) && Operands(a) == Operands(b)
    ensures a == b
  {
    YieldSizes(a);
    YieldSizes(b);
    match a {
      case Leaf(_) => match b { case Leaf(_) => case Node(_, _, _) => }
      case Node(op, l, r) =>
        match b {
          case Leaf(_) =>
          case Node(op', l', r') =>
            SameRoot(Ops(l), op, Ops(r), Ops(l'), op', Ops(r'));
            YieldSizes(l);
            YieldSizes(l');
            SplitEqual(Operands(l), Operands(r), Operands(l'), Operands(r'));
            ShapeUnique(l, l');
            ShapeUnique(r, r');
        }
    }
  }

  lemma SplitEqual<T>(a: seq<T>, b: seq<T>, c: seq<T>, d: seq<T>)
    requires a + b == c + d && |a| == |c|
    ensures a == c && b == d
  {
    assert a == (a + b)[..|a|] && c == (c + d)[..|a|];
    assert b == (a + b)[|a|..] && d == (c + d)[|a|..];
  }

  lemma LoosestLast(l: seq<BinOp>, op: BinOp, r: seq<BinOp>)
    requires AtMost(l, PrecedencePass(op)) && AtMost(r, PrecedencePass(op) - 1)
    ensures var all := l + [op] + r;
            && all[|l|] == op
            && (forall i | 0 <= i < |l| :: PrecedencePass(all[i]) <= PrecedencePass(op))
            && (forall i | |l| < i < |all| :: PrecedencePass(all[i]) < PrecedencePass(op))
  {
    var all := l + [op] + r;
    forall i | |l| < i < |all| ensures PrecedencePass(all[i]) < PrecedencePass(op) { assert all[i] == r[i - |l| - 1]; }
  }

  /** The root is the last of the loosest operators. */
  lemma SameRoot(l: seq<BinOp>, op: BinOp, r: seq<BinOp>, l': seq<BinOp>, op': BinOp, r': seq<BinOp>)
    requires l + [op] + r == l' + [op'] + r'
    requires AtMost(l, PrecedencePass(op)) && AtMost(r, PrecedencePass(op) - 1)
    requires AtMost(l', PrecedencePass(op')) && AtMost(r', PrecedencePass(op') - 1)
    ensures l == l' && op == op' && r == r'
  {
    var all := l + [op] + r;
    LoosestLast(l, op, r);
    LoosestLast(l', op', r');
    assert |l| == |l'|;
    SplitEqual(l + [op], r, l' + [op'], r');
    SplitEqual(l, [op], l', [op']);
  }

  // ---- a run in progress ----------------------------------------------------------------

  function RunOps(fns: seq<Tree>, ops: seq<BinOp>): seq<BinOp>
    requires |fns| == |ops| + 1
  {
    var n := |ops|;
    if n == 0 then Ops(fns[0]) else RunOps(fns[..n], ops[..n - 1]) + [ops[n - 1]] + Ops(fns[n])
  }

  function RunOperands(fns: seq<Tree>): seq<Expr>
    requires fns != []
  {
    var n := |fns| - 1;
    if n == 0 then Operands(fns[0]) else RunOperands(fns[..n]) + Operands(fns[n])
  }

  /** After pass `p`: trees hold only tighter operators, and only looser ones remain. */
  predicate Passed(fns: seq<Tree>, p: nat) {
    forall i | 0 <= i < |fns| :: Shaped(fns[i]) && AtMost(Ops(fns[i]), p)
  }

  predicate Looser(ops: seq<BinOp>, p: nat) { forall i | 0 <= i < |ops| :: PrecedencePass(ops[i]) > p }

  /** What the run reads as before its last tree. */
  function HeadOps(out: seq<Tree>, rest: seq<BinOp>): seq<BinOp>
    requires |out| == |rest| + 1
  {
    var m := |rest|;
    if m == 0 then [] else RunOps(out[..m], rest[..m - 1]) + [rest[m - 1]]
  }

  function HeadOperands(out: seq<Tree>): seq<Expr>
    requires out != []
  {
    var m := |out| - 1;
    if m == 0 then [] else RunOperands(out[..m])
  }

  lemma HeadAndLast(out: seq<Tree>, rest: seq<BinOp>)
    requires |out| == |rest| + 1
    ensures RunOps(out, rest) == HeadOps(out, rest) + Ops(out[|rest|])
    ensures RunOperands(out) == HeadOperands(out) + Operands(out[|rest|])
  {
  }

  lemma Join<T>(a: seq<T>, b: seq<T>, c: seq<T>)
    ensures a + b + c == a + (b + c)
  {
  }

  /** The operator is applied to the tree in hand. */
  lemma Combine(out: seq<Tree>, rest: seq<BinOp>, op: BinOp, f: Tree)
    requires |out| == |rest| + 1
    ensures var next := out[|rest| := Node(op, out[|rest|], f)];
            && RunOps(next, rest) == RunOps(out, rest) + [op] + Ops(f)
            && RunOperands(next) == RunOperands(out) + Operands(f)
  {
    var m := |rest|;
    var next := out[m := Node(op, out[m], f)];
    assert next[..m] == out[..m];
    HeadAndLast(out, rest);
    HeadAndLast(next, rest);
    var h, last := HeadOps(out, rest), Ops(out[m]);
    Join(h, last, [op]);
    Join(h, last + [op], Ops(f));
    Join(HeadOperands(out), Operands(out[m]), Operands(f));
  }

  lemma CombineShape(left: Tree, op: BinOp, f: Tree, p: nat)
    requires PrecedencePass(op) == p && Shaped(left) && AtMost(Ops(left), p) && Shaped(f) && AtMost(Ops(f), p - 1)
    ensures Shaped(Node(op, left, f)) && AtMost(Ops(Node(op, left, f)), p)
  {
  }

  lemma Extend(out: seq<Tree>, rest: seq<BinOp>, op: BinOp, f: Tree)
    requires |out| == |rest| + 1
    ensures RunOps(out + [f], rest + [op]) == RunOps(out, rest) + [op] + Ops(f)
    ensures RunOperands(out + [f]) == RunOperands(out) + Operands(f)
  {
    assert (out + [f])[..|rest| + 1] == out && (rest + [op])[..|rest|] == rest;
  }

  lemma Prefix(fns: seq<Tree>, ops: seq<BinOp>, k: nat)
    requires |fns| == |ops| + 1 && k < |ops|
    ensures RunOps(fns[..k + 2], ops[..k + 1]) == RunOps(fns[..k + 1], ops[..k]) + [ops[k]] + Ops(fns[k + 1])
    ensures RunOperands(fns[..k + 2]) == RunOperands(fns[..k + 1]) + Operands(fns[k + 1])
  {
    assert fns[..k + 2] == fns[..k + 1] + [fns[k + 1]] && ops[..k + 1] == ops[..k] + [ops[k]];
    Extend(fns[..k + 1], ops[..k], ops[k], fns[k + 1]);
  }

  /** The first `k` operators have been dealt with. */
  ghost predicate Folding(fns: seq<Tree>, ops: seq<BinOp>, k: nat, out: seq<Tree>, rest: seq<BinOp>, pass: nat)
    requires |fns| == |ops| + 1 && k <= |ops|
  {
    && |out| == |rest| + 1 <= k + 1 && Passed(out, pass) && Looser(rest, pass)
    && RunOps(out, rest) == RunOps(fns[..k + 1], ops[..k]) && RunOperands(out) == RunOperands(fns[..k + 1])
  }

  lemma FoldCombine(fns: seq<Tree>, ops: seq<BinOp>, k: nat, out: seq<Tree>, rest: seq<BinOp>, pass: nat)
    requires |fns| == |ops| + 1 && k < |ops| && Folding(fns, ops, k, out, rest, pass)
    requires PrecedencePass(ops[k]) == pass && Shaped(fns[k + 1]) && AtMost(Ops(fns[k + 1]), pass - 1)
    ensures Folding(fns, ops, k + 1, out[|rest| := Node(ops[k], out[|rest|], fns[k + 1])], rest, pass)
  {
    Prefix(fns, ops, k);
    Combine(out, rest, ops[k], fns[k + 1]);
    CombineShape(out[|rest|], ops[k], fns[k + 1], pass);
  }

  lemma FoldExtend(fns: seq<Tree>, ops: seq<BinOp>, k: nat, out: seq<Tree>, rest: seq<BinOp>, pass: nat)
    requires |fns| == |ops| + 1 && k < |ops| && Folding(fns, ops, k, out, rest, pass)
    requires PrecedencePass(ops[k]) > pass && Shaped(fns[k + 1]) && AtMost(Ops(fns[k + 1]), pass)
    ensures Folding(fns, ops, k + 1, out + [fns[k + 1]], rest + [ops[k]], pass)
  {
    Prefix(fns, ops, k);
    Extend(out, rest, ops[k], fns[k + 1]);
  }

  /** One pass of the fold, over lists the next pass replaces. */
  method FoldPass(fns: seq<Tree>, ops: seq<BinOp>, pass: nat) returns (out: seq<Tree>, rest: seq<BinOp>)
    requires |fns| == |ops| + 1 && pass > 0 && Passed(fns, pass - 1) && Looser(ops, pass - 1)
    ensures |out| == |rest| + 1 && Passed(out, pass) && Looser(rest, pass)
    ensures RunOps(out, rest) == RunOps(fns, ops) && RunOperands(out) == RunOperands(fns)
  {
    out, rest := [fns[0]], [];
    assert fns[..1] == [fns[0]] && ops[..0] == [];
    var k := 0;
    while k < |ops|
      invariant k <= |ops| && Folding(fns, ops, k, out, rest, pass)
    {
      if PrecedencePass(ops[k]) == pass {
        FoldCombine(fns, ops, k, out, rest, pass);
        out := out[|rest| := Node(ops[k], out[|rest|], fns[k + 1])];
      } else {
        FoldExtend(fns, ops, k, out, rest, pass);
        out := out + [fns[k + 1]];
        rest := rest + [ops[k]];
      }
      k := k + 1;
    }
    assert fns[..k + 1] == fns && ops[..k] == ops;
  }

  function Leaves(es: seq<Expr>): seq<Tree> { seq(|es|, i requires 0 <= i < |es| => Leaf(es[i])) }

  lemma {:induction false} LeavesRead(es: seq<Expr>, ops: seq<BinOp>)
    requires |es| == |ops| + 1
    ensures RunOps(Leaves(es), ops) == ops && RunOperands(Leaves(es)) == es
  {
    var n := |ops|;
    if n > 0 {
      LeavesRead(es[..n], ops[..n - 1]);
      assert Leaves(es)[..n] == Leaves(es[..n]);
      assert ops == ops[..n - 1] + [ops[n - 1]] + [];
      assert es == es[..n] + [es[n]];
    }
  }

  // ---- the grouping, operator by operator -------------------------------------------------

  /** `* / % |`, then `+ -`, then the comparisons, then `&& ||`: from the tightest to the loosest. */
  const LEVELS: seq<set<BinOp>> := [
    {MulOp, DivOp, ModOp, Coalesce},
    {AddOp, SubOp},
    {EqOp, NeqOp, LtOp, LteOp, GtOp, GteOp},
    {AndOp, OrOp}]

  predicate Tighter(q: BinOp, p: BinOp) {
    exists i, j :: 0 <= i < j < |LEVELS| && q in LEVELS[i] && p in LEVELS[j]
  }

  /** Whatever is right of an operator binds tighter, and nothing left of it is looser. */
  predicate Grouped(t: Tree) {
    match t
    case Leaf(_) => true
    case Node(op, l, r) =>
      && Grouped(l) && Grouped(r)
      && (forall i | 0 <= i < |Ops(l)| :: !Tighter(op, Ops(l)[i]))
      && (forall i | 0 <= i < |Ops(r)| :: Tighter(Ops(r)[i], op))
  }

  lemma InLevel(op: BinOp)
    ensures op in LEVELS[PrecedencePass(op) - 1]
    ensures forall i | 0 <= i < |LEVELS| :: op in LEVELS[i] ==> i == PrecedencePass(op) - 1
  {
  }

  lemma TighterIs(q: BinOp, p: BinOp)
    ensures Tighter(q, p) <==> PrecedencePass(q) < PrecedencePass(p)
  {
    InLevel(q);
    InLevel(p);
    hide PrecedencePass;
    if PrecedencePass(q) < PrecedencePass(p) {
      assert q in LEVELS[PrecedencePass(q) - 1] && p in LEVELS[PrecedencePass(p) - 1];
    }
  }

  /** The shape that the fold gives is that grouping. */
  lemma {:induction false} ShapeGroups(t: Tree)
    ensures Shaped(t) <==> Grouped(t)
  {
    hide PrecedencePass, Tighter;
    match t
    case Leaf(_) =>
    case Node(op, l, r) =>
      ShapeGroups(l);
      ShapeGroups(r);
      forall q ensures Tighter(q, op) <==> PrecedencePass(q) < PrecedencePass(op) { TighterIs(q, op); }
      forall q ensures Tighter(op, q) <==> PrecedencePass(op) < PrecedencePass(q) { TighterIs(op, q); }
  }

  /** Two operators in a row: the second takes the middle operand if and only if it is tighter. */
  lemma TwoOperators(t: Tree, a: Expr, b: Expr, c: Expr, p: BinOp, q: BinOp)
    requires Shaped(t) && Operands(t) == [a, b, c] && Ops(t) == [p, q]
    ensures t == if Tighter(q, p) then Node(p, Leaf(a), Node(q, Leaf(b), Leaf(c)))
                 else Node(q, Node(p, Leaf(a), Leaf(b)), Leaf(c))
  {
    hide Tighter, PrecedencePass;
    TighterIs(q, p);
    var u := if Tighter(q, p) then Node(p, Leaf(a), Node(q, Leaf(b), Leaf(c)))
             else Node(q, Node(p, Leaf(a), Leaf(b)), Leaf(c));
    assert Ops(Node(q, Leaf(b), Leaf(c))) == [q] && Ops(Node(p, Leaf(a), Leaf(b))) == [p];
    assert Operands(Node(q, Leaf(b), Leaf(c))) == [b, c] && Operands(Node(p, Leaf(a), Leaf(b))) == [a, b];
    assert Ops(u) == [p, q] && Operands(u) == [a, b, c];
    ShapeUnique(u, t);
  }

  /** `fold`: always one tree, the only one that reads back as the run and is so grouped. */
  method Fold(operands: seq<Expr>, operators: seq<BinOp>) returns (t: Tree)
    requires |operands| == |operators| + 1
    ensures Shaped(t) && Grouped(t) && Operands(t) == operands && Ops(t) == operators
    ensures forall u | Grouped(u) && Operands(u) == operands && Ops(u) == operators :: u == t
  {
    var fns, ops := Leaves(operands), operators;
    LeavesRead(operands, operators);
    var pass := 1;
    while pass <= 4
      invariant 1 <= pass <= 5 && |fns| == |ops| + 1 && Passed(fns, pass - 1) && Looser(ops, pass - 1)
      invariant RunOps(fns, ops) == operators && RunOperands(fns) == operands
    {
      fns, ops := FoldPass(fns, ops, pass);
      if |fns| == 1 { break; }
      pass := pass + 1;
    }
    assert ops != [] ==> PrecedencePass(ops[0]) > 4;
    t := fns[0];
    ShapeGroups(t);
    forall u | Grouped(u) && Operands(u) == operands && Ops(u) == operators
      ensures u == t
    {
      ShapeGroups(u);
      ShapeUnique(u, t);
    }
  }
}
