/** Programs over `value` variables: on every run the counted, pooled and shared heap
    is indistinguishable from immutable trees. */
module StoreRun {
  import opened Values
  import opened ValueStore

  /** Statements over variables, numbered; each is one constructor, assignment or mutator. */
  datatype Op =
    | Immediate(d: nat, v: Value)
    | Text(d: nat, tag: Tag, text: Str)
    | NewArray(d: nat)
    | NewObject(d: nat)
    | CopyAssign(d: nat, s: nat)
    | MoveAssign(d: nat, s: nat)
    | ItemOf(d: nat, s: nat, i: nat)
    | FieldOf(d: nat, s: nat, key: Str)
    | SetOp(d: nat, key: Str, s: nat)
    | RemoveOp(d: nat, key: Str)
    | PutOp(d: nat, i: nat, s: nat)

  /** Variables are distinct objects that exist; immediates carry no payload. */
  predicate WellFormed(op: Op, n: nat) {
    && op.d < n
    && (op.Immediate? ==> Scalar(op.v))
    && (op.Text? ==> KindOf(op.tag) == KStr)
    && (op.CopyAssign? || op.MoveAssign? || op.ItemOf? || op.FieldOf? || op.SetOp? || op.PutOp? ==> op.s < n)
  }

  /** The same statement on immutable trees. One that throws changes nothing. */
  function Meaning(vs: seq<Value>, op: Op): seq<Value>
    requires WellFormed(op, |vs|)
  {
    match op
    case Immediate(d, v) => vs[d := v]
    case Text(d, tag, s) => vs[d := Dress(tag, String(s))]
    case NewArray(d) => vs[d := Arr([])]
    case NewObject(d) => vs[d := Obj([])]
    case CopyAssign(d, s) => vs[d := vs[s]]
    case MoveAssign(d, s) =>
      if d == s then vs
      else vs[d := vs[s]][s := if Scalar(vs[s]) then vs[s] else Null]
    case ItemOf(d, s, i) => if vs[s].Arr? && i < |vs[s].items| then vs[d := vs[s].items[i]] else vs
    case FieldOf(d, s, key) =>
      (match FindField(vs[s], key) case Some(x) => vs[d := x] case None => vs)
    case SetOp(d, key, s) => vs[d := SetField(vs[d], key, vs[s])]
    case RemoveOp(d, key) => vs[d := RemoveField(vs[d], key)]
    case PutOp(d, i, s) =>
      if !vs[d].Arr? || i > |vs[d].items| then vs
      else if i < |vs[d].items| then vs[d := Arr(vs[d].items[i := vs[s]])]
      else vs[d := Arr(vs[d].items + [vs[s]])]
  }

  function MeaningOf(vs: seq<Value>, ops: seq<Op>): (r: seq<Value>)
    requires forall k | 0 <= k < |ops| :: WellFormed(ops[k], |vs|)
    ensures |r| == |vs|
    decreases |ops|
  {
    if ops == [] then vs else MeaningOf(Meaning(vs, ops[0]), ops[1..])
  }

  function Others(hs: seq<Handle>, d: nat): seq<Handle>
    requires d < |hs|
  {
    hs[..d] + hs[d + 1..]
  }

  lemma CountOthers(hs: seq<Handle>, d: nat, q: Option<nat>)
    requires d < |hs|
    ensures Count(hs, q) == Count([hs[d]] + Others(hs, d), q)
  {
    CountCons(hs[d], Others(hs, d), q);
    CountConcat(hs[..d], hs[d + 1..], q);
    assert hs == hs[..d] + ([hs[d]] + hs[d + 1..]);
    CountConcat(hs[..d], [hs[d]] + hs[d + 1..], q);
    CountCons(hs[d], hs[d + 1..], q);
  }

  /** The invariant sees outside handles only through membership and counts. */
  lemma Permute(cells: seq<Cell>, free: map<Kind, seq<nat>>, tree: seq<Value>, a: seq<Handle>, b: seq<Handle>)
    requires Inv(cells, free, tree, a, {})
    requires (forall q :: Count(a, q) == Count(b, q)) && (forall h | h in b :: h in a)
    ensures Inv(cells, free, tree, b, {})
  {
    forall p: nat | p < |cells|
      ensures CellOk(cells, free, tree, Handles(cells, b, p), {}, p)
    {
      assert Count(a, Some(p)) == Count(b, Some(p));
      assert CellOk(cells, free, tree, Handles(cells, a, p), {}, p);
    }
  }

  lemma TakeOut(cells: seq<Cell>, free: map<Kind, seq<nat>>, tree: seq<Value>, hs: seq<Handle>, d: nat)
    requires d < |hs|
    ensures Inv(cells, free, tree, hs, {}) <==> Inv(cells, free, tree, [hs[d]] + Others(hs, d), {})
  {
    var b := [hs[d]] + Others(hs, d);
    forall q ensures Count(hs, q) == Count(b, q) { CountOthers(hs, d, q); }
    assert forall h :: h in hs <==> h in b;
    if Inv(cells, free, tree, hs, {}) { Permute(cells, free, tree, hs, b); }
    if Inv(cells, free, tree, b, {}) { Permute(cells, free, tree, b, hs); }
  }

  lemma CountUpdate(hs: seq<Handle>, d: nat, h: Handle, q: Option<nat>)
    requires d < |hs|
    ensures Count(hs[d := h], q) + (if Points(hs[d], q) then 1 else 0) == Count(hs, q) + (if Points(h, q) then 1 else 0)
  {
    CountOthers(hs, d, q);
    CountOthers(hs[d := h], d, q);
    assert Others(hs[d := h], d) == Others(hs, d);
    CountCons(hs[d], Others(hs, d), q);
    CountCons(h, Others(hs, d), q);
  }

  /** A temporary next to the variables, with variable `d` singled out. */
  lemma Extract(cells: seq<Cell>, free: map<Kind, seq<nat>>, tree: seq<Value>, h: Handle, hs: seq<Handle>, d: nat)
    requires d < |hs| && Inv(cells, free, tree, [h] + hs, {})
    ensures Inv(cells, free, tree, [hs[d]] + ([h] + Others(hs, d)), {})
  {
    var b := [hs[d]] + ([h] + Others(hs, d));
    forall q
      ensures Count([h] + hs, q) == Count(b, q)
    {
      CountCons(h, hs, q);
      CountOthers(hs, d, q);
      CountCons(hs[d], Others(hs, d), q);
      CountCons(hs[d], [h] + Others(hs, d), q);
      CountCons(h, Others(hs, d), q);
    }
    Permute(cells, free, tree, [h] + hs, b);
  }

  lemma Updated(cells: seq<Cell>, free: map<Kind, seq<nat>>, tree: seq<Value>, hs: seq<Handle>, d: nat, r: Handle)
    requires d < |hs| && Inv(cells, free, tree, [r] + Others(hs, d), {})
    ensures Inv(cells, free, tree, hs[d := r], {})
  {
    assert Others(hs[d := r], d) == Others(hs, d);
    TakeOut(cells, free, tree, hs[d := r], d);
  }

  /** The variables other than `d` look the same, so the views change at `d` alone. */
  lemma ViewsUpdated(hs: seq<Handle>, d: nat, r: Handle, was: seq<Value>, now: seq<Value>)
    requires d < |hs| && forall k | k in Others(hs, d) :: TreeOf(k, now) == TreeOf(k, was)
    ensures TreesOf(hs[d := r], now) == TreesOf(hs, was)[d := TreeOf(r, now)]
  {
    forall j | 0 <= j < |hs| && j != d
      ensures TreeOf(hs[j], now) == TreeOf(hs[j], was)
    {
      assert hs[j] == if j < d then Others(hs, d)[j] else Others(hs, d)[j - 1];
    }
  }

  /** Destroys what variable `d` held and gives it `h`. */
  method Replace(st: Store, vars: seq<Handle>, d: nat, h: Handle) returns (next: seq<Handle>)
    requires d < |vars| && st.Valid([h] + vars)
    modifies st
    ensures st.Valid(next) && st.tree == old(st.tree)
    ensures TreesOf(next, st.tree) == TreesOf(vars, st.tree)[d := TreeOf(h, st.tree)]
  {
    Extract(st.cells, st.free, st.tree, h, vars, d);
    st.Release(vars[d], [h] + Others(vars, d), {});
    next := vars[d := h];
    Updated(st.cells, st.free, st.tree, vars, d, h);
  }

  method MakeText(st: Store, vars: seq<Handle>, d: nat, tag: Tag, s: Str) returns (next: seq<Handle>)
    requires d < |vars| && st.Valid(vars) && KindOf(tag) == KStr
    modifies st
    ensures st.Valid(next)
    ensures TreesOf(next, st.tree) == TreesOf(vars, old(st.tree))[d := Dress(tag, String(s))]
  {
    var h := st.Alloc(tag, vars);
    assert [] + vars == vars;
    st.Write(h, StrData(s), [], [], vars);
    next := Replace(st, vars, d, h);
  }

  method MakeEmpty(st: Store, vars: seq<Handle>, d: nat, tag: Tag) returns (next: seq<Handle>)
    requires d < |vars| && st.Valid(vars) && (tag.TagArr? || tag.TagObj?)
    modifies st
    ensures st.Valid(next)
    ensures TreesOf(next, st.tree) == TreesOf(vars, old(st.tree))[d := if tag.TagArr? then Arr([]) else Obj([])]
  {
    var h := st.Alloc(tag, vars);
    assert TreesOf(vars, st.tree) == TreesOf(vars, old(st.tree));
    assert TreesOf([], []) == [] && EntriesOf([], []) == [];
    assert TreeOf(h, st.tree) == if tag.TagArr? then Arr([]) else Obj([]);
    next := Replace(st, vars, d, h);
  }

  /** `a = b`: the destination is released before the source is copied. */
  method Assign(st: Store, vars: seq<Handle>, d: nat, s: nat) returns (next: seq<Handle>)
    requires d < |vars| && s < |vars| && st.Valid(vars)
    modifies st
    ensures st.Valid(next) && st.tree == old(st.tree)
    ensures TreesOf(next, st.tree) == TreesOf(vars, st.tree)[d := TreeOf(vars[s], st.tree)]
  {
    if d == s { return vars; }
    TakeOut(st.cells, st.free, st.tree, vars, d);
    st.Release(vars[d], Others(vars, d), {});
    assert vars[s] == Others(vars, d)[if s < d then s else s - 1];
    if vars[s].Ref? { Live(st.cells, st.free, st.tree, Others(vars, d), {}, vars[s]); }
    st.Copy(vars[s], Others(vars, d));
    next := vars[d := vars[s]];
    Updated(st.cells, st.free, st.tree, vars, d, vars[s]);
  }

  /** `a = std::move(b)`: a payload changes hands uncounted and leaves null behind. */
  method MoveTo(st: Store, vars: seq<Handle>, d: nat, s: nat) returns (next: seq<Handle>)
    requires d < |vars| && s < |vars| && d != s && st.Valid(vars) && vars[s].Ref?
    modifies st
    ensures st.Valid(next) && st.tree == old(st.tree)
    ensures TreesOf(next, st.tree) == TreesOf(vars, st.tree)[d := TreeOf(vars[s], st.tree)][s := Null]
  {
    TakeOut(st.cells, st.free, st.tree, vars, d);
    st.Release(vars[d], Others(vars, d), {});
    next := vars[d := vars[s]][s := Imm(Null)];
    assert vars[s] == Others(vars, d)[if s < d then s else s - 1];
    forall q
      ensures Count(Others(vars, d), q) == Count(next, q)
    {
      CountOthers(vars, d, q);
      CountCons(vars[d], Others(vars, d), q);
      CountUpdate(vars, d, vars[s], q);
      CountUpdate(vars[d := vars[s]], s, Imm(Null), q);
    }
    PermuteWithNull(st.cells, st.free, st.tree, Others(vars, d), next);
  }

  lemma PermuteWithNull(cells: seq<Cell>, free: map<Kind, seq<nat>>, tree: seq<Value>, a: seq<Handle>, b: seq<Handle>)
    requires Inv(cells, free, tree, a, {})
    requires (forall q :: Count(a, q) == Count(b, q)) && (forall h | h in b :: h in a || h == Imm(Null))
    ensures Inv(cells, free, tree, b, {})
  {
    forall p: nat | p < |cells|
      ensures CellOk(cells, free, tree, Handles(cells, b, p), {}, p)
    {
      assert Count(a, Some(p)) == Count(b, Some(p));
      assert CellOk(cells, free, tree, Handles(cells, a, p), {}, p);
    }
  }

  /** A copy of a handle inside variable `s`, constructed before `d` is released. */
  method CopyOut(st: Store, vars: seq<Handle>, d: nat, s: nat, k: nat) returns (next: seq<Handle>)
    requires d < |vars| && s < |vars| && st.Valid(vars)
    requires vars[s].Ref? && Fits(st.cells, vars[s]) && k < |Kids(st.cells[vars[s].p].data)|
    modifies st
    ensures st.Valid(next) && st.tree == old(st.tree)
    ensures TreesOf(next, st.tree) == TreesOf(vars, st.tree)[d := TreeOf(Kids(old(st.cells)[vars[s].p].data)[k], st.tree)]
  {
    var h := Kids(st.cells[vars[s].p].data)[k];
    assert CellOk(st.cells, st.free, st.tree, Handles(st.cells, vars, vars[s].p), {}, vars[s].p);
    if h.Ref? { Live(st.cells, st.free, st.tree, vars, {}, h); }
    st.Copy(h, vars);
    next := Replace(st, vars, d, h);
  }

  method Item(st: Store, vars: seq<Handle>, d: nat, s: nat, i: nat) returns (next: seq<Handle>)
    requires d < |vars| && s < |vars| && st.Valid(vars)
    modifies st
    ensures st.Valid(next)
    ensures TreesOf(next, st.tree) == Meaning(TreesOf(vars, old(st.tree)), ItemOf(d, s, i))
  {
    TakeOut(st.cells, st.free, st.tree, vars, s);
    ViewIsArr(st.cells, st.free, st.tree, vars[s], Others(vars, s));
    if !(vars[s].Ref? && vars[s].tag.TagArr?) { return vars; }
    ItemsView(st.cells, st.free, st.tree, vars[s], Others(vars, s));
    if i >= |st.cells[vars[s].p].data.items| { return vars; }
    next := CopyOut(st, vars, d, s, i);
  }

  /** The lower bound decides membership. */
  lemma {:induction false} FindAtLower(es: seq<Entry>, key: Str)
    ensures var i := LowerEntry(es, key);
            Find(es, key) == if i < |es| && es[i].key == key then Some(es[i].val) else None
  {
    if es != [] && Less(es[0].key, key) { FindAtLower(es[1..], key); }
  }

  method FieldTo(st: Store, vars: seq<Handle>, d: nat, s: nat, key: Str) returns (next: seq<Handle>)
    requires d < |vars| && s < |vars| && st.Valid(vars)
    modifies st
    ensures st.Valid(next)
    ensures TreesOf(next, st.tree) == Meaning(TreesOf(vars, old(st.tree)), FieldOf(d, s, key))
  {
    TakeOut(st.cells, st.free, st.tree, vars, s);
    ViewIsObj(st.cells, st.free, st.tree, vars[s], Others(vars, s));
    if !(vars[s].Ref? && vars[s].tag.TagObj?) { return vars; }
    SlotsView(st.cells, st.free, st.tree, vars[s], Others(vars, s));
    var slots := st.cells[vars[s].p].data.slots;
    var i := LowerSlot(slots, key);
    SameLower(slots, st.tree, key);
    FindAtLower(EntriesOf(slots, st.tree), key);
    if i >= |slots| || slots[i].key != key { return vars; }
    assert Kids(ObjData(slots))[i] == slots[i].h;
    next := CopyOut(st, vars, d, s, i);
  }

  /** Passing `vars[s]` by value: one more handle, before the mutator runs. */
  method Argument(st: Store, vars: seq<Handle>, d: nat, s: nat)
    requires d < |vars| && s < |vars| && st.Valid(vars)
    modifies st
    ensures st.Valid([vars[d]] + ([vars[s]] + Others(vars, d))) && st.tree == old(st.tree)
  {
    if vars[s].Ref? { Live(st.cells, st.free, st.tree, vars, {}, vars[s]); }
    st.Copy(vars[s], vars);
    Extract(st.cells, st.free, st.tree, vars[s], vars, d);
  }

  method SetVar(st: Store, vars: seq<Handle>, d: nat, key: Str, s: nat) returns (next: seq<Handle>)
    requires d < |vars| && s < |vars| && st.Valid(vars)
    modifies st
    ensures st.Valid(next)
    ensures TreesOf(next, st.tree) == Meaning(TreesOf(vars, old(st.tree)), SetOp(d, key, s))
  {
    Argument(st, vars, d, s);
    var r := st.Set(vars[d], key, vars[s], Others(vars, d));
    next := vars[d := r];
    Updated(st.cells, st.free, st.tree, vars, d, r);
    ViewsUpdated(vars, d, r, old(st.tree), st.tree);
  }

  method RemoveVar(st: Store, vars: seq<Handle>, d: nat, key: Str) returns (next: seq<Handle>)
    requires d < |vars| && st.Valid(vars)
    modifies st
    ensures st.Valid(next)
    ensures TreesOf(next, st.tree) == Meaning(TreesOf(vars, old(st.tree)), RemoveOp(d, key))
  {
    TakeOut(st.cells, st.free, st.tree, vars, d);
    var r := st.Remove(vars[d], key, Others(vars, d));
    next := vars[d := r];
    Updated(st.cells, st.free, st.tree, vars, d, r);
    ViewsUpdated(vars, d, r, old(st.tree), st.tree);
  }

  method PutVar(st: Store, vars: seq<Handle>, d: nat, i: nat, s: nat) returns (next: seq<Handle>)
    requires d < |vars| && s < |vars| && st.Valid(vars)
    modifies st
    ensures st.Valid(next)
    ensures TreesOf(next, st.tree) == Meaning(TreesOf(vars, old(st.tree)), PutOp(d, i, s))
  {
    TakeOut(st.cells, st.free, st.tree, vars, d);
    ViewIsArr(st.cells, st.free, st.tree, vars[d], Others(vars, d));
    if !(vars[d].Ref? && vars[d].tag.TagArr?) { return vars; }
    ItemsView(st.cells, st.free, st.tree, vars[d], Others(vars, d));
    if i > |st.cells[vars[d].p].data.items| { return vars; }
    Argument(st, vars, d, s);
    var r := st.PutItem(vars[d], i, vars[s], Others(vars, d));
    next := vars[d := r];
    Updated(st.cells, st.free, st.tree, vars, d, r);
    ViewsUpdated(vars, d, r, old(st.tree), st.tree);
  }

  /** One statement on the heap is the same statement on immutable trees. */
  method Step(st: Store, vars: seq<Handle>, op: Op) returns (next: seq<Handle>)
    requires st.Valid(vars) && WellFormed(op, |vars|)
    modifies st
    ensures st.Valid(next)
    ensures TreesOf(next, st.tree) == Meaning(TreesOf(vars, old(st.tree)), op)
  {
    match op
    case Immediate(d, v) =>
      st.Copy(Imm(v), vars);
      next := Replace(st, vars, d, Imm(v));
    case Text(d, tag, s) => next := MakeText(st, vars, d, tag, s);
    case NewArray(d) => next := MakeEmpty(st, vars, d, TagArr);
    case NewObject(d) => next := MakeEmpty(st, vars, d, TagObj);
    case CopyAssign(d, s) => next := Assign(st, vars, d, s);
    case MoveAssign(d, s) =>
      ScalarView(st.cells, st.free, st.tree, vars, s);
      ghost var vs := TreesOf(vars, st.tree);
      assert d != s ==> vs[d := vs[s]][s := vs[s]] == vs[d := vs[s]];
      if d == s {
        next := vars;
      } else if vars[s].Ref? {
        next := MoveTo(st, vars, d, s);
      } else {
        next := Assign(st, vars, d, s);
      }
    case ItemOf(d, s, i) => next := Item(st, vars, d, s, i);
    case FieldOf(d, s, key) => next := FieldTo(st, vars, d, s, key);
    case SetOp(d, key, s) => next := SetVar(st, vars, d, key, s);
    case RemoveOp(d, key) => next := RemoveVar(st, vars, d, key);
    case PutOp(d, i, s) => next := PutVar(st, vars, d, i, s);
  }

  lemma ScalarView(cells: seq<Cell>, free: map<Kind, seq<nat>>, tree: seq<Value>, vars: seq<Handle>, s: nat)
    requires s < |vars| && Inv(cells, free, tree, vars, {})
    ensures Scalar(TreeOf(vars[s], tree)) <==> vars[s].Imm?
  {
    if vars[s].Ref? {
      Live(cells, free, tree, vars, {}, vars[s]);
      assert CellOk(cells, free, tree, Handles(cells, vars, vars[s].p), {}, vars[s].p);
    } else {
      assert Fits(cells, vars[s]);
    }
  }

  /** On every run from `n` null variables, however payloads are shared, cloned and
      recycled, each variable reads as it would with immutable trees. */
  method Run(n: nat, ops: seq<Op>) returns (st: Store, vars: seq<Handle>)
    requires forall k | 0 <= k < |ops| :: WellFormed(ops[k], n)
    ensures st.Valid(vars)
    ensures TreesOf(vars, st.tree) == MeaningOf(seq(n, _ => Null), ops)
  {
    st := new Store();
    vars := [];
    while |vars| < n
      invariant |vars| <= n && st.Valid(vars) && vars == seq(|vars|, _ => Imm(Null))
      invariant fresh(st)
    {
      st.Copy(Imm(Null), vars);
      vars := [Imm(Null)] + vars;
    }
    ghost var start := seq(n, _ => Null);
    assert TreesOf(vars, st.tree) == start;
    for i := 0 to |ops|
      invariant st.Valid(vars) && |vars| == n && fresh(st)
      invariant MeaningOf(TreesOf(vars, st.tree), ops[i..]) == MeaningOf(start, ops)
    {
      assert ops[i..][1..] == ops[i + 1..];
      vars := Step(st, vars, ops[i]);
    }
  }

  /** Copy-assignment releases the destination before it reads the source. Assigning a value
      what one of its own slots holds is therefore well defined exactly when the payload with
      the slot is shared: otherwise the slot has been destroyed by the time it is copied. */
  method AssignOwnKid(st: Store, vars: seq<Handle>, d: nat, k: nat) returns (next: seq<Handle>, defined: bool)
    requires d < |vars| && st.Valid(vars) && vars[d].Ref? && Fits(st.cells, vars[d])
    requires k < |Kids(st.cells[vars[d].p].data)|
    modifies st
    ensures defined <==> RcOf(old(st.cells), vars[d]) > 1
    ensures defined ==> st.Valid(next) && st.tree == old(st.tree)
    ensures defined ==>
              TreesOf(next, st.tree) == TreesOf(vars, st.tree)[d := TreeOf(Kids(old(st.cells)[vars[d].p].data)[k], st.tree)]
    ensures !defined ==> Destroyed(st.cells, vars[d])
  {
    ghost var rest := Others(vars, d);
    TakeOut(st.cells, st.free, st.tree, vars, d);
    Live(st.cells, st.free, st.tree, vars, {}, vars[d]);
    st.Release(vars[d], rest, {});
    next, defined := vars, st.cells[vars[d].p].Cell? && st.cells[vars[d].p].rc > 0;
    if defined {
      var h := Kids(st.cells[vars[d].p].data)[k];
      assert h in Kids(st.cells[vars[d].p].data);
      assert CellOk(st.cells, st.free, st.tree, Handles(st.cells, rest, vars[d].p), {}, vars[d].p);
      if h.Ref? { Live(st.cells, st.free, st.tree, rest, {}, h); }
      st.Copy(h, rest);
      next := vars[d := h];
      Updated(st.cells, st.free, st.tree, vars, d, h);
    }
  }

  /** `a = a[i]` on an array. */
  method AssignOwnItem(st: Store, vars: seq<Handle>, d: nat, i: nat) returns (next: seq<Handle>, defined: bool)
    requires d < |vars| && st.Valid(vars) && TreeOf(vars[d], st.tree).Arr? && i < |TreeOf(vars[d], st.tree).items|
    modifies st
    ensures defined <==> RcOf(old(st.cells), vars[d]) > 1
    ensures defined ==> st.Valid(next) && TreesOf(next, st.tree) == Meaning(TreesOf(vars, old(st.tree)), ItemOf(d, d, i))
    ensures !defined ==> Destroyed(st.cells, vars[d])
  {
    TakeOut(st.cells, st.free, st.tree, vars, d);
    ViewIsArr(st.cells, st.free, st.tree, vars[d], Others(vars, d));
    ItemsView(st.cells, st.free, st.tree, vars[d], Others(vars, d));
    next, defined := AssignOwnKid(st, vars, d, i);
  }

  /** `a = a[key]` on an object. */
  method AssignOwnField(st: Store, vars: seq<Handle>, d: nat, key: Str) returns (next: seq<Handle>, defined: bool)
    requires d < |vars| && st.Valid(vars) && FindField(TreeOf(vars[d], st.tree), key).Some?
    modifies st
    ensures defined <==> RcOf(old(st.cells), vars[d]) > 1
    ensures defined ==> st.Valid(next) && TreesOf(next, st.tree) == Meaning(TreesOf(vars, old(st.tree)), FieldOf(d, d, key))
    ensures !defined ==> Destroyed(st.cells, vars[d])
  {
    TakeOut(st.cells, st.free, st.tree, vars, d);
    ViewIsObj(st.cells, st.free, st.tree, vars[d], Others(vars, d));
    SlotsView(st.cells, st.free, st.tree, vars[d], Others(vars, d));
    var slots := st.cells[vars[d].p].data.slots;
    var k := LowerSlot(slots, key);
    SameLower(slots, st.tree, key);
    FindAtLower(EntriesOf(slots, st.tree), key);
    assert Kids(ObjData(slots))[k] == slots[k].h;
    next, defined := AssignOwnKid(st, vars, d, k);
  }

  /** An array of one element that nothing else holds. */
  method OwnItemDestroyed() returns (st: Store, defined: bool)
    ensures !defined
  {
    st := new Store();
    var h := st.Alloc(TagArr, []);
    assert [h] + [] == [h];
    st.Copy(Imm(Null), [h]);
    assert [Imm(Null)] + [h] == [Imm(Null)] + ([h] + []);
    Swap(st.cells, st.free, st.tree, Imm(Null), h, []);
    assert [h] + ([Imm(Null)] + []) == [h] + [Imm(Null)];
    st.Write(h, ArrData([Imm(Null)]), [Imm(Null)], [], []);
    assert [h] + ([] + []) == [h];
    assert TreesOf([Imm(Null)], st.tree) == [Null];
    var _, ok := AssignOwnItem(st, [h], 0, 0);
    defined := ok;
  }
}
