/** What `root.a.b = v` leaves behind: a lookup along a path, and what assignments along other
    paths do to it. */
module PathAssignment {
  import opened Values
  import opened Bloblang
  import opened Interp
  import opened Simulation
  import opened RuleAgreement

  /** The value at the end of a path of object keys. */
  function At(v: Value, path: seq<Str>): Option<Value>
    decreases |path|
  {
    if path == [] then Some(v)
    else match FindField(v, path[0]) case Some(c) => At(c, path[1..]) case None => None
  }

  /** The objects met on the way keep their keys in order, as `set` does. */
  predicate WaySorted(v: Value, path: seq<Str>)
    decreases |path|
  {
    path == [] || !v.Obj? ||
    (Sorted(v.entries) && match Find(v.entries, path[0]) case Some(c) => WaySorted(c, path[1..]) case None => true)
  }

  /** Neither path leads to or through the end of the other. */
  predicate Diverge(p: seq<Str>, q: seq<Str>) { !(p <= q) && !(q <= p) }

  lemma DivergeCons(p: seq<Str>, q: seq<Str>)
    ensures Diverge(p, q) <==> p != [] && q != [] && (p[0] != q[0] || Diverge(p[1..], q[1..]))
  {
    if p != [] && q != [] {
      assert p == [p[0]] + p[1..] && q == [q[0]] + q[1..];
      assert p <= q <==> p[0] == q[0] && p[1..] <= q[1..];
      assert q <= p <==> p[0] == q[0] && q[1..] <= p[1..];
    }
  }

  /** One step of an assignment, seen from a path. */
  lemma SetAt(o: Value, key: Str, v: Value, q: seq<Str>)
    requires q != [] && (o.Obj? ==> Sorted(o.entries))
    ensures var r := SetField(o, key, v);
            && r.Obj? && Sorted(r.entries)
            && At(r, q) == if q[0] != key then At(o, q) else if v.Deleted? then None else At(v, q[1..])
  {
    var es := if o.Obj? then o.entries else [];
    SetRefinesUpdate(es, key, v, q[0]);
  }

  function ChildOf(v: Value, key: Str): Value {
    match FindField(v, key) case Some(c) => c case None => Obj([])
  }

  /** The value is found where it was assigned, and beyond; an assigned `deleted` is not there. */
  lemma {:induction false} AssignedAt(root: Value, path: seq<Str>, v: Value, more: seq<Str>)
    requires WaySorted(root, path)
    ensures At(AssignPath(root, path, v), path + more) == if path != [] && v.Deleted? then None else At(v, more)
    decreases |path|
  {
    if path == [] {
      assert path + more == more;
    } else {
      var child := ChildOf(root, path[0]);
      assert (path + more)[1..] == path[1..] + more;
      AssignedAt(child, path[1..], v, more);
      NeverDeleted(child, path[1..], v);
      SetAt(root, path[0], AssignPath(child, path[1..], v), path + more);
    }
  }

  lemma NeverDeleted(root: Value, path: seq<Str>, v: Value)
    ensures AssignPath(root, path, v).Deleted? <==> path == [] && v.Deleted?
    ensures path != [] ==> AssignPath(root, path, v).Obj?
  {
  }

  /** Every step of the way is an object, whatever was there; a `deleted` makes them too. */
  lemma {:induction false} WayIsObjects(root: Value, path: seq<Str>, v: Value, n: nat)
    requires WaySorted(root, path) && n < |path|
    ensures var o := At(AssignPath(root, path, v), path[..n]); o.Some? && o.value.Obj?
    decreases n
  {
    NeverDeleted(root, path, v);
    if n > 0 {
      var child := ChildOf(root, path[0]);
      assert path[..n][1..] == path[1..][..n - 1];
      WayIsObjects(child, path[1..], v, n - 1);
      NeverDeleted(child, path[1..], v);
      SetAt(root, path[0], AssignPath(child, path[1..], v), path[..n]);
    }
  }

  /** What is at a path that diverges stays what it was. */
  lemma {:induction false} AssignedElsewhere(root: Value, path: seq<Str>, v: Value, q: seq<Str>)
    requires Diverge(path, q) && WaySorted(root, q)
    ensures At(AssignPath(root, path, v), q) == At(root, q)
    decreases |path|
  {
    hide Diverge;
    DivergeCons(path, q);
    var child := ChildOf(root, path[0]);
    NeverDeleted(child, path[1..], v);
    SetAt(root, path[0], AssignPath(child, path[1..], v), q);
    if path[0] == q[0] {
      DivergeCons(path[1..], q[1..]);
      AssignedElsewhere(child, path[1..], v, q[1..]);
    }
  }

  /** Objects on the way stay sorted, along the path itself and along others. */
  lemma {:induction false} WayKept(root: Value, path: seq<Str>, v: Value, q: seq<Str>)
    requires (q == path || Diverge(path, q)) && WaySorted(root, q)
    ensures WaySorted(AssignPath(root, path, v), q)
    decreases |path|
  {
    if path != [] {
      DivergeCons(path, q);
      hide Diverge;
      var child := ChildOf(root, path[0]);
      var r := AssignPath(child, path[1..], v);
      var es := if root.Obj? then root.entries else [];
      NeverDeleted(child, path[1..], v);
      SetRefinesUpdate(es, path[0], r, q[0]);
      if path[0] == q[0] { WayKept(child, path[1..], v, q[1..]); }
    }
  }

  // ---- in a mapping ---------------------------------------------------------------------

  /** What an assignment along a path builds on. */
  function Base(root: Value, rootSet: bool): Value { if !rootSet && root.Nothing? then Obj([]) else root }

  /** No statement assigns to `q`, to a part of it or to something around it. */
  predicate Spared(q: seq<Str>, ss: seq<Statement>) {
    forall i | 0 <= i < |ss| ::
      match ss[i].target
      case Root => false
      case RootPath(path) => Diverge(path, q)
      case _ => true
  }

  /** What no statement of a run assigns to is in the end what it was. */
  lemma {:induction false} SparedStays(l: Lib, p: Mapping, ss: seq<Statement>, root: Value, rootSet: bool, c: Ctx, q: seq<Str>)
    requires Spared(q, ss) && q != [] && WaySorted(root, q) && RunFrom(l, p, ss, root, rootSet, c).r.Ok?
    ensures At(RunFrom(l, p, ss, root, rootSet, c).r.v, q) == At(root, q)
    decreases |ss|
  {
    hide Outcome, AssignPath, RunFrom;
    if ss == [] {
      RunNone(l, p, root, rootSet, c);
    } else {
      RunStep(l, p, ss, root, rootSet, c);
      var o := Outcome(l, p, ss[0].expr, c);
      var x := NextState(ss[0].target, o.r.v, root, rootSet, o.c);
      if ss[0].target.RootPath? && !o.r.v.Nothing? {
        AssignedElsewhere(Base(root, rootSet), ss[0].target.path, o.r.v, q);
        WayKept(Base(root, rootSet), ss[0].target.path, o.r.v, q);
        EmptyBase(root, rootSet, q);
      }
      SparedStays(l, p, ss[1..], x.root, x.rootSet, x.c, q);
    }
  }

  lemma RunNone(l: Lib, p: Mapping, root: Value, rootSet: bool, c: Ctx)
    ensures RunFrom(l, p, [], root, rootSet, c) == Out(Ok(root), c)
  {
  }

  lemma EmptyBase(root: Value, rootSet: bool, q: seq<Str>)
    requires q != []
    ensures At(Base(root, rootSet), q) == At(root, q)
  {
  }

  /** A value assigned along a path is there in the end, unless a later statement assigns to the
      path, to a part of it or to something around it. */
  lemma FieldHolds(l: Lib, p: Mapping, ss: seq<Statement>, root: Value, rootSet: bool, c: Ctx)
    requires ss != [] && ss[0].target.RootPath? && ss[0].target.path != [] && Spared(ss[0].target.path, ss[1..])
    requires WaySorted(root, ss[0].target.path) && RunFrom(l, p, ss, root, rootSet, c).r.Ok?
    ensures var v := Outcome(l, p, ss[0].expr, c).r;
            v.Ok? && (!v.v.Nothing? ==>
              At(RunFrom(l, p, ss, root, rootSet, c).r.v, ss[0].target.path) == if v.v.Deleted? then None else Some(v.v))
  {
    hide Outcome, AssignPath, RunFrom;
    RunStep(l, p, ss, root, rootSet, c);
    var o := Outcome(l, p, ss[0].expr, c);
    if !o.r.v.Nothing? {
      var path := ss[0].target.path;
      AssignedAt(Base(root, rootSet), path, o.r.v, []);
      assert path + [] == path;
      WayKept(Base(root, rootSet), path, o.r.v, path);
      var x := NextState(ss[0].target, o.r.v, root, rootSet, o.c);
      SparedStays(l, p, ss[1..], x.root, x.rootSet, x.c, path);
    }
  }

  /** `root.p = e`, then `root.q = f`, as interpreted: both values are there in the end, and
      everything at neither path is as it was. */
  lemma TwoFields(l: Lib, p: Mapping, a: seq<Str>, e: Expr, b: seq<Str>, f: Expr, c: Ctx, q: seq<Str>)
    requires p.statements == [Statement(RootPath(a), e), Statement(RootPath(b), f)] && Diverge(a, b)
    requires Diverge(a, q) && Diverge(b, q)
    requires WaySorted(RootOf(c), a) && WaySorted(RootOf(c), b) && WaySorted(RootOf(c), q)
    ensures var x := Outcome(l, p, e, c);
            var y := Outcome(l, p, f, x.c);
            var r := Run(l, p, c).r;
            if x.r.Err? || y.r.Err? then r.Err?
            else
              && r.Ok? && At(r.v, q) == At(RootOf(c), q)
              && (!x.r.v.Nothing? ==> At(r.v, a) == if x.r.v.Deleted? then None else Some(x.r.v))
              && (!y.r.v.Nothing? ==> At(r.v, b) == if y.r.v.Deleted? then None else Some(y.r.v))
  {
    hide Outcome, AssignPath, RunFrom;
    var ss := p.statements;
    var root := RootOf(c);
    assert ss[1..] == [ss[1]] && ss[1..][1..] == [];
    RunStep(l, p, ss, root, false, c);
    var x := Outcome(l, p, e, c);
    if x.r.Ok? {
      var s := NextState(ss[0].target, x.r.v, root, false, x.c);
      RunStep(l, p, ss[1..], s.root, s.rootSet, s.c);
      var y := Outcome(l, p, f, s.c);
      if y.r.Ok? {
        var t := NextState(ss[1].target, y.r.v, s.root, s.rootSet, y.c);
        RunNone(l, p, t.root, t.rootSet, t.c);
        SparedStays(l, p, ss, root, false, c, q);
        FieldHolds(l, p, ss, root, false, c);
        if !x.r.v.Nothing? {
          WayKept(Base(root, false), a, x.r.v, b);
        }
        FieldHolds(l, p, ss[1..], s.root, s.rootSet, s.c);
      }
    }
  }
}
