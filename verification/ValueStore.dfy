/** The heap under `value`: intrusively counted payloads, a capped freelist per
    payload type, and cloning of a shared payload before it is written. Each
    payload's tree is a ghost field tied to its contents cell by cell. */
module ValueStore {
  import opened Values

  datatype Kind = KStr | KArr | KObj
  datatype Tag = TagString | TagBytes | TagRaw | TagArr | TagObj

  /** A `value`: an immediate, or a tag and a payload pointer. */
  datatype Handle = Imm(v: Value) | Ref(tag: Tag, p: nat)
  datatype Slot = Slot(key: Str, h: Handle)
  datatype Data = StrData(s: Str) | ArrData(items: seq<Handle>) | ObjData(slots: seq<Slot>)

  /** `Gone` is a payload handed back to the allocator. */
  datatype Cell = Cell(rc: nat, data: Data) | Gone

  const POOL_CAP: nat := 512

  function KindOf(t: Tag): Kind {
    match t case TagArr => KArr case TagObj => KObj case _ => KStr
  }

  function DataKind(d: Data): Kind {
    match d case StrData(_) => KStr case ArrData(_) => KArr case ObjData(_) => KObj
  }

  function Empty(k: Kind): Data {
    match k case KStr => StrData([]) case KArr => ArrData([]) case KObj => ObjData([])
  }

  predicate Scalar(v: Value) {
    v.Null? || v.Bool? || v.I64? || v.F64? || v.F32? || v.Timestamp? || v.Deleted? || v.Nothing?
  }

  function Kids(d: Data): seq<Handle> {
    match d
    case StrData(_) => []
    case ArrData(items) => items
    case ObjData(slots) => seq(|slots|, i requires 0 <= i < |slots| => slots[i].h)
  }

  // ---- abstract trees -------------------------------------------------------------

  function Dress(t: Tag, v: Value): Value {
    if t.TagBytes? && v.String? then Bytes(v.s)
    else if t.TagRaw? && v.String? then RawNumber(v.s)
    else v
  }

  function TreeOf(h: Handle, tree: seq<Value>): Value {
    match h
    case Imm(v) => v
    case Ref(t, p) => if p < |tree| then Dress(t, tree[p]) else Null
  }

  function TreesOf(hs: seq<Handle>, tree: seq<Value>): seq<Value> {
    seq(|hs|, i requires 0 <= i < |hs| => TreeOf(hs[i], tree))
  }

  function EntriesOf(ss: seq<Slot>, tree: seq<Value>): seq<Entry> {
    seq(|ss|, i requires 0 <= i < |ss| => Entry(ss[i].key, TreeOf(ss[i].h, tree)))
  }

  function Fold(d: Data, tree: seq<Value>): Value {
    match d
    case StrData(s) => String(s)
    case ArrData(items) => Arr(TreesOf(items, tree))
    case ObjData(slots) => Obj(EntriesOf(slots, tree))
  }

  lemma FoldFrame(d: Data, a: seq<Value>, b: seq<Value>)
    requires forall h | h in Kids(d) :: TreeOf(h, a) == TreeOf(h, b)
    ensures Fold(d, a) == Fold(d, b)
  {
    match d
    case StrData(_) =>
    case ArrData(items) =>
      assert TreesOf(items, a) == TreesOf(items, b);
    case ObjData(slots) =>
      forall i | 0 <= i < |slots|
        ensures EntriesOf(slots, a)[i] == EntriesOf(slots, b)[i]
      {
        assert Kids(d)[i] == slots[i].h;
      }
      assert EntriesOf(slots, a) == EntriesOf(slots, b);
  }

  // ---- counting handles -----------------------------------------------------------

  /** Whether a handle points to payload `q`, or to any payload at all. */
  predicate Points(h: Handle, q: Option<nat>) { h.Ref? && (q.Some? ==> h.p == q.value) }

  function Count(hs: seq<Handle>, q: Option<nat>): nat {
    if hs == [] then 0 else (if Points(hs[0], q) then 1 else 0) + Count(hs[1..], q)
  }

  function CellCount(c: Cell, q: Option<nat>): nat { if c.Cell? then Count(Kids(c.data), q) else 0 }

  /** Handles held inside payloads. */
  function Refs(cells: seq<Cell>, q: Option<nat>): nat {
    if cells == [] then 0 else CellCount(cells[0], q) + Refs(cells[1..], q)
  }

  /** Every handle to payload `p`, wherever it lives. */
  function Handles(cells: seq<Cell>, ext: seq<Handle>, p: nat): nat {
    Refs(cells, Some(p)) + Count(ext, Some(p))
  }

  lemma {:induction false} CountConcat(a: seq<Handle>, b: seq<Handle>, q: Option<nat>)
    ensures Count(a + b, q) == Count(a, q) + Count(b, q)
  {
    if a == [] {
      assert a + b == b;
    } else {
      CountConcat(a[1..], b, q);
      assert (a + b)[1..] == a[1..] + b;
    }
  }

  lemma {:induction false} CountHas(hs: seq<Handle>, i: nat, q: Option<nat>)
    requires i < |hs| && Points(hs[i], q)
    ensures Count(hs, q) >= 1
  {
    if i > 0 { CountHas(hs[1..], i - 1, q); }
  }

  /** Splicing a list of handles moves exactly the spliced ones in and out of the count. */
  lemma CountSplice(hs: seq<Handle>, i: nat, j: nat, mid: seq<Handle>, q: Option<nat>)
    requires i <= j <= |hs|
    ensures Count(hs[..i] + mid + hs[j..], q) + Count(hs[i..j], q) == Count(hs, q) + Count(mid, q)
  {
    CountConcat(hs[..i] + mid, hs[j..], q);
    CountConcat(hs[..i], mid, q);
    assert hs == hs[..i] + hs[i..j] + hs[j..];
    CountConcat(hs[..i] + hs[i..j], hs[j..], q);
    CountConcat(hs[..i], hs[i..j], q);
  }

  lemma {:induction false} RefsUpdate(cells: seq<Cell>, i: nat, c: Cell, q: Option<nat>)
    requires i < |cells|
    ensures Refs(cells[i := c], q) + CellCount(cells[i], q) == Refs(cells, q) + CellCount(c, q)
  {
    if i == 0 {
      assert cells[i := c][1..] == cells[1..];
    } else {
      RefsUpdate(cells[1..], i - 1, c, q);
      assert cells[i := c][1..] == cells[1..][i - 1 := c];
    }
  }

  lemma {:induction false} RefsAppend(cells: seq<Cell>, c: Cell, q: Option<nat>)
    ensures Refs(cells + [c], q) == Refs(cells, q) + CellCount(c, q)
  {
    if cells == [] {
      assert cells + [c] == [c] && [c][1..] == [];
    } else {
      RefsAppend(cells[1..], c, q);
      assert (cells + [c])[1..] == cells[1..] + [c];
    }
  }

  lemma KidCounted(cells: seq<Cell>, i: nat, h: Handle)
    requires i < |cells| && cells[i].Cell? && h in Kids(cells[i].data) && h.Ref?
    ensures Refs(cells, Some(h.p)) >= 1
  {
    RefsUpdate(cells, i, Gone, Some(h.p));
    var k :| 0 <= k < |Kids(cells[i].data)| && Kids(cells[i].data)[k] == h;
    CountHas(Kids(cells[i].data), k, Some(h.p));
  }

  lemma ExtCounted(ext: seq<Handle>, h: Handle)
    requires h in ext && h.Ref?
    ensures Count(ext, Some(h.p)) >= 1
  {
    var k :| 0 <= k < |ext| && ext[k] == h;
    CountHas(ext, k, Some(h.p));
  }

  // ---- the invariant --------------------------------------------------------------

  predicate Fits(cells: seq<Cell>, h: Handle) {
    match h
    case Imm(v) => Scalar(v)
    case Ref(t, p) => p < |cells| && cells[p].Cell? && DataKind(cells[p].data) == KindOf(t)
  }

  function RcOf(cells: seq<Cell>, h: Handle): nat {
    if h.Ref? && h.p < |cells| && cells[h.p].Cell? then cells[h.p].rc else 0
  }

  /** A payload whose contents are gone, pooled or freed. */
  predicate Destroyed(cells: seq<Cell>, h: Handle) {
    h.Ref? && h.p < |cells| && (cells[h.p].Gone? || (cells[h.p].rc == 0 && Kids(cells[h.p].data) == []))
  }

  ghost predicate CellOk(cells: seq<Cell>, free: map<Kind, seq<nat>>, tree: seq<Value>,
                         handles: nat, limbo: set<nat>, p: nat)
    requires p < |cells| == |tree| && free.Keys == {KStr, KArr, KObj}
  {
    match cells[p]
    case Gone => handles == 0 && p !in limbo
    case Cell(rc, d) =>
      // the count is the number of handles to the payload, and nothing leaks
      && rc == handles
      && (rc == 0 ==> d == Empty(DataKind(d)) && (p in limbo <==> p !in free[DataKind(d)]))
      && (rc > 0 ==> p !in limbo && tree[p] == Fold(d, tree))
      && (rc > 0 && d.ObjData? ==> Sorted(tree[p].entries))
      && (forall h | h in Kids(d) :: Fits(cells, h))
  }

  predicate Pooled(cells: seq<Cell>, limbo: set<nat>, k: Kind, p: nat) {
    p < |cells| && cells[p] == Cell(0, Empty(k)) && p !in limbo
  }

  /** Freelists hold distinct, unreferenced, empty payloads of their own type. */
  ghost predicate FreeOk(cells: seq<Cell>, free: map<Kind, seq<nat>>, limbo: set<nat>) {
    && free.Keys == {KStr, KArr, KObj}
    && (forall k, i, j | k in free.Keys && 0 <= i < j < |free[k]| :: free[k][i] != free[k][j])
    && (forall k | k in free.Keys :: |free[k]| <= POOL_CAP)
    && (forall k, p: nat | k in free.Keys && p in free[k] :: Pooled(cells, limbo, k, p))
  }

  /** `ext` is every handle that lives outside payloads; `limbo` holds payloads whose
      count reached zero and whose contents are still being released. */
  ghost predicate Inv(cells: seq<Cell>, free: map<Kind, seq<nat>>, tree: seq<Value>, ext: seq<Handle>, limbo: set<nat>) {
    && |cells| == |tree|
    && FreeOk(cells, free, limbo)
    && (forall p: nat | p < |cells| :: CellOk(cells, free, tree, Handles(cells, ext, p), limbo, p))
    && (forall h | h in ext :: Fits(cells, h))
    && (forall p | p in limbo :: p < |cells| && cells[p].Cell? && cells[p].rc == 0)
  }

  lemma Live(cells: seq<Cell>, free: map<Kind, seq<nat>>, tree: seq<Value>, ext: seq<Handle>, limbo: set<nat>, h: Handle)
    requires Inv(cells, free, tree, ext, limbo) && h.Ref?
    requires h in ext || exists i :: 0 <= i < |cells| && cells[i].Cell? && h in Kids(cells[i].data)
    ensures Fits(cells, h) && cells[h.p].rc > 0
  {
    if h in ext {
      ExtCounted(ext, h);
    } else {
      var i :| 0 <= i < |cells| && cells[i].Cell? && h in Kids(cells[i].data);
      KidCounted(cells, i, h);
      assert CellOk(cells, free, tree, Handles(cells, ext, i), limbo, i);
    }
    assert CellOk(cells, free, tree, Handles(cells, ext, h.p), limbo, h.p);
  }

  /** The count decides: a payload with one handle is reached by no other. */
  lemma Unshared(cells: seq<Cell>, free: map<Kind, seq<nat>>, tree: seq<Value>, ext: seq<Handle>, limbo: set<nat>, h: Handle)
    requires Inv(cells, free, tree, [h] + ext, limbo)
    requires h.Ref? && Fits(cells, h) && cells[h.p].rc == 1
    ensures forall i, k | 0 <= i < |cells| && cells[i].Cell? && k in Kids(cells[i].data) && k.Ref? :: k.p != h.p
    ensures forall k | k in ext && k.Ref? :: k.p != h.p
  {
    CountConcat([h], ext, Some(h.p));
    assert CellOk(cells, free, tree, Handles(cells, [h] + ext, h.p), limbo, h.p);
    assert Count([h], Some(h.p)) == 1;
    forall i, k | 0 <= i < |cells| && cells[i].Cell? && k in Kids(cells[i].data) && k.Ref?
      ensures k.p != h.p
    {
      KidCounted(cells, i, k);
    }
    forall k | k in ext && k.Ref?
      ensures k.p != h.p
    {
      ExtCounted(ext, k);
    }
  }

  /** The trees are determined by the heap alone: consistent trees of the same heap agree
      on every live payload, so in particular the heap is acyclic. */
  lemma {:induction false} TreesUnique(cells: seq<Cell>, free: map<Kind, seq<nat>>, a: seq<Value>, b: seq<Value>, ext: seq<Handle>, limbo: set<nat>, p: nat)
    requires Inv(cells, free, a, ext, limbo) && Inv(cells, free, b, ext, limbo)
    requires p < |cells| && cells[p].Cell? && cells[p].rc > 0
    ensures a[p] == b[p]
    decreases a[p]
  {
    var d := cells[p].data;
    assert CellOk(cells, free, a, Handles(cells, ext, p), limbo, p);
    assert CellOk(cells, free, b, Handles(cells, ext, p), limbo, p);
    forall i | 0 <= i < |Kids(d)|
      ensures TreeOf(Kids(d)[i], a) == TreeOf(Kids(d)[i], b)
    {
      var h := Kids(d)[i];
      if h.Ref? {
        Live(cells, free, a, ext, limbo, h);
        if h.tag.TagArr? || h.tag.TagObj? {
          assert if d.ArrData? then a[h.p] == a[p].items[i] else a[h.p] == a[p].entries[i].val;
          TreesUnique(cells, free, a, b, ext, limbo, h.p);
        } else {
          assert CellOk(cells, free, a, Handles(cells, ext, h.p), limbo, h.p);
          assert CellOk(cells, free, b, Handles(cells, ext, h.p), limbo, h.p);
        }
      }
    }
    FoldFrame(d, a, b);
  }

  // ---- single heap steps ------------------------------------------------------------

  lemma CountCons(h: Handle, ext: seq<Handle>, q: Option<nat>)
    ensures Count([h] + ext, q) == (if Points(h, q) then 1 else 0) + Count(ext, q)
  {
    CountConcat([h], ext, q);
    assert [h][1..] == [];
  }

  /** Copying a handle to a live payload counts it. */
  lemma CopyStep(cells: seq<Cell>, free: map<Kind, seq<nat>>, tree: seq<Value>, ext: seq<Handle>, limbo: set<nat>, h: Handle)
    requires Inv(cells, free, tree, ext, limbo)
    requires h.Ref? && Fits(cells, h) && cells[h.p].rc > 0
    ensures Inv(cells[h.p := Cell(cells[h.p].rc + 1, cells[h.p].data)], free, tree, [h] + ext, limbo)
  {
    var c := Cell(cells[h.p].rc + 1, cells[h.p].data);
    var cells', ext' := cells[h.p := c], [h] + ext;
    forall q: nat | q < |cells'|
      ensures CellOk(cells', free, tree, Handles(cells', ext', q), limbo, q)
    {
      RefsUpdate(cells, h.p, c, Some(q));
      CountCons(h, ext, Some(q));
      assert CellOk(cells, free, tree, Handles(cells, ext, q), limbo, q);
    }
  }

  /** Dropping a handle that is not the last one uncounts it. */
  lemma ImmediateGone(cells: seq<Cell>, free: map<Kind, seq<nat>>, tree: seq<Value>, ext: seq<Handle>, limbo: set<nat>, h: Handle)
    requires Inv(cells, free, tree, [h] + ext, limbo) && h.Imm?
    ensures Inv(cells, free, tree, ext, limbo)
  {
    forall q: nat | q < |cells|
      ensures CellOk(cells, free, tree, Handles(cells, ext, q), limbo, q)
    {
      CountCons(h, ext, Some(q));
      assert CellOk(cells, free, tree, Handles(cells, [h] + ext, q), limbo, q);
    }
  }

  lemma SameRefs(cells: seq<Cell>, p: nat, c: Cell)
    requires p < |cells| && cells[p].Cell? && c.Cell? && c.data == cells[p].data
    ensures forall q :: Refs(cells[p := c], q) == Refs(cells, q)
  {
    forall q ensures Refs(cells[p := c], q) == Refs(cells, q) { RefsUpdate(cells, p, c, q); }
  }

  /** Emptying a payload takes its handles with it. */
  lemma KidsLeave(cells: seq<Cell>, p: nat, c: Cell)
    requires p < |cells| && cells[p].Cell? && (c.Cell? ==> Kids(c.data) == [])
    ensures forall q :: Refs(cells[p := c], q) + Count(Kids(cells[p].data), q) == Refs(cells, q)
  {
    forall q ensures Refs(cells[p := c], q) + Count(Kids(cells[p].data), q) == Refs(cells, q) { RefsUpdate(cells, p, c, q); }
  }

  lemma DropStep(cells: seq<Cell>, free: map<Kind, seq<nat>>, tree: seq<Value>, ext: seq<Handle>, limbo: set<nat>, h: Handle)
    requires Inv(cells, free, tree, [h] + ext, limbo) && h.Ref?
    requires Fits(cells, h) && cells[h.p].rc > 1
    ensures Inv(cells[h.p := Cell(cells[h.p].rc - 1, cells[h.p].data)], free, tree, ext, limbo)
  {
    var c := Cell(cells[h.p].rc - 1, cells[h.p].data);
    var cells' := cells[h.p := c];
    forall q: nat | q < |cells'|
      ensures CellOk(cells', free, tree, Handles(cells', ext, q), limbo, q)
    {
      RefsUpdate(cells, h.p, c, Some(q));
      CountCons(h, ext, Some(q));
      assert CellOk(cells, free, tree, Handles(cells, [h] + ext, q), limbo, q);
    }
    assert forall k | k in ext :: k in [h] + ext;
  }

  /** Dropping the last handle empties the payload; what it held is now to be released. */
  lemma LastStep(cells: seq<Cell>, free: map<Kind, seq<nat>>, tree: seq<Value>, ext: seq<Handle>, limbo: set<nat>, h: Handle)
    requires Inv(cells, free, tree, [h] + ext, limbo) && h.Ref?
    requires Fits(cells, h) && cells[h.p].rc == 1
    ensures var d := cells[h.p].data;
            Inv(cells[h.p := Cell(0, Empty(DataKind(d)))], free, tree, Kids(d) + ext, limbo + {h.p})
  {
    var d := cells[h.p].data;
    var c := Cell(0, Empty(DataKind(d)));
    assert CellOk(cells, free, tree, Handles(cells, [h] + ext, h.p), limbo, h.p);
    assert Kids(c.data) == [];
    var cells', ext', limbo' := cells[h.p := c], Kids(d) + ext, limbo + {h.p};
    forall q: nat | q < |cells'|
      ensures CellOk(cells', free, tree, Handles(cells', ext', q), limbo', q)
    {
      hide Inv;
      LastCell(cells, free, tree, ext, limbo, h, q);
    }
    forall k | k in Kids(d) + ext
      ensures Fits(cells[h.p := c], k)
    {
      assert k in Kids(d) || k in [h] + ext;
      assert Fits(cells, k);
    }
  }

  lemma LastCell(cells: seq<Cell>, free: map<Kind, seq<nat>>, tree: seq<Value>, ext: seq<Handle>, limbo: set<nat>, h: Handle, q: nat)
    requires Inv(cells, free, tree, [h] + ext, limbo) && h.Ref?
    requires Fits(cells, h) && cells[h.p].rc == 1 && q < |cells|
    ensures var d := cells[h.p].data;
            var cells', ext' := cells[h.p := Cell(0, Empty(DataKind(d)))], Kids(d) + ext;
            CellOk(cells', free, tree, Handles(cells', ext', q), limbo + {h.p}, q)
  {
    var d := cells[h.p].data;
    var c := Cell(0, Empty(DataKind(d)));
    assert CellOk(cells, free, tree, Handles(cells, [h] + ext, h.p), limbo, h.p);
    assert Kids(c.data) == [];
    RefsUpdate(cells, h.p, c, Some(q));
    CountCons(h, ext, Some(q));
    CountConcat(Kids(d), ext, Some(q));
    assert CellOk(cells, free, tree, Handles(cells, [h] + ext, q), limbo, q);
  }

  /** An emptied payload joins its freelist, or is deleted when that is full. */
  lemma RecycleStep(cells: seq<Cell>, free: map<Kind, seq<nat>>, tree: seq<Value>, ext: seq<Handle>, limbo: set<nat>, p: nat)
    requires Inv(cells, free, tree, ext, limbo + {p}) && p !in limbo
    ensures var k := DataKind(cells[p].data);
            if |free[k]| < POOL_CAP then Inv(cells, free[k := free[k] + [p]], tree, ext, limbo)
            else Inv(cells[p := Gone], free, tree, ext, limbo)
  {
    var k := DataKind(cells[p].data);
    assert CellOk(cells, free, tree, Handles(cells, ext, p), limbo + {p}, p);
    if |free[k]| < POOL_CAP {
      var free' := free[k := free[k] + [p]];
      forall q: nat | q < |cells|
        ensures CellOk(cells, free', tree, Handles(cells, ext, q), limbo, q)
      {
        assert CellOk(cells, free, tree, Handles(cells, ext, q), limbo + {p}, q);
      }
    } else {
      assert Kids(cells[p].data) == [];
      var cells' := cells[p := Gone];
      forall q: nat | q < |cells'|
        ensures CellOk(cells', free, tree, Handles(cells', ext, q), limbo, q)
      {
        RefsUpdate(cells, p, Gone, Some(q));
        assert CellOk(cells, free, tree, Handles(cells, ext, q), limbo + {p}, q);
        if q != p && cells[q].Cell? {
          forall h | h in Kids(cells[q].data)
            ensures Fits(cells[p := Gone], h)
          {
            if h.Ref? { KidCounted(cells, q, h); }
          }
        }
      }
      forall h | h in ext
        ensures Fits(cells[p := Gone], h)
      {
        if h.Ref? { ExtCounted(ext, h); }
      }
    }
  }

  function Popped(free: map<Kind, seq<nat>>, k: Kind): map<Kind, seq<nat>>
    requires k in free && free[k] != []
  {
    free[k := free[k][..|free[k]| - 1]]
  }

  lemma PopFree(cells: seq<Cell>, free: map<Kind, seq<nat>>, k: Kind)
    requires FreeOk(cells, free, {}) && free[k] != []
    ensures var p := free[k][|free[k]| - 1];
            && Pooled(cells, {}, k, p)
            && FreeOk(cells[p := Cell(1, Empty(k))], Popped(free, k), {})
            && forall k2, r: nat | k2 in free.Keys :: r in Popped(free, k)[k2] <==> r in free[k2] && r != p
  {
    var p := free[k][|free[k]| - 1];
    assert k in free.Keys && p in free[k];
    var cells', free' := cells[p := Cell(1, Empty(k))], Popped(free, k);
    var n := |free[k]| - 1;
    assert free'[k] == free[k][..n];
    assert forall i | 0 <= i < n :: free'[k][i] == free[k][i] && free[k][i] != free[k][n];
    forall k2, r: nat | k2 in free.Keys
      ensures r in free'[k2] <==> r in free[k2] && r != p
      ensures r in free'[k2] ==> Pooled(cells', {}, k2, r)
    {
      if r in free'[k2] {
        assert r in free[k2];
      } else if r in free[k2] && k2 == k {
        var i :| 0 <= i < |free[k]| && free[k][i] == r;
        assert i == n;
      }
    }
  }

  lemma ReuseCell(cells: seq<Cell>, free: map<Kind, seq<nat>>, tree: seq<Value>, ext: seq<Handle>, t: Tag, p: nat,
                  cells': seq<Cell>, tree': seq<Value>, q: nat)
    requires Inv(cells, free, tree, ext, {}) && free[KindOf(t)] != []
    requires p == free[KindOf(t)][|free[KindOf(t)]| - 1] < |cells| && q < |cells|
    requires cells' == cells[p := Cell(1, Empty(KindOf(t)))] && tree' == tree[p := Fold(Empty(KindOf(t)), [])]
    ensures CellOk(cells', Popped(free, KindOf(t)), tree', Handles(cells', [Ref(t, p)] + ext, q), {}, q)
  {
    PopFree(cells, free, KindOf(t));
    assert Kids(Empty(KindOf(t))) == [];
    RefsUpdate(cells, p, cells'[p], Some(q));
    CountCons(Ref(t, p), ext, Some(q));
    assert CellOk(cells, free, tree, Handles(cells, ext, q), {}, q);
    if q == p {
      FoldFrame(Empty(KindOf(t)), [], tree');
    } else if cells[q].Cell? {
      assert CellOk(cells, free, tree, Handles(cells, ext, p), {}, p);
      forall h | h in Kids(cells[q].data)
        ensures TreeOf(h, tree) == TreeOf(h, tree')
      {
        if h.Ref? { KidCounted(cells, q, h); }
      }
      FoldFrame(cells[q].data, tree, tree');
    }
  }

  /** A payload off the freelist, or a new one: holding nothing, and counted once. */
  lemma ReuseStep(cells: seq<Cell>, free: map<Kind, seq<nat>>, tree: seq<Value>, ext: seq<Handle>, t: Tag)
    requires Inv(cells, free, tree, ext, {}) && free[KindOf(t)] != []
    ensures var k := KindOf(t);
            var p := free[k][|free[k]| - 1];
            && p < |cells| && (forall h | h in ext && h.Ref? :: h.p != p)
            && Inv(cells[p := Cell(1, Empty(k))], Popped(free, k), tree[p := Fold(Empty(k), [])], [Ref(t, p)] + ext, {})
  {
    var k := KindOf(t);
    var p := free[k][|free[k]| - 1];
    PopFree(cells, free, k);
    assert CellOk(cells, free, tree, Handles(cells, ext, p), {}, p);
    forall h | h in ext && h.Ref?
      ensures h.p != p
    {
      ExtCounted(ext, h);
    }
    var cells', free', tree', ext' := cells[p := Cell(1, Empty(k))], Popped(free, k), tree[p := Fold(Empty(k), [])], [Ref(t, p)] + ext;
    forall q: nat | q < |cells'|
      ensures CellOk(cells', free', tree', Handles(cells', ext', q), {}, q)
    {
      ReuseCell(cells, free, tree, ext, t, p, cells', tree', q);
    }
  }

  lemma FreshStep(cells: seq<Cell>, free: map<Kind, seq<nat>>, tree: seq<Value>, ext: seq<Handle>, t: Tag)
    requires Inv(cells, free, tree, ext, {})
    ensures var k := KindOf(t);
            && (forall h | h in ext && h.Ref? :: h.p < |cells|)
            && Inv(cells + [Cell(1, Empty(k))], free, tree + [Fold(Empty(k), [])], [Ref(t, |cells|)] + ext, {})
  {
    var k := KindOf(t);
    var cells', tree' := cells + [Cell(1, Empty(k))], tree + [Fold(Empty(k), [])];
    assert Kids(Empty(k)) == [];
    var ext' := [Ref(t, |cells|)] + ext;
    forall q: nat | q < |cells'|
      ensures CellOk(cells', free, tree', Handles(cells', ext', q), {}, q)
    {
      RefsAppend(cells, Cell(1, Empty(k)), Some(q));
      CountCons(Ref(t, |cells|), ext, Some(q));
      if q < |cells| {
        assert CellOk(cells, free, tree, Handles(cells, ext, q), {}, q);
        if cells[q].Cell? { FoldFrame(cells[q].data, tree, tree'); }
      } else {
        NoneBeyond(cells, free, tree, ext);
        FoldFrame(Empty(k), [], tree');
      }
    }
  }

  /** Nothing points past the end of the heap. */
  lemma NoneBeyond(cells: seq<Cell>, free: map<Kind, seq<nat>>, tree: seq<Value>, ext: seq<Handle>)
    requires Inv(cells, free, tree, ext, {})
    ensures Handles(cells, ext, |cells|) == 0
  {
    CountNone(ext, |cells|);
    forall i | 0 <= i < |cells| && cells[i].Cell?
      ensures Count(Kids(cells[i].data), Some(|cells|)) == 0
    {
      assert CellOk(cells, free, tree, Handles(cells, ext, i), {}, i);
      CountNone(Kids(cells[i].data), |cells|);
    }
    RefsNone(cells, |cells|);
  }

  lemma {:induction false} CountNone(hs: seq<Handle>, q: nat)
    requires forall h | h in hs && h.Ref? :: h.p != q
    ensures Count(hs, Some(q)) == 0
  {
    if hs != [] { CountNone(hs[1..], q); }
  }

  lemma {:induction false} RefsNone(cells: seq<Cell>, q: nat)
    requires forall i | 0 <= i < |cells| && cells[i].Cell? :: Count(Kids(cells[i].data), Some(q)) == 0
    ensures Refs(cells, Some(q)) == 0
  {
    if cells != [] { RefsNone(cells[1..], q); }
  }

  /** What writing payload `self.p` asks for: handles `a` move in, `b` move out. */
  ghost predicate Movable(cells: seq<Cell>, tree: seq<Value>, a: seq<Handle>, b: seq<Handle>, self: Handle, d: Data) {
    && self.Ref? && Fits(cells, self) && cells[self.p].rc == 1 && DataKind(d) == DataKind(cells[self.p].data)
    && (forall q :: Count(Kids(d), q) + Count(b, q) == Count(Kids(cells[self.p].data), q) + Count(a, q))
    && (forall h | h in Kids(d) || h in b :: h in a || h in Kids(cells[self.p].data))
    && (d.ObjData? ==> Sorted(Fold(d, tree).entries))
  }

  lemma InstallHandles(cells: seq<Cell>, free: map<Kind, seq<nat>>, tree: seq<Value>, a: seq<Handle>, b: seq<Handle>,
                       self: Handle, ext: seq<Handle>, d: Data, h: Handle)
    requires Inv(cells, free, tree, [self] + (a + ext), {}) && Movable(cells, tree, a, b, self, d)
    requires h in Kids(d) || h in b || h in ext
    ensures Fits(cells, h) && (h.Ref? ==> h.p != self.p)
  {
    Unshared(cells, free, tree, a + ext, {}, self);
    assert CellOk(cells, free, tree, Handles(cells, [self] + (a + ext), self.p), {}, self.p);
    if h in a + ext { assert h in [self] + (a + ext); }
  }

  lemma InstallCount(cells: seq<Cell>, tree: seq<Value>, a: seq<Handle>, b: seq<Handle>,
                     self: Handle, ext: seq<Handle>, d: Data, q: nat)
    requires Movable(cells, tree, a, b, self, d)
    ensures Handles(cells[self.p := Cell(1, d)], [self] + (b + ext), q) == Handles(cells, [self] + (a + ext), q)
  {
    RefsUpdate(cells, self.p, Cell(1, d), Some(q));
    CountCons(self, a + ext, Some(q));
    CountCons(self, b + ext, Some(q));
    CountConcat(a, ext, Some(q));
    CountConcat(b, ext, Some(q));
    assert Count(Kids(d), Some(q)) + Count(b, Some(q)) == Count(Kids(cells[self.p].data), Some(q)) + Count(a, Some(q));
  }

  lemma InstallCell(cells: seq<Cell>, free: map<Kind, seq<nat>>, tree: seq<Value>, a: seq<Handle>, b: seq<Handle>,
                    self: Handle, ext: seq<Handle>, d: Data, cells': seq<Cell>, tree': seq<Value>, q: nat)
    requires Inv(cells, free, tree, [self] + (a + ext), {}) && Movable(cells, tree, a, b, self, d)
    requires cells' == cells[self.p := Cell(1, d)] && tree' == tree[self.p := Fold(d, tree)] && q < |cells|
    ensures CellOk(cells', free, tree', Handles(cells', [self] + (b + ext), q), {}, q)
  {
    InstallCount(cells, tree, a, b, self, ext, d, q);
    assert CellOk(cells, free, tree, Handles(cells, [self] + (a + ext), q), {}, q);
    if q == self.p {
      InstallOwn(cells, free, tree, a, b, self, ext, d, cells', tree');
    } else if cells[q].Cell? {
      Unshared(cells, free, tree, a + ext, {}, self);
      FoldFrame(cells[q].data, tree, tree');
    }
  }

  lemma InstallOwn(cells: seq<Cell>, free: map<Kind, seq<nat>>, tree: seq<Value>, a: seq<Handle>, b: seq<Handle>,
                   self: Handle, ext: seq<Handle>, d: Data, cells': seq<Cell>, tree': seq<Value>)
    requires Inv(cells, free, tree, [self] + (a + ext), {}) && Movable(cells, tree, a, b, self, d)
    requires cells' == cells[self.p := Cell(1, d)] && tree' == tree[self.p := Fold(d, tree)]
    ensures Fold(d, tree') == Fold(d, tree) && forall h | h in Kids(d) :: Fits(cells', h)
  {
    forall h | h in Kids(d)
      ensures TreeOf(h, tree) == TreeOf(h, tree') && Fits(cells', h)
    {
      InstallHandles(cells, free, tree, a, b, self, ext, d, h);
    }
    FoldFrame(d, tree, tree');
  }

  /** Writing an unshared payload: nothing else in the heap can see the change. */
  lemma InstallStep(cells: seq<Cell>, free: map<Kind, seq<nat>>, tree: seq<Value>, a: seq<Handle>, b: seq<Handle>,
                    self: Handle, ext: seq<Handle>, d: Data)
    requires Inv(cells, free, tree, [self] + (a + ext), {}) && Movable(cells, tree, a, b, self, d)
    ensures Inv(cells[self.p := Cell(1, d)], free, tree[self.p := Fold(d, tree)], [self] + (b + ext), {})
    ensures forall h | h in b || h in ext :: TreeOf(h, tree[self.p := Fold(d, tree)]) == TreeOf(h, tree)
  {
    var cells', tree', ext' := cells[self.p := Cell(1, d)], tree[self.p := Fold(d, tree)], [self] + (b + ext);
    assert CellOk(cells, free, tree, Handles(cells, [self] + (a + ext), self.p), {}, self.p);
    forall h | h in b || h in ext
      ensures TreeOf(h, tree') == TreeOf(h, tree) && Fits(cells', h)
    {
      InstallHandles(cells, free, tree, a, b, self, ext, d, h);
    }
    forall q: nat | q < |cells'|
      ensures CellOk(cells', free, tree', Handles(cells', ext', q), {}, q)
    {
      InstallCell(cells, free, tree, a, b, self, ext, d, cells', tree', q);
    }
  }

  // ---- the store --------------------------------------------------------------------

  function NumPtrs(cells: seq<Cell>): nat { Refs(cells, None) }

  class Store {
    var cells: seq<Cell>
    var free: map<Kind, seq<nat>>
    ghost var tree: seq<Value>

    /** `ext`: every handle outside payloads, in variables and temporaries alike. */
    ghost predicate Valid(ext: seq<Handle>)
      reads this
    {
      Inv(cells, free, tree, ext, {})
    }

    ghost function View(h: Handle): Value
      reads this
    {
      TreeOf(h, tree)
    }

    constructor ()
      ensures Valid([])
    {
      cells, free, tree := [], map[KStr := [], KArr := [], KObj := []], [];
    }

    /** `alloc_*`: a recycled payload if there is one. */
    method Alloc(t: Tag, ghost ext: seq<Handle>) returns (h: Handle)
      requires Valid(ext)
      modifies this
      ensures h.Ref? && h.tag == t && Valid([h] + ext)
      ensures h.p < |cells| && cells[h.p] == Cell(1, Empty(KindOf(t))) && View(h) == Dress(t, Fold(Empty(KindOf(t)), []))
      ensures forall k | k in ext :: View(k) == old(View(k)) && (k.Ref? ==> k.p != h.p)
    {
      var k := KindOf(t);
      assert k in free.Keys;
      if free[k] != [] {
        ReuseStep(cells, free, tree, ext, t);
        var p := free[k][|free[k]| - 1];
        h := Ref(t, p);
        cells, free, tree := cells[p := Cell(1, Empty(k))], Popped(free, k), tree[p := Fold(Empty(k), [])];
      } else {
        FreshStep(cells, free, tree, ext, t);
        h := Ref(t, |cells|);
        cells, tree := cells + [Cell(1, Empty(k))], tree + [Fold(Empty(k), [])];
      }
    }

    /** `copy_payload`. */
    method Copy(h: Handle, ghost ext: seq<Handle>)
      requires Valid(ext) && Fits(cells, h) && (h.Ref? ==> cells[h.p].rc > 0)
      modifies this`cells
      ensures Valid([h] + ext)
      ensures cells == if h.Imm? then old(cells) else old(cells)[h.p := Cell(old(cells)[h.p].rc + 1, old(cells)[h.p].data)]
    {
      if h.Ref? {
        CopyStep(cells, free, tree, ext, {}, h);
        cells := cells[h.p := Cell(cells[h.p].rc + 1, cells[h.p].data)];
      } else {
        forall q: nat | q < |cells|
          ensures CellOk(cells, free, tree, Handles(cells, [h] + ext, q), {}, q)
        {
          CountCons(h, ext, Some(q));
          assert CellOk(cells, free, tree, Handles(cells, ext, q), {}, q);
        }
      }
    }

    /** `release`: the last handle empties the payload, releasing what it held, and only
        then returns it to its pool. */
    method Release(h: Handle, ghost ext: seq<Handle>, ghost limbo: set<nat>)
      requires Inv(cells, free, tree, [h] + ext, limbo)
      modifies this`cells, this`free
      ensures Inv(cells, free, tree, ext, limbo)
      ensures |cells| == |old(cells)| && forall q :: Refs(cells, q) <= Refs(old(cells), q)
      ensures RcOf(old(cells), h) > 1 ==> cells == old(cells)[h.p := Cell(RcOf(old(cells), h) - 1, old(cells)[h.p].data)]
      ensures RcOf(old(cells), h) == 1 ==> Destroyed(cells, h)
      decreases NumPtrs(cells) + (if h.Ref? then 1 else 0), 0
    {
      if h.Imm? {
        ImmediateGone(cells, free, tree, ext, limbo, h);
        return;
      }
      assert h in [h] + ext;
      Live(cells, free, tree, [h] + ext, limbo, h);
      var rc, d := cells[h.p].rc, cells[h.p].data;
      if rc > 1 {
        DropStep(cells, free, tree, ext, limbo, h);
        SameRefs(cells, h.p, Cell(rc - 1, d));
        cells := cells[h.p := Cell(rc - 1, d)];
      } else {
        LastStep(cells, free, tree, ext, limbo, h);
        assert h.p !in limbo by { assert CellOk(cells, free, tree, Handles(cells, [h] + ext, h.p), limbo, h.p); }
        var c := Cell(0, Empty(DataKind(d)));
        KidsLeave(cells, h.p, c);
        cells := cells[h.p := c];
        ReleaseAll(Kids(d), ext, limbo + {h.p});
        Recycle(h.p, ext, limbo);
      }
    }

    /** An empty payload goes back to its pool, or away when the pool is full. */
    method Recycle(p: nat, ghost ext: seq<Handle>, ghost limbo: set<nat>)
      requires Inv(cells, free, tree, ext, limbo + {p}) && p !in limbo && p < |cells|
      modifies this`cells, this`free
      ensures Inv(cells, free, tree, ext, limbo)
      ensures |cells| == |old(cells)| && forall q :: Refs(cells, q) <= Refs(old(cells), q)
      ensures cells[p].Gone? || (cells[p].rc == 0 && Kids(cells[p].data) == [])
    {
      RecycleStep(cells, free, tree, ext, limbo, p);
      assert CellOk(cells, free, tree, Handles(cells, ext, p), limbo + {p}, p);
      var k := DataKind(cells[p].data);
      assert k in free.Keys;
      if |free[k]| < POOL_CAP {
        free := free[k := free[k] + [p]];
      } else {
        KidsLeave(cells, p, Gone);
        cells := cells[p := Gone];
      }
    }

    /** `clear()` on a payload's vector. */
    method ReleaseAll(hs: seq<Handle>, ghost ext: seq<Handle>, ghost limbo: set<nat>)
      requires Inv(cells, free, tree, hs + ext, limbo)
      modifies this`cells, this`free
      ensures Inv(cells, free, tree, ext, limbo)
      ensures |cells| == |old(cells)| && forall q :: Refs(cells, q) <= Refs(old(cells), q)
      decreases NumPtrs(cells) + Count(hs, None), 1
    {
      for i := 0 to |hs|
        invariant Inv(cells, free, tree, hs[i..] + ext, limbo)
        invariant |cells| == |old(cells)| && forall q :: Refs(cells, q) <= Refs(old(cells), q)
      {
        assert hs[i..] + ext == [hs[i]] + (hs[i + 1..] + ext);
        if hs[i].Ref? { CountHas(hs, i, None); }
        Release(hs[i], hs[i + 1..] + ext, limbo);
      }
      assert hs[|hs|..] + ext == ext;
    }

    /** Writing an unshared payload in place. */
    method Write(self: Handle, d: Data, ghost a: seq<Handle>, ghost b: seq<Handle>, ghost ext: seq<Handle>)
      requires Valid([self] + (a + ext)) && Movable(cells, tree, a, b, self, d)
      modifies this`cells, this`tree
      ensures Valid([self] + (b + ext)) && Fits(cells, self) && cells[self.p] == Cell(1, d)
      ensures View(self) == Dress(self.tag, Fold(d, old(tree)))
      ensures forall k | k in b || k in ext :: View(k) == old(View(k))
      ensures forall p: nat | p < |old(cells)| && p != self.p :: p < |cells| && cells[p] == old(cells)[p]
    {
      InstallStep(cells, free, tree, a, b, self, ext, d);
      cells, tree := cells[self.p := Cell(1, d)], tree[self.p := Fold(d, tree)];
    }

    /** `unshare`: a payload with other handles is cloned, and this handle moves to the clone. */
    method Unshare(h: Handle, ghost ext: seq<Handle>) returns (n: Handle)
      requires Valid([h] + ext) && h.Ref?
      modifies this
      ensures Valid([n] + ext) && n.Ref? && n.tag == h.tag && Fits(cells, n) && cells[n.p].rc == 1
      ensures View(n) == old(View(h))
      ensures forall k | k in ext :: View(k) == old(View(k))
    {
      assert h in [h] + ext;
      Live(cells, free, tree, [h] + ext, {}, h);
      if cells[h.p].rc == 1 { return h; }
      n := Clone(h, ext);
      CountCons(n, [h] + ext, Some(n.p));
      CountCons(h, ext, Some(n.p));
      Swap(cells, free, tree, n, h, ext);
      Release(h, [n] + ext, {});
      assert n in [n] + ext;
      Live(cells, free, tree, [n] + ext, {}, n);
      CountCons(n, ext, Some(n.p));
      assert CellOk(cells, free, tree, Handles(cells, [n] + ext, n.p), {}, n.p);
    }

    method Clone(h: Handle, ghost ext: seq<Handle>) returns (n: Handle)
      requires Valid([h] + ext) && h.Ref?
      modifies this
      ensures Valid([n] + ([h] + ext)) && n.Ref? && n.tag == h.tag && View(n) == old(View(h))
      ensures Handles(cells, [n] + ([h] + ext), n.p) == 1
      ensures forall k | k in ext :: View(k) == old(View(k))
    {
      hide Inv, CellOk;
      n := Alloc(h.tag, [h] + ext);
      assert forall k | k in ext || k == h :: k in [h] + ext;
      assert h in [n] + ([h] + ext);
      Live(cells, free, tree, [n] + ([h] + ext), {}, h);
      var d := cells[h.p].data;
      CloneKids(n, h, d, ext);
      Counted(cells, free, tree, [n] + (Kids(d) + ([h] + ext)), {}, h.p);
      assert Kids(Empty(DataKind(d))) == [];
      Write(n, d, Kids(d), [], [h] + ext);
      assert [] + ([h] + ext) == [h] + ext;
      Counted(cells, free, tree, [n] + ([h] + ext), {}, n.p);
    }

    /** A clone in progress: `n` is fresh and unshared, `h` still holds the contents. */
    ghost predicate Cloning(n: Handle, h: Handle, d: Data)
      reads this
    {
      && n.Ref? && h.Ref? && n.tag == h.tag && n.p != h.p && Fits(cells, h) && Fits(cells, n)
      && cells[h.p].data == d && cells[h.p].rc > 0 && cells[n.p] == Cell(1, Empty(KindOf(n.tag)))
    }

    /** Copying a payload's contents copies, and so counts, each handle in it. */
    method CloneKids(n: Handle, h: Handle, d: Data, ghost ext: seq<Handle>)
      requires Valid([n] + ([h] + ext)) && Cloning(n, h, d)
      modifies this`cells
      ensures Valid([n] + (Kids(d) + ([h] + ext))) && Cloning(n, h, d)
    {
      var kids := Kids(d);
      assert kids[|kids|..] + ([h] + ext) == [h] + ext;
      for i := |kids| downto 0
        invariant Valid([n] + (kids[i..] + ([h] + ext))) && Cloning(n, h, d)
      {
        assert [kids[i]] + (kids[i + 1..] + ([h] + ext)) == kids[i..] + ([h] + ext);
        CopyKid(n, h, d, kids[i], kids[i + 1..] + ([h] + ext));
      }
      assert kids[0..] == kids;
    }

    method CopyKid(n: Handle, h: Handle, d: Data, k: Handle, ghost rest: seq<Handle>)
      requires Valid([n] + rest) && Cloning(n, h, d) && k in Kids(d)
      modifies this`cells
      ensures Valid([n] + ([k] + rest)) && Cloning(n, h, d)
    {
      Unshared(cells, free, tree, rest, {}, n);
      assert k in Kids(cells[h.p].data);
      assert CellOk(cells, free, tree, Handles(cells, [n] + rest, h.p), {}, h.p);
      if k.Ref? { Live(cells, free, tree, [n] + rest, {}, k); }
      Copy(k, [n] + rest);
      Swap(cells, free, tree, k, n, rest);
    }

    /** Replaces slots `i..j` of an unshared object by `mid`, which holds `v` or nothing. */
    method SpliceSlots(self: Handle, v: Handle, i: nat, j: nat, mid: seq<Slot>, ghost ext: seq<Handle>) returns (gone: seq<Handle>)
      requires Valid([self] + ([v] + ext)) && self.Ref? && self.tag.TagObj? && Fits(cells, self) && cells[self.p].rc == 1
      requires i <= j <= |cells[self.p].data.slots|
      requires (exists key :: mid == [Slot(key, v)]) || (mid == [] && v.Imm?)
      requires var d := cells[self.p].data;
               Sorted(EntriesOf(d.slots[..i] + mid + d.slots[j..], tree))
      modifies this`cells, this`tree
      ensures Valid([self] + (gone + ext)) && |gone| == j - i
      ensures View(self) == Obj(EntriesOf(old(cells[self.p].data.slots)[..i] + mid + old(cells[self.p].data.slots)[j..], old(tree)))
      ensures forall k | k in ext :: View(k) == old(View(k))
    {
      var slots := cells[self.p].data.slots;
      var d := ObjData(slots[..i] + mid + slots[j..]);
      gone := Kids(ObjData(slots))[i..j];
      SpliceMoves(slots, i, j, mid, v);
      Write(self, d, [v], gone, ext);
    }

    /** Anything but an object is replaced by an empty one. */
    method BecomeObject(h: Handle, ghost ext: seq<Handle>) returns (r: Handle)
      requires Valid([h] + ext)
      modifies this
      ensures Valid([r] + ext) && r.Ref? && r.tag.TagObj? && View(r) == AsObject(old(View(h)))
      ensures forall k | k in ext :: View(k) == old(View(k))
    {
      ViewIsObj(cells, free, tree, h, ext);
      r := h;
      if !(h.Ref? && h.tag.TagObj?) {
        Release(h, ext, {});
        r := Alloc(TagObj, ext);
        assert EntriesOf([], []) == [];
      }
    }

    /** `value::set`, consuming `v`: anything but an object is replaced by an empty one, a
        shared object is cloned, and the entry is written, inserted or erased in place. */
    method Set(h: Handle, key: Str, v: Handle, ghost ext: seq<Handle>) returns (r: Handle)
      requires Valid([h] + ([v] + ext))
      modifies this
      ensures Valid([r] + ext)
      ensures View(r) == SetField(old(View(h)), key, old(View(v)))
      ensures forall k | k in ext :: View(k) == old(View(k))
    {
      hide Inv, TreeOf, SetField, AsObject;
      assert v in [v] + ext && forall k | k in ext :: k in [v] + ext;
      SetAsObject(View(h), key, View(v));
      r := BecomeObject(h, [v] + ext);
      r := Unshare(r, [v] + ext);
      r := SetOwned(r, key, v, ext);
    }

    method SetOwned(r: Handle, key: Str, v: Handle, ghost ext: seq<Handle>) returns (n: Handle)
      requires Valid([r] + ([v] + ext)) && r.Ref? && r.tag.TagObj? && Fits(cells, r) && cells[r.p].rc == 1
      modifies this
      ensures Valid([n] + ext) && n == r
      ensures View(r) == SetField(old(View(r)), key, old(View(v)))
      ensures forall k | k in ext :: View(k) == old(View(k))
    {
      n := r;
      SlotsView(cells, free, tree, r, [v] + ext);
      var slots := cells[r.p].data.slots;
      var i := LowerSlot(slots, key);
      var j := if i < |slots| && slots[i].key == key then i + 1 else i;
      SetSplices(slots, tree, key, TreeOf(v, tree), v);
      ViewIsDeleted(cells, free, tree, r, v, ext);
      var gone := SpliceSlots(r, v, i, j, if v == Imm(Deleted) then [] else [Slot(key, v)], ext);
      Discard(r, gone, ext);
    }

    /** The replaced or erased entry, if any, is released. */
    method Discard(r: Handle, gone: seq<Handle>, ghost ext: seq<Handle>)
      requires Valid([r] + (gone + ext)) && |gone| <= 1
      modifies this`cells, this`free
      ensures Valid([r] + ext)
    {
      if gone != [] {
        assert gone + ext == [gone[0]] + ext;
        Swap(cells, free, tree, r, gone[0], ext);
        Release(gone[0], [r] + ext, {});
      } else {
        assert gone + ext == ext;
      }
    }

    /** `value::remove`: a shared object is cloned even when it lacks the key. */
    method Remove(h: Handle, key: Str, ghost ext: seq<Handle>) returns (r: Handle)
      requires Valid([h] + ext)
      modifies this
      ensures Valid([r] + ext)
      ensures View(r) == RemoveField(old(View(h)), key)
      ensures forall k | k in ext :: View(k) == old(View(k))
    {
      hide Inv;
      ViewIsObj(cells, free, tree, h, ext);
      if !(h.Ref? && h.tag.TagObj?) { return h; }
      r := Unshare(h, ext);
      r := RemoveOwned(r, key, ext);
    }

    method RemoveOwned(r: Handle, key: Str, ghost ext: seq<Handle>) returns (n: Handle)
      requires Valid([r] + ext) && r.Ref? && r.tag.TagObj? && Fits(cells, r) && cells[r.p].rc == 1
      modifies this
      ensures Valid([n] + ext) && n == r
      ensures View(r) == RemoveField(old(View(r)), key)
      ensures forall k | k in ext :: View(k) == old(View(k))
    {
      n := r;
      SlotsView(cells, free, tree, r, ext);
      var slots := cells[r.p].data.slots;
      var i := LowerSlot(slots, key);
      var none := Imm(Deleted);
      SetSplices(slots, tree, key, Deleted, none);
      Copy(none, [r] + ext);
      Swap(cells, free, tree, none, r, ext);
      var gone := SpliceSlots(r, none, i, if i < |slots| && slots[i].key == key then i + 1 else i, [], ext);
      Discard(r, gone, ext);
    }

    /** `arr_mut()` followed by a write of element `i`, or by `push_back` when `i` is the length. */
    method PutItem(h: Handle, i: nat, v: Handle, ghost ext: seq<Handle>) returns (r: Handle)
      requires Valid([h] + ([v] + ext)) && View(h).Arr? && i <= |View(h).items|
      modifies this
      ensures Valid([r] + ext)
      ensures var items := old(View(h)).items;
              View(r) == Arr(if i < |items| then items[i := old(View(v))] else items + [old(View(v))])
      ensures forall k | k in ext :: View(k) == old(View(k))
    {
      ViewIsArr(cells, free, tree, h, [v] + ext);
      assert forall k | k in ext || k == v :: k in [v] + ext;
      r := Unshare(h, [v] + ext);
      r := PutOwned(r, i, v, ext);
    }

    method PutOwned(r: Handle, i: nat, v: Handle, ghost ext: seq<Handle>) returns (n: Handle)
      requires Valid([r] + ([v] + ext)) && r.Ref? && r.tag.TagArr? && Fits(cells, r) && cells[r.p].rc == 1
      requires View(r).Arr? && i <= |View(r).items|
      modifies this
      ensures Valid([n] + ext) && n == r
      ensures var items := old(View(r)).items;
              View(r) == Arr(if i < |items| then items[i := old(View(v))] else items + [old(View(v))])
      ensures forall k | k in ext :: View(k) == old(View(k))
    {
      n := r;
      ItemsView(cells, free, tree, r, [v] + ext);
      var items := cells[r.p].data.items;
      var j := if i < |items| then i + 1 else i;
      PutMoves(items, i, j, v);
      PutViews(items, tree, i, j, v);
      var gone := items[i..j];
      Write(r, ArrData(items[..i] + [v] + items[j..]), [v], gone, ext);
      Discard(r, gone, ext);
    }
  }

  // ---- what the entry vector means ----------------------------------------------------

  /** `lower_bound` on the sorted entry vector. */
  function LowerSlot(ss: seq<Slot>, key: Str): (i: nat)
    ensures i <= |ss|
  {
    if ss != [] && Less(ss[0].key, key) then 1 + LowerSlot(ss[1..], key) else 0
  }

  /** Writing at the lower bound is setting or removing the key. */
  lemma {:induction false} SetSplices(ss: seq<Slot>, tree: seq<Value>, key: Str, x: Value, v: Handle)
    requires x == TreeOf(v, tree) && Sorted(EntriesOf(ss, tree))
    ensures var i := LowerSlot(ss, key);
            var j := if i < |ss| && ss[i].key == key then i + 1 else i;
            && EntriesOf(ss[..i] + [] + ss[j..], tree) == RemoveEntry(EntriesOf(ss, tree), key)
            && EntriesOf(ss[..i] + [Slot(key, v)] + ss[j..], tree) == PutEntry(EntriesOf(ss, tree), key, x)
            && Sorted(RemoveEntry(EntriesOf(ss, tree), key)) && Sorted(PutEntry(EntriesOf(ss, tree), key, x))
  {
    Splices(ss, tree, key, x, v);
    PutRefines(EntriesOf(ss, tree), key, x, key);
    RemoveRefines(EntriesOf(ss, tree), key, key);
  }

  function LowerEntry(es: seq<Entry>, key: Str): (i: nat)
    ensures i <= |es|
  {
    if es != [] && Less(es[0].key, key) then 1 + LowerEntry(es[1..], key) else 0
  }

  lemma {:induction false} RemoveSplices(es: seq<Entry>, key: Str)
    ensures var i := LowerEntry(es, key);
            RemoveEntry(es, key) == es[..i] + es[if i < |es| && es[i].key == key then i + 1 else i..]
  {
    if es != [] && Less(es[0].key, key) {
      RemoveSplices(es[1..], key);
      assert es[..LowerEntry(es, key)] == [es[0]] + es[1..][..LowerEntry(es, key) - 1];
    }
  }

  lemma {:induction false} PutSplices(es: seq<Entry>, key: Str, x: Value)
    ensures var i := LowerEntry(es, key);
            PutEntry(es, key, x) == es[..i] + [Entry(key, x)] + es[if i < |es| && es[i].key == key then i + 1 else i..]
  {
    if es != [] && Less(es[0].key, key) {
      PutSplices(es[1..], key, x);
      assert es[..LowerEntry(es, key)] == [es[0]] + es[1..][..LowerEntry(es, key) - 1];
    }
  }

  lemma {:induction false} SameLower(ss: seq<Slot>, tree: seq<Value>, key: Str)
    ensures LowerSlot(ss, key) == LowerEntry(EntriesOf(ss, tree), key)
  {
    if ss != [] {
      assert EntriesOf(ss, tree)[1..] == EntriesOf(ss[1..], tree);
      SameLower(ss[1..], tree, key);
    }
  }

  lemma Splices(ss: seq<Slot>, tree: seq<Value>, key: Str, x: Value, v: Handle)
    requires x == TreeOf(v, tree)
    ensures var i := LowerSlot(ss, key);
            var j := if i < |ss| && ss[i].key == key then i + 1 else i;
            && EntriesOf(ss[..i] + [] + ss[j..], tree) == RemoveEntry(EntriesOf(ss, tree), key)
            && EntriesOf(ss[..i] + [Slot(key, v)] + ss[j..], tree) == PutEntry(EntriesOf(ss, tree), key, x)
  {
    var i := LowerSlot(ss, key);
    var j := if i < |ss| && ss[i].key == key then i + 1 else i;
    var es := EntriesOf(ss, tree);
    SameLower(ss, tree, key);
    RemoveSplices(es, key);
    PutSplices(es, key, x);
    EntriesSplice(ss, tree, i, j, []);
    EntriesSplice(ss, tree, i, j, [Slot(key, v)]);
    assert EntriesOf([Slot(key, v)], tree) == [Entry(key, x)];
    assert es[..i] + EntriesOf([], tree) == es[..i];
  }

  lemma EntriesSplice(ss: seq<Slot>, tree: seq<Value>, i: nat, j: nat, mid: seq<Slot>)
    requires i <= j <= |ss|
    ensures EntriesOf(ss[..i] + mid + ss[j..], tree) == EntriesOf(ss, tree)[..i] + EntriesOf(mid, tree) + EntriesOf(ss, tree)[j..]
  {
  }

  lemma SpliceMoves(ss: seq<Slot>, i: nat, j: nat, mid: seq<Slot>, v: Handle)
    requires i <= j <= |ss|
    requires (exists key :: mid == [Slot(key, v)]) || (mid == [] && v.Imm?)
    ensures var d := ObjData(ss[..i] + mid + ss[j..]);
            var gone := Kids(ObjData(ss))[i..j];
            && (forall q :: Count(Kids(d), q) + Count(gone, q) == Count(Kids(ObjData(ss)), q) + Count([v], q))
            && (forall h | h in Kids(d) || h in gone :: h in [v] || h in Kids(ObjData(ss)))
  {
    var hs, hm := Kids(ObjData(ss)), Kids(ObjData(mid));
    var d := ObjData(ss[..i] + mid + ss[j..]);
    assert Kids(d) == hs[..i] + hm + hs[j..];
    assert hm == if mid == [] then [] else [v];
    forall q
      ensures Count(Kids(d), q) + Count(hs[i..j], q) == Count(hs, q) + Count([v], q)
    {
      CountSplice(hs, i, j, hm, q);
      CountCons(v, [], q);
      assert [v] + [] == [v];
    }
  }

  lemma PutMoves(items: seq<Handle>, i: nat, j: nat, v: Handle)
    requires i <= j <= |items|
    ensures var d := ArrData(items[..i] + [v] + items[j..]);
            && (forall q :: Count(Kids(d), q) + Count(items[i..j], q) == Count(items, q) + Count([v], q))
            && (forall h | h in Kids(d) || h in items[i..j] :: h in [v] || h in items)
  {
    forall q
      ensures Count(items[..i] + [v] + items[j..], q) + Count(items[i..j], q) == Count(items, q) + Count([v], q)
    {
      CountSplice(items, i, j, [v], q);
    }
  }

  lemma PutViews(items: seq<Handle>, tree: seq<Value>, i: nat, j: nat, v: Handle)
    requires i <= |items| && j == if i < |items| then i + 1 else i
    ensures var vs, x := TreesOf(items, tree), TreeOf(v, tree);
            TreesOf(items[..i] + [v] + items[j..], tree) == if i < |items| then vs[i := x] else vs + [x]
  {
  }

  /** What the invariant says of one payload in use. */
  lemma Counted(cells: seq<Cell>, free: map<Kind, seq<nat>>, tree: seq<Value>, ext: seq<Handle>, limbo: set<nat>, p: nat)
    requires Inv(cells, free, tree, ext, limbo) && p < |cells| && cells[p].Cell? && cells[p].rc > 0
    ensures |tree| == |cells| && cells[p].rc == Handles(cells, ext, p) && tree[p] == Fold(cells[p].data, tree)
    ensures cells[p].data.ObjData? ==> tree[p].Obj? && Sorted(tree[p].entries)
  {
    assert CellOk(cells, free, tree, Handles(cells, ext, p), limbo, p);
  }

  function AsObject(v: Value): Value { if v.Obj? then v else Obj([]) }

  lemma SetAsObject(v: Value, key: Str, x: Value)
    ensures SetField(AsObject(v), key, x) == SetField(v, key, x)
  {
  }

  lemma ViewIsObj(cells: seq<Cell>, free: map<Kind, seq<nat>>, tree: seq<Value>, h: Handle, ext: seq<Handle>)
    requires Inv(cells, free, tree, [h] + ext, {})
    ensures (h.Ref? && h.tag.TagObj?) <==> TreeOf(h, tree).Obj?
  {
    assert h in [h] + ext;
    if h.Ref? {
      Live(cells, free, tree, [h] + ext, {}, h);
      assert CellOk(cells, free, tree, Handles(cells, [h] + ext, h.p), {}, h.p);
    }
  }

  lemma ViewIsArr(cells: seq<Cell>, free: map<Kind, seq<nat>>, tree: seq<Value>, h: Handle, ext: seq<Handle>)
    requires Inv(cells, free, tree, [h] + ext, {})
    ensures (h.Ref? && h.tag.TagArr?) <==> TreeOf(h, tree).Arr?
  {
    assert h in [h] + ext;
    if h.Ref? {
      Live(cells, free, tree, [h] + ext, {}, h);
      assert CellOk(cells, free, tree, Handles(cells, [h] + ext, h.p), {}, h.p);
    }
  }

  lemma ViewIsDeleted(cells: seq<Cell>, free: map<Kind, seq<nat>>, tree: seq<Value>, r: Handle, v: Handle, ext: seq<Handle>)
    requires Inv(cells, free, tree, [r] + ([v] + ext), {})
    ensures v == Imm(Deleted) <==> TreeOf(v, tree).Deleted?
  {
    assert v in [r] + ([v] + ext);
    if v.Ref? {
      Live(cells, free, tree, [r] + ([v] + ext), {}, v);
      assert CellOk(cells, free, tree, Handles(cells, [r] + ([v] + ext), v.p), {}, v.p);
    }
  }

  lemma SlotsView(cells: seq<Cell>, free: map<Kind, seq<nat>>, tree: seq<Value>, r: Handle, ext: seq<Handle>)
    requires Inv(cells, free, tree, [r] + ext, {}) && r.Ref? && r.tag.TagObj?
    ensures Fits(cells, r) && TreeOf(r, tree) == Obj(EntriesOf(cells[r.p].data.slots, tree))
    ensures Sorted(EntriesOf(cells[r.p].data.slots, tree))
  {
    assert r in [r] + ext;
    Live(cells, free, tree, [r] + ext, {}, r);
    assert CellOk(cells, free, tree, Handles(cells, [r] + ext, r.p), {}, r.p);
  }

  lemma ItemsView(cells: seq<Cell>, free: map<Kind, seq<nat>>, tree: seq<Value>, r: Handle, ext: seq<Handle>)
    requires Inv(cells, free, tree, [r] + ext, {}) && r.Ref? && r.tag.TagArr?
    ensures Fits(cells, r) && TreeOf(r, tree) == Arr(TreesOf(cells[r.p].data.items, tree))
  {
    assert r in [r] + ext;
    Live(cells, free, tree, [r] + ext, {}, r);
    assert CellOk(cells, free, tree, Handles(cells, [r] + ext, r.p), {}, r.p);
  }

  /** The order in which outside handles are listed does not matter. */
  lemma Swap(cells: seq<Cell>, free: map<Kind, seq<nat>>, tree: seq<Value>, a: Handle, b: Handle, ext: seq<Handle>)
    requires Inv(cells, free, tree, [a] + ([b] + ext), {})
    ensures Inv(cells, free, tree, [b] + ([a] + ext), {})
  {
    var e1, e2 := [a] + ([b] + ext), [b] + ([a] + ext);
    forall q: nat | q < |cells|
      ensures CellOk(cells, free, tree, Handles(cells, e2, q), {}, q)
    {
      CountCons(a, [b] + ext, Some(q));
      CountCons(b, ext, Some(q));
      CountCons(b, [a] + ext, Some(q));
      CountCons(a, ext, Some(q));
      assert CellOk(cells, free, tree, Handles(cells, e1, q), {}, q);
    }
    assert forall h | h in e2 :: h in e1;
  }
}
