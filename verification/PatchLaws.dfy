/** What `patch(v, diff(v, w))` is, when a diff is empty, and why its entries do not
    interfere. */
module PatchLaws {
  import opened Values
  import opened Numbers
  import opened DiffPatch

  /** Objects are sorted and never hold `deleted`, as `set` keeps them. */
  predicate WellFormed(v: Value) {
    match v
    case Obj(es) =>
      Sorted(es) && forall k | 0 <= k < |es| :: !es[k].val.Deleted? && WellFormed(es[k].val)
    case Arr(items) => forall k | 0 <= k < |items| :: WellFormed(items[k])
    case _ => true
  }

  // ---- entry vectors ------------------------------------------------------------------

  lemma {:induction false} PutSame(es: seq<Entry>, k: Str, v: Value)
    requires Find(es, k) == Some(v)
    ensures PutEntry(es, k, v) == es
    decreases |es|
  {
    if Less(es[0].key, k) { PutSame(es[1..], k, v); }
  }

  lemma {:induction false} PutPut(es: seq<Entry>, k: Str, a: Value, b: Value)
    ensures PutEntry(PutEntry(es, k, a), k, b) == PutEntry(es, k, b)
    decreases |es|
  {
    LessTrichotomy(k, k);
    var r := PutEntry(es, k, a);
    if es != [] && Less(es[0].key, k) {
      assert r[1..] == PutEntry(es[1..], k, a);
      PutPut(es[1..], k, a, b);
    } else if es != [] && es[0].key == k {
      assert r[1..] == es[1..];
    } else {
      assert r[1..] == es;
    }
  }

  lemma {:induction false} FindIn(es: seq<Entry>, k: Str) returns (j: nat)
    requires Find(es, k).Some?
    ensures j < |es| && es[j] == Entry(k, Find(es, k).value)
    decreases |es|
  {
    if Less(es[0].key, k) {
      j := FindIn(es[1..], k);
      j := j + 1;
    } else {
      j := 0;
    }
  }

  lemma {:induction false} FindAt(es: seq<Entry>, j: nat)
    requires Sorted(es) && j < |es|
    ensures Find(es, es[j].key) == Some(es[j].val)
    ensures j > 0 ==> Less(es[0].key, es[j].key)
    decreases |es|
  {
    LessTrichotomy(es[0].key, es[0].key);
    if j > 0 {
      FindAt(es[1..], j - 1);
      if j > 1 { LessTransitive(es[0].key, es[1].key, es[j].key); }
    }
  }

  lemma {:induction false} SuffixSorted(es: seq<Entry>, i: nat)
    requires Sorted(es) && i <= |es|
    ensures Sorted(es[i..])
  {
    if i > 0 {
      if i == 1 || |es| <= 1 {
      } else {
        SuffixSorted(es[1..], i - 1);
        assert es[1..][i - 1..] == es[i..];
      }
    }
  }

  /** Looking a key up in the entries from `i` on. */
  lemma SuffixFind(es: seq<Entry>, i: nat, k: Str)
    requires Sorted(es) && i < |es|
    ensures Find(es[i..], k) == if k == es[i].key then Some(es[i].val) else Find(es[i + 1..], k)
    ensures Find(es[i + 1..], es[i].key) == None
  {
    SuffixSorted(es, i);
    var t := es[i..];
    assert t[1..] == es[i + 1..];
    LessTrichotomy(es[i].key, es[i].key);
    LessTrichotomy(es[i].key, k);
    TailFind(t, k);
    TailFind(t, es[i].key);
  }

  /** Sorted vectors with the same keys have them in the same places. */
  lemma {:induction false} SameKeys(a: seq<Entry>, b: seq<Entry>)
    requires Sorted(a) && Sorted(b)
    requires forall k :: Find(a, k).Some? <==> Find(b, k).Some?
    ensures |a| == |b| && forall i | 0 <= i < |a| :: a[i].key == b[i].key
    decreases |a|
  {
    if a == [] || b == [] {
      if a != [] { HeadFound(a); }
      if b != [] { HeadFound(b); }
    } else {
      HeadFound(a);
      HeadFound(b);
      LessTrichotomy(a[0].key, b[0].key);
      forall k
        ensures Find(a[1..], k).Some? <==> Find(b[1..], k).Some?
      {
        TailFind(a, k);
        TailFind(b, k);
      }
      SameKeys(a[1..], b[1..]);
      forall i | 0 <= i < |a|
        ensures a[i].key == b[i].key
      {
        if i > 0 { assert a[i] == a[1..][i - 1] && b[i] == b[1..][i - 1]; }
      }
    }
  }

  // ---- applying changes ---------------------------------------------------------------

  /** A change as `patch` carries it out; an absent `To` counts as null. */
  function Apply(o: Value, c: Change): Value {
    match c
    case Delete(path, _) => if path == [] then o else RemovePath(o, path, 0)
    case _ => SetPath(o, c.path, 0, if c.to.Deleted? then Null else c.to)
  }

  function ApplyAll(o: Value, cs: seq<Change>): Value
    decreases |cs|
  {
    if cs == [] then o else ApplyAll(Apply(o, cs[0]), cs[1..])
  }

  lemma {:induction false} ApplyJoin(o: Value, a: seq<Change>, b: seq<Change>)
    ensures ApplyAll(o, a + b) == ApplyAll(ApplyAll(o, a), b)
    decreases |a|
  {
    if a == [] {
      assert a + b == b;
    } else {
      assert (a + b)[1..] == a[1..] + b;
      ApplyJoin(Apply(o, a[0]), a[1..], b);
    }
  }

  lemma ApplyOne(o: Value, c: Change)
    ensures ApplyAll(o, [c]) == Apply(o, c)
  {
    assert [c][1..] == [];
  }

  predicate Below(cs: seq<Change>) { forall i | 0 <= i < |cs| :: cs[i].path != [] }

  /** Only a change of the whole value has an empty path, and it is an update. */
  predicate Sound(cs: seq<Change>) { forall i | 0 <= i < |cs| :: cs[i].Delete? ==> cs[i].path != [] }

  lemma {:induction false} SetPathShift(o: Value, k: Str, path: Path, i: nat, v: Value)
    requires i <= |path|
    ensures SetPath(o, [k] + path, i + 1, v) == SetPath(o, path, i, v)
    decreases |path| - i
  {
    if i < |path| {
      var child := match FindField(o, path[i]) case Some(c) => c case None => Obj([]);
      SetPathShift(child, k, path, i + 1, v);
    }
  }

  lemma {:induction false} RemovePathShift(o: Value, k: Str, path: Path, i: nat)
    requires i < |path|
    ensures RemovePath(o, [k] + path, i + 1) == RemovePath(o, path, i)
    decreases |path| - i
  {
    if o.Obj? && i + 1 < |path| && FindField(o, path[i]).Some? {
      RemovePathShift(FindField(o, path[i]).value, k, path, i + 1);
    }
  }

  /** A change below a key acts on the value under that key alone. */
  lemma ApplyUnder(o: Value, k: Str, child: Value, c: Change)
    requires FindField(o, k) == Some(child) && (c.Delete? ==> c.path != [])
    ensures Apply(o, c.Under(k)) == SetField(o, k, Apply(child, c))
  {
    if c.Delete? {
      RemovePathShift(child, k, c.path, 0);
    } else {
      SetPathShift(child, k, c.path, 0, if c.to.Deleted? then Null else c.to);
    }
  }

  lemma Kept(o: Value, c: Change)
    requires !o.Deleted?
    ensures !Apply(o, c).Deleted?
    ensures c.path != [] ==> Apply(o, c).Obj? || Apply(o, c) == o
    ensures c.path != [] && o.Obj? ==> Apply(o, c).Obj?
  {
  }

  lemma {:induction false} ApplyAllUnder(o: Value, k: Str, child: Value, cs: seq<Change>)
    requires FindField(o, k) == Some(child) && !child.Deleted? && Sound(cs)
    ensures ApplyAll(o, Under(k, cs)) == SetField(o, k, ApplyAll(child, cs)) && !ApplyAll(child, cs).Deleted?
    decreases |cs|
  {
    if cs == [] {
      PutSame(o.entries, k, child);
    } else {
      ApplyUnder(o, k, child, cs[0]);
      Kept(child, cs[0]);
      var c' := Apply(child, cs[0]);
      var o' := SetField(o, k, c');
      PutFind(o.entries, k, c');
      assert Under(k, cs)[1..] == Under(k, cs[1..]);
      ApplyAllUnder(o', k, c', cs[1..]);
      PutPut(o.entries, k, c', ApplyAll(c', cs[1..]));
    }
  }

  lemma {:induction false} PutFind(es: seq<Entry>, k: Str, v: Value)
    ensures Find(PutEntry(es, k, v), k) == Some(v)
    decreases |es|
  {
    LessTrichotomy(k, k);
    if es != [] && Less(es[0].key, k) {
      PutFind(es[1..], k, v);
      assert PutEntry(es, k, v)[1..] == PutEntry(es[1..], k, v);
    }
  }

  /** Changes below an array either leave it alone or turn it into an object. */
  lemma {:induction false} ArrayLost(o: Value, cs: seq<Change>)
    requires Below(cs) && !o.Deleted?
    ensures ApplyAll(o, cs).Obj? || ApplyAll(o, cs) == o
    ensures o.Obj? ==> ApplyAll(o, cs).Obj?
    decreases |cs|
  {
    if cs != [] {
      Kept(o, cs[0]);
      ArrayLost(Apply(o, cs[0]), cs[1..]);
    }
  }

  // ---- heads of recorded paths --------------------------------------------------------

  predicate Headed(cs: seq<Change>, k: Str) {
    forall n | 0 <= n < |cs| :: cs[n].path != [] && cs[n].path[0] == k
  }

  predicate HeadsIn(cs: seq<Change>, es: seq<Entry>) {
    forall n | 0 <= n < |cs| :: cs[n].path != [] && Find(es, cs[n].path[0]).Some?
  }

  predicate HeadsNew(cs: seq<Change>, a: seq<Entry>, es: seq<Entry>) {
    forall n | 0 <= n < |cs| :: cs[n].path != [] && Find(es, cs[n].path[0]).Some? && Find(a, cs[n].path[0]).None?
  }

  predicate HeadsFrom(cs: seq<Change>, i: nat) {
    forall n | 0 <= n < |cs| :: cs[n].path != [] && Index(cs[n].path[0]) >= i
  }

  lemma {:induction false} LeftHeads(fl: FloatOps, v: Value, w: Value, i: nat)
    requires v.Obj? && w.Obj? && Sorted(v.entries) && i <= |v.entries|
    ensures HeadsIn(LeftChanges(fl, v, w, i), v.entries[i..])
    decreases |v.entries| - i
  {
    if i < |v.entries| {
      LeftHeads(fl, v, w, i + 1);
      var cs := LeftChanges(fl, v, w, i);
      assert Headed(LeftChange(fl, v, w, i), v.entries[i].key);
      forall n | 0 <= n < |cs|
        ensures cs[n].path != [] && Find(v.entries[i..], cs[n].path[0]).Some?
      {
        var m := |LeftChange(fl, v, w, i)|;
        if n >= m { assert cs[n] == LeftChanges(fl, v, w, i + 1)[n - m]; }
        SuffixFind(v.entries, i, cs[n].path[0]);
      }
    }
  }

  lemma {:induction false} RightHeads(a: seq<Entry>, b: seq<Entry>, j: nat)
    requires Sorted(b) && j <= |b|
    ensures HeadsNew(RightChanges(a, b, j), a, b[j..])
    decreases |b| - j
  {
    if j < |b| {
      RightHeads(a, b, j + 1);
      var cs := RightChanges(a, b, j);
      assert Headed(RightChange(a, b[j]), b[j].key);
      forall n | 0 <= n < |cs|
        ensures cs[n].path != [] && Find(b[j..], cs[n].path[0]).Some? && Find(a, cs[n].path[0]).None?
      {
        var m := |RightChange(a, b[j])|;
        if n >= m { assert cs[n] == RightChanges(a, b, j + 1)[n - m]; }
        SuffixFind(b, j, cs[n].path[0]);
      }
    }
  }

  /** Element names are numbers from `i` on. */
  lemma {:induction false} ItemHeads(fl: FloatOps, v: Value, w: Value, i: nat)
    requires v.Arr? && w.Arr? && i <= Longer(v, w)
    ensures HeadsFrom(ItemChanges(fl, v, w, i), i)
    decreases Longer(v, w) - i
  {
    if i < Longer(v, w) {
      ItemHeads(fl, v, w, i + 1);
      IndexDigits(i);
      var cs := ItemChanges(fl, v, w, i);
      assert Headed(ItemChange(fl, v, w, i), Digits(i));
      forall n | 0 <= n < |cs|
        ensures cs[n].path != [] && Index(cs[n].path[0]) >= i
      {
        var m := |ItemChange(fl, v, w, i)|;
        if n >= m { assert cs[n] == ItemChanges(fl, v, w, i + 1)[n - m]; }
      }
    }
  }

  /** The number a run of decimal digits spells. */
  function Index(s: Str): int {
    if s == [] then 0 else 10 * Index(s[..|s| - 1]) + s[|s| - 1] - 48
  }

  lemma {:induction false} IndexDigits(n: nat)
    ensures Index(Digits(n)) == n
  {
    var s := Digits(n);
    if n >= 10 {
      assert s[..|s| - 1] == Digits(n / 10);
      IndexDigits(n / 10);
    }
  }

  lemma ChangesSound(fl: FloatOps, v: Value, w: Value)
    requires WellFormed(v) && WellFormed(w)
    ensures Sound(Changes(fl, v, w))
    ensures (v.Obj? && w.Obj?) || (v.Arr? && w.Arr?) ==> Below(Changes(fl, v, w))
  {
    if v.Obj? && w.Obj? {
      LeftHeads(fl, v, w, 0);
      RightHeads(v.entries, w.entries, 0);
    } else if v.Arr? && w.Arr? {
      ItemHeads(fl, v, w, 0);
    }
  }

  // ---- recorded paths do not interfere ------------------------------------------------

  /** Neither path is a prefix of the other. */
  predicate Apart(p: Path, q: Path) {
    p != [] && q != [] && (p[0] != q[0] || Apart(p[1..], q[1..]))
  }

  predicate AllApart(cs: seq<Change>) {
    forall i, j | 0 <= i < j < |cs| :: Apart(cs[i].path, cs[j].path)
  }

  lemma ApartJoin(a: seq<Change>, b: seq<Change>)
    requires AllApart(a) && AllApart(b) && Below(a) && Below(b)
    requires forall i, j | 0 <= i < |a| && 0 <= j < |b| :: a[i].path[0] != b[j].path[0]
    ensures AllApart(a + b)
  {
    var s := a + b;
    forall i, j | 0 <= i < j < |s|
      ensures Apart(s[i].path, s[j].path)
    {
      if i >= |a| {
        assert s[i] == b[i - |a|] && s[j] == b[j - |a|];
      } else if j >= |a| {
        assert s[j] == b[j - |a|] && a[i].path[0] != b[j - |a|].path[0];
      }
    }
  }

  lemma ApartUnder(k: Str, cs: seq<Change>)
    requires AllApart(cs)
    ensures AllApart(Under(k, cs))
  {
    var s := Under(k, cs);
    forall i, j | 0 <= i < j < |s|
      ensures Apart(s[i].path, s[j].path)
    {
      assert s[i].path[1..] == cs[i].path && s[j].path[1..] == cs[j].path;
    }
  }

  /** No recorded path leads into another one, so no entry disturbs what another left. */
  lemma {:induction false} PathsApart(fl: FloatOps, v: Value, w: Value)
    requires WellFormed(v) && WellFormed(w)
    ensures AllApart(Changes(fl, v, w))
    decreases v, 1, 0
  {
    ChangesSound(fl, v, w);
    if v.Obj? && w.Obj? {
      LeftApart(fl, v, w, 0);
      RightApart(v.entries, w.entries, 0);
      LeftHeads(fl, v, w, 0);
      RightHeads(v.entries, w.entries, 0);
      assert v.entries[0..] == v.entries;
      ApartJoin(LeftChanges(fl, v, w, 0), RightChanges(v.entries, w.entries, 0));
    } else if v.Arr? && w.Arr? {
      ItemsApart(fl, v, w, 0);
    }
  }

  lemma {:induction false} LeftApart(fl: FloatOps, v: Value, w: Value, i: nat)
    requires v.Obj? && w.Obj? && WellFormed(v) && WellFormed(w) && i <= |v.entries|
    ensures AllApart(LeftChanges(fl, v, w, i))
    decreases v, 0, |v.entries| - i
  {
    if i < |v.entries| {
      var e := v.entries[i];
      LeftApart(fl, v, w, i + 1);
      LeftHeads(fl, v, w, i + 1);
      SuffixFind(v.entries, i, e.key);
      if Find(w.entries, e.key).Some? {
        var x := Find(w.entries, e.key).value;
        var j := FindIn(w.entries, e.key);
        PathsApart(fl, e.val, x);
        ApartUnder(e.key, Changes(fl, e.val, x));
      }
      assert Headed(LeftChange(fl, v, w, i), v.entries[i].key);
      ApartJoin(LeftChange(fl, v, w, i), LeftChanges(fl, v, w, i + 1));
    }
  }

  lemma {:induction false} RightApart(a: seq<Entry>, b: seq<Entry>, j: nat)
    requires Sorted(b) && j <= |b|
    ensures AllApart(RightChanges(a, b, j))
    decreases |b| - j
  {
    if j < |b| {
      RightApart(a, b, j + 1);
      RightHeads(a, b, j + 1);
      SuffixFind(b, j, b[j].key);
      assert Headed(RightChange(a, b[j]), b[j].key);
      ApartJoin(RightChange(a, b[j]), RightChanges(a, b, j + 1));
    }
  }

  lemma {:induction false} ItemsApart(fl: FloatOps, v: Value, w: Value, i: nat)
    requires v.Arr? && w.Arr? && WellFormed(v) && WellFormed(w) && i <= Longer(v, w)
    ensures AllApart(ItemChanges(fl, v, w, i))
    decreases v, 0, Longer(v, w) - i
  {
    if i < Longer(v, w) {
      ItemsApart(fl, v, w, i + 1);
      ItemHeads(fl, v, w, i + 1);
      IndexDigits(i);
      if i < |v.items| && i < |w.items| {
        PathsApart(fl, v.items[i], w.items[i]);
        ApartUnder(Digits(i), Changes(fl, v.items[i], w.items[i]));
      }
      assert Headed(ItemChange(fl, v, w, i), Digits(i));
      ApartJoin(ItemChange(fl, v, w, i), ItemChanges(fl, v, w, i + 1));
    }
  }

  // ---- a diff is empty exactly between equal values -------------------------------------

  lemma {:induction false} EmptyDiff(fl: FloatOps, v: Value, w: Value)
    requires WellFormed(v) && WellFormed(w)
    ensures Changes(fl, v, w) == [] <==> ValueEq(fl, v, w)
    decreases v, 1, 0
  {
    if v.Obj? && w.Obj? {
      EmptyLeft(fl, v, w, 0);
      EmptyRight(v.entries, w.entries, 0);
      if Changes(fl, v, w) == [] {
        EntriesFound(fl, v, w);
      } else if ValueEq(fl, v, w) {
        EntriesMatched(fl, v, w);
      }
    } else if v.Arr? && w.Arr? {
      EmptyItems(fl, v, w, 0);
    }
  }

  /** Every key of `v` from `i` on has an equal value in `w`. */
  predicate LeftSame(fl: FloatOps, v: Value, w: Value, i: nat)
    requires v.Obj? && w.Obj?
  {
    forall j | i <= j < |v.entries| ::
      var x := Find(w.entries, v.entries[j].key);
      x.Some? && ValueEq(fl, v.entries[j].val, x.value)
  }

  lemma {:induction false} EmptyLeft(fl: FloatOps, v: Value, w: Value, i: nat)
    requires v.Obj? && w.Obj? && WellFormed(v) && WellFormed(w) && i <= |v.entries|
    ensures LeftChanges(fl, v, w, i) == [] <==> LeftSame(fl, v, w, i)
    decreases v, 0, |v.entries| - i
  {
    if i < |v.entries| {
      EmptyLeft(fl, v, w, i + 1);
      var e := v.entries[i];
      if Find(w.entries, e.key).Some? {
        var j := FindIn(w.entries, e.key);
        EmptyDiff(fl, e.val, w.entries[j].val);
      }
    }
  }

  predicate RightKnown(a: seq<Entry>, b: seq<Entry>, j: nat) {
    forall n | j <= n < |b| :: Find(a, b[n].key).Some?
  }

  lemma {:induction false} EmptyRight(a: seq<Entry>, b: seq<Entry>, j: nat)
    requires j <= |b|
    ensures RightChanges(a, b, j) == [] <==> RightKnown(a, b, j)
    decreases |b| - j
  {
    if j < |b| { EmptyRight(a, b, j + 1); }
  }

  lemma {:induction false} EmptyItems(fl: FloatOps, v: Value, w: Value, i: nat)
    requires v.Arr? && w.Arr? && WellFormed(v) && WellFormed(w) && i <= Longer(v, w)
    ensures ItemChanges(fl, v, w, i) == [] <==>
            (i == Longer(v, w) || |v.items| == |w.items|)
            && forall j | i <= j < |v.items| && j < |w.items| :: ValueEq(fl, v.items[j], w.items[j])
    decreases v, 0, Longer(v, w) - i
  {
    if i < Longer(v, w) {
      EmptyItems(fl, v, w, i + 1);
      if i < |v.items| && i < |w.items| { EmptyDiff(fl, v.items[i], w.items[i]); }
    }
  }

  lemma EntriesFound(fl: FloatOps, v: Value, w: Value)
    requires v.Obj? && w.Obj? && WellFormed(v) && WellFormed(w)
    requires LeftSame(fl, v, w, 0) && RightKnown(v.entries, w.entries, 0)
    ensures ValueEq(fl, v, w)
  {
    forall k
      ensures Find(v.entries, k).Some? <==> Find(w.entries, k).Some?
    {
      if Find(v.entries, k).Some? { var j := FindIn(v.entries, k); }
      if Find(w.entries, k).Some? { var j := FindIn(w.entries, k); }
    }
    SameKeys(v.entries, w.entries);
    forall i | 0 <= i < |v.entries|
      ensures ValueEq(fl, v.entries[i].val, w.entries[i].val)
    {
      FindAt(w.entries, i);
    }
  }

  lemma EntriesMatched(fl: FloatOps, v: Value, w: Value)
    requires v.Obj? && w.Obj? && WellFormed(v) && WellFormed(w) && ValueEq(fl, v, w)
    ensures LeftSame(fl, v, w, 0) && RightKnown(v.entries, w.entries, 0)
  {
    forall i | 0 <= i < |v.entries|
      ensures Find(w.entries, v.entries[i].key) == Some(w.entries[i].val)
      ensures Find(v.entries, w.entries[i].key).Some?
    {
      FindAt(w.entries, i);
      FindAt(v.entries, i);
    }
  }

  // ---- what patching with a diff gives --------------------------------------------------

  function Patched(fl: FloatOps, v: Value, w: Value): Value { ApplyAll(v, Changes(fl, v, w)) }

  lemma {:induction false} NeverDeleted(o: Value, cs: seq<Change>)
    requires !o.Deleted?
    ensures !ApplyAll(o, cs).Deleted?
    decreases |cs|
  {
    if cs != [] {
      Kept(o, cs[0]);
      NeverDeleted(Apply(o, cs[0]), cs[1..]);
    }
  }

  /** What key `k` holds after patching one object into another. */
  function Expected(fl: FloatOps, c: Option<Value>, x: Option<Value>): Option<Value> {
    match x
    case None => None
    case Some(to) => (match c case Some(from) => Some(Patched(fl, from, to)) case None => x)
  }

  /** `o` still has the entries of `es` as they are. */
  ghost predicate Intact(o: Value, es: seq<Entry>) {
    o.Obj? && Sorted(o.entries) && forall q :: Find(es, q).Some? ==> Find(o.entries, q) == Find(es, q)
  }

  lemma {:induction false} LeftApplied(fl: FloatOps, v: Value, w: Value, i: nat, o: Value, k: Str)
    requires v.Obj? && w.Obj? && WellFormed(v) && WellFormed(w) && i <= |v.entries|
    requires Intact(o, v.entries[i..])
    ensures var u := ApplyAll(o, LeftChanges(fl, v, w, i));
            u.Obj? && Sorted(u.entries) &&
            Find(u.entries, k) ==
            var c := Find(v.entries[i..], k);
            if c.Some? then Expected(fl, c, Find(w.entries, k)) else Find(o.entries, k)
    decreases |v.entries| - i
  {
    if i < |v.entries| {
      var e := v.entries[i];
      SuffixFind(v.entries, i, e.key);
      SuffixFind(v.entries, i, k);
      var o' := EntryApplied(fl, v, w, i, o);
      forall q
        ensures Find(v.entries[i + 1..], q).Some? ==> Find(o'.entries, q) == Find(v.entries[i + 1..], q)
      {
        SuffixFind(v.entries, i, q);
      }
      ApplyJoin(o, LeftChange(fl, v, w, i), LeftChanges(fl, v, w, i + 1));
      LeftApplied(fl, v, w, i + 1, o', k);
    }
  }

  /** The changes for one entry replace or remove that entry and touch no other. */
  lemma EntryApplied(fl: FloatOps, v: Value, w: Value, i: nat, o: Value) returns (o': Value)
    requires v.Obj? && w.Obj? && WellFormed(v) && WellFormed(w) && i < |v.entries|
    requires o.Obj? && Sorted(o.entries) && Find(o.entries, v.entries[i].key) == Some(v.entries[i].val)
    ensures o' == ApplyAll(o, LeftChange(fl, v, w, i)) && o'.Obj? && Sorted(o'.entries)
    ensures forall q :: Find(o'.entries, q) ==
                        if q == v.entries[i].key then Expected(fl, Some(v.entries[i].val), Find(w.entries, q))
                        else Find(o.entries, q)
  {
    var e := v.entries[i];
    o' := ApplyAll(o, LeftChange(fl, v, w, i));
    var x := Find(w.entries, e.key);
    if x.Some? {
      var j := FindIn(w.entries, e.key);
      ChangesSound(fl, e.val, x.value);
      NeverDeleted(e.val, Changes(fl, e.val, x.value));
      ApplyAllUnder(o, e.key, e.val, Changes(fl, e.val, x.value));
      assert o' == SetField(o, e.key, Patched(fl, e.val, x.value));
      forall q
        ensures Sorted(o'.entries)
        ensures Find(o'.entries, q) == if q == e.key then Some(Patched(fl, e.val, x.value)) else Find(o.entries, q)
      {
        SetRefinesUpdate(o.entries, e.key, Patched(fl, e.val, x.value), q);
      }
      SetRefinesUpdate(o.entries, e.key, Patched(fl, e.val, x.value), e.key);
    } else {
      var c := Delete([e.key], e.val);
      ApplyOne(o, c);
      forall q
        ensures Find(o'.entries, q) == if q == e.key then None else Find(o.entries, q)
      {
        RemoveRefines(o.entries, e.key, q);
      }
      RemoveRefines(o.entries, e.key, e.key);
    }
  }

  lemma {:induction false} RightApplied(a: seq<Entry>, b: seq<Entry>, j: nat, o: Value, k: Str)
    requires o.Obj? && Sorted(o.entries) && WellFormed(Obj(b)) && j <= |b|
    ensures var u := ApplyAll(o, RightChanges(a, b, j));
            u.Obj? && Sorted(u.entries) &&
            Find(u.entries, k) ==
            if Find(a, k).None? && Find(b[j..], k).Some? then Find(b[j..], k) else Find(o.entries, k)
    decreases |b| - j
  {
    if j < |b| {
      SuffixFind(b, j, b[j].key);
      SuffixFind(b, j, k);
      var o' := ApplyAll(o, RightChange(a, b[j]));
      if Find(a, b[j].key).None? {
        var c := Create([b[j].key], b[j].val);
        ApplyOne(o, c);
        assert SetPath(o, c.path, 0, c.to) == SetField(o, b[j].key, b[j].val);
        SetRefinesUpdate(o.entries, b[j].key, b[j].val, k);
      }
      ApplyJoin(o, RightChange(a, b[j]), RightChanges(a, b, j + 1));
      RightApplied(a, b, j + 1, o', k);
    }
  }

  /** Patching an object gives exactly the keys of the other, each patched in turn. */
  lemma ObjectPatched(fl: FloatOps, v: Value, w: Value, k: Str)
    requires v.Obj? && w.Obj? && WellFormed(v) && WellFormed(w)
    ensures var u := Patched(fl, v, w);
            u.Obj? && Sorted(u.entries) &&
            Find(u.entries, k) == Expected(fl, Find(v.entries, k), Find(w.entries, k))
  {
    assert v.entries[0..] == v.entries && w.entries[0..] == w.entries;
    LeftApplied(fl, v, w, 0, v, k);
    var o := ApplyAll(v, LeftChanges(fl, v, w, 0));
    ApplyJoin(v, LeftChanges(fl, v, w, 0), RightChanges(v.entries, w.entries, 0));
    RightApplied(v.entries, w.entries, 0, o, k);
  }

  /** No path holds two different arrays. */
  predicate NoArrayClash(fl: FloatOps, v: Value, w: Value)
    decreases w
  {
    if v.Obj? && w.Obj? then
      forall j | 0 <= j < |w.entries| ::
        match Find(v.entries, w.entries[j].key)
        case Some(c) => NoArrayClash(fl, c, w.entries[j].val)
        case None => true
    else v.Arr? && w.Arr? ==> ValueEq(fl, v, w)
  }

  lemma {:induction false} PatchedEqual(fl: FloatOps, v: Value, w: Value)
    requires WellFormed(v) && WellFormed(w) && ValueEq(fl, w, w) && !v.Deleted? && !w.Deleted?
    ensures ValueEq(fl, Patched(fl, v, w), w) <==> NoArrayClash(fl, v, w)
    decreases w
  {
    EmptyDiff(fl, v, w);
    if v.Obj? && w.Obj? {
      PatchedObjects(fl, v, w);
    } else if v.Arr? && w.Arr? {
      ChangesSound(fl, v, w);
      ArrayLost(v, Changes(fl, v, w));
    } else {
      ApplyOne(v, Update([], v, w));
    }
  }

  lemma {:induction false} PatchedObjects(fl: FloatOps, v: Value, w: Value)
    requires v.Obj? && w.Obj? && WellFormed(v) && WellFormed(w) && ValueEq(fl, w, w)
    ensures ValueEq(fl, Patched(fl, v, w), w) <==> NoArrayClash(fl, v, w)
    decreases w, 1
  {
    hide Patched, WellFormed;
    var u := Patched(fl, v, w);
    ObjectPatched(fl, v, w, []);
    forall k
      ensures Find(u.entries, k) == Expected(fl, Find(v.entries, k), Find(w.entries, k))
    {
      ObjectPatched(fl, v, w, k);
    }
    WellSorted(w);
    SameKeys(u.entries, w.entries);
    forall j | 0 <= j < |w.entries|
      ensures ValueEq(fl, u.entries[j].val, w.entries[j].val) <==>
              match Find(v.entries, w.entries[j].key)
              case Some(c) => NoArrayClash(fl, c, w.entries[j].val)
              case None => true
    {
      PatchedField(fl, v, w, u, j);
    }
  }

  lemma WellSorted(w: Value)
    requires w.Obj? && WellFormed(w)
    ensures Sorted(w.entries) && forall k | 0 <= k < |w.entries| :: !w.entries[k].val.Deleted?
  {
  }

  lemma {:induction false} PatchedField(fl: FloatOps, v: Value, w: Value, u: Value, j: nat)
    requires v.Obj? && w.Obj? && u.Obj? && WellFormed(v) && WellFormed(w) && ValueEq(fl, w, w)
    requires Sorted(u.entries) && |u.entries| == |w.entries| && j < |w.entries| && u.entries[j].key == w.entries[j].key
    requires forall k :: Find(u.entries, k) == Expected(fl, Find(v.entries, k), Find(w.entries, k))
    ensures ValueEq(fl, u.entries[j].val, w.entries[j].val) <==>
            match Find(v.entries, w.entries[j].key)
            case Some(c) => NoArrayClash(fl, c, w.entries[j].val)
            case None => true
    decreases w, 0
  {
    hide Patched;
    FindAt(u.entries, j);
    FindAt(w.entries, j);
    assert ValueEq(fl, w.entries[j].val, w.entries[j].val);
    if Find(v.entries, w.entries[j].key).Some? {
      var n := FindIn(v.entries, w.entries[j].key);
      PatchedEqual(fl, v.entries[n].val, w.entries[j].val);
    }
  }

  // ---- the changelog as a value ---------------------------------------------------------

  /** What `patch` reads out of an entry is what `diff` put in. */
  lemma RecordRead(c: Change)
    ensures FindField(Record(c), TYPE) == Some(String(c.Kind()))
    ensures FindField(Record(c), PATH) == Some(Arr(Strings(c.path)))
    ensures FindField(Record(c), TO) ==
            if c.Delete? then Some(Null) else if c.to.Deleted? then None else Some(c.to)
  {
    var from := if c.Create? then Null else c.from;
    var to := if c.Delete? then Null else c.to;
    var e0 := SetField(Obj([]), FROM, from);
    var e1 := SetField(e0, PATH, Arr(Strings(c.path)));
    var e2 := SetField(e1, TO, to);
    FieldSet(Obj([]), FROM, from, TO);
    FieldSet(e0, PATH, Arr(Strings(c.path)), TO);
    FieldSet(e0, PATH, Arr(Strings(c.path)), PATH);
    FieldSet(e1, TO, to, PATH);
    FieldSet(e1, TO, to, TO);
    FieldSet(e2, TYPE, String(c.Kind()), PATH);
    FieldSet(e2, TYPE, String(c.Kind()), TO);
    FieldSet(e2, TYPE, String(c.Kind()), TYPE);
  }

  lemma FieldSet(o: Value, k: Str, v: Value, q: Str)
    requires o.Obj? && Sorted(o.entries)
    ensures SetField(o, k, v).Obj? && Sorted(SetField(o, k, v).entries)
    ensures FindField(SetField(o, k, v), q) == if q == k then (if v.Deleted? then None else Some(v)) else FindField(o, q)
  {
    SetRefinesUpdate(o.entries, k, v, q);
  }

  lemma {:induction false} PathRead(path: Path)
    ensures ReadPath(Strings(path)) == Some(path)
  {
    if path == [] {
      assert Strings(path) == [];
    } else {
      assert Strings(path)[1..] == Strings(path[1..]);
      PathRead(path[1..]);
      assert path == [path[0]] + path[1..];
    }
  }

  lemma EntryPatches(o: Value, c: Change)
    ensures ApplyEntry(o, Record(c)) == if c.path == [] then Err else Ok(Apply(o, c))
  {
    RecordRead(c);
    PathRead(c.path);
    assert DELETE[0] == 100 && CREATE[0] == 99 && UPDATE[0] == 117;
  }

  lemma {:induction false} RecordsPatch(o: Value, cs: seq<Change>)
    requires Below(cs)
    ensures ApplyEntries(o, Records(cs)) == Ok(ApplyAll(o, cs))
    decreases |cs|
  {
    if cs != [] {
      EntryPatches(o, cs[0]);
      RecordsPatch(Apply(o, cs[0]), cs[1..]);
      assert Records(cs)[1..] == Records(cs[1..]);
    }
  }

  /** `patch(v, diff(v, w))` is `w` if and only if the two are equal already, or are both
      objects in which no path holds two different arrays. */
  lemma PatchUndoesDiff(fl: FloatOps, v: Value, w: Value)
    requires WellFormed(v) && WellFormed(w) && ValueEq(fl, w, w)
    ensures var r := PatchValue(v, DiffValue(fl, v, w));
            (r.Ok? && ValueEq(fl, r.v, w)) <==>
            (ValueEq(fl, v, w) || (v.Obj? && w.Obj? && NoArrayClash(fl, v, w)))
  {
    var cs := Changes(fl, v, w);
    EmptyDiff(fl, v, w);
    ChangesSound(fl, v, w);
    if Below(cs) {
      RecordsPatch(v, cs);
      if v.Obj? || v.Arr? { PatchedEqual(fl, v, w); }
    } else {
      EntryPatches(v, cs[0]);
    }
  }

  const A: Str := [97]

  /** `{"a": [n]}` */
  function Boxed(n: Int64): Value { Obj([Entry(A, Arr([I64(n)]))]) }

  /** From `{"a": [1]}` to `{"a": [2]}` there is a changelog, and applying it does not get there. */
  lemma ArraysDoNotPatch(fl: FloatOps)
    ensures var r := PatchValue(Boxed(1), DiffValue(fl, Boxed(1), Boxed(2)));
            !(r.Ok? && ValueEq(fl, r.v, Boxed(2)))
  {
    hide ValueEq, NoArrayClash, PatchValue, DiffValue;
    OneItem(fl, 1, 2);
    OneItem(fl, 2, 2);
    OneField(fl, Arr([I64(1)]), Arr([I64(2)]));
    OneField(fl, Arr([I64(2)]), Arr([I64(2)]));
    OneClash(fl, Arr([I64(1)]), Arr([I64(2)]));
    BoxedHolds(1);
    BoxedHolds(2);
    PatchUndoesDiff(fl, Boxed(1), Boxed(2));
  }

  lemma BoxedHolds(n: Int64)
    ensures WellFormed(Boxed(n))
  {
    var items := [I64(n)];
    assert items[0] == I64(n);
    assert WellFormed(Arr(items));
  }

  lemma OneClash(fl: FloatOps, x: Value, y: Value)
    requires x.Arr? && y.Arr? && !ValueEq(fl, x, y)
    ensures !NoArrayClash(fl, Obj([Entry(A, x)]), Obj([Entry(A, y)]))
  {
    hide ValueEq;
    LessTrichotomy(A, A);
    var a, b := [Entry(A, x)], [Entry(A, y)];
    assert Find(a, A) == Some(x) && b[0] == Entry(A, y);
    assert !NoArrayClash(fl, x, y);
  }

  lemma OneItem(fl: FloatOps, m: Int64, n: Int64)
    ensures ValueEq(fl, Arr([I64(m)]), Arr([I64(n)])) <==> m == n
  {
    var x, y := [I64(m)], [I64(n)];
    assert x[0] == I64(m) && y[0] == I64(n);
    assert ValueEq(fl, Arr(x), Arr(y)) <==> ValueEq(fl, x[0], y[0]);
  }

  lemma OneField(fl: FloatOps, x: Value, y: Value)
    ensures ValueEq(fl, Obj([Entry(A, x)]), Obj([Entry(A, y)])) <==> ValueEq(fl, x, y)
  {
    var a, b := [Entry(A, x)], [Entry(A, y)];
    assert a[0].key == b[0].key;
    assert ValueEq(fl, Obj(a), Obj(b)) <==> ValueEq(fl, a[0].val, b[0].val);
  }
}
