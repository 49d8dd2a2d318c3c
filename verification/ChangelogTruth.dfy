/** What the entries of a changelog say of the two values, by lookups along their paths: every
    entry is true, and every difference has one. */
module ChangelogTruth {
  import opened Values
  import opened Numbers
  import opened DiffPatch
  import opened PatchLaws

  // ---- lookups along a path -------------------------------------------------------------

  /** The element whose index is written as `key`. */
  function ItemNamed(items: seq<Value>, key: Str, i: nat): Option<Value>
    requires i <= |items|
    decreases |items| - i
  {
    if i == |items| then None else if Digits(i) == key then Some(items[i]) else ItemNamed(items, key, i + 1)
  }

  function Child(v: Value, key: Str): Option<Value> {
    match v
    case Obj(es) => Find(es, key)
    case Arr(items) => ItemNamed(items, key, 0)
    case _ => None
  }

  function Reach(v: Value, path: Path): Option<Value>
    decreases |path|
  {
    if path == [] then Some(v)
    else match Child(v, path[0]) case Some(c) => Reach(c, path[1..]) case None => None
  }

  predicate Alike(v: Value, w: Value) { (v.Obj? && w.Obj?) || (v.Arr? && w.Arr?) }

  /** The path leads, in one value at least, through containers that are alike in both. */
  predicate Met(v: Value, w: Value, path: Path)
    decreases |path|
  {
    path == [] ||
    (Alike(v, w) &&
     match (Child(v, path[0]), Child(w, path[0]))
     case (Some(a), Some(b)) => Met(a, b, path[1..])
     case (None, None) => false
     case _ => |path| == 1)
  }

  /** What is there differs, and not inside alike containers. */
  predicate Differ(fl: FloatOps, a: Option<Value>, b: Option<Value>) {
    match (a, b)
    case (Some(x), Some(y)) => !Alike(x, y) && !ValueEq(fl, x, y)
    case (None, None) => false
    case _ => true
  }

  /** The change is of the right kind and carries what is there on each side. */
  predicate Carries(c: Change, a: Option<Value>, b: Option<Value>) {
    match c
    case Update(_, x, y) => a == Some(x) && b == Some(y)
    case Delete(_, x) => a == Some(x) && b.None?
    case Create(_, y) => a.None? && b == Some(y)
  }

  /** The change that belongs at a path where the values differ. */
  function ChangeAt(path: Path, a: Option<Value>, b: Option<Value>): Change
    requires a.Some? || b.Some?
  {
    match (a, b)
    case (Some(x), Some(y)) => Update(path, x, y)
    case (Some(x), None) => Delete(path, x)
    case (None, Some(y)) => Create(path, y)
  }

  lemma {:induction false} ItemNamedAt(items: seq<Value>, i: nat, n: nat)
    requires i <= |items|
    ensures ItemNamed(items, Digits(n), i) == if i <= n < |items| then Some(items[n]) else None
    decreases |items| - i
  {
    hide Digits;
    if i < |items| {
      IndexDigits(i);
      IndexDigits(n);
      ItemNamedAt(items, i + 1, n);
    }
  }

  lemma {:induction false} ItemNamedIn(items: seq<Value>, key: Str, i: nat) returns (n: nat)
    requires i <= |items| && ItemNamed(items, key, i).Some?
    ensures i <= n < |items| && Digits(n) == key && ItemNamed(items, key, i).value == items[n]
    decreases |items| - i
  {
    hide Digits;
    if Digits(i) == key { n := i; } else { n := ItemNamedIn(items, key, i + 1); }
  }

  // ---- one level of the walk ------------------------------------------------------------

  function Tail(c: Change): Change
    requires c.path != []
  {
    c.(path := c.path[1..])
  }

  lemma UnderIs(k: Str, cs: seq<Change>, c: Change)
    ensures c in Under(k, cs) <==> c.path != [] && c.path[0] == k && Tail(c) in cs
  {
    if c in Under(k, cs) {
      var i :| 0 <= i < |cs| && Under(k, cs)[i] == c;
      assert c == cs[i].Under(k) && c.path[1..] == cs[i].path;
      assert Tail(c) == cs[i];
    }
    if c.path != [] && c.path[0] == k && Tail(c) in cs {
      var i :| 0 <= i < |cs| && cs[i] == Tail(c);
      assert [k] + c.path[1..] == c.path;
      assert Under(k, cs)[i] == c;
    }
  }

  /** The change belongs to the key it starts with: recorded inside, or for the key itself. */
  ghost predicate Belongs(fl: FloatOps, a: Option<Value>, b: Option<Value>, c: Change) {
    c.path != [] &&
    match (a, b)
    case (Some(x), Some(y)) => Tail(c) in Changes(fl, x, y)
    case _ => |c.path| == 1 && Carries(c, a, b)
  }

  lemma JoinHas(a: seq<Change>, b: seq<Change>, c: Change)
    ensures c in a + b <==> c in a || c in b
  {
  }

  lemma {:induction false} InLeft(fl: FloatOps, v: Value, w: Value, i: nat, c: Change)
    requires v.Obj? && w.Obj? && WellFormed(v) && i <= |v.entries|
    ensures c in LeftChanges(fl, v, w, i) <==>
            exists j :: i <= j < |v.entries| && c in LeftChange(fl, v, w, j)
    decreases |v.entries| - i
  {
    hide LeftChange, LeftChanges, WellFormed;
    if i < |v.entries| {
      InLeft(fl, v, w, i + 1, c);
      LeftStep(fl, v, w, i);
      JoinHas(LeftChange(fl, v, w, i), LeftChanges(fl, v, w, i + 1), c);
    } else {
      LeftEnd(fl, v, w);
    }
  }

  lemma {:induction false} InRight(a: seq<Entry>, b: seq<Entry>, j: nat, c: Change)
    requires j <= |b|
    ensures c in RightChanges(a, b, j) <==> exists k :: j <= k < |b| && c in RightChange(a, b[k])
    decreases |b| - j
  {
    hide RightChange;
    if j < |b| { InRight(a, b, j + 1, c); }
  }

  lemma {:induction false} InItems(fl: FloatOps, v: Value, w: Value, i: nat, c: Change)
    requires v.Arr? && w.Arr? && i <= Longer(v, w)
    ensures c in ItemChanges(fl, v, w, i) <==> exists j :: i <= j < Longer(v, w) && c in ItemChange(fl, v, w, j)
    decreases Longer(v, w) - i
  {
    hide ItemChange, ItemChanges;
    if i < Longer(v, w) {
      InItems(fl, v, w, i + 1, c);
      ItemStep(fl, v, w, i);
    } else {
      ItemEnd(fl, v, w);
    }
  }

  lemma LeftBelongs(fl: FloatOps, v: Value, w: Value, j: nat, c: Change)
    requires v.Obj? && w.Obj? && WellFormed(v) && j < |v.entries|
    ensures c in LeftChange(fl, v, w, j) <==>
            c.path != [] && c.path[0] == v.entries[j].key && Belongs(fl, Child(v, c.path[0]), Child(w, c.path[0]), c)
  {
    var e := v.entries[j];
    FindAt(v.entries, j);
    var x := Find(w.entries, e.key);
    if x.Some? {
      UnderIs(e.key, Changes(fl, e.val, x.value), c);
    } else {
      assert c in [Delete([e.key], e.val)] <==> c == Delete([e.key], e.val);
    }
  }

  /** The new keys: the change at a key only the right value has is its creation. */
  lemma RightBelongs(a: seq<Entry>, b: seq<Entry>, c: Change)
    requires Sorted(b)
    ensures c in RightChanges(a, b, 0) <==>
            c.path != [] && Find(a, c.path[0]).None? && Find(b, c.path[0]).Some? && c == Create([c.path[0]], Find(b, c.path[0]).value)
  {
    hide RightChanges;
    InRight(a, b, 0, c);
    if k :| 0 <= k < |b| && c in RightChange(a, b[k]) { FindAt(b, k); }
    if c.path != [] && Find(b, c.path[0]).Some? {
      var k := FindIn(b, c.path[0]);
      assert b[k] == Entry(c.path[0], Find(b, c.path[0]).value);
    }
  }

  /** The old keys. */
  lemma LeftAll(fl: FloatOps, v: Value, w: Value, c: Change)
    requires v.Obj? && w.Obj? && WellFormed(v)
    ensures c in LeftChanges(fl, v, w, 0) <==>
            c.path != [] && Find(v.entries, c.path[0]).Some? && Belongs(fl, Child(v, c.path[0]), Child(w, c.path[0]), c)
  {
    hide LeftChanges, LeftChange, Belongs, WellFormed;
    InLeft(fl, v, w, 0, c);
    if j :| 0 <= j < |v.entries| && c in LeftChange(fl, v, w, j) {
      LeftBelongs(fl, v, w, j, c);
      Present(v, j);
    }
    if c.path != [] && Find(v.entries, c.path[0]).Some? {
      var j := FindIn(v.entries, c.path[0]);
      LeftBelongs(fl, v, w, j, c);
    }
  }

  lemma Present(v: Value, j: nat)
    requires v.Obj? && WellFormed(v) && j < |v.entries|
    ensures Find(v.entries, v.entries[j].key) == Some(v.entries[j].val)
  {
    FindAt(v.entries, j);
  }

  lemma ObjectChanges(fl: FloatOps, v: Value, w: Value, c: Change)
    requires v.Obj? && w.Obj? && WellFormed(v) && WellFormed(w)
    ensures c in Changes(fl, v, w) <==> c.path != [] && Belongs(fl, Child(v, c.path[0]), Child(w, c.path[0]), c)
  {
    LeftAll(fl, v, w, c);
    RightBelongs(v.entries, w.entries, c);
    assert Changes(fl, v, w) == LeftChanges(fl, v, w, 0) + RightChanges(v.entries, w.entries, 0);
    hide LeftChanges, RightChanges, Changes;
  }

  lemma ItemBelongs(fl: FloatOps, v: Value, w: Value, j: nat, c: Change)
    requires v.Arr? && w.Arr? && j < Longer(v, w)
    ensures c in ItemChange(fl, v, w, j) <==>
            c.path != [] && c.path[0] == Digits(j) && Belongs(fl, Child(v, c.path[0]), Child(w, c.path[0]), c)
  {
    hide Digits;
    ItemNamedAt(v.items, 0, j);
    ItemNamedAt(w.items, 0, j);
    if j < |v.items| && j < |w.items| { UnderIs(Digits(j), Changes(fl, v.items[j], w.items[j]), c); }
    if |c.path| == 1 { assert c.path == [c.path[0]]; }
  }

  lemma ArrayChanges(fl: FloatOps, v: Value, w: Value, c: Change)
    requires v.Arr? && w.Arr?
    ensures c in Changes(fl, v, w) <==> c.path != [] && Belongs(fl, Child(v, c.path[0]), Child(w, c.path[0]), c)
  {
    assert Changes(fl, v, w) == ItemChanges(fl, v, w, 0);
    hide Changes, ItemChanges, ItemChange, Digits;
    InItems(fl, v, w, 0, c);
    if j :| 0 <= j < Longer(v, w) && c in ItemChange(fl, v, w, j) { ItemBelongs(fl, v, w, j, c); }
    if c.path != [] && Belongs(fl, Child(v, c.path[0]), Child(w, c.path[0]), c) {
      var j: nat;
      if Child(v, c.path[0]).Some? {
        j := ItemNamedIn(v.items, c.path[0], 0);
      } else {
        j := ItemNamedIn(w.items, c.path[0], 0);
      }
      ItemBelongs(fl, v, w, j, c);
    }
  }

  /** What it takes for a change to be recorded. */
  predicate Recorded(fl: FloatOps, v: Value, w: Value, c: Change) {
    && Met(v, w, c.path) && Differ(fl, Reach(v, c.path), Reach(w, c.path))
    && Carries(c, Reach(v, c.path), Reach(w, c.path))
  }

  lemma StepsIn(v: Value, w: Value, path: Path, x: Value, y: Value)
    requires Alike(v, w) && path != [] && Child(v, path[0]) == Some(x) && Child(w, path[0]) == Some(y)
    ensures Met(v, w, path) <==> Met(x, y, path[1..])
    ensures Reach(v, path) == Reach(x, path[1..]) && Reach(w, path) == Reach(y, path[1..])
  {
    hide Alike, Child;
  }

  lemma RecordedInside(fl: FloatOps, v: Value, w: Value, c: Change, x: Value, y: Value)
    requires Alike(v, w) && c.path != [] && Child(v, c.path[0]) == Some(x) && Child(w, c.path[0]) == Some(y)
    ensures Recorded(fl, v, w, c) <==> Recorded(fl, x, y, Tail(c))
  {
    hide Alike, Child, Differ, Met, Reach;
    StepsIn(v, w, c.path, x, y);
  }

  lemma MetHere(v: Value, w: Value, path: Path)
    requires Alike(v, w) && path != [] && (Child(v, path[0]).None? || Child(w, path[0]).None?)
    ensures Met(v, w, path) <==> |path| == 1 && (Child(v, path[0]).Some? || Child(w, path[0]).Some?)
  {
    hide Alike, Child;
  }

  lemma ReachHere(v: Value, path: Path)
    requires |path| == 1
    ensures Reach(v, path) == Child(v, path[0])
  {
    hide Child;
    assert path[1..] == [];
  }

  lemma OneSided(fl: FloatOps, a: Option<Value>, b: Option<Value>, c: Change)
    requires a.None? || b.None?
    ensures Carries(c, a, b) ==> a.Some? || b.Some?
    ensures a.Some? || b.Some? ==> Differ(fl, a, b)
  {
  }

  lemma RecordedParts(fl: FloatOps, v: Value, w: Value, c: Change)
    ensures Recorded(fl, v, w, c) <==>
            Met(v, w, c.path) && Differ(fl, Reach(v, c.path), Reach(w, c.path)) && Carries(c, Reach(v, c.path), Reach(w, c.path))
  {
    hide Met, Differ, Carries, Reach;
  }

  lemma RecordedHere(fl: FloatOps, v: Value, w: Value, c: Change)
    requires Alike(v, w) && c.path != []
    requires Child(v, c.path[0]).None? || Child(w, c.path[0]).None?
    ensures Recorded(fl, v, w, c) <==> |c.path| == 1 && Carries(c, Child(v, c.path[0]), Child(w, c.path[0]))
  {
    hide *;
    RecordedParts(fl, v, w, c);
    MetHere(v, w, c.path);
    OneSided(fl, Child(v, c.path[0]), Child(w, c.path[0]), c);
    if |c.path| == 1 {
      ReachHere(v, c.path);
      ReachHere(w, c.path);
    }
  }

  // ---- every path -----------------------------------------------------------------------

  /** A change is recorded if and only if its path meets both values where they differ, and it is
      the change that belongs there. */
  lemma {:induction false} RecordedIff(fl: FloatOps, v: Value, w: Value, c: Change)
    requires WellFormed(v) && WellFormed(w)
    ensures c in Changes(fl, v, w) <==> Recorded(fl, v, w, c)
    decreases |c.path|
  {
    hide Changes, ValueEq, WellFormed, Child, Recorded;
    if !Alike(v, w) {
      LeafChanges(fl, v, w, c);
    } else {
      if v.Obj? { ObjectChanges(fl, v, w, c); } else { ArrayChanges(fl, v, w, c); }
      if c.path == [] {
        NotHere(fl, v, w, c);
      } else {
        var a, b := Child(v, c.path[0]), Child(w, c.path[0]);
        if a.Some? && b.Some? {
          ChildFormed(v, c.path[0]);
          ChildFormed(w, c.path[0]);
          RecordedIff(fl, a.value, b.value, Tail(c));
          RecordedInside(fl, v, w, c, a.value, b.value);
        } else {
          RecordedHere(fl, v, w, c);
        }
      }
    }
  }

  lemma NotHere(fl: FloatOps, v: Value, w: Value, c: Change)
    requires Alike(v, w) && c.path == []
    ensures !Recorded(fl, v, w, c)
  {
  }

  lemma LeafChanges(fl: FloatOps, v: Value, w: Value, c: Change)
    requires !Alike(v, w)
    ensures c in Changes(fl, v, w) <==> Recorded(fl, v, w, c)
  {
    hide ValueEq, Child;
  }

  lemma ChildFormed(v: Value, key: Str)
    requires WellFormed(v) && Child(v, key).Some?
    ensures WellFormed(Child(v, key).value)
  {
    if v.Obj? { var j := FindIn(v.entries, key); } else { var n := ItemNamedIn(v.items, key, 0); }
  }

  // ---- the changelog as a value ---------------------------------------------------------

  /** A field set to `deleted` is not there. */
  function Kept(v: Value): Option<Value> { if v.Deleted? then None else Some(v) }

  /** The entry says where, what kind, and both values; the side that has none says null. */
  ghost predicate Says(e: Value, path: Path, a: Option<Value>, b: Option<Value>) {
    && FindField(e, PATH) == Some(Arr(Strings(path)))
    && FindField(e, TYPE) == Some(String(if a.None? then CREATE else if b.None? then DELETE else UPDATE))
    && FindField(e, FROM) == (if a.Some? then Kept(a.value) else Some(Null))
    && FindField(e, TO) == (if b.Some? then Kept(b.value) else Some(Null))
  }

  lemma RecordSays(c: Change, a: Option<Value>, b: Option<Value>)
    requires Carries(c, a, b)
    ensures Says(Record(c), c.path, a, b)
  {
    hide SetField, FindField;
    var from := if c.Create? then Null else c.from;
    var to := if c.Delete? then Null else c.to;
    FourFields(from, Arr(Strings(c.path)), to, String(c.Kind()));
  }

  lemma FourFields(from: Value, path: Value, to: Value, kind: Value)
    requires !path.Deleted? && !kind.Deleted?
    ensures var e := SetField(SetField(SetField(SetField(Obj([]), FROM, from), PATH, path), TO, to), TYPE, kind);
            && FindField(e, FROM) == Kept(from) && FindField(e, PATH) == Some(path)
            && FindField(e, TO) == Kept(to) && FindField(e, TYPE) == Some(kind)
  {
    hide SetField, FindField;
    var e0 := Obj([]);
    var e1 := SetField(e0, FROM, from);
    var e2 := SetField(e1, PATH, path);
    var e3 := SetField(e2, TO, to);
    forall q | q in {FROM, PATH, TO, TYPE}
      ensures FindField(SetField(e3, TYPE, kind), q) ==
              if q == TYPE then Some(kind) else if q == TO then Kept(to) else if q == PATH then Some(path) else Kept(from)
    {
      FieldSet(e0, FROM, from, q);
      FieldSet(e1, PATH, path, q);
      FieldSet(e2, TO, to, q);
      FieldSet(e3, TYPE, kind, q);
      NoField(q);
    }
    assert FROM[0] == 70 && PATH[0] == 80 && TO[1] == 111 && TYPE[1] == 121;
  }

  lemma NoField(q: Str)
    ensures FindField(Obj([]), q) == None
  {
  }

  lemma {:induction false} RecordsAt(cs: seq<Change>)
    ensures |Records(cs)| == |cs| && forall n | 0 <= n < |cs| :: Records(cs)[n] == Record(cs[n])
  {
    if cs != [] { RecordsAt(cs[1..]); }
  }

  lemma EntryIs(fl: FloatOps, v: Value, w: Value, n: nat) returns (path: Path)
    requires WellFormed(v) && WellFormed(w) && n < |DiffValue(fl, v, w).items|
    ensures Met(v, w, path) && Differ(fl, Reach(v, path), Reach(w, path))
    ensures Says(DiffValue(fl, v, w).items[n], path, Reach(v, path), Reach(w, path))
    ensures n < |Changes(fl, v, w)| && path == Changes(fl, v, w)[n].path
  {
    hide Record, Says;
    var cs := Changes(fl, v, w);
    RecordsAt(cs);
    RecordedIff(fl, v, w, cs[n]);
    path := cs[n].path;
    RecordSays(cs[n], Reach(v, path), Reach(w, path));
  }

  /** Every entry is true of the two values: at its path they differ, and it says how. */
  lemma DiffIsTrue(fl: FloatOps, v: Value, w: Value, n: nat) returns (path: Path)
    requires WellFormed(v) && WellFormed(w) && n < |DiffValue(fl, v, w).items|
    ensures Met(v, w, path) && Differ(fl, Reach(v, path), Reach(w, path))
    ensures Says(DiffValue(fl, v, w).items[n], path, Reach(v, path), Reach(w, path))
  {
    path := EntryIs(fl, v, w, n);
  }

  /** Every difference has an entry. */
  lemma DiffIsWhole(fl: FloatOps, v: Value, w: Value, path: Path) returns (n: nat)
    requires WellFormed(v) && WellFormed(w)
    requires Met(v, w, path) && Differ(fl, Reach(v, path), Reach(w, path))
    ensures n < |DiffValue(fl, v, w).items|
    ensures Says(DiffValue(fl, v, w).items[n], path, Reach(v, path), Reach(w, path))
  {
    hide Record, Says;
    var cs := Changes(fl, v, w);
    var c := ChangeAt(path, Reach(v, path), Reach(w, path));
    RecordsAt(cs);
    RecordedIff(fl, v, w, c);
    n :| 0 <= n < |cs| && cs[n] == c;
    RecordSays(c, Reach(v, path), Reach(w, path));
  }

  // ---- the order of the entries ---------------------------------------------------------

  /** The order of the walk: where two paths part, keys of the left value come first, each side in
      the order of its keys, and elements come by index. */
  predicate Before(v: Value, w: Value, p: Path, q: Path)
    decreases |p|
  {
    && p != [] && q != []
    && if p[0] == q[0] then
         var a, b := Child(v, p[0]), Child(w, p[0]);
         a.Some? && b.Some? && Before(a.value, b.value, p[1..], q[1..])
       else if v.Obj? then
         var a, b := Child(v, p[0]).Some?, Child(v, q[0]).Some?;
         if a == b then Less(p[0], q[0]) else a
       else Index(p[0]) < Index(q[0])
  }

  predicate InOrder(v: Value, w: Value, cs: seq<Change>) {
    forall i, j | 0 <= i < j < |cs| :: Before(v, w, cs[i].path, cs[j].path)
  }

  lemma OrderJoin(v: Value, w: Value, a: seq<Change>, b: seq<Change>)
    requires InOrder(v, w, a) && InOrder(v, w, b)
    requires forall c, d | c in a && d in b :: Before(v, w, c.path, d.path)
    ensures InOrder(v, w, a + b)
  {
    hide Before;
    var s := a + b;
    forall i, j | 0 <= i < j < |s|
      ensures Before(v, w, s[i].path, s[j].path)
    {
      if i < |a| && j < |a| {
        assert s[i] == a[i] && s[j] == a[j];
      } else if i < |a| {
        assert s[i] == a[i] && s[j] == b[j - |a|];
      } else {
        assert s[i] == b[i - |a|] && s[j] == b[j - |a|];
      }
    }
  }

  lemma OrderUnder(v: Value, w: Value, key: Str, cs: seq<Change>)
    requires Child(v, key).Some? && Child(w, key).Some?
    requires InOrder(Child(v, key).value, Child(w, key).value, cs)
    ensures InOrder(v, w, Under(key, cs))
  {
    hide Child;
    var s := Under(key, cs);
    forall i, j | 0 <= i < j < |s|
      ensures Before(v, w, s[i].path, s[j].path)
    {
      assert s[i].path == [key] + cs[i].path && s[j].path == [key] + cs[j].path;
      assert s[i].path[1..] == cs[i].path && s[j].path[1..] == cs[j].path;
    }
  }

  lemma {:induction false} KeysGrow(es: seq<Entry>, i: nat, j: nat)
    requires Sorted(es) && i < j < |es|
    ensures Less(es[i].key, es[j].key)
    decreases i
  {
    if i == 0 { FindAt(es, j); } else { KeysGrow(es[1..], i - 1, j - 1); }
  }

  /** The entries come in the order of the walk. */
  lemma {:induction false} DiffInOrder(fl: FloatOps, v: Value, w: Value)
    requires WellFormed(v) && WellFormed(w)
    ensures InOrder(v, w, Changes(fl, v, w))
    decreases v, 1, 0
  {
    hide Before, LeftChanges, RightChanges, ItemChanges;
    if v.Obj? && w.Obj? {
      LeftInOrder(fl, v, w, 0);
      RightInOrder(v, w, 0);
      forall c, d | c in LeftChanges(fl, v, w, 0) && d in RightChanges(v.entries, w.entries, 0)
        ensures Before(v, w, c.path, d.path)
      {
        LeftAll(fl, v, w, c);
        RightBelongs(v.entries, w.entries, d);
        BeforeIs(v, w, c.path, d.path);
      }
      OrderJoin(v, w, LeftChanges(fl, v, w, 0), RightChanges(v.entries, w.entries, 0));
    } else if v.Arr? && w.Arr? {
      ItemsInOrder(fl, v, w, 0);
    }
  }

  /** Where the paths part at once. */
  lemma BeforeIs(v: Value, w: Value, p: Path, q: Path)
    requires p != [] && q != [] && p[0] != q[0]
    ensures v.Obj? && Child(v, p[0]).Some? && Child(v, q[0]).None? ==> Before(v, w, p, q)
    ensures v.Obj? && Child(v, p[0]).Some? == Child(v, q[0]).Some? && Less(p[0], q[0]) ==> Before(v, w, p, q)
    ensures !v.Obj? && Index(p[0]) < Index(q[0]) ==> Before(v, w, p, q)
  {
    hide Child, Less, Index;
  }

  lemma {:induction false} LeftInOrder(fl: FloatOps, v: Value, w: Value, i: nat)
    requires v.Obj? && w.Obj? && WellFormed(v) && WellFormed(w) && i <= |v.entries|
    ensures InOrder(v, w, LeftChanges(fl, v, w, i))
    decreases v, 0, |v.entries| - i
  {
    hide Before, LeftChanges, Changes, Less;
    if i == |v.entries| {
      LeftEnd(fl, v, w);
    } else {
      var e := v.entries[i];
      LeftInOrder(fl, v, w, i + 1);
      LeftStep(fl, v, w, i);
      Present(v, i);
      if Find(w.entries, e.key).Some? {
        ChildFormed(w, e.key);
        DiffInOrder(fl, e.val, Child(w, e.key).value);
        OrderUnder(v, w, e.key, Changes(fl, e.val, Child(w, e.key).value));
      }
      forall c, d | c in LeftChange(fl, v, w, i) && d in LeftChanges(fl, v, w, i + 1)
        ensures Before(v, w, c.path, d.path)
      {
        LeftParts(fl, v, w, i, c, d);
      }
      OrderJoin(v, w, LeftChange(fl, v, w, i), LeftChanges(fl, v, w, i + 1));
    }
  }

  lemma LeftParts(fl: FloatOps, v: Value, w: Value, i: nat, c: Change, d: Change)
    requires v.Obj? && w.Obj? && WellFormed(v) && i < |v.entries|
    requires c in LeftChange(fl, v, w, i) && d in LeftChanges(fl, v, w, i + 1)
    ensures Before(v, w, c.path, d.path)
  {
    hide Before, LeftChanges, LeftChange, Belongs, Less;
    InLeft(fl, v, w, i + 1, d);
    var j :| i + 1 <= j < |v.entries| && d in LeftChange(fl, v, w, j);
    LeftBelongs(fl, v, w, i, c);
    LeftBelongs(fl, v, w, j, d);
    Present(v, i);
    Present(v, j);
    KeysGrow(v.entries, i, j);
    LessTrichotomy(v.entries[i].key, v.entries[j].key);
    BeforeIs(v, w, c.path, d.path);
  }

  lemma {:induction false} RightInOrder(v: Value, w: Value, j: nat)
    requires v.Obj? && w.Obj? && WellFormed(w) && j <= |w.entries|
    ensures InOrder(v, w, RightChanges(v.entries, w.entries, j))
    decreases |w.entries| - j
  {
    hide Before, RightChanges, Less;
    if j == |w.entries| {
      RightEnd(v.entries, w.entries);
    } else {
      RightInOrder(v, w, j + 1);
      RightStep(v.entries, w.entries, j);
      forall c, d | c in RightChange(v.entries, w.entries[j]) && d in RightChanges(v.entries, w.entries, j + 1)
        ensures Before(v, w, c.path, d.path)
      {
        InRight(v.entries, w.entries, j + 1, d);
        var k :| j + 1 <= k < |w.entries| && d in RightChange(v.entries, w.entries[k]);
        KeysGrow(w.entries, j, k);
        LessTrichotomy(w.entries[j].key, w.entries[k].key);
        BeforeIs(v, w, c.path, d.path);
      }
      OrderJoin(v, w, RightChange(v.entries, w.entries[j]), RightChanges(v.entries, w.entries, j + 1));
    }
  }

  lemma {:induction false} ItemsInOrder(fl: FloatOps, v: Value, w: Value, i: nat)
    requires v.Arr? && w.Arr? && WellFormed(v) && WellFormed(w) && i <= Longer(v, w)
    ensures InOrder(v, w, ItemChanges(fl, v, w, i))
    decreases v, 0, Longer(v, w) - i
  {
    hide Before, ItemChanges, Changes, Digits, Index;
    if i == Longer(v, w) {
      ItemEnd(fl, v, w);
    } else {
      ItemsInOrder(fl, v, w, i + 1);
      ItemStep(fl, v, w, i);
      if i < |v.items| && i < |w.items| {
        ItemNamedAt(v.items, 0, i);
        ItemNamedAt(w.items, 0, i);
        DiffInOrder(fl, v.items[i], w.items[i]);
        OrderUnder(v, w, Digits(i), Changes(fl, v.items[i], w.items[i]));
      }
      forall c, d | c in ItemChange(fl, v, w, i) && d in ItemChanges(fl, v, w, i + 1)
        ensures Before(v, w, c.path, d.path)
      {
        ItemParts(fl, v, w, i, c, d);
      }
      OrderJoin(v, w, ItemChange(fl, v, w, i), ItemChanges(fl, v, w, i + 1));
    }
  }

  lemma ItemParts(fl: FloatOps, v: Value, w: Value, i: nat, c: Change, d: Change)
    requires v.Arr? && w.Arr? && i < Longer(v, w)
    requires c in ItemChange(fl, v, w, i) && d in ItemChanges(fl, v, w, i + 1)
    ensures Before(v, w, c.path, d.path)
  {
    hide Before, ItemChanges, ItemChange, Belongs, Digits, Index;
    InItems(fl, v, w, i + 1, d);
    var j :| i + 1 <= j < Longer(v, w) && d in ItemChange(fl, v, w, j);
    ItemBelongs(fl, v, w, i, c);
    ItemBelongs(fl, v, w, j, d);
    IndexDigits(i);
    IndexDigits(j);
    BeforeIs(v, w, c.path, d.path);
  }

  /** Two entries stand in the order of the walk. */
  lemma DiffIsOrdered(fl: FloatOps, v: Value, w: Value, m: nat, n: nat) returns (p: Path, q: Path)
    requires WellFormed(v) && WellFormed(w) && m < n < |DiffValue(fl, v, w).items|
    ensures Says(DiffValue(fl, v, w).items[m], p, Reach(v, p), Reach(w, p))
    ensures Says(DiffValue(fl, v, w).items[n], q, Reach(v, q), Reach(w, q))
    ensures Before(v, w, p, q)
  {
    hide Record, Says, Before;
    RecordsAt(Changes(fl, v, w));
    DiffInOrder(fl, v, w);
    p := EntryIs(fl, v, w, m);
    q := EntryIs(fl, v, w, n);
  }
}
