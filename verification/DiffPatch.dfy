/** `diff` and `patch`: a changelog between two values, and its application. */
module DiffPatch {
  import opened Values
  import opened Numbers

  type Path = seq<Str>

  const FROM: Str := [70, 114, 111, 109]
  const PATH: Str := [80, 97, 116, 104]
  const TO: Str := [84, 111]
  const TYPE: Str := [84, 121, 112, 101]
  const DELETE: Str := [100, 101, 108, 101, 116, 101]
  const CREATE: Str := [99, 114, 101, 97, 116, 101]
  const UPDATE: Str := [117, 112, 100, 97, 116, 101]

  // ---- paths --------------------------------------------------------------------------

  /** `set_path`: what is not an object on the way becomes one. */
  function SetPath(root: Value, path: Path, i: nat, v: Value): Value
    requires i <= |path|
    decreases |path| - i
  {
    if i == |path| then v
    else
      var child := match FindField(root, path[i]) case Some(c) => c case None => Obj([]);
      SetField(root, path[i], SetPath(child, path, i + 1, v))
  }

  /** `remove_path`: a path that leads nowhere is left alone. */
  function RemovePath(v: Value, path: Path, i: nat): Value
    requires i < |path|
    decreases |path| - i
  {
    if !v.Obj? then v
    else if i + 1 == |path| then RemoveField(v, path[i])
    else
      match FindField(v, path[i])
      case None => v
      case Some(child) => SetField(v, path[i], RemovePath(child, path, i + 1))
  }

  // ---- changelogs ---------------------------------------------------------------------

  datatype Change = Create(path: Path, to: Value) | Update(path: Path, from: Value, to: Value) | Delete(path: Path, from: Value)
  {
    function Under(k: Str): (c: Change)
      ensures c.path == [k] + path
    {
      this.(path := [k] + path)
    }
    function At(prefix: Path): (c: Change)
      ensures c.path == prefix + path
    {
      this.(path := prefix + path)
    }
    function Kind(): Str { match this case Create(_, _) => CREATE case Update(_, _, _) => UPDATE case Delete(_, _) => DELETE }
  }

  function Strings(path: Path): (r: seq<Value>)
    ensures |r| == |path| && forall i | 0 <= i < |r| :: r[i] == String(path[i])
  {
    seq(|path|, i requires 0 <= i < |path| => String(path[i]))
  }

  /** The entry `record` appends. */
  function Record(c: Change): Value {
    var e := SetField(Obj([]), FROM, if c.Create? then Null else c.from);
    var e := SetField(e, PATH, Arr(Strings(c.path)));
    var e := SetField(e, TO, if c.Delete? then Null else c.to);
    SetField(e, TYPE, String(c.Kind()))
  }

  function Records(cs: seq<Change>): seq<Value> {
    if cs == [] then [] else [Record(cs[0])] + Records(cs[1..])
  }

  function Under(k: Str, cs: seq<Change>): (r: seq<Change>)
    ensures |r| == |cs| && forall i | 0 <= i < |cs| :: r[i] == cs[i].Under(k)
  {
    seq(|cs|, i requires 0 <= i < |cs| => cs[i].Under(k))
  }

  /** `std::to_string` of an index. */
  function Digits(n: nat): Str {
    if n < 10 then [48 + n] else Digits(n / 10) + [48 + n % 10]
  }

  /** The changes that lead from one value to another, with paths relative to both. */
  function Changes(fl: FloatOps, v: Value, w: Value): seq<Change>
    decreases v, 1, 0
  {
    if v.Obj? && w.Obj? then LeftChanges(fl, v, w, 0) + RightChanges(v.entries, w.entries, 0)
    else if v.Arr? && w.Arr? then ItemChanges(fl, v, w, 0)
    else if ValueEq(fl, v, w) then [] else [Update([], v, w)]
  }

  function LeftChange(fl: FloatOps, v: Value, w: Value, i: nat): seq<Change>
    requires v.Obj? && w.Obj? && i < |v.entries|
    decreases v, 0, 0
  {
    var e := v.entries[i];
    match Find(w.entries, e.key)
    case Some(x) => Under(e.key, Changes(fl, e.val, x))
    case None => [Delete([e.key], e.val)]
  }

  function LeftChanges(fl: FloatOps, v: Value, w: Value, i: nat): seq<Change>
    requires v.Obj? && w.Obj? && i <= |v.entries|
    decreases v, 0, 1 + |v.entries| - i
  {
    if i == |v.entries| then [] else LeftChange(fl, v, w, i) + LeftChanges(fl, v, w, i + 1)
  }

  function RightChange(a: seq<Entry>, e: Entry): seq<Change> {
    if Find(a, e.key).Some? then [] else [Create([e.key], e.val)]
  }

  function RightChanges(a: seq<Entry>, b: seq<Entry>, j: nat): seq<Change>
    requires j <= |b|
    decreases |b| - j
  {
    if j == |b| then [] else RightChange(a, b[j]) + RightChanges(a, b, j + 1)
  }

  function ItemChange(fl: FloatOps, v: Value, w: Value, i: nat): seq<Change>
    requires v.Arr? && w.Arr? && i < Longer(v, w)
    decreases v, 0, 0
  {
    if i >= |v.items| then [Create([Digits(i)], w.items[i])]
    else if i >= |w.items| then [Delete([Digits(i)], v.items[i])]
    else Under(Digits(i), Changes(fl, v.items[i], w.items[i]))
  }

  function Longer(v: Value, w: Value): nat
    requires v.Arr? && w.Arr?
  {
    if |v.items| < |w.items| then |w.items| else |v.items|
  }

  function ItemChanges(fl: FloatOps, v: Value, w: Value, i: nat): seq<Change>
    requires v.Arr? && w.Arr? && i <= Longer(v, w)
    decreases v, 0, 1 + Longer(v, w) - i
  {
    if i == Longer(v, w) then [] else ItemChange(fl, v, w, i) + ItemChanges(fl, v, w, i + 1)
  }

  function DiffValue(fl: FloatOps, v: Value, w: Value): Value { Arr(Records(Changes(fl, v, w))) }

  // ---- application --------------------------------------------------------------------

  function ReadPath(segs: seq<Value>): Option<Path> {
    if segs == [] then Some([])
    else if !segs[0].IsStringy() then None
    else match ReadPath(segs[1..]) case Some(p) => Some([segs[0].Text()] + p) case None => None
  }

  /** One entry of the changelog, as the body of the loop in `patch` applies it. */
  function ApplyEntry(out: Value, e: Value): Result {
    match (FindField(e, TYPE), FindField(e, PATH))
    case (Some(kind), Some(Arr(segs))) =>
      (match ReadPath(segs)
       case Some(path) =>
         if path == [] || !kind.IsStringy() then Err
         else if kind.Text() == DELETE then Ok(RemovePath(out, path, 0))
         else if kind.Text() == CREATE || kind.Text() == UPDATE then
           Ok(SetPath(out, path, 0, match FindField(e, TO) case Some(t) => t case None => Null))
         else Err
       case None => Err)
    case _ => Err
  }

  function ApplyEntries(out: Value, es: seq<Value>): Result
    decreases |es|
  {
    if es == [] then Ok(out)
    else match ApplyEntry(out, es[0]) case Ok(o) => ApplyEntries(o, es[1..]) case Err => Err
  }

  function PatchValue(v: Value, changelog: Value): Result {
    if changelog.Arr? then ApplyEntries(v, changelog.items) else Err
  }

  method Patch(v: Value, changelog: Value) returns (r: Result)
    ensures r == PatchValue(v, changelog)
  {
    if !changelog.Arr? { return Err; }
    var es := changelog.items;
    var out := v;
    for k := 0 to |es|
      invariant ApplyEntries(out, es[k..]) == ApplyEntries(v, es)
    {
      assert es[k..][1..] == es[k + 1..];
      var step := ApplyEntry(out, es[k]);
      if step.Err? { return Err; }
      out := step.v;
    }
    r := Ok(out);
  }

  /** `diff_into` shares one path, pushed and popped on the way, and one output. */
  class Differ {
    const fl: FloatOps
    var path: Path
    var out: seq<Value>

    constructor (fl: FloatOps)
      ensures this.fl == fl && path == [] && out == []
    {
      this.fl, path, out := fl, [], [];
    }

    method Append(c: Change)
      requires c.path == path
      modifies this`out
      ensures out == old(out) + [Record(c)]
    {
      out := out + [Record(c)];
    }

    method DiffInto(from: Value, to: Value)
      modifies this
      ensures path == old(path) && out == old(out) + Logged(path, Changes(fl, from, to))
      decreases from, 1
    {
      if from.Obj? && to.Obj? {
        DiffObjects(from, to);
      } else if from.Arr? && to.Arr? {
        DiffArrays(from, to);
      } else if !ValueEq(fl, from, to) {
        Append(Update(path, from, to));
        assert Logged(path, [Update([], from, to)]) == [Record(Update(path, from, to))] by {
          assert path + [] == path;
        }
      }
    }

    method DiffObjects(from: Value, to: Value)
      requires from.Obj? && to.Obj?
      modifies this
      ensures path == old(path) && out == old(out) + Logged(path, Changes(fl, from, to))
      decreases from, 0, 1
    {
      hide LeftChanges, RightChanges, Logged;
      ghost var start := out;
      LeftEnd(fl, from, to);
      for i := 0 to |from.entries|
        invariant path == old(path)
        invariant out + Logged(path, LeftChanges(fl, from, to, i)) == start + Logged(path, LeftChanges(fl, from, to, 0))
      {
        ghost var before := out;
        DiffEntry(from, to, i);
        LoggedJoin(path, LeftChange(fl, from, to, i), LeftChanges(fl, from, to, i + 1));
        LeftStep(fl, from, to, i);
        Reassociate(before, Logged(path, LeftChange(fl, from, to, i)), Logged(path, LeftChanges(fl, from, to, i + 1)));
      }
      ghost var middle := out;
      assert middle == start + Logged(path, LeftChanges(fl, from, to, 0)) by { LoggedNone(path); }
      RightEnd(from.entries, to.entries);
      for j := 0 to |to.entries|
        invariant path == old(path)
        invariant out + Logged(path, RightChanges(from.entries, to.entries, j))
               == middle + Logged(path, RightChanges(from.entries, to.entries, 0))
      {
        ghost var before := out;
        DiffNew(from.entries, to.entries[j]);
        LoggedJoin(path, RightChange(from.entries, to.entries[j]), RightChanges(from.entries, to.entries, j + 1));
        RightStep(from.entries, to.entries, j);
        Reassociate(before, Logged(path, RightChange(from.entries, to.entries[j])),
                    Logged(path, RightChanges(from.entries, to.entries, j + 1)));
      }
      LoggedNone(path);
      assert out + [] == out;
      Reassociate(start, Logged(path, LeftChanges(fl, from, to, 0)), Logged(path, RightChanges(from.entries, to.entries, 0)));
      LoggedJoin(path, LeftChanges(fl, from, to, 0), RightChanges(from.entries, to.entries, 0));
    }

    method DiffNew(a: seq<Entry>, e: Entry)
      modifies this
      ensures path == old(path) && out == old(out) + Logged(path, RightChange(a, e))
    {
      if Find(a, e.key).None? {
        path := path + [e.key];
        Append(Create(path, e.val));
        path := path[..|path| - 1];
        assert Logged(path, [Create([e.key], e.val)]) == [Record(Create(path + [e.key], e.val))];
      }
    }

    method DiffEntry(from: Value, to: Value, i: nat)
      requires from.Obj? && to.Obj? && i < |from.entries|
      modifies this
      ensures path == old(path) && out == old(out) + Logged(path, LeftChange(fl, from, to, i))
      decreases from, 0, 0
    {
      var e := from.entries[i];
      path := path + [e.key];
      var other := Find(to.entries, e.key);
      if other.Some? {
        DiffInto(e.val, other.value);
        LoggedUnder(old(path), e.key, Changes(fl, e.val, other.value));
      } else {
        Append(Delete(path, e.val));
        assert Logged(old(path), [Delete([e.key], e.val)]) == [Record(Delete(path, e.val))];
      }
      path := path[..|path| - 1];
    }

    method DiffArrays(from: Value, to: Value)
      requires from.Arr? && to.Arr?
      modifies this
      ensures path == old(path) && out == old(out) + Logged(path, Changes(fl, from, to))
      decreases from, 0, 1
    {
      hide ItemChanges, Logged;
      ghost var start := out;
      ItemEnd(fl, from, to);
      for i := 0 to Longer(from, to)
        invariant path == old(path)
        invariant out + Logged(path, ItemChanges(fl, from, to, i)) == start + Logged(path, ItemChanges(fl, from, to, 0))
      {
        ghost var before := out;
        DiffItem(from, to, i);
        LoggedJoin(path, ItemChange(fl, from, to, i), ItemChanges(fl, from, to, i + 1));
        ItemStep(fl, from, to, i);
        Reassociate(before, Logged(path, ItemChange(fl, from, to, i)), Logged(path, ItemChanges(fl, from, to, i + 1)));
      }
      LoggedNone(path);
    }

    method DiffItem(from: Value, to: Value, i: nat)
      requires from.Arr? && to.Arr? && i < Longer(from, to)
      modifies this
      ensures path == old(path) && out == old(out) + Logged(path, ItemChange(fl, from, to, i))
      decreases from, 0, 0
    {
      var k := Digits(i);
      path := path + [k];
      if i >= |from.items| {
        Append(Create(path, to.items[i]));
        assert Logged(old(path), [Create([k], to.items[i])]) == [Record(Create(path, to.items[i]))];
      } else if i >= |to.items| {
        Append(Delete(path, from.items[i]));
        assert Logged(old(path), [Delete([k], from.items[i])]) == [Record(Delete(path, from.items[i]))];
      } else {
        DiffInto(from.items[i], to.items[i]);
        LoggedUnder(old(path), k, Changes(fl, from.items[i], to.items[i]));
      }
      path := path[..|path| - 1];
    }
  }

  method Diff(fl: FloatOps, v: Value, other: Value) returns (r: Value)
    ensures r == DiffValue(fl, v, other)
  {
    var d := new Differ(fl);
    d.DiffInto(v, other);
    LoggedAtRoot(Changes(fl, v, other));
    r := Arr(d.out);
  }

  /** The entries for changes found below `path`. */
  function Logged(path: Path, cs: seq<Change>): seq<Value> {
    if cs == [] then [] else [Record(cs[0].At(path))] + Logged(path, cs[1..])
  }

  lemma LoggedNone(path: Path)
    ensures Logged(path, []) == []
  {
  }

  lemma Reassociate(a: seq<Value>, b: seq<Value>, c: seq<Value>)
    ensures (a + b) + c == a + (b + c)
  {
  }

  lemma LeftStep(fl: FloatOps, v: Value, w: Value, i: nat)
    requires v.Obj? && w.Obj? && i < |v.entries|
    ensures LeftChanges(fl, v, w, i) == LeftChange(fl, v, w, i) + LeftChanges(fl, v, w, i + 1)
  {
  }

  lemma RightStep(a: seq<Entry>, b: seq<Entry>, j: nat)
    requires j < |b|
    ensures RightChanges(a, b, j) == RightChange(a, b[j]) + RightChanges(a, b, j + 1)
  {
  }

  lemma ItemStep(fl: FloatOps, v: Value, w: Value, i: nat)
    requires v.Arr? && w.Arr? && i < Longer(v, w)
    ensures ItemChanges(fl, v, w, i) == ItemChange(fl, v, w, i) + ItemChanges(fl, v, w, i + 1)
  {
  }

  lemma LeftEnd(fl: FloatOps, v: Value, w: Value)
    requires v.Obj? && w.Obj?
    ensures LeftChanges(fl, v, w, |v.entries|) == []
  {
  }

  lemma RightEnd(a: seq<Entry>, b: seq<Entry>)
    ensures RightChanges(a, b, |b|) == []
  {
  }

  lemma ItemEnd(fl: FloatOps, v: Value, w: Value)
    requires v.Arr? && w.Arr?
    ensures ItemChanges(fl, v, w, Longer(v, w)) == []
  {
  }

  lemma {:induction false} LoggedJoin(path: Path, a: seq<Change>, b: seq<Change>)
    ensures Logged(path, a + b) == Logged(path, a) + Logged(path, b)
  {
    if a == [] {
      assert a + b == b;
    } else {
      assert (a + b)[1..] == a[1..] + b;
      LoggedJoin(path, a[1..], b);
    }
  }

  lemma {:induction false} LoggedUnder(path: Path, k: Str, cs: seq<Change>)
    ensures Logged(path, Under(k, cs)) == Logged(path + [k], cs)
  {
    if cs != [] {
      assert Under(k, cs)[1..] == Under(k, cs[1..]);
      assert path + ([k] + cs[0].path) == (path + [k]) + cs[0].path;
      LoggedUnder(path, k, cs[1..]);
    }
  }

  lemma {:induction false} LoggedAtRoot(cs: seq<Change>)
    ensures Logged([], cs) == Records(cs)
  {
    if cs != [] {
      assert [] + cs[0].path == cs[0].path;
      LoggedAtRoot(cs[1..]);
    }
  }
}
