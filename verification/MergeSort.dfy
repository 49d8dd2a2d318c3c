/** The bottom-up merge sort behind `sort(left < right)`, for a comparator the user wrote. */
module MergeSort {
  import Bloblang
  import opened Numbers
  import opened Values

  type Less = (Value, Value) -> bool

  /** Two runs merged; the right element goes first only when it is strictly less. */
  function Merge(a: seq<Value>, b: seq<Value>, less: Less): (r: seq<Value>)
    ensures |r| == |a| + |b|
    decreases |a| + |b|
  {
    if a == [] then b
    else if b == [] then a
    else if less(b[0], a[0]) then [b[0]] + Merge(a, b[1..], less)
    else [a[0]] + Merge(a[1..], b, less)
  }

  function Min(a: nat, b: nat): nat { if a < b then a else b }

  /** From position `lo` on, adjacent runs of length `w` merged pairwise. */
  function Pass(s: seq<Value>, lo: nat, w: nat, less: Less): (r: seq<Value>)
    requires w > 0 && lo <= |s|
    ensures |r| == |s| - lo
    decreases |s| - lo
  {
    if lo == |s| then []
    else
      var mid, hi := Min(lo + w, |s|), Min(lo + 2 * w, |s|);
      Merge(s[lo..mid], s[mid..hi], less) + Pass(s, hi, w, less)
  }

  function SortFrom(s: seq<Value>, w: nat, less: Less): (r: seq<Value>)
    requires w > 0
    ensures |r| == |s|
    decreases if w < |s| then |s| - w else 0
  {
    if w >= |s| then s else SortFrom(Pass(s, 0, w, less), 2 * w, less)
  }

  function Sort(s: seq<Value>, less: Less): (r: seq<Value>)
    ensures |r| == |s|
  {
    SortFrom(s, 1, less)
  }

  /** What is left from `lo` on is two runs and the rest. */
  lemma Cut(s: seq<Value>, lo: nat, mid: nat, hi: nat)
    requires lo <= mid <= hi <= |s|
    ensures s[lo..] == s[lo..mid] + s[mid..hi] + s[hi..]
  {
  }

  lemma Join(a: seq<Value>, b: seq<Value>, c: seq<Value>)
    ensures a + b + c == a + (b + c)
  {
  }

  // ---- any comparator -----------------------------------------------------------------

  lemma {:induction false} MergePermutes(a: seq<Value>, b: seq<Value>, less: Less)
    ensures multiset(Merge(a, b, less)) == multiset(a) + multiset(b)
    decreases |a| + |b|
  {
    if a != [] && b != [] {
      assert a == [a[0]] + a[1..] && b == [b[0]] + b[1..];
      if less(b[0], a[0]) { MergePermutes(a, b[1..], less); } else { MergePermutes(a[1..], b, less); }
    }
  }

  lemma {:induction false} PassPermutes(s: seq<Value>, lo: nat, w: nat, less: Less)
    requires w > 0 && lo <= |s|
    ensures multiset(Pass(s, lo, w, less)) == multiset(s[lo..])
    decreases |s| - lo
  {
    if lo < |s| {
      var mid, hi := Min(lo + w, |s|), Min(lo + 2 * w, |s|);
      MergePermutes(s[lo..mid], s[mid..hi], less);
      PassPermutes(s, hi, w, less);
      Cut(s, lo, mid, hi);
    }
  }

  lemma {:induction false} SortPermutes(s: seq<Value>, w: nat, less: Less)
    requires w > 0
    ensures multiset(SortFrom(s, w, less)) == multiset(s)
    decreases if w < |s| then |s| - w else 0
  {
    if w < |s| {
      PassPermutes(s, 0, w, less);
      assert s[0..] == s;
      SortPermutes(Pass(s, 0, w, less), 2 * w, less);
    }
  }

  // ---- strict weak orders -------------------------------------------------------------

  ghost predicate StrictWeakOrder(less: Less) {
    && (forall x, y :: less(x, y) ==> !less(y, x))
    && (forall x, y, z :: less(x, z) ==> less(x, y) || less(y, z))
  }

  predicate Low(h: Value, s: seq<Value>, less: Less) { forall y | y in s :: !less(y, h) }

  predicate Ordered(s: seq<Value>, less: Less) { s == [] || (Low(s[0], s[1..], less) && Ordered(s[1..], less)) }

  lemma {:induction false} OrderedPairs(s: seq<Value>, less: Less, i: nat, j: nat)
    requires Ordered(s, less) && i < j < |s|
    ensures !less(s[j], s[i])
  {
    if i == 0 {
      assert s[j] == s[1..][j - 1];
    } else {
      OrderedPairs(s[1..], less, i - 1, j - 1);
    }
  }

  /** The elements equivalent to `x`, in order. */
  function Class(s: seq<Value>, x: Value, less: Less): seq<Value> {
    if s == [] then [] else Keep(s[0], x, less) + Class(s[1..], x, less)
  }

  function Keep(y: Value, x: Value, less: Less): seq<Value> { if less(x, y) || less(y, x) then [] else [y] }

  lemma {:induction false} ClassConcat(a: seq<Value>, b: seq<Value>, x: Value, less: Less)
    ensures Class(a + b, x, less) == Class(a, x, less) + Class(b, x, less)
  {
    if a == [] {
      assert a + b == b;
    } else {
      assert (a + b)[1..] == a[1..] + b;
      ClassConcat(a[1..], b, x, less);
    }
  }

  lemma {:induction false} ClassNone(s: seq<Value>, x: Value, less: Less)
    requires forall y | y in s :: less(x, y)
    ensures Class(s, x, less) == []
  {
    if s != [] { ClassNone(s[1..], x, less); }
  }

  lemma LowTransitive(h: Value, k: Value, s: seq<Value>, less: Less)
    requires StrictWeakOrder(less) && !less(k, h) && Low(k, s, less)
    ensures Low(h, s, less)
  {
  }

  lemma LowMerge(h: Value, a: seq<Value>, b: seq<Value>, less: Less)
    requires Low(h, a, less) && Low(h, b, less)
    ensures Low(h, Merge(a, b, less), less)
  {
    MergePermutes(a, b, less);
    forall y | y in Merge(a, b, less)
      ensures !less(y, h)
    {
      assert y in multiset(Merge(a, b, less));
      assert y in a || y in b;
    }
  }

  /** An element below the head of an ordered run is below the run. */
  lemma LowOrdered(h: Value, s: seq<Value>, less: Less)
    requires StrictWeakOrder(less) && Ordered(s, less) && s != [] && !less(s[0], h)
    ensures Low(h, s, less)
  {
    LowTransitive(h, s[0], s[1..], less);
    assert s == [s[0]] + s[1..];
  }

  lemma {:induction false} MergeOrdered(a: seq<Value>, b: seq<Value>, less: Less)
    requires StrictWeakOrder(less) && Ordered(a, less) && Ordered(b, less)
    ensures Ordered(Merge(a, b, less), less)
    decreases |a| + |b|
  {
    if a != [] && b != [] {
      var m := Merge(a, b, less);
      if less(b[0], a[0]) {
        MergeOrdered(a, b[1..], less);
        LowOrdered(b[0], a, less);
        LowMerge(b[0], a, b[1..], less);
        assert m[1..] == Merge(a, b[1..], less);
      } else {
        MergeOrdered(a[1..], b, less);
        LowOrdered(a[0], b, less);
        LowMerge(a[0], a[1..], b, less);
        assert m[1..] == Merge(a[1..], b, less);
      }
    }
  }

  /** Whatever is equivalent to `h` is below everything in an ordered run that `h` is below. */
  lemma ClassAbove(h: Value, a: seq<Value>, x: Value, less: Less)
    requires StrictWeakOrder(less) && Ordered(a, less) && a != [] && less(h, a[0])
    requires !less(x, h) && !less(h, x)
    ensures Class(a, x, less) == []
  {
    assert less(x, a[0]);
    LowOrdered(a[0], a, less);
    forall y | y in a
      ensures less(x, y)
    {
      assert !less(y, a[0]);
    }
    ClassNone(a, x, less);
  }

  /** Merging ordered runs keeps each class in place, the left run's first. */
  lemma {:induction false} MergeStable(a: seq<Value>, b: seq<Value>, x: Value, less: Less)
    requires StrictWeakOrder(less) && Ordered(a, less) && Ordered(b, less)
    ensures Class(Merge(a, b, less), x, less) == Class(a, x, less) + Class(b, x, less)
    decreases |a| + |b|
  {
    if a != [] && b != [] {
      var m := Merge(a, b, less);
      if less(b[0], a[0]) {
        MergeStable(a, b[1..], x, less);
        assert m[1..] == Merge(a, b[1..], less);
        if Keep(b[0], x, less) != [] { ClassAbove(b[0], a, x, less); }
        JoinSkip(Keep(b[0], x, less), Class(a, x, less), Class(b[1..], x, less));
      } else {
        MergeStable(a[1..], b, x, less);
        assert m[1..] == Merge(a[1..], b, less);
        Join(Keep(a[0], x, less), Class(a[1..], x, less), Class(b, x, less));
      }
    } else {
      assert Class(a, x, less) + [] == Class(a, x, less);
    }
  }

  lemma JoinSkip(c: seq<Value>, a: seq<Value>, b: seq<Value>)
    requires c == [] || a == []
    ensures c + (a + b) == a + (c + b)
  {
  }

  /** From `lo` on, every run of length `w` is ordered. */
  predicate Runs(s: seq<Value>, lo: nat, w: nat, less: Less)
    requires w > 0 && lo <= |s|
    decreases |s| - lo
  {
    lo == |s| || (Ordered(s[lo..Min(lo + w, |s|)], less) && Runs(s, Min(lo + w, |s|), w, less))
  }

  /** A pass leaves ordered runs of twice the length, behind whatever was written before. */
  lemma {:induction false} PassRuns(s: seq<Value>, lo: nat, w: nat, done: seq<Value>, less: Less)
    requires w > 0 && lo <= |s| && StrictWeakOrder(less) && Runs(s, lo, w, less) && |done| == lo
    ensures Runs(done + Pass(s, lo, w, less), lo, 2 * w, less)
    decreases |s| - lo
  {
    hide Ordered, Merge;
    if lo < |s| {
      var mid, hi := Min(lo + w, |s|), Min(lo + 2 * w, |s|);
      SecondRun(s, lo, w, less);
      var m, rest := Merge(s[lo..mid], s[mid..hi], less), Pass(s, hi, w, less);
      MergeOrdered(s[lo..mid], s[mid..hi], less);
      PassRuns(s, hi, w, done + m, less);
      Join(done, m, rest);
      RunAt(done, m, rest, w, less);
    }
  }

  lemma RunAt(done: seq<Value>, m: seq<Value>, rest: seq<Value>, w: nat, less: Less)
    requires w > 0 && Ordered(m, less) && m != [] && |m| == Min(2 * w, |m| + |rest|)
    requires Runs(done + m + rest, |done + m|, 2 * w, less)
    ensures Runs(done + m + rest, |done|, 2 * w, less)
  {
    assert (done + m + rest)[|done|..|done + m|] == m;
  }

  lemma SecondRun(s: seq<Value>, lo: nat, w: nat, less: Less)
    requires w > 0 && lo < |s| && Runs(s, lo, w, less)
    ensures var mid, hi := Min(lo + w, |s|), Min(lo + 2 * w, |s|);
            Ordered(s[lo..mid], less) && Ordered(s[mid..hi], less) && Runs(s, hi, w, less)
  {
    var mid := Min(lo + w, |s|);
    assert Runs(s, mid, w, less);
  }

  lemma {:induction false} PassStable(s: seq<Value>, lo: nat, w: nat, x: Value, less: Less)
    requires w > 0 && lo <= |s| && StrictWeakOrder(less) && Runs(s, lo, w, less)
    ensures Class(Pass(s, lo, w, less), x, less) == Class(s[lo..], x, less)
    decreases |s| - lo
  {
    hide Ordered, Merge, Class;
    if lo < |s| {
      var mid, hi := Min(lo + w, |s|), Min(lo + 2 * w, |s|);
      SecondRun(s, lo, w, less);
      MergeStable(s[lo..mid], s[mid..hi], x, less);
      PassStable(s, hi, w, x, less);
      ClassConcat(Merge(s[lo..mid], s[mid..hi], less), Pass(s, hi, w, less), x, less);
      ClassConcat(s[lo..mid], s[mid..hi], x, less);
      ClassConcat(s[lo..mid] + s[mid..hi], s[hi..], x, less);
      Cut(s, lo, mid, hi);
    } else {
      assert s[lo..] == [];
    }
  }

  lemma {:induction false} SortOrdered(s: seq<Value>, w: nat, less: Less)
    requires w > 0 && StrictWeakOrder(less) && Runs(s, 0, w, less)
    ensures Ordered(SortFrom(s, w, less), less)
    decreases if w < |s| then |s| - w else 0
  {
    if w >= |s| {
      assert s[0..Min(w, |s|)] == s;
    } else {
      PassRuns(s, 0, w, [], less);
      assert [] + Pass(s, 0, w, less) == Pass(s, 0, w, less);
      SortOrdered(Pass(s, 0, w, less), 2 * w, less);
    }
  }

  lemma {:induction false} SortStable(s: seq<Value>, w: nat, x: Value, less: Less)
    requires w > 0 && StrictWeakOrder(less) && Runs(s, 0, w, less)
    ensures Class(SortFrom(s, w, less), x, less) == Class(s, x, less)
    decreases if w < |s| then |s| - w else 0
  {
    hide Ordered, Merge, Class, Pass;
    if w < |s| {
      PassRuns(s, 0, w, [], less);
      assert [] + Pass(s, 0, w, less) == Pass(s, 0, w, less);
      PassStable(s, 0, w, x, less);
      assert s[0..] == s;
      SortStable(Pass(s, 0, w, less), 2 * w, x, less);
    }
  }

  lemma {:induction false} SingletonRuns(s: seq<Value>, lo: nat, less: Less)
    requires lo <= |s|
    ensures Runs(s, lo, 1, less)
    decreases |s| - lo
  {
    if lo < |s| {
      SingletonRuns(s, lo + 1, less);
      assert s[lo..lo + 1][1..] == [];
    }
  }

  /** The result is a permutation whatever the comparator says. */
  lemma SortIsPermutation(s: seq<Value>, less: Less)
    ensures multiset(Sort(s, less)) == multiset(s)
  {
    SortPermutes(s, 1, less);
  }

  /** Order and stability for a comparator that is a strict weak order everywhere. */
  lemma SortEverywhere(s: seq<Value>, less: Less, x: Value)
    requires StrictWeakOrder(less)
    ensures forall i, j | 0 <= i < j < |s| :: !less(Sort(s, less)[j], Sort(s, less)[i])
    ensures Class(Sort(s, less), x, less) == Class(s, x, less)
  {
    SingletonRuns(s, 0, less);
    SortOrdered(s, 1, less);
    SortStable(s, 1, x, less);
    forall i, j | 0 <= i < j < |s| ensures !less(Sort(s, less)[j], Sort(s, less)[i]) { OrderedPairs(Sort(s, less), less, i, j); }
  }

  // ---- strict weak orders of what is sorted ---------------------------------------------

  /** The comparator is a strict weak order of the values in `d`; elsewhere it may say anything. */
  predicate OrderOn(less: Less, d: set<Value>) {
    && (forall x, y | x in d && y in d :: less(x, y) ==> !less(y, x))
    && (forall x, y, z | x in d && y in d && z in d :: less(x, z) ==> less(x, y) || less(y, z))
  }

  function Elements(s: seq<Value>): set<Value> { set x | x in s }

  /** `less` on `d`, with everything else equivalent and above. */
  function Within(less: Less, d: set<Value>): Less { (x, y) => x in d && (y !in d || less(x, y)) }

  lemma WithinOrders(less: Less, d: set<Value>)
    requires OrderOn(less, d)
    ensures StrictWeakOrder(Within(less, d))
  {
  }

  predicate Inside(s: seq<Value>, d: set<Value>) { forall x | x in s :: x in d }

  lemma {:induction false} MergeWithin(a: seq<Value>, b: seq<Value>, less: Less, d: set<Value>)
    requires Inside(a, d) && Inside(b, d)
    ensures Merge(a, b, Within(less, d)) == Merge(a, b, less) && Inside(Merge(a, b, less), d)
    decreases |a| + |b|
  {
    if a != [] && b != [] {
      assert a[0] in a && b[0] in b;
      if less(b[0], a[0]) { MergeWithin(a, b[1..], less, d); } else { MergeWithin(a[1..], b, less, d); }
    }
  }

  lemma {:induction false} PassWithin(s: seq<Value>, lo: nat, w: nat, less: Less, d: set<Value>)
    requires w > 0 && lo <= |s| && Inside(s, d)
    ensures Pass(s, lo, w, Within(less, d)) == Pass(s, lo, w, less) && Inside(Pass(s, lo, w, less), d)
    decreases |s| - lo
  {
    if lo < |s| {
      var mid, hi := Min(lo + w, |s|), Min(lo + 2 * w, |s|);
      MergeWithin(s[lo..mid], s[mid..hi], less, d);
      PassWithin(s, hi, w, less, d);
    }
  }

  lemma {:induction false} SortWithin(s: seq<Value>, w: nat, less: Less, d: set<Value>)
    requires w > 0 && Inside(s, d)
    ensures SortFrom(s, w, Within(less, d)) == SortFrom(s, w, less) && Inside(SortFrom(s, w, less), d)
    decreases if w < |s| then |s| - w else 0
  {
    if w < |s| {
      PassWithin(s, 0, w, less, d);
      SortWithin(Pass(s, 0, w, less), 2 * w, less, d);
    }
  }

  lemma {:induction false} ClassWithin(s: seq<Value>, x: Value, less: Less, d: set<Value>)
    requires Inside(s, d) && x in d
    ensures Class(s, x, Within(less, d)) == Class(s, x, less)
  {
    if s != [] {
      assert s[0] in s;
      ClassWithin(s[1..], x, less, d);
    }
  }

  /** The result is ordered, and equivalent elements keep their order, when the comparator
      is a strict weak order of the elements sorted, whatever it does elsewhere. */
  lemma SortIsStable(s: seq<Value>, less: Less)
    requires OrderOn(less, Elements(s))
    ensures var r := Sort(s, less);
            && (forall i, j | 0 <= i < j < |s| :: !less(r[j], r[i]))
            && (forall x | x in s :: Class(r, x, less) == Class(s, x, less))
  {
    hide Class, SortFrom;
    var d := Elements(s);
    var less' := Within(less, d);
    var r := Sort(s, less);
    WithinOrders(less, d);
    SortWithin(s, 1, less, d);
    forall i, j | 0 <= i < j < |s|
      ensures !less(r[j], r[i])
    {
      SortEverywhere(s, less', s[0]);
      assert r[i] in r && r[j] in r;
    }
    forall x | x in s
      ensures Class(r, x, less) == Class(s, x, less)
    {
      SortEverywhere(s, less', x);
      ClassWithin(r, x, less, d);
      ClassWithin(s, x, less, d);
    }
  }

  // ---- the language's own comparison ----------------------------------------------------

  /** `left < right`. */
  function LessThan(fl: FloatOps): Less { (x, y) => Bloblang.Apply2(fl, Bloblang.LtOp, x, y) == Ok(Bool(true)) }

  /** Doubles on which `<` behaves: no NaN among them. */
  ghost predicate FloatsOrdered(fl: FloatOps, s: seq<Value>)
    requires forall x | x in s :: x.IsNumber()
  {
    && (forall x, y | x in s && y in s :: fl.less(AsF64(fl, x), AsF64(fl, y)) ==> !fl.less(AsF64(fl, y), AsF64(fl, x)))
    && (forall x, y, z | x in s && y in s && z in s ::
          fl.less(AsF64(fl, x), AsF64(fl, z)) ==> fl.less(AsF64(fl, x), AsF64(fl, y)) || fl.less(AsF64(fl, y), AsF64(fl, z)))
  }

  lemma {:induction false} TextOrder(a: Str, b: Str, c: Str)
    requires Values.Less(a, c)
    ensures Values.Less(a, b) || Values.Less(b, c)
  {
    LessTrichotomy(a, b);
    if Values.Less(b, a) { LessTransitive(b, a, c); }
  }

  /** `sort(left < right)` meets the condition on strings, and on numbers without a NaN. */
  lemma ComparisonOrders(fl: FloatOps, s: seq<Value>)
    requires (forall x | x in s :: x.IsStringy()) || ((forall x | x in s :: x.IsNumber()) && FloatsOrdered(fl, s))
    ensures OrderOn(LessThan(fl), Elements(s))
  {
    var less := LessThan(fl);
    if forall x | x in s :: x.IsStringy() {
      forall x, y | x in s && y in s
        ensures less(x, y) <==> Values.Less(x.Text(), y.Text())
      {
      }
      forall x, y | x in s && y in s
        ensures less(x, y) ==> !less(y, x)
      {
        LessTrichotomy(x.Text(), y.Text());
      }
      forall x, y, z | x in s && y in s && z in s
        ensures less(x, z) ==> less(x, y) || less(y, z)
      {
        if less(x, z) { TextOrder(x.Text(), y.Text(), z.Text()); }
      }
    } else {
      forall x, y | x in s && y in s
        ensures less(x, y) <==> fl.less(AsF64(fl, x), AsF64(fl, y))
      {
      }
    }
  }

  // ---- the two buffers ----------------------------------------------------------------

  /** A `std::vector<value>`: swapping two vectors swaps their storage. */
  class Vector {
    var data: array<Value>

    constructor (n: nat)
      ensures fresh(data) && data.Length == n
    {
      data := new Value[n](_ => Null);
    }
  }

  method MergeSortInPlace(v: Vector, less: Less)
    modifies v, v.data
    ensures v.data[..] == Sort(old(v.data[..]), less)
  {
    var n := v.data.Length;
    if n < 2 { return; }
    var buf := new Vector(n);
    var width := 1;
    while width < n
      invariant width > 0 && v != buf && v.data != buf.data && v.data.Length == n == buf.data.Length
      invariant fresh(buf) && (v.data == old(v.data) || fresh(v.data)) && (buf.data == old(v.data) || fresh(buf.data))
      invariant SortFrom(v.data[..], width, less) == Sort(old(v.data[..]), less)
      decreases if width < n then n - width else 0
    {
      MergePass(v.data, buf.data, width, less);
      v.data, buf.data := buf.data, v.data;
      width := width * 2;
    }
  }

  lemma PassStep(s: seq<Value>, lo: nat, w: nat, done: seq<Value>, less: Less)
    requires w > 0 && lo < |s|
    ensures var mid, hi := Min(lo + w, |s|), Min(lo + 2 * w, |s|);
            done + Pass(s, lo, w, less) == done + Merge(s[lo..mid], s[mid..hi], less) + Pass(s, hi, w, less)
  {
    var mid, hi := Min(lo + w, |s|), Min(lo + 2 * w, |s|);
    Join(done, Merge(s[lo..mid], s[mid..hi], less), Pass(s, hi, w, less));
  }

  method MergePass(a: array<Value>, buf: array<Value>, width: nat, less: Less)
    requires width > 0 && a != buf && a.Length == buf.Length
    modifies buf
    ensures buf[..] == Pass(a[..], 0, width, less)
  {
    ghost var s := a[..];
    var lo := 0;
    ghost var at := 0;
    while lo < a.Length
      invariant at == Min(lo, |s|) && buf[..at] + Pass(s, at, width, less) == Pass(s, 0, width, less)
    {
      var mid, hi := Min(lo + width, a.Length), Min(lo + 2 * width, a.Length);
      PassStep(s, lo, width, buf[..lo], less);
      MergeRuns(a, buf, s, lo, mid, hi, less);
      lo := lo + 2 * width;
      at := hi;
    }
    assert buf[..|s|] == buf[..];
  }

  lemma MergeHeads(s: seq<Value>, i: nat, mid: nat, j: nat, hi: nat, less: Less)
    requires i < mid <= j < hi <= |s|
    ensures Merge(s[i..mid], s[j..hi], less) ==
            if less(s[j], s[i]) then [s[j]] + Merge(s[i..mid], s[j + 1..hi], less)
            else [s[i]] + Merge(s[i + 1..mid], s[j..hi], less)
  {
    assert s[i..mid][1..] == s[i + 1..mid] && s[j..hi][1..] == s[j + 1..hi];
  }

  /** One pair of runs: while both last, then whichever is left. */
  method MergeRuns(a: array<Value>, buf: array<Value>, ghost s: seq<Value>, lo: nat, mid: nat, hi: nat, less: Less)
    requires a != buf && a[..] == s && lo <= mid <= hi <= a.Length == buf.Length
    modifies buf
    ensures buf[..hi] == old(buf[..lo]) + Merge(s[lo..mid], s[mid..hi], less)
  {
    ghost var goal := buf[..lo] + Merge(s[lo..mid], s[mid..hi], less);
    var i, j, k := lo, mid, lo;
    while i < mid && j < hi
      invariant lo <= i <= mid <= j <= hi && k == i + (j - mid)
      invariant buf[..k] + Merge(s[i..mid], s[j..hi], less) == goal
    {
      i, j := MergeOne(a, buf, s, i, mid, j, hi, k, less);
      k := k + 1;
    }
    Leftover(s, i, mid, j, hi, less);
    if i < mid { k := CopyRun(a, buf, i, mid, k); } else { k := CopyRun(a, buf, j, hi, k); }
  }

  method MergeOne(a: array<Value>, buf: array<Value>, ghost s: seq<Value>, i: nat, mid: nat, j: nat, hi: nat, k: nat, less: Less)
    returns (i': nat, j': nat)
    requires a != buf && a[..] == s && i < mid <= j < hi <= a.Length && k < buf.Length
    modifies buf
    ensures i <= i' <= mid && j <= j' <= hi && i' + j' == i + j + 1
    ensures buf[..k + 1] + Merge(s[i'..mid], s[j'..hi], less) == old(buf[..k]) + Merge(s[i..mid], s[j..hi], less)
  {
    hide Merge;
    MergeHeads(s, i, mid, j, hi, less);
    var x: Value;
    if less(a[j], a[i]) { x, i', j' := a[j], i, j + 1; } else { x, i', j' := a[i], i + 1, j; }
    Append(buf, k, x);
    Join(old(buf[..k]), [x], Merge(s[i'..mid], s[j'..hi], less));
  }

  lemma Leftover(s: seq<Value>, i: nat, mid: nat, j: nat, hi: nat, less: Less)
    requires i <= mid <= j <= hi <= |s| && (i == mid || j == hi)
    ensures Merge(s[i..mid], s[j..hi], less) == if i < mid then s[i..mid] else s[j..hi]
  {
  }

  method Append(buf: array<Value>, k: nat, x: Value)
    requires k < buf.Length
    modifies buf
    ensures buf[..k + 1] == old(buf[..k]) + [x]
  {
    buf[k] := x;
  }

  method CopyRun(a: array<Value>, buf: array<Value>, from: nat, to: nat, at: nat) returns (k: nat)
    requires a != buf && from <= to <= a.Length && at + (to - from) <= buf.Length
    modifies buf
    ensures k == at + (to - from) && buf[..k] == old(buf[..at]) + a[from..to]
  {
    var i := from;
    k := at;
    while i < to
      invariant from <= i <= to && k == at + (i - from)
      invariant buf[..k] == old(buf[..at]) + a[from..i]
    {
      Append(buf, k, a[i]);
      i, k := i + 1, k + 1;
      assert a[from..i] == a[from..i - 1] + [a[i - 1]];
    }
  }
}
