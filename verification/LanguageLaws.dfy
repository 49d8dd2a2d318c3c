/** What the operations that both executions share compute: operators, accesses, literals,
    conditions and metadata, each by a description of its own. */
module LanguageLaws {
  import opened Values
  import opened Numbers
  import opened Arithmetic
  import opened Bloblang
  import opened Interp
  import DiffPatch

  // ---- order and equality ---------------------------------------------------------------

  /** The first `n` bytes agree, and there the first string ends or has the smaller byte. */
  predicate PartsAt(a: Str, b: Str, n: nat) {
    n <= |a| && n < |b| && a[..n] == b[..n] && (n == |a| || a[n] < b[n])
  }

  /** Strings are ordered by the first byte that differs. */
  lemma {:induction false} Lexicographic(a: Str, b: Str)
    ensures Less(a, b) <==> exists n: nat :: PartsAt(a, b, n)
  {
    if b == [] {
    } else if a == [] || a[0] < b[0] {
      assert PartsAt(a, b, 0);
    } else if a[0] == b[0] {
      Lexicographic(a[1..], b[1..]);
      if n: nat :| PartsAt(a[1..], b[1..], n) {
        assert a[..n + 1] == [a[0]] + a[1..][..n] && b[..n + 1] == [b[0]] + b[1..][..n];
        assert PartsAt(a, b, n + 1);
      }
      if n: nat :| PartsAt(a, b, n) {
        assert n > 0;
        assert a[1..][..n - 1] == a[..n][1..] && b[1..][..n - 1] == b[..n][1..];
        assert PartsAt(a[1..], b[1..], n - 1);
      }
    } else {
      forall n: nat
        ensures !PartsAt(a, b, n)
      {
        if 0 < n <= |a| && n <= |b| { assert a[..n][0] == a[0] && b[..n][0] == b[0]; }
      }
    }
  }

  predicate Comparable(x: Value, y: Value) { (x.IsNumber() && y.IsNumber()) || (x.IsStringy() && y.IsStringy()) }

  /** Whether one operand comes strictly before the other. */
  predicate Precedes(fl: FloatOps, x: Value, y: Value)
    requires Comparable(x, y)
  {
    if x.IsNumber() then fl.less(AsF64(fl, x), AsF64(fl, y)) else Less(x.Text(), y.Text())
  }

  /** The four comparisons: two of numbers or two of strings only, each the negation of its opposite
      with the operands exchanged. */
  lemma Comparisons(fl: FloatOps, x: Value, y: Value)
    requires Comparable(x, y) && !(Precedes(fl, x, y) && Precedes(fl, y, x))
    ensures Apply2(fl, LtOp, x, y) == Ok(Bool(Precedes(fl, x, y)))
    ensures Apply2(fl, GtOp, x, y) == Ok(Bool(Precedes(fl, y, x)))
    ensures Apply2(fl, LteOp, x, y) == Ok(Bool(!Precedes(fl, y, x)))
    ensures Apply2(fl, GteOp, x, y) == Ok(Bool(!Precedes(fl, x, y)))
  {
    hide Less, AsF64, Precedes;
    ComparedAs(fl, x, y);
  }

  lemma ComparedAs(fl: FloatOps, x: Value, y: Value)
    requires Comparable(x, y)
    ensures Compare(fl, x, y) == Some(if Precedes(fl, x, y) then -1 else if Precedes(fl, y, x) then 1 else 0)
  {
    hide Less, AsF64;
  }

  /** What is neither two numbers nor two strings has no order, and comparing it is an error. */
  lemma Incomparable(fl: FloatOps, x: Value, y: Value)
    requires !Comparable(x, y)
    ensures forall op | op in {LtOp, GtOp, LteOp, GteOp} :: Apply2(fl, op, x, y) == Err
  {
    hide Less;
  }

  /** What equality looks at: bytes count as strings, a timestamp's zone does not count. */
  function Essence(v: Value): Value {
    match v
    case Bytes(s) => String(s)
    case Timestamp(n, _) => Timestamp(n, 0)
    case Arr(items) => Arr(Essences(items))
    case Obj(es) => Obj(EntryEssences(es))
    case _ => v
  }

  function Essences(items: seq<Value>): (r: seq<Value>)
    ensures |r| == |items| && forall i | 0 <= i < |items| :: r[i] == Essence(items[i])
  {
    if items == [] then [] else [Essence(items[0])] + Essences(items[1..])
  }

  function EntryEssences(es: seq<Entry>): (r: seq<Entry>)
    ensures |r| == |es| && forall i | 0 <= i < |es| :: r[i] == Entry(es[i].key, Essence(es[i].val))
  {
    if es == [] then [] else [Entry(es[0].key, Essence(es[0].val))] + EntryEssences(es[1..])
  }

  /** The only numbers in it are integers. */
  predicate Integral(v: Value) {
    match v
    case F64(_) | F32(_) | RawNumber(_) => false
    case Arr(items) => forall i | 0 <= i < |items| :: Integral(items[i])
    case Obj(es) => forall i | 0 <= i < |es| :: Integral(es[i].val)
    case _ => true
  }

  /** Without doubles, two values are equal if and only if they are the same in essence. */
  lemma {:induction false} EqualityIs(fl: FloatOps, v: Value, w: Value)
    requires Integral(v) && Integral(w)
    ensures ValueEq(fl, v, w) <==> Essence(v) == Essence(w)
    decreases v
  {
    if v.Arr? && w.Arr? {
      if |v.items| == |w.items| {
        forall i | 0 <= i < |v.items|
          ensures ValueEq(fl, v.items[i], w.items[i]) <==> Essences(v.items)[i] == Essences(w.items)[i]
        {
          EqualityIs(fl, v.items[i], w.items[i]);
        }
      }
      assert Essence(v) == Essence(w) <==> Essences(v.items) == Essences(w.items);
    } else if v.Obj? && w.Obj? {
      if |v.entries| == |w.entries| {
        forall i | 0 <= i < |v.entries|
          ensures ValueEq(fl, v.entries[i].val, w.entries[i].val) <==> Essence(v.entries[i].val) == Essence(w.entries[i].val)
        {
          EqualityIs(fl, v.entries[i].val, w.entries[i].val);
        }
        forall i | 0 <= i < |v.entries|
          ensures EntryEssences(v.entries)[i] == EntryEssences(w.entries)[i] <==>
                  v.entries[i].key == w.entries[i].key && ValueEq(fl, v.entries[i].val, w.entries[i].val)
        {
        }
      }
      assert Essence(v) == Essence(w) <==> EntryEssences(v.entries) == EntryEssences(w.entries);
    }
  }

  /** `==` and `!=` decide that, and with a double they compare as doubles; neither ever fails. */
  lemma EqualityOperators(fl: FloatOps, v: Value, w: Value)
    ensures Integral(v) && Integral(w) ==>
              && Apply2(fl, EqOp, v, w) == Ok(Bool(Essence(v) == Essence(w)))
              && Apply2(fl, NeqOp, v, w) == Ok(Bool(Essence(v) != Essence(w)))
    ensures v.IsNumber() && w.IsNumber() && !(v.I64? && w.I64?) ==>
              && Apply2(fl, EqOp, v, w) == Ok(Bool(fl.equal(AsF64(fl, v), AsF64(fl, w))))
              && Apply2(fl, NeqOp, v, w) == Ok(Bool(!fl.equal(AsF64(fl, v), AsF64(fl, w))))
    ensures v.IsNumber() != w.IsNumber() ==> Apply2(fl, EqOp, v, w) == Ok(Bool(false)) && Apply2(fl, NeqOp, v, w) == Ok(Bool(true))
  {
    hide Essence, Integral;
    if Integral(v) && Integral(w) { EqualityIs(fl, v, w); }
  }

  // ---- arithmetic -----------------------------------------------------------------------

  /** On two integers `+`, `-` and `*` give the exact result up to a multiple of 2^64. */
  lemma IntegerOperators(fl: FloatOps, op: BinOp, a: Int64, b: Int64) returns (r: Int64, k: int)
    requires op in {AddOp, SubOp, MulOp}
    ensures Apply2(fl, op, I64(a), I64(b)) == Ok(I64(r))
    ensures r == (if op.AddOp? then a + b else if op.SubOp? then a - b else a * b) + k * TWO64
  {
    hide FastInt;
    var o := if op.AddOp? then Add else if op.SubOp? then Sub else Mul;
    k := FastIntWraps(o, a, b);
    r := FastInt(o, a, b);
  }

  /** On other numbers they are the operations on doubles; on strings `+` joins; the rest is refused. */
  lemma MixedOperators(fl: FloatOps, x: Value, y: Value)
    requires !(x.I64? && y.I64?)
    ensures x.IsNumber() && y.IsNumber() ==>
              && Apply2(fl, AddOp, x, y) == Ok(F64(fl.add(AsF64(fl, x), AsF64(fl, y))))
              && Apply2(fl, SubOp, x, y) == Ok(F64(fl.sub(AsF64(fl, x), AsF64(fl, y))))
              && Apply2(fl, MulOp, x, y) == Ok(F64(fl.mul(AsF64(fl, x), AsF64(fl, y))))
    ensures x.IsStringy() && y.IsStringy() ==> Apply2(fl, AddOp, x, y) == Ok(String(x.Text() + y.Text()))
    ensures Apply2(fl, AddOp, x, y).Ok? <==> Comparable(x, y)
    ensures forall op | op in {SubOp, MulOp} :: Apply2(fl, op, x, y).Ok? <==> x.IsNumber() && y.IsNumber()
  {
  }

  /** Division is of doubles, also of integers, and never by zero; the remainder is of integers, takes
      the sign of the dividend, and refuses zero. */
  lemma Division(fl: FloatOps, x: Value, y: Value)
    ensures Apply2(fl, DivOp, x, y) ==
            if x.IsNumber() && y.IsNumber() && !fl.isZero(AsF64(fl, y))
            then Ok(F64(fl.div(AsF64(fl, x), AsF64(fl, y)))) else Err
    ensures Apply2(fl, ModOp, x, y).Ok? <==> AsI64(fl, x).Some? && AsI64(fl, y).Some? && AsI64(fl, y) != Some(0)
  {
  }

  function Size(a: int): int { if a < 0 then -a else a }

  lemma Positive(n: int, m: int) returns (k: int, t: int)
    requires n >= 0 && m > 0
    ensures n == k * m + t && 0 <= t < m && t == n % m && (n == 0 ==> t == 0)
  {
    k, t := n / m, n % m;
  }

  lemma RemOfSizes(a: int, b: int)
    requires b != 0
    ensures TruncRem(a, b) == if a < 0 then -(Size(a) % Size(b)) else Size(a) % Size(b)
  {
  }

  lemma SignedProduct(k: int, b: int, minus: bool)
    ensures (if minus != (b < 0) then -k else k) * b == if minus then -(k * Size(b)) else k * Size(b)
  {
    assert -k * b == -(k * b) && k * -b == -(k * b);
  }

  lemma SizeIs(a: int)
    ensures Size(a) == if a < 0 then -a else a
  {
  }

  lemma TruncRemIs(a: int, b: int) returns (q: int, r: int)
    requires b != 0
    ensures r == TruncRem(a, b) && a == q * b + r && Size(r) < Size(b) && (r > 0 ==> a > 0) && (r < 0 ==> a < 0)
  {
    hide TruncRem;
    RemOfSizes(a, b);
    var k, t := Positive(Size(a), Size(b));
    r := if a < 0 then -t else t;
    q := if (a < 0) != (b < 0) then -k else k;
    SignedProduct(k, b, a < 0);
    hide Size;
    SizeIs(a);
    SizeIs(r);
    var size := k * Size(b);
    assert q * b == if a < 0 then -size else size;
  }

  lemma Remainder(fl: FloatOps, a: Int64, b: Int64) returns (q: int, r: Int64)
    requires b != 0
    ensures Apply2(fl, ModOp, I64(a), I64(b)) == Ok(I64(r))
    ensures a == q * b + r && Size(r) < Size(b) && (r > 0 ==> a > 0) && (r < 0 ==> a < 0)
  {
    hide TruncRem;
    if b == -1 {
      q := a;
      q, r := -q, 0;
    } else {
      var rest;
      q, rest := TruncRemIs(a, b);
      r := rest;
    }
  }

  // ---- accesses -------------------------------------------------------------------------

  /** An index counts from the end when it is negative, once around. */
  lemma Elements(fl: FloatOps, items: seq<Value>, i: Int64)
    ensures IndexOf(fl, Arr(items), I64(i)) == if -|items| <= i < |items| then Ok(items[i % |items|]) else Err
  {
    if -|items| <= i < 0 {
      DivModUnique(i, |items|, -1, i + |items|);
    }
  }

  lemma NoElements(fl: FloatOps, v: Value, idx: Value)
    ensures IndexOf(fl, v, idx).Ok? ==> v.Arr? && idx.IsNumber() && IndexOf(fl, v, idx).v in v.items
    ensures idx.IsNumber() && v.Arr? ==> IndexOf(fl, v, idx) == IndexOf(fl, v, I64(AsI64(fl, idx).value))
  {
  }

  lemma {:induction false} DecimalOfDigits(n: nat)
    ensures IsDigits(DiffPatch.Digits(n)) && DiffPatch.Digits(n) != [] && Decimal(DiffPatch.Digits(n)) == n
  {
    var s := DiffPatch.Digits(n);
    if n >= 10 {
      DecimalOfDigits(n / 10);
      assert s[..|s| - 1] == DiffPatch.Digits(n / 10);
    } else {
      assert s[..|s| - 1] == [];
    }
  }

  lemma {:induction false} LeadingZero(s: Str)
    requires IsDigits(s)
    ensures IsDigits([48] + s) && Decimal([48] + s) == Decimal(s)
  {
    var t: Str := [48] + s;
    if s == [] {
      assert t[..|t| - 1] == [];
    } else {
      assert t[..|t| - 1] == [48] + s[..|s| - 1];
      LeadingZero(s[..|s| - 1]);
    }
  }

  /** A field of an array is the element its decimal digits name, leading zeros or not. */
  lemma ArrayFields(items: seq<Value>, n: nat)
    ensures var named := if n < |items| then items[n] else Null;
            && GetField(Arr(items), DiffPatch.Digits(n)) == named
            && GetField(Arr(items), [48] + DiffPatch.Digits(n)) == named
  {
    hide DiffPatch.Digits, Decimal;
    DecimalOfDigits(n);
    LeadingZero(DiffPatch.Digits(n));
  }

  /** A field that was set reads back, one that was deleted reads as null, and so does every field of
      what is no container. */
  lemma ObjectFields(o: Value, key: Str, v: Value, q: Str)
    requires o.Obj? ==> Sorted(o.entries)
    ensures GetField(SetField(o, key, v), q) ==
            if q != key then (if o.Obj? then GetField(o, q) else Null) else if v.Deleted? then Null else v
    ensures !o.Obj? && !o.Arr? ==> GetField(o, q) == Null
    ensures o.Arr? && (q == [] || !IsDigits(q)) ==> GetField(o, q) == Null
  {
    SetRefinesUpdate(if o.Obj? then o.entries else [], key, v, q);
  }

  /** The first declaration with the name, if there is one. */
  lemma {:induction false} FirstMap(maps: seq<NamedMap>, name: Str)
    ensures var r := FindMap(maps, name);
            && (r.Some? ==> r.value < |maps| && maps[r.value].name == name && forall j | 0 <= j < r.value :: maps[j].name != name)
            && (r.None? ==> forall j | 0 <= j < |maps| :: maps[j].name != name)
  {
    if maps != [] {
      FirstMap(maps[1..], name);
      var r := FindMap(maps[1..], name);
      var n := if r.Some? then r.value else |maps| - 1;
      assert forall j | 1 <= j < n + 1 :: maps[j] == maps[1..][j - 1];
    }
  }

  // ---- metadata -------------------------------------------------------------------------

  /** Written metadata changes at that key alone; a deleted one is gone. */
  lemma MetadataWritten(c: Ctx, name: Str, v: Value, q: Str)
    requires c.meta.Some? ==> Sorted(c.meta.value)
    ensures MetaSet(c, name, v).None? <==> c.meta.None?
    ensures c.meta.Some? ==>
              var d := MetaSet(c, name, v).value;
              && d == c.(meta := d.meta) && d.meta.Some? && Sorted(d.meta.value)
              && Find(d.meta.value, q) == if q != name then Find(c.meta.value, q) else if v.Deleted? then None else Some(v)
  {
    if c.meta.Some? {
      SetRefinesUpdate(c.meta.value, name, v, q);
    }
  }

  lemma {:induction false} Gathered(es: seq<Entry>, acc: Value, q: Str)
    requires Sorted(es) && acc.Obj? && Sorted(acc.entries)
    ensures var r := ObjectOf(es, acc);
            && r.Obj? && Sorted(r.entries)
            && Find(r.entries, q) == match Find(es, q) case Some(v) => (if v.Deleted? then None else Some(v)) case None => Find(acc.entries, q)
    decreases |es|
  {
    if es != [] {
      var e := es[0];
      SetRefinesUpdate(acc.entries, e.key, e.val, q);
      Gathered(es[1..], SetField(acc, e.key, e.val), q);
      LessTrichotomy(e.key, q);
      TailFind(es, q);
    }
  }

  /** Read metadata: one key, or with the empty key all of it, as an object in which every key reads as
      it does alone. */
  lemma MetadataRead(c: Ctx, es: seq<Entry>, key: Value, q: Str)
    requires c.amb.metaIn == Some(es) && Sorted(es) && key.IsStringy()
    requires forall e | e in es :: !e.val.Deleted?
    ensures key.Text() != [] ==> MetaGet(c, key) == Ok(match Find(es, key.Text()) case Some(v) => v case None => Null)
    ensures key.Text() == [] ==> MetaGet(c, key) == MetaAll(c)
    ensures MetaAll(c).Ok? && MetaAll(c).v.Obj? && FindField(MetaAll(c).v, q) == Find(es, q)
  {
    Gathered(es, Obj([]), q);
    FoundIn(es, q);
  }

  lemma {:induction false} FoundIn(es: seq<Entry>, q: Str)
    ensures Find(es, q).Some? ==> Entry(q, Find(es, q).value) in es
  {
    if es != [] { FoundIn(es[1..], q); }
  }

  // ---- literals -------------------------------------------------------------------------

  function Literals(vs: seq<Value>): (r: seq<Expr>)
    ensures |r| == |vs| && forall i | 0 <= i < |vs| :: r[i] == Lit(vs[i])
  {
    seq(|vs|, i requires 0 <= i < |vs| => Lit(vs[i]))
  }

  lemma LitIs(l: Lib, p: Mapping, v: Value, c: Ctx)
    ensures Eval(l, p, Lit(v), c) == Out(Ok(v), c)
  {
  }

  predicate Marker(v: Value) { v == Deleted || v == Nothing }

  function Unmarked(vs: seq<Value>): seq<Value> {
    if vs == [] then [] else (if Marker(vs[0]) then [] else [vs[0]]) + Unmarked(vs[1..])
  }

  /** An array literal leaves out the markers and keeps the rest in order. */
  lemma {:induction false} ArrayLiteral(l: Lib, p: Mapping, vs: seq<Value>, acc: seq<Value>, c: Ctx)
    ensures EvalItems(l, p, Literals(vs), acc, c) == Out(Ok(Arr(acc + Unmarked(vs))), c)
    decreases |vs|
  {
    if vs == [] {
      assert acc + Unmarked(vs) == acc;
    } else {
      hide Eval;
      LitIs(l, p, vs[0], c);
      assert Literals(vs)[1..] == Literals(vs[1..]);
      var next := if Marker(vs[0]) then acc else acc + [vs[0]];
      ArrayLiteral(l, p, vs[1..], next, c);
      assert next + Unmarked(vs[1..]) == acc + Unmarked(vs);
    }
  }

  /** The last value given under the key that is no marker. */
  function LastGiven(es: seq<Entry>, q: Str): Option<Value> {
    if es == [] then None
    else
      var e := es[|es| - 1];
      if e.key == q && !Marker(e.val) then Some(e.val) else LastGiven(es[..|es| - 1], q)
  }

  function FieldLiterals(es: seq<Entry>): (r: seq<ObjectField>)
    ensures |r| == |es| && forall i | 0 <= i < |es| :: r[i] == ObjectField(Lit(String(es[i].key)), Lit(es[i].val))
  {
    seq(|es|, i requires 0 <= i < |es| => ObjectField(Lit(String(es[i].key)), Lit(es[i].val)))
  }

  /** An object literal leaves out the markers, and of several fields with one key the last counts. */
  lemma {:induction false} ObjectLiteral(l: Lib, p: Mapping, es: seq<Entry>, i: nat, acc: Value, c: Ctx, q: Str)
    requires i <= |es| && acc.Obj? && Sorted(acc.entries) && Find(acc.entries, q) == LastGiven(es[..i], q)
    ensures var o := EvalFields(l, p, Object(FieldLiterals(es)), i, acc, c);
            o.c == c && o.r.Ok? && FindField(o.r.v, q) == LastGiven(es, q)
    decreases |es| - i
  {
    if i == |es| {
      assert es[..i] == es;
    } else {
      hide Eval;
      var v := es[i].val;
      assert es[..i + 1][..i] == es[..i];
      LitIs(l, p, String(es[i].key), c);
      LitIs(l, p, v, c);
      SetRefinesUpdate(acc.entries, es[i].key, v, q);
      ObjectLiteral(l, p, es, i + 1, if Marker(v) then acc else SetField(acc, es[i].key, v), c, q);
    }
  }

  // ---- conditions -----------------------------------------------------------------------

  /** What a condition decides, where `None` is an error. */
  function Decision(o: Out): Option<bool> { if o.r == Ok(Bool(true)) then Some(true) else if o.r == Ok(Bool(false)) then Some(false) else None }

  /** The laws of De Morgan hold of the operators, with everything they leave unevaluated. */
  lemma DeMorgan(l: Lib, p: Mapping, a: Expr, b: Expr, c: Ctx)
    ensures Eval(l, p, Not(Binary(AndOp, a, b)), c) == Eval(l, p, Binary(OrOp, Not(a), Not(b)), c)
    ensures Eval(l, p, Not(Binary(OrOp, a, b)), c) == Eval(l, p, Binary(AndOp, Not(a), Not(b)), c)
  {
    hide Eval;
    var x := Eval(l, p, a, c);
    NotIs(l, p, a, c);
    NotIs(l, p, b, x.c);
    BothIs(l, p, a, b, c);
    BothIs(l, p, Not(a), Not(b), c);
    NotIs(l, p, Binary(AndOp, a, b), c);
    NotIs(l, p, Binary(OrOp, a, b), c);
  }

  function Decided(d: Option<bool>, c: Ctx): Out { Out(if d.Some? then Ok(Bool(d.value)) else Err, c) }

  lemma NotIs(l: Lib, p: Mapping, a: Expr, c: Ctx)
    ensures var x := Eval(l, p, a, c);
            Eval(l, p, Not(a), c) == Decided(if Decision(x).Some? then Some(!Decision(x).value) else None, x.c)
  {
  }

  lemma BinaryIs(l: Lib, p: Mapping, e: Expr, c: Ctx)
    requires e.Binary?
    ensures Eval(l, p, e, c) == EvalBinary(l, p, e, c)
  {
    hide EvalBinary;
  }

  /** Only booleans are conditions, and the right side is evaluated only when the left one leaves the
      question open. */
  lemma BothIs(l: Lib, p: Mapping, a: Expr, b: Expr, c: Ctx)
    ensures var x := Eval(l, p, a, c);
            var y := Eval(l, p, b, x.c);
            && Eval(l, p, Binary(AndOp, a, b), c) == (if Decision(x) == Some(true) then Decided(Decision(y), y.c) else Decided(Decision(x), x.c))
            && Eval(l, p, Binary(OrOp, a, b), c) == (if Decision(x) == Some(false) then Decided(Decision(y), y.c) else Decided(Decision(x), x.c))
  {
    hide Eval;
    BinaryIs(l, p, Binary(AndOp, a, b), c);
    BinaryIs(l, p, Binary(OrOp, a, b), c);
  }

  /** `a | b`: the left side unless it fails, or is null or nothing; `false` and the rest stay. */
  lemma Coalescing(l: Lib, p: Mapping, a: Expr, b: Expr, c: Ctx)
    ensures var x := Eval(l, p, a, c);
            Eval(l, p, Binary(Coalesce, a, b), c) ==
            if x.r == Err || x.r == Ok(Null) || x.r == Ok(Nothing) then Eval(l, p, b, x.c) else x
  {
    hide Eval;
    BinaryIs(l, p, Binary(Coalesce, a, b), c);
  }

  /** Grouping does not matter to `|`. */
  lemma CoalescingAssociates(l: Lib, p: Mapping, a: Expr, b: Expr, d: Expr, c: Ctx)
    ensures Eval(l, p, Binary(Coalesce, Binary(Coalesce, a, b), d), c) == Eval(l, p, Binary(Coalesce, a, Binary(Coalesce, b, d)), c)
  {
    hide Eval;
    Coalescing(l, p, a, b, c);
    Coalescing(l, p, b, d, Eval(l, p, a, c).c);
    Coalescing(l, p, Binary(Coalesce, a, b), d, c);
    Coalescing(l, p, a, Binary(Coalesce, b, d), c);
  }

  /** The arms of a match, with the conditions already values. */
  function Arms(conds: seq<Value>, vals: seq<Value>): (r: seq<Case>)
    requires |conds| == |vals|
    ensures |r| == |conds| && forall i | 0 <= i < |conds| :: r[i] == Case(Some(Lit(conds[i])), Lit(vals[i]))
  {
    seq(|conds|, i requires 0 <= i < |conds| => Case(Some(Lit(conds[i])), Lit(vals[i])))
  }

  function FirstTrue(conds: seq<Value>, vals: seq<Value>): Value
    requires |conds| == |vals|
  {
    if conds == [] then Nothing else if conds[0] == Bool(true) then vals[0] else FirstTrue(conds[1..], vals[1..])
  }

  /** The first arm whose condition is `true` counts; a condition that is no boolean is passed over. */
  lemma {:induction false} MatchArms(l: Lib, p: Mapping, context: Option<Expr>, conds: seq<Value>, vals: seq<Value>, i: nat, c: Ctx)
    requires |conds| == |vals| && i <= |conds|
    ensures EvalCases(l, p, Match(context, Arms(conds, vals)), i, c) == Out(Ok(FirstTrue(conds[i..], vals[i..])), c)
    decreases |conds| - i
  {
    if i < |conds| {
      hide Eval;
      LitIs(l, p, conds[i], c);
      LitIs(l, p, vals[i], c);
      assert conds[i..][1..] == conds[i + 1..] && vals[i..][1..] == vals[i + 1..];
      MatchArms(l, p, context, conds, vals, i + 1, c);
    }
  }

  // ---- other messages, and the depth ----------------------------------------------------

  /** `from(i)` sees message `i` of the batch: its content, its metadata and its index. */
  lemma FromSees(c: Ctx, i: nat, key: Value)
    requires c.amb.all.Some? && i < |c.amb.all.value|
    ensures var m := c.amb.all.value[i];
            var d := c.(amb := AtMessage(c.amb, i));
            && ViewOf(d) == View(Some(m), c.meta, i, c.amb.batchSize)
            && d.thisV == c.thisV && d.vars == c.vars && d.amb.all == c.amb.all && d.amb.rootInit == c.amb.rootInit
            && (key.IsStringy() && key.Text() != [] ==>
                  MetaGet(d, key) == Ok(match Find(m.meta, key.Text()) case Some(v) => v case None => Null))
  {
  }

  /** `.apply` of a map that exists fails by itself at sixty-four applications deep; before that its
      body decides, and a body that assigns nothing leaves the root as it starts, which is nothing
      unless the context brings one. */
  lemma DepthLimit(l: Lib, p: Mapping, i: nat, t: Value, c: Ctx)
    requires i < |p.maps| && p.maps[i].body == []
    ensures ApplyMap(l, p, i, t, c) ==
            if c.depth >= 64 then Out(Err, c) else Out(Ok(if c.amb.rootInit.Some? then c.amb.rootInit.value else Nothing), c)
  {
  }

  // ---- methods --------------------------------------------------------------------------

  lemma MethodIs(l: Lib, p: Mapping, e: Expr, c: Ctx)
    requires e.Method?
    ensures Eval(l, p, e, c) == EvalMethod(l, p, e, c)
  {
    hide EvalMethod;
  }

  /** `number` and `bool` coerce their target, or else their argument. */
  lemma Coercions(l: Lib, p: Mapping, v: Value, d: Value, c: Ctx)
    ensures Eval(l, p, Method(Lit(v), Number, []), c) == Out(l.number(v), c)
    ensures Eval(l, p, Method(Lit(v), ToBool, []), c) == Out(l.toBool(v), c)
    ensures Eval(l, p, Method(Lit(v), Number, [Lit(d)]), c) == Out(if l.number(v).Ok? then l.number(v) else l.number(d), c)
    ensures Eval(l, p, Method(Lit(v), ToBool, [Lit(d)]), c) == Out(if l.toBool(v).Ok? then l.toBool(v) else l.toBool(d), c)
  {
    hide Eval;
    MethodIs(l, p, Method(Lit(v), Number, []), c);
    MethodIs(l, p, Method(Lit(v), ToBool, []), c);
    MethodIs(l, p, Method(Lit(v), Number, [Lit(d)]), c);
    MethodIs(l, p, Method(Lit(v), ToBool, [Lit(d)]), c);
    LitIs(l, p, v, c);
    LitIs(l, p, d, c);
  }

  lemma {:induction false} LiteralArgs(l: Lib, p: Mapping, vs: seq<Value>, c: Ctx)
    ensures EvalArgs(l, p, Literals(vs), c) == Outs(Some(vs), c)
    decreases |vs|
  {
    hide Eval;
    if vs != [] {
      LitIs(l, p, vs[0], c);
      assert Literals(vs)[1..] == Literals(vs[1..]);
      LiteralArgs(l, p, vs[1..], c);
      assert [vs[0]] + vs[1..] == vs;
    }
  }

  /** A method of the table gets as many arguments as it takes: nulls for what is missing, and none of
      what is too much. One of any number gets all. */
  lemma TableMethod(l: Lib, p: Mapping, id: string, d: MethodDef, v: Value, vs: seq<Value>, args: seq<Value>, c: Ctx)
    requires l.methods(Plain(id)) == Some(d)
    requires d.arity.None? ==> args == vs
    requires d.arity.Some? ==> |args| == d.arity.value && forall i | 0 <= i < |args| :: args[i] == if i < |vs| then vs[i] else Null
    ensures Eval(l, p, Method(Lit(v), Plain(id), Literals(vs)), c) == Out(d.impl(v, args), c)
  {
    hide Eval, Used;
    var e := Method(Lit(v), Plain(id), Literals(vs));
    MethodIs(l, p, e, c);
    LitIs(l, p, v, c);
    TakesSome(l, p, vs, d.arity, c);
    var taken := if p.rules.Emitted? && d.arity.Some? && d.arity.value < |vs| then vs[..d.arity.value] else vs;
    assert d.arity.Some? ==> Pad(taken, d.arity.value) == args;
    assert EvalMethod(l, p, e, c) == EvalEager(l, p, e, v, c);
    assert EvalEager(l, p, e, v, c) == Out(Invoke(d, v, taken), c);
  }

  lemma TakesSome(l: Lib, p: Mapping, vs: seq<Value>, arity: Option<nat>, c: Ctx)
    ensures EvalArgs(l, p, Evaluated(p, Literals(vs), arity), c) ==
            Outs(Some(if p.rules.Emitted? && arity.Some? && arity.value < |vs| then vs[..arity.value] else vs), c)
  {
    hide Eval, EvalArgs;
    LiteralArgs(l, p, vs, c);
    if arity.Some? && arity.value < |vs| {
      LiteralArgs(l, p, vs[..arity.value], c);
      assert Literals(vs)[..arity.value] == Literals(vs[..arity.value]);
    }
  }

  /** The method asks for these elements in turn, each on the results for those before it, where a query
      that is `this` gives the element back, and then is done. */
  predicate AsksFor(l: Lib, name: MethodName, t: Value, init: Value, elems: seq<Value>, r: Result) {
    && (forall k | 0 <= k < |elems| :: l.lambdaStep(name, t, init, elems[..k]) == Ask(elems[k]))
    && l.lambdaStep(name, t, init, elems) == Done(r)
    && l.lambdaCalls(name, t, init) == |elems|
  }

  lemma {:induction false} DrivesAll(l: Lib, p: Mapping, name: MethodName, t: Value, init: Value, elems: seq<Value>, r: Result, k: nat, c: Ctx)
    requires AsksFor(l, name, t, init, elems, r) && k <= |elems|
    ensures var o := DriveThis(l, p, name, t, init, This, elems[..k], c); o.r == r && o.c == c.(thisV := o.c.thisV)
    decreases |elems| - k
  {
    hide Eval;
    if k == |elems| {
      assert elems[..k] == elems;
    } else {
      ThisIs(l, p, elems[k], c);
      assert elems[..k] + [elems[k]] == elems[..k + 1];
      DrivesAll(l, p, name, t, init, elems, r, k + 1, c.(thisV := Some(elems[k])));
    }
  }

  lemma ThisIs(l: Lib, p: Mapping, v: Value, c: Ctx)
    ensures Eval(l, p, This, c.(thisV := Some(v))) == Out(Ok(v), c.(thisV := Some(v)))
  {
  }

  /** A method with a query runs it on every element it asks for, and gives what it makes of the results;
      `fold` has its starting value in front of the query. */
  lemma QueryMethods(l: Lib, p: Mapping, name: MethodName, t: Value, init: Value, elems: seq<Value>, r: Result, c: Ctx)
    requires name in {MapEach, Filter, AllOf, AnyOf, FindBy, FindAllBy, SortBy, MapEachKey, Fold, Sort, Unique}
    requires AsksFor(l, name, t, if name.Fold? then init else Null, elems, r)
    ensures Eval(l, p, Method(Lit(t), name, if name.Fold? then [Lit(init), This] else [This]), c) == Out(r, c)
  {
    hide Eval, DriveThis, AsksFor;
    var e := Method(Lit(t), name, if name.Fold? then [Lit(init), This] else [This]);
    MethodIs(l, p, e, c);
    LitIs(l, p, t, c);
    LitIs(l, p, init, c);
    DrivesAll(l, p, name, t, if name.Fold? then init else Null, elems, r, 0, c);
    assert elems[..0] == [];
    assert EvalMethod(l, p, e, c) == EvalEager(l, p, e, t, c);
    assert EvalEager(l, p, e, t, c) == EvalLambdaMethod(l, p, e, t, c);
  }

  /** Without a query `sort` and `unique` are methods of the table; the others are errors. */
  lemma NoQuery(l: Lib, p: Mapping, name: MethodName, t: Value, c: Ctx)
    requires name in {MapEach, Filter, AllOf, AnyOf, FindBy, FindAllBy, SortBy, MapEachKey, Fold, Sort, Unique}
    requires name.Sort? || name.Unique? ==> l.methods(name).Some? && l.methods(name).value.arity == Some(0)
    ensures Eval(l, p, Method(Lit(t), name, []), c) ==
            Out(if name.Sort? || name.Unique? then l.methods(name).value.impl(t, []) else Err, c)
  {
    hide Eval;
    var e := Method(Lit(t), name, []);
    MethodIs(l, p, e, c);
    LitIs(l, p, t, c);
    assert EvalMethod(l, p, e, c) == EvalEager(l, p, e, t, c);
    if name.Sort? || name.Unique? {
      TakesSome(l, p, [], Some(0), c);
      assert Literals([]) == [];
      assert Pad([], 0) == [];
      assert EvalEager(l, p, e, t, c) == Out(Invoke(l.methods(name).value, t, []), c);
    } else {
      assert EvalEager(l, p, e, t, c) == EvalLambdaMethod(l, p, e, t, c);
    }
  }
}
