/** The Bloblang value model: the variants of `value`, and objects as entry
    vectors kept sorted by key, which refine finite maps. */
module Values {

  datatype Option<+T> = None | Some(value: T)

  type Byte = b: int | 0 <= b < 256
  type Str = seq<Byte>
  type Int64 = i: int | -0x8000_0000_0000_0000 <= i < 0x8000_0000_0000_0000
  /** A double and a float, by bit pattern. */
  type Bits64 = n: int | 0 <= n < 0x1_0000_0000_0000_0000
  type Bits32 = n: int | 0 <= n < 0x1_0000_0000

  datatype Value =
    | Null
    | Bool(b: bool)
    | I64(i: Int64)
    | F64(bits: Bits64)
    | F32(bits32: Bits32)
    | Timestamp(nanos: Int64, offset: int)
    | RawNumber(digits: Str)
    | String(s: Str)
    | Bytes(raw: Str)
    | Arr(items: seq<Value>)
    | Obj(entries: seq<Entry>)
    | Deleted
    | Nothing
  {
    predicate IsNumber() { I64? || F64? || F32? || RawNumber? }
    predicate IsStringy() { String? || Bytes? }
    function Text(): Str
      requires IsStringy()
    {
      if String? then s else raw
    }
  }

  datatype Entry = Entry(key: Str, val: Value)

  /** Evaluation either yields a value or throws; every error is one opaque outcome. */
  datatype Result = Ok(v: Value) | Err

  // ---- key order ---------------------------------------------------------------

  /** Byte-wise lexicographic order, `std::string::compare`. */
  predicate Less(a: Str, b: Str) {
    b != [] && (a == [] || a[0] < b[0] || (a[0] == b[0] && Less(a[1..], b[1..])))
  }

  lemma {:induction false} LessTrichotomy(a: Str, b: Str)
    ensures (Less(a, b) && a != b && !Less(b, a))
         || (!Less(a, b) && a == b && !Less(b, a))
         || (!Less(a, b) && a != b && Less(b, a))
  {
    if a != [] && b != [] && a[0] == b[0] {
      LessTrichotomy(a[1..], b[1..]);
      assert a == [a[0]] + a[1..] && b == [b[0]] + b[1..];
    }
  }

  lemma {:induction false} LessTransitive(a: Str, b: Str, c: Str)
    requires Less(a, b) && Less(b, c)
    ensures Less(a, c)
  {
    if a != [] && a[0] == b[0] && b[0] == c[0] {
      LessTransitive(a[1..], b[1..], c[1..]);
    }
  }

  // ---- sorted entry vectors ------------------------------------------------------

  predicate Sorted(es: seq<Entry>) {
    |es| <= 1 || (Less(es[0].key, es[1].key) && Sorted(es[1..]))
  }

  /** `find` on the entry vector: the entry at the lower bound, if it has the key. */
  function Find(es: seq<Entry>, key: Str): Option<Value> {
    if es == [] then None
    else if Less(es[0].key, key) then Find(es[1..], key)
    else if es[0].key == key then Some(es[0].val)
    else None
  }

  function RemoveEntry(es: seq<Entry>, key: Str): seq<Entry> {
    if es == [] then []
    else if Less(es[0].key, key) then [es[0]] + RemoveEntry(es[1..], key)
    else if es[0].key == key then es[1..]
    else es
  }

  /** `set` on the entry vector, for a value other than `deleted`. */
  function PutEntry(es: seq<Entry>, key: Str, v: Value): seq<Entry> {
    if es == [] then [Entry(key, v)]
    else if Less(es[0].key, key) then [es[0]] + PutEntry(es[1..], key, v)
    else if es[0].key == key then [Entry(key, v)] + es[1..]
    else [Entry(key, v)] + es
  }

  /** `set`: assigning `deleted` erases the key. */
  function SetEntry(es: seq<Entry>, key: Str, v: Value): seq<Entry> {
    if v.Deleted? then RemoveEntry(es, key) else PutEntry(es, key, v)
  }

  /** `value::set`: anything that is not an object becomes an empty object first. */
  function SetField(o: Value, key: Str, v: Value): Value {
    Obj(SetEntry(if o.Obj? then o.entries else [], key, v))
  }

  /** `value::remove`. */
  function RemoveField(o: Value, key: Str): Value {
    if o.Obj? then Obj(RemoveEntry(o.entries, key)) else o
  }

  /** `value::find`. */
  function FindField(o: Value, key: Str): Option<Value> {
    if o.Obj? then Find(o.entries, key) else None
  }

  // ---- refinement of finite maps --------------------------------------------------

  /** `set` keeps the vector sorted and updates the lookup at that key alone. */
  lemma {:induction false} SetRefinesUpdate(es: seq<Entry>, key: Str, v: Value, k: Str)
    requires Sorted(es)
    ensures Sorted(SetEntry(es, key, v))
    ensures Find(SetEntry(es, key, v), k) ==
            if k == key then (if v.Deleted? then None else Some(v)) else Find(es, k)
  {
    if v.Deleted? {
      RemoveRefines(es, key, k);
    } else {
      PutRefines(es, key, v, k);
    }
  }

  lemma {:induction false} PutRefines(es: seq<Entry>, key: Str, v: Value, k: Str)
    requires Sorted(es)
    ensures Sorted(PutEntry(es, key, v))
    ensures Find(PutEntry(es, key, v), k) == if k == key then Some(v) else Find(es, k)
    ensures var r := PutEntry(es, key, v); r != [] && r[0].key in {key} + (if es == [] then {} else {es[0].key})
    decreases |es|
  {
    LessTrichotomy(key, key);
    LessTrichotomy(key, k);
    var r := PutEntry(es, key, v);
    if es != [] {
      LessTrichotomy(es[0].key, key);
      LessTrichotomy(es[0].key, k);
      var t := es[1..];
      if Less(es[0].key, key) {
        PutRefines(t, key, v, k);
        assert r[1..] == PutEntry(t, key, v);
      } else if es[0].key == key {
        assert r[1..] == t;
      } else {
        assert r[1..] == es;
        if k != key && !Less(key, k) && Less(es[0].key, k) { LessTransitive(es[0].key, k, key); }
      }
    }
  }

  lemma {:induction false} RemoveRefines(es: seq<Entry>, key: Str, k: Str)
    requires Sorted(es)
    ensures Sorted(RemoveEntry(es, key))
    ensures Find(RemoveEntry(es, key), k) == if k == key then None else Find(es, k)
    ensures var r := RemoveEntry(es, key); r != [] ==> es != [] && (r[0] == es[0] || Less(es[0].key, r[0].key))
    decreases |es|
  {
    var r := RemoveEntry(es, key);
    if es != [] {
      LessTrichotomy(es[0].key, key);
      LessTrichotomy(es[0].key, k);
      var t := es[1..];
      if Less(es[0].key, key) {
        RemoveRefines(t, key, k);
        assert r[1..] == RemoveEntry(t, key);
        if |r| > 1 && r[1] != t[0] { LessTransitive(es[0].key, t[0].key, r[1].key); }
      } else {
        if es[0].key == key && !Less(key, k) { TailAbove(es, k); }
      }
    }
  }

  /** A key not above the head is absent from the tail. */
  lemma TailAbove(es: seq<Entry>, k: Str)
    requires Sorted(es) && es != [] && !Less(es[0].key, k)
    ensures Find(es[1..], k) == None
  {
    if |es| > 1 {
      LessTrichotomy(es[1].key, k);
      if Less(es[1].key, k) { LessTransitive(es[0].key, es[1].key, k); }
    }
  }

  /** Sorted vectors are canonical: the same lookups mean the same vector. */
  lemma {:induction false} SortedCanonical(a: seq<Entry>, b: seq<Entry>)
    requires Sorted(a) && Sorted(b)
    requires forall k :: Find(a, k) == Find(b, k)
    ensures a == b
    decreases |a|
  {
    if a == [] {
      if b != [] { HeadFound(b); }
    } else {
      HeadFound(a);
      if b != [] { HeadFound(b); }
      LessTrichotomy(a[0].key, b[0].key);
      forall k
        ensures Find(a[1..], k) == Find(b[1..], k)
      {
        TailFind(a, k);
        TailFind(b, k);
      }
      SortedCanonical(a[1..], b[1..]);
      assert a == [a[0]] + a[1..] && b == [b[0]] + b[1..];
    }
  }

  lemma HeadFound(es: seq<Entry>)
    requires es != []
    ensures Find(es, es[0].key) == Some(es[0].val)
  {
    LessTrichotomy(es[0].key, es[0].key);
  }

  lemma TailFind(es: seq<Entry>, k: Str)
    requires Sorted(es) && es != []
    ensures Find(es[1..], k) == if Less(es[0].key, k) then Find(es, k) else None
  {
    if !Less(es[0].key, k) { TailAbove(es, k); }
  }
}
