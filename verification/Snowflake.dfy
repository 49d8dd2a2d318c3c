/** `snowflake_id`: a generator that never goes back in time, whatever its clock does. */
module Snowflake {
  import opened Values
  import opened Numbers
  import opened Arithmetic

  const EPOCH_MS: int := 1288834974657
  const SEQ: int := 0x1000
  const LOW: int := 0x40_0000
  const TICKS: int := 0x200_0000_0000

  /** The generator's memory, which is also what its last id was made of. */
  datatype Stamp = Stamp(ms: int, seqNo: int)

  const START: Stamp := Stamp(-1, 0)

  predicate Proper(t: Stamp) { -1 <= t.ms && 0 <= t.seqNo < SEQ }

  function Next(last: Stamp, clock: int): Stamp {
    var ms := if clock < last.ms then last.ms else clock;
    if ms == last.ms then
      var seqNo := (last.seqNo + 1) % SEQ;
      Stamp(if seqNo == 0 then ms + 1 else ms, seqNo)
    else Stamp(ms, 0)
  }

  /** `((ms - EPOCH) << 22) | (node << 12) | seq` on 64 bits: the shift leaves the low 22
      bits clear, and what it pushes out at the top is lost. */
  function Id(t: Stamp, node: int): int
    requires 0 <= node < 1024 && Proper(t)
  {
    Wrap64((t.ms - EPOCH_MS) * LOW) + node * SEQ + t.seqNo
  }

  function Wrap64(x: int): int { var u := x % TWO64; if u < TWO64 / 2 then u else u - TWO64 }

  /** Milliseconds since the epoch fit their 41 bits. */
  predicate InRange(t: Stamp) { t.ms - EPOCH_MS < TICKS }

  class Generator {
    var last: Stamp
    ghost var issued: seq<Stamp>
    ghost var clocks: seq<int>

    ghost predicate Valid()
      reads this
    {
      issued == Stamps(START, clocks) && last == After(START, clocks)
    }

    constructor ()
      ensures Valid() && issued == [] && clocks == []
    {
      last, issued, clocks := START, [], [];
    }

    /** A node outside 0..1023 is an error and leaves the generator alone. */
    method NextId(node: int, clock: int) returns (r: Option<int>)
      requires Valid()
      modifies this
      ensures Valid()
      ensures r.None? <==> !(0 <= node < 1024)
      ensures r.None? ==> clocks == old(clocks)
      ensures r.Some? ==> clocks == old(clocks) + [clock] && |issued| > 0
      ensures r.Some? ==> Proper(issued[|issued| - 1]) && r.value == Id(issued[|issued| - 1], node)
    {
      if node < 0 || node > 1023 { return None; }
      var ms := clock;
      var seqNo := last.seqNo;
      if ms < last.ms { ms := last.ms; }
      if ms == last.ms {
        seqNo := (seqNo + 1) % SEQ;
        if seqNo == 0 { ms := ms + 1; }
      } else {
        seqNo := 0;
      }
      AfterProper(START, clocks);
      assert (clocks + [clock])[..|clocks|] == clocks;
      last := Stamp(ms, seqNo);
      clocks := clocks + [clock];
      issued := issued + [last];
      r := Some(Wrap64((ms - EPOCH_MS) * LOW) + node * SEQ + seqNo);
    }
  }

  function After(start: Stamp, clocks: seq<int>): Stamp {
    if clocks == [] then start else Next(After(start, clocks[..|clocks| - 1]), clocks[|clocks| - 1])
  }

  /** The stamps issued over a run of clock readings, in order. */
  function Stamps(start: Stamp, clocks: seq<int>): (r: seq<Stamp>)
    ensures |r| == |clocks|
  {
    if clocks == [] then [] else Stamps(start, clocks[..|clocks| - 1]) + [After(start, clocks)]
  }

  lemma {:induction false} AfterProper(start: Stamp, clocks: seq<int>)
    requires Proper(start)
    ensures Proper(After(start, clocks))
  {
    if clocks != [] { AfterProper(start, clocks[..|clocks| - 1]); }
  }

  predicate Before(a: Stamp, b: Stamp) { a.ms < b.ms || (a.ms == b.ms && a.seqNo < b.seqNo) }

  lemma NextAdvances(t: Stamp, clock: int)
    requires Proper(t)
    ensures Proper(Next(t, clock)) && Before(t, Next(t, clock))
  {
  }

  lemma StampAt(start: Stamp, clocks: seq<int>, i: nat)
    requires i < |clocks|
    ensures Stamps(start, clocks)[i] == After(start, clocks[..i + 1])
  {
    if i + 1 == |clocks| {
      assert clocks[..i + 1] == clocks;
    } else {
      StampAt(start, clocks[..|clocks| - 1], i);
      assert clocks[..|clocks| - 1][..i + 1] == clocks[..i + 1];
    }
  }

  /** Whatever the clock reads, later stamps come strictly after earlier ones. */
  lemma {:induction false} StampsIncrease(start: Stamp, clocks: seq<int>, i: nat, j: nat)
    requires Proper(start) && i < j < |clocks|
    ensures var ts := Stamps(start, clocks); Proper(ts[i]) && Proper(ts[j]) && Before(ts[i], ts[j])
    decreases j
  {
    StampAt(start, clocks, i);
    StampAt(start, clocks, j);
    AfterProper(start, clocks[..i + 1]);
    AfterProper(start, clocks[..j]);
    assert clocks[..j + 1][..j] == clocks[..j];
    NextAdvances(After(start, clocks[..j]), clocks[j]);
    if i + 1 < j {
      StampsIncrease(start, clocks, i, j - 1);
      StampAt(start, clocks, j - 1);
    }
  }

  lemma WrapSmall(x: int)
    requires -TWO64 / 2 <= x < TWO64 / 2
    ensures Wrap64(x) == x
  {
    DivModUnique(x, TWO64, if x < 0 then -1 else 0, if x < 0 then x + TWO64 else x);
  }

  lemma IdExact(t: Stamp, node: int)
    requires Proper(t) && InRange(t) && 0 <= node < 1024
    ensures Id(t, node) == (t.ms - EPOCH_MS) * LOW + node * SEQ + t.seqNo
  {
    WrapSmall((t.ms - EPOCH_MS) * LOW);
  }

  /** Ids issued to one node by one generator strictly increase. */
  lemma IdsIncrease(clocks: seq<int>, node: int, i: nat, j: nat)
    requires i < j < |clocks| && 0 <= node < 1024
    requires InRange(Stamps(START, clocks)[j])
    ensures var ts := Stamps(START, clocks);
            Proper(ts[i]) && Proper(ts[j]) && Id(ts[i], node) < Id(ts[j], node)
  {
    StampsIncrease(START, clocks, i, j);
    var ts := Stamps(START, clocks);
    IdExact(ts[i], node);
    IdExact(ts[j], node);
  }

  /** `id >> 22`, `(id >> 12) & 0x3FF` and `id & 0xFFF` give back the parts. */
  lemma Unpacks(t: Stamp, node: int)
    requires Proper(t) && EPOCH_MS <= t.ms && InRange(t) && 0 <= node < 1024
    ensures var id := Id(t, node);
            && 0 <= id < TWO64 / 2
            && id / 0x40_0000 + 1288834974657 == t.ms && id / 0x1000 % 0x400 == node && id % 0x1000 == t.seqNo
  {
    IdExact(t, node);
    var d := t.ms - EPOCH_MS;
    var id := Id(t, node);
    DivModUnique(id, LOW, d, node * SEQ + t.seqNo);
    DivModUnique(id, SEQ, d * 1024 + node, t.seqNo);
    DivModUnique(d * 1024 + node, 1024, d, node);
  }

  /** Two ids agree if and only if millisecond, node and sequence number all do: ids of
      different nodes never collide, and ids of one node only when two generators use it. */
  lemma IdsAgree(t: Stamp, node: int, t': Stamp, node': int)
    requires Proper(t) && InRange(t) && 0 <= node < 1024
    requires Proper(t') && InRange(t') && 0 <= node' < 1024
    ensures Id(t, node) == Id(t', node') <==> t == t' && node == node'
  {
    IdExact(t, node);
    IdExact(t', node');
    var d, d' := t.ms - EPOCH_MS, t'.ms - EPOCH_MS;
    var id := Id(t, node);
    if id == Id(t', node') {
      DivModUnique(id, LOW, d, node * SEQ + t.seqNo);
      DivModUnique(id, LOW, d', node' * SEQ + t'.seqNo);
    }
  }

  /** Two generators that share a node: whatever each has issued before, the first id of a
      millisecond that neither has reached is the same for both. */
  lemma SharedNodeCollides(a: seq<int>, b: seq<int>, clock: int, node: int)
    requires After(START, a).ms < clock && After(START, b).ms < clock && 0 <= node < 1024
    ensures var t, u := Stamps(START, a + [clock])[|a|], Stamps(START, b + [clock])[|b|];
            Proper(t) && Proper(u) && Id(t, node) == Id(u, node)
  {
    assert (a + [clock])[..|a|] == a && (b + [clock])[..|b|] == b;
  }

  // ---- how far the generator runs ahead of its clock ------------------------------------

  function Latest(clocks: seq<int>): int {
    if clocks == [] then -1
    else
      var m := Latest(clocks[..|clocks| - 1]);
      if m < clocks[|clocks| - 1] then clocks[|clocks| - 1] else m
  }

  /** Borrowed milliseconds are paid for by calls: each costs a full sequence. */
  lemma {:induction false} BorrowBounded(clocks: seq<int>)
    ensures var t := After(START, clocks);
            Proper(t) && Latest(clocks) <= t.ms && (t.ms - Latest(clocks)) * SEQ + t.seqNo <= |clocks|
  {
    if clocks != [] {
      BorrowBounded(clocks[..|clocks| - 1]);
    }
  }

  /** So the 41 bits suffice as long as the clock leaves room for one millisecond per
      4096 calls. */
  lemma StaysInRange(clocks: seq<int>, i: nat)
    requires i < |clocks| && Latest(clocks[..i + 1]) + |clocks| / SEQ < EPOCH_MS + TICKS
    ensures InRange(Stamps(START, clocks)[i])
  {
    StampAt(START, clocks, i);
    BorrowBounded(clocks[..i + 1]);
  }

  /** One millisecond past the 41 bits the sign flips, and the order of ids with it. */
  lemma OverflowReverses(node: int)
    requires 0 <= node < 1024
    ensures var a, b := Stamp(EPOCH_MS + TICKS - 1, 0), Stamp(EPOCH_MS + TICKS, 0);
            Before(a, b) && Id(a, node) > 0 > Id(b, node)
  {
    var a, b := Stamp(EPOCH_MS + TICKS - 1, 0), Stamp(EPOCH_MS + TICKS, 0);
    IdExact(a, node);
  }
}
