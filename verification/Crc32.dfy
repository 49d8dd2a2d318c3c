/** The reflected CRC-32: a table of 256 steps, built once per polynomial, against the
    definition that shifts the message through the register one bit at a time. */
module Crc32 {

  type Word = bv32

  function Shr(a: Word): Word { a >> 1 }

  function Shr8(a: Word): Word { a >> 8 }

  function Low8(a: Word): Word { a & 0xFF }

  predicate Odd(a: Word) { a & 1 == 1 }

  function Xor(a: Word, b: Word): Word { a ^ b }

  function Widen(b: bv8): Word { b as Word }

  // ---- one bit at a time --------------------------------------------------------------

  /** Divide one bit out of the register. */
  function Step(poly: Word, c: Word): Word {
    if Odd(c) then Xor(Shr(c), poly) else Shr(c)
  }

  function Steps(poly: Word, c: Word, k: nat): Word {
    if k == 0 then c else Step(poly, Steps(poly, c, k - 1))
  }

  /** The register after one message bit: the polynomial is applied when the bit that
      leaves differs from the bit that arrives. */
  function FeedBit(poly: Word, crc: Word, bit: bool): Word {
    if Odd(crc) != bit then Xor(Shr(crc), poly) else Shr(crc)
  }

  /** What of a byte is left when its `k` lowest bits have been taken. */
  function Pending(b: Word, k: nat): Word {
    if k == 0 then b else Shr(Pending(b, k - 1))
  }

  /** The bits of a byte, least significant first. */
  predicate Bit(b: bv8, k: nat) { Odd(Pending(Widen(b), k)) }

  function FeedBits(poly: Word, crc: Word, b: bv8, k: nat): Word {
    if k == 0 then crc else FeedBit(poly, FeedBits(poly, crc, b, k - 1), Bit(b, k - 1))
  }

  function Feed(poly: Word, crc: Word, s: seq<bv8>): Word {
    if s == [] then crc else FeedBits(poly, Feed(poly, crc, s[..|s| - 1]), s[|s| - 1], 8)
  }

  /** The definition: every register bit set, the message, every bit flipped. */
  function Crc(poly: Word, s: seq<bv8>): Word { Xor(Feed(poly, 0xFFFF_FFFF, s), 0xFFFF_FFFF) }

  // ---- laws of words ------------------------------------------------------------------

  lemma ShrXor(a: Word, b: Word)
    ensures Shr(Xor(a, b)) == Xor(Shr(a), Shr(b))
  {
  }

  lemma OddXor(a: Word, b: Word)
    ensures Odd(Xor(a, b)) == (Odd(a) != Odd(b))
  {
  }

  lemma XorSwap(a: Word, b: Word, c: Word)
    ensures Xor(Xor(a, b), c) == Xor(Xor(a, c), b)
  {
    hide Xor;
    XorAssoc(a, b, c);
    XorAssoc(a, c, b);
    XorComm(b, c);
  }

  lemma XorAssoc(a: Word, b: Word, c: Word)
    ensures Xor(Xor(a, b), c) == Xor(a, Xor(b, c))
  {
  }

  lemma XorComm(a: Word, b: Word)
    ensures Xor(a, b) == Xor(b, a)
  {
  }

  lemma XorZero(a: Word)
    ensures Xor(a, 0) == a
  {
  }

  /** The part of a word above its low byte, and the low byte. */
  lemma SplitLow(x: Word) returns (hi: Word)
    ensures Xor(Low8(x), hi) == x && Low8(hi) == 0 && Shr8(hi) == Shr8(x)
  {
    hi := x & 0xFFFF_FF00;
  }

  lemma MixedHigh(crc: Word, b: bv8)
    ensures Shr8(Xor(crc, Widen(b))) == Shr8(crc)
  {
    var w := Widen(b);
    assert w >> 8 == 0;
    assert (crc ^ w) >> 8 == (crc >> 8) ^ (w >> 8);
  }

  function Shr4(a: Word): Word { Shr(Shr(Shr(Shr(a)))) }

  lemma EightShifts(a: Word)
    ensures Shr4(Shr4(a)) == Shr8(a)
  {
  }

  lemma PendingEight(a: Word)
    ensures Pending(a, 8) == Shr8(a)
  {
    hide Shr, Shr4, Shr8;
    PendingFour(a, 0);
    PendingFour(a, 4);
    EightShifts(a);
  }

  lemma PendingFour(a: Word, k: nat)
    ensures Pending(a, k + 4) == Shr4(Pending(a, k))
  {
    hide Shr;
    assert Pending(a, k + 1) == Shr(Pending(a, k));
    assert Pending(a, k + 2) == Shr(Pending(a, k + 1));
    assert Pending(a, k + 3) == Shr(Pending(a, k + 2));
  }

  /** A word without its low `8 - k` bits, once shifted. */
  predicate LowClear(a: Word, k: nat) {
    if k == 0 then a & 0xFF == 0 else if k == 1 then a & 0x7F == 0 else if k == 2 then a & 0x3F == 0
    else if k == 3 then a & 0x1F == 0 else if k == 4 then a & 0x0F == 0 else if k == 5 then a & 0x07 == 0
    else if k == 6 then a & 0x03 == 0 else a & 0x01 == 0
  }

  lemma LowClearStep(a: Word, k: nat)
    requires LowClear(a, k) && k < 7
    ensures LowClear(Shr(a), k + 1)
  {
  }

  lemma LowClearEven(a: Word, k: nat)
    requires LowClear(a, k)
    ensures !Odd(a)
  {
  }

  lemma {:induction false} EvenBelow(hi: Word, k: nat)
    requires Low8(hi) == 0 && k < 8
    ensures LowClear(Pending(hi, k), k) && !Odd(Pending(hi, k))
  {
    hide Odd, LowClear, Shr;
    if k == 0 {
      LowClearAtFirst(hi);
    } else {
      EvenBelow(hi, k - 1);
      LowClearStep(Pending(hi, k - 1), k - 1);
    }
    LowClearEven(Pending(hi, k), k);
  }

  lemma LowClearAtFirst(hi: Word)
    requires Low8(hi) == 0
    ensures LowClear(hi, 0)
  {
  }

  lemma ByteSpent(b: bv8)
    ensures Pending(Widen(b), 8) == 0
  {
    PendingEight(Widen(b));
  }

  // ---- one byte at a time -------------------------------------------------------------

  /** A word mixed in moves down as bits are divided out, and its lowest bit is fed. */
  lemma StepMixed(poly: Word, c: Word, p: Word)
    ensures Step(poly, Xor(c, p)) == Xor(FeedBit(poly, c, Odd(p)), Shr(p))
  {
    hide Shr, Odd, Xor;
    ShrXor(c, p);
    OddXor(c, p);
    XorSwap(Shr(c), Shr(p), poly);
  }

  /** A register with a byte mixed in divides out to the register fed with its bits. */
  lemma {:induction false} MixedIn(poly: Word, crc: Word, b: bv8, k: nat)
    ensures Steps(poly, Xor(crc, Widen(b)), k) == Xor(FeedBits(poly, crc, b, k), Pending(Widen(b), k))
  {
    hide Shr, Odd, Xor, Widen, Step, FeedBit;
    if k > 0 {
      MixedIn(poly, crc, b, k - 1);
      StepMixed(poly, FeedBits(poly, crc, b, k - 1), Pending(Widen(b), k - 1));
    }
  }

  /** Bits above the low byte reach the end only after eight steps. */
  lemma {:induction false} HighMoves(poly: Word, lo: Word, hi: Word, k: nat)
    requires Low8(hi) == 0 && k <= 8
    ensures Steps(poly, Xor(lo, hi), k) == Xor(Steps(poly, lo, k), Pending(hi, k))
  {
    hide Shr, Odd, Xor, Low8;
    if k > 0 {
      HighMoves(poly, lo, hi, k - 1);
      EvenBelow(hi, k - 1);
      StepMixed(poly, Steps(poly, lo, k - 1), Pending(hi, k - 1));
    }
  }

  lemma HighLands(hi: Word)
    ensures Pending(hi, 8) == Shr8(hi)
  {
    PendingEight(hi);
  }

  /** The step of the digest loop: the entry for the low byte, and the rest moved down. */
  lemma ByteStep(poly: Word, crc: Word, b: bv8)
    ensures Xor(Steps(poly, Low8(Xor(crc, Widen(b))), 8), Shr8(crc)) == FeedBits(poly, crc, b, 8)
  {
    hide Shr, Odd, Xor, Low8, Shr8, Widen, Step, Steps, FeedBits, Pending;
    var x := Xor(crc, Widen(b));
    var hi := SplitLow(x);
    HighMoves(poly, Low8(x), hi, 8);
    HighLands(hi);
    MixedHigh(crc, b);
    MixedIn(poly, crc, b, 8);
    ByteSpent(b);
    XorZero(FeedBits(poly, crc, b, 8));
  }

  // ---- the table and its cache --------------------------------------------------------

  predicate IsTable(poly: Word, t: seq<Word>) {
    |t| == 256 && forall i | 0 <= i < 256 :: t[i] == Steps(poly, i as Word, 8)
  }

  lemma IndexOfLow(x: Word)
    ensures Low8(x) as int < 256 && (Low8(x) as int) as Word == Low8(x)
  {
    assert Low8(x) <= 255;
  }

  /** `crc32_table`'s function-local cache. */
  class TableCache {
    var cache: seq<(Word, seq<Word>)>

    /** Every entry is its polynomial's table, and no polynomial has two. */
    ghost predicate Valid()
      reads this
    {
      && (forall i | 0 <= i < |cache| :: IsTable(cache[i].0, cache[i].1))
      && (forall i, j | 0 <= i < j < |cache| :: cache[i].0 != cache[j].0)
    }

    constructor ()
      ensures Valid() && cache == []
    {
      cache := [];
    }

    ghost predicate Holds(poly: Word)
      reads this
    {
      exists i :: 0 <= i < |cache| && cache[i].0 == poly
    }

    method Table(poly: Word) returns (t: seq<Word>)
      requires Valid()
      modifies this
      ensures Valid() && IsTable(poly, t)
      ensures cache == if old(Holds(poly)) then old(cache) else old(cache) + [(poly, t)]
    {
      for n := 0 to |cache|
        invariant forall i | 0 <= i < n :: cache[i].0 != poly
        invariant cache == old(cache)
      {
        if cache[n].0 == poly { return cache[n].1; }
      }
      t := BuildTable(poly);
      cache := cache + [(poly, t)];
    }

    /** `crc32_reflected`. */
    method Digest(s: seq<bv8>, poly: Word) returns (r: Word)
      requires Valid()
      modifies this
      ensures Valid() && r == Crc(poly, s)
    {
      hide Xor, Shr8, Low8, Widen, Steps, FeedBits;
      var table := Table(poly);
      var crc: Word := 0xFFFF_FFFF;
      assert s[..|s|] == s;
      for i := 0 to |s|
        invariant Valid() && crc == Feed(poly, 0xFFFF_FFFF, s[..i])
      {
        var low := Low8(Xor(crc, Widen(s[i])));
        IndexOfLow(Xor(crc, Widen(s[i])));
        ByteStep(poly, crc, s[i]);
        assert s[..i + 1][..i] == s[..i];
        crc := Xor(table[low as int], Shr8(crc));
      }
      r := Xor(crc, 0xFFFF_FFFF);
    }
  }

  method BuildTable(poly: Word) returns (t: seq<Word>)
    ensures IsTable(poly, t)
  {
    hide Step, Xor, Shr, Odd;
    var table := new Word[256];
    for i := 0 to 256
      invariant forall j | 0 <= j < i :: table[j] == Steps(poly, j as Word, 8)
    {
      var c := i as Word;
      for k := 0 to 8
        invariant c == Steps(poly, i as Word, k)
      {
        c := Step(poly, c);
      }
      table[i] := c;
    }
    t := table[..];
  }
}
