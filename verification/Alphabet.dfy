/** What the text codecs share: 32-bit words, text that may fail to decode, encoding
    alphabets and the position `strchr` finds in them. */
module Alphabet {
  import opened Values

  const WORD: int := 0x1_0000_0000

  function Prepend(t: Str, r: Option<Str>): Option<Str> {
    match r case Some(u) => Some(t + u) case None => None
  }

  lemma PrependNone(r: Option<Str>)
    ensures Prepend([], r) == r
  {
    if r.Some? { assert [] + r.value == r.value; }
  }

  lemma PrependJoin(a: Str, b: Str, r: Option<Str>)
    ensures Prepend(a + b, r) == Prepend(a, Prepend(b, r))
  {
    if r.Some? { assert a + b + r.value == a + (b + r.value); }
  }

  lemma HeadOfSuffix(g: Str, j: nat, rest: Str)
    requires j < |g|
    ensures g[j..] + rest == [g[j]] + (g[j + 1..] + rest)
  {
    assert g[j..] == [g[j]] + g[j + 1..];
  }

  lemma HeadOfSlice(g: Str, i: nat, j: nat)
    requires i < j <= |g|
    ensures [g[i]] + g[i + 1..j] == g[i..j]
  {
  }

  lemma NothingLeft(g: Str, rest: Str)
    ensures g[|g|..] + rest == rest
  {
  }

  /** `n` consecutive characters. */
  function Run(first: Byte, n: nat): (r: Str)
    requires first + n <= 256
    ensures |r| == n && forall i | 0 <= i < n :: r[i] == first + i
  {
    seq(n, i requires 0 <= i < n => (first + i) as Byte)
  }

  function IndexFrom(alpha: Str, c: Byte, i: nat): (r: Option<nat>)
    requires i <= |alpha|
    ensures r.None? <==> forall j | i <= j < |alpha| :: alpha[j] != c
    ensures r.Some? ==> i <= r.value < |alpha| && alpha[r.value] == c
    decreases |alpha| - i
  {
    if i == |alpha| then None else if alpha[i] == c then Some(i) else IndexFrom(alpha, c, i + 1)
  }

  /** `strchr(alpha, c) - alpha`; the terminating zero is never looked for. */
  function IndexOf(alpha: Str, c: Byte): Option<nat> { IndexFrom(alpha, c, 0) }

  predicate Distinct(alpha: Str) { forall i, j | 0 <= i < j < |alpha| :: alpha[i] != alpha[j] }

  lemma IndexOfAt(alpha: Str, k: nat)
    requires Distinct(alpha) && k < |alpha|
    ensures IndexOf(alpha, alpha[k]) == Some(k)
  {
  }

  lemma DistinctJoin(a: Str, b: Str)
    requires Distinct(a) && Distinct(b) && forall i, j | 0 <= i < |a| && 0 <= j < |b| :: a[i] != b[j]
    ensures Distinct(a + b)
  {
  }

  const DIGITS: Str := Run(48, 10)
  const UPPER: Str := Run(65, 26)
  const LOWER: Str := Run(97, 26)

  // ".-:+=^!/*?&<>()[]{}@%$#"
  const PUNCTUATION: Str :=
    [46, 45, 58, 43, 61, 94, 33, 47, 42, 63, 38, 60, 62, 40, 41, 91, 93, 123, 125, 64, 37, 36, 35]

  const Z85: Str := DIGITS + LOWER + UPPER + PUNCTUATION

  function Base64Alphabet(c62: Byte, c63: Byte): Str { UPPER + LOWER + DIGITS + [c62, c63] }

  const B64_STD: Str := Base64Alphabet(43, 47)
  const B64_URL: Str := Base64Alphabet(45, 95)

  lemma Z85Distinct()
    ensures |Z85| == 85 && Distinct(Z85)
  {
    assert Distinct(PUNCTUATION);
    DistinctJoin(DIGITS, LOWER);
    DistinctJoin(DIGITS + LOWER, UPPER);
    DistinctJoin(DIGITS + LOWER + UPPER, PUNCTUATION);
  }

  predicate Base64(alpha: Str) { |alpha| == 64 && Distinct(alpha) && forall i | 0 <= i < 64 :: alpha[i] !in {10, 13, 61} }

  lemma Base64Alphabets()
    ensures Base64(B64_STD) && Base64(B64_URL)
  {
    DistinctJoin(UPPER, LOWER);
    DistinctJoin(UPPER + LOWER, DIGITS);
    DistinctJoin(UPPER + LOWER + DIGITS, [43, 47]);
    DistinctJoin(UPPER + LOWER + DIGITS, [45, 95]);
  }
}
