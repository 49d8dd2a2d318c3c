/** The text codecs against the tables and test vectors of the documents that define them, and the
    checksum against its published value. */
module KnownAnswers {
  import opened Values
  import opened Alphabet
  import Base64Codec
  import Base85
  import Crc32

  // ---- base64, RFC 4648 -------------------------------------------------------------------

  /** Tables 1 and 2. */
  lemma Base64Tables(k: nat)
    requires k < 64
    ensures |B64_STD| == 64 && |B64_URL| == 64
    ensures k < 26 ==> B64_STD[k] as char == 'A' + k as char && B64_URL[k] == B64_STD[k]
    ensures 26 <= k < 52 ==> B64_STD[k] as char == 'a' + (k - 26) as char && B64_URL[k] == B64_STD[k]
    ensures 52 <= k < 62 ==> B64_STD[k] as char == '0' + (k - 52) as char && B64_URL[k] == B64_STD[k]
    ensures k == 62 ==> B64_STD[k] as char == '+' && B64_URL[k] as char == '-'
    ensures k == 63 ==> B64_STD[k] as char == '/' && B64_URL[k] as char == '_'
  {
  }

  /** The bytes of ASCII text. */
  function Ascii(t: string): Str
    requires forall i | 0 <= i < |t| :: t[i] < 128 as char
  {
    seq(|t|, i requires 0 <= i < |t| => t[i] as Byte)
  }

  lemma Foo()
    ensures Base64Codec.Chars(B64_STD, 0x666F6F, 4) == Ascii("Zm9v")
  {
    Base64Tables(25);
    Base64Tables(38);
    Base64Tables(61);
    Base64Tables(47);
  }

  lemma Bar()
    ensures Base64Codec.Chars(B64_STD, 0x626172, 4) == Ascii("YmFy")
  {
    Base64Tables(24);
    Base64Tables(38);
    Base64Tables(5);
    Base64Tables(50);
  }

  lemma F()
    ensures Base64Codec.Chars(B64_STD, 0x660000, 2) == Ascii("Zg")
  {
    Base64Tables(25);
    Base64Tables(32);
  }

  lemma Fo()
    ensures Base64Codec.Chars(B64_STD, 0x666F00, 3) == Ascii("Zm8")
  {
    Base64Tables(25);
    Base64Tables(38);
    Base64Tables(60);
  }

  lemma B()
    ensures Base64Codec.Chars(B64_STD, 0x620000, 2) == Ascii("Yg")
  {
    Base64Tables(24);
    Base64Tables(32);
  }

  lemma Ba()
    ensures Base64Codec.Chars(B64_STD, 0x626100, 3) == Ascii("YmE")
  {
    Base64Tables(24);
    Base64Tables(38);
    Base64Tables(4);
  }

  /** One group, and what is left of the last one. */
  lemma OneGroup(s: Str, i: nat)
    requires i < |s|
    ensures var n := Base64Codec.Three(s, i);
            Base64Codec.Encode(B64_STD, s, i, true) ==
            if |s| - i == 1 then Base64Codec.Chars(B64_STD, n, 2) + Ascii("==")
            else if |s| - i == 2 then Base64Codec.Chars(B64_STD, n, 3) + Ascii("=")
            else Base64Codec.Chars(B64_STD, n, 4) + Base64Codec.Encode(B64_STD, s, i + 3, true)
  {
    hide B64_STD, Base64Codec.Chars;
  }

  lemma Joined(a: string, b: string)
    requires forall i | 0 <= i < |a| :: a[i] < 128 as char
    requires forall i | 0 <= i < |b| :: b[i] < 128 as char
    ensures Ascii(a) + Ascii(b) == Ascii(a + b)
  {
  }

  lemma NothingMore(s: Str)
    ensures Base64Codec.Encode(B64_STD, s, |s|, true) == []
  {
  }

  /** Section 10, one byte to three. */
  lemma Base64Vectors()
    ensures Base64Codec.Encode(B64_STD, Ascii(""), 0, true) == Ascii("")
    ensures Base64Codec.Encode(B64_STD, Ascii("f"), 0, true) == Ascii("Zg==")
    ensures Base64Codec.Encode(B64_STD, Ascii("fo"), 0, true) == Ascii("Zm8=")
    ensures Base64Codec.Encode(B64_STD, Ascii("foo"), 0, true) == Ascii("Zm9v")
  {
    hide B64_STD, Base64Codec.Chars, Base64Codec.Encode;
    NothingMore(Ascii(""));
    F();
    OneGroup(Ascii("f"), 0);
    Joined("Zg", "==");
    Fo();
    OneGroup(Ascii("fo"), 0);
    Joined("Zm8", "=");
    Foo();
    OneGroup(Ascii("foo"), 0);
    NothingMore(Ascii("foo"));
    Joined("Zm9v", "");
  }

  /** Section 10, four bytes to six. */
  lemma Base64LongVectors()
    ensures Base64Codec.Encode(B64_STD, Ascii("foob"), 0, true) == Ascii("Zm9vYg==")
    ensures Base64Codec.Encode(B64_STD, Ascii("fooba"), 0, true) == Ascii("Zm9vYmE=")
    ensures Base64Codec.Encode(B64_STD, Ascii("foobar"), 0, true) == Ascii("Zm9vYmFy")
  {
    hide B64_STD, Base64Codec.Chars, Base64Codec.Encode;
    Foo();
    B();
    OneGroup(Ascii("foob"), 0);
    OneGroup(Ascii("foob"), 3);
    Joined("Yg", "==");
    Joined("Zm9v", "Yg==");
    Ba();
    OneGroup(Ascii("fooba"), 0);
    OneGroup(Ascii("fooba"), 3);
    Joined("YmE", "=");
    Joined("Zm9v", "YmE=");
    Bar();
    OneGroup(Ascii("foobar"), 0);
    OneGroup(Ascii("foobar"), 3);
    NothingMore(Ascii("foobar"));
    Joined("YmFy", "");
    Joined("Zm9v", "YmFy");
  }

  // ---- z85 and ascii85 ----------------------------------------------------------------------

  const TEN: string := "0123456789"
  const SMALL: string := "abcdefghijklmnopqrstuvwxyz"
  const LARGE: string := "ABCDEFGHIJKLMNOPQRSTUVWXYZ"
  const SIGNS: string := ".-:+=^!/*?&<>()[]{}@%$#"

  /** The alphabet of ZeroMQ's RFC 32. */
  const RFC32: string := TEN + SMALL + LARGE + SIGNS

  predicate Spells(s: Str, t: string) { |s| == |t| && forall i | 0 <= i < |s| :: s[i] as char == t[i] }

  lemma SpellsJoin(s: Str, t: string, s': Str, t': string)
    requires Spells(s, t) && Spells(s', t')
    ensures Spells(s + s', t + t')
  {
  }

  lemma Parts()
    ensures Spells(DIGITS, TEN) && Spells(LOWER, SMALL) && Spells(UPPER, LARGE) && Spells(PUNCTUATION, SIGNS)
  {
  }

  lemma Z85Table()
    ensures |Z85| == 85 && Spells(Z85, RFC32)
  {
    hide Spells, DIGITS, LOWER, UPPER, PUNCTUATION, TEN, SMALL, LARGE, SIGNS;
    Parts();
    SpellsJoin(DIGITS, TEN, LOWER, SMALL);
    SpellsJoin(DIGITS + LOWER, TEN + SMALL, UPPER, LARGE);
    SpellsJoin(DIGITS + LOWER + UPPER, TEN + SMALL + LARGE, PUNCTUATION, SIGNS);
    Z85Distinct();
  }

  lemma HelloDigits()
    ensures Base85.Digit(2253378159, 0) == 43 && Base85.Digit(2253378159, 1) == 14 && Base85.Digit(2253378159, 2) == 21 && Base85.Digit(2253378159, 3) == 21 && Base85.Digit(2253378159, 4) == 24
    ensures Base85.Digit(3042572123, 0) == 58 && Base85.Digit(3042572123, 1) == 24 && Base85.Digit(3042572123, 2) == 27 && Base85.Digit(3042572123, 3) == 21 && Base85.Digit(3042572123, 4) == 13
  {
    Base85.Quotients(2253378159);
    Base85.Quotients(3042572123);
  }

  lemma HelloSpelled()
    ensures Spells(Base85.ZGroup(2253378159), "Hello")
  {
    hide Base85.Digit, Base85.ZGroup, Spells;
    HelloDigits();
    GroupSpells(2253378159, "Hello");
  }

  lemma WorldSpelled()
    ensures Spells(Base85.ZGroup(3042572123), "World")
  {
    hide Base85.Digit, Base85.ZGroup, Spells;
    HelloDigits();
    GroupSpells(3042572123, "World");
  }

  /** The example of RFC 32. */
  lemma HelloWorld()
    ensures var r := Base85.ZEncode([0x86, 0x4F, 0xD2, 0x6F, 0xB5, 0x59, 0xF7, 0x5B]); r.Some? && Spells(r.value, "HelloWorld")
  {
    hide Base85.ZGroup, Base85.Word, Base85.ZEncodeFrom, Z85, Spells;
    var s: Str := [0x86, 0x4F, 0xD2, 0x6F, 0xB5, 0x59, 0xF7, 0x5B];
    assert Base85.Word(s, 0) == 2253378159 && Base85.Word(s, 4) == 3042572123;
    HelloSpelled();
    WorldSpelled();
    assert "Hello" + "World" == "HelloWorld";
    EncodedTwice(s);
    SpellsJoin(Base85.ZGroup(2253378159), "Hello", Base85.ZGroup(3042572123), "World");
  }

  lemma EncodedTwice(s: Str)
    requires |s| == 8
    ensures Base85.ZEncodeFrom(s, 0) == Base85.ZGroup(Base85.Word(s, 0)) + Base85.ZGroup(Base85.Word(s, 4))
  {
    hide Base85.ZGroup, Base85.Word;
    assert Base85.ZEncodeFrom(s, 8) == [];
    var last := Base85.ZGroup(Base85.Word(s, 4));
    assert Base85.ZEncodeFrom(s, 4) == last + [] == last;
  }

  lemma GroupSpells(v: nat, t: string)
    requires |t| == 5 && forall j | 0 <= j < 5 :: t[j] == RFC32At(Base85.Digit(v, j))
    ensures Spells(Base85.ZGroup(v), t)
  {
    hide Base85.Digit, Z85, RFC32;
    Z85Table();
  }

  function RFC32At(k: nat): char { if k < |RFC32| then RFC32[k] else ' ' }

  lemma ManDigits()
    ensures Base85.Digit(1298230816, 0) == 24 && Base85.Digit(1298230816, 1) == 73 && Base85.Digit(1298230816, 2) == 80 && Base85.Digit(1298230816, 3) == 78 && Base85.Digit(1298230816, 4) == 61
  {
    Base85.Quotients(1298230816);
  }

  /** ascii85: four bytes are five characters from `!` on, the most significant first. */
  lemma Man()
    ensures Spells(Base85.Encode(Ascii("Man "), 0), "9jqo^")
  {
    hide Base85.Digit, Base85.Word;
    var s := Ascii("Man ");
    assert Base85.Word(s, 0) == 1298230816;
    ManDigits();
    assert Base85.Piece(s, 0) == Base85.Group(1298230816, 5);
    assert Base85.Encode(s, 0) == Base85.Piece(s, 0) + Base85.Encode(s, 4);
  }

  // ---- the checksum -------------------------------------------------------------------------

  const IEEE: Crc32.Word := 0xEDB8_8320

  function Feed8(c: Crc32.Word, b: bv8): Crc32.Word {
    var c1 := Crc32.FeedBit(IEEE, c, b & 1 != 0);
    var c2 := Crc32.FeedBit(IEEE, c1, b & 2 != 0);
    var c3 := Crc32.FeedBit(IEEE, c2, b & 4 != 0);
    var c4 := Crc32.FeedBit(IEEE, c3, b & 8 != 0);
    var c5 := Crc32.FeedBit(IEEE, c4, b & 16 != 0);
    var c6 := Crc32.FeedBit(IEEE, c5, b & 32 != 0);
    var c7 := Crc32.FeedBit(IEEE, c6, b & 64 != 0);
    Crc32.FeedBit(IEEE, c7, b & 128 != 0)
  }

  lemma BitsOf(b: bv8)
    ensures Crc32.Bit(b, 0) == (b & 1 != 0) && Crc32.Bit(b, 1) == (b & 2 != 0) && Crc32.Bit(b, 2) == (b & 4 != 0)
    ensures Crc32.Bit(b, 3) == (b & 8 != 0) && Crc32.Bit(b, 4) == (b & 16 != 0) && Crc32.Bit(b, 5) == (b & 32 != 0)
    ensures Crc32.Bit(b, 6) == (b & 64 != 0) && Crc32.Bit(b, 7) == (b & 128 != 0)
  {
  }

  lemma FeedsByte(c: Crc32.Word, b: bv8)
    ensures Crc32.FeedBits(IEEE, c, b, 8) == Feed8(c, b)
  {
    hide Crc32.Bit, Crc32.FeedBit;
    BitsOf(b);
    assert Crc32.FeedBits(IEEE, c, b, 1) == Crc32.FeedBit(IEEE, c, b & 1 != 0);
    assert Crc32.FeedBits(IEEE, c, b, 2) == Crc32.FeedBit(IEEE, Crc32.FeedBit(IEEE, c, b & 1 != 0), b & 2 != 0);
    assert Crc32.FeedBits(IEEE, c, b, 4) ==
           Crc32.FeedBit(IEEE, Crc32.FeedBit(IEEE, Crc32.FeedBits(IEEE, c, b, 2), b & 4 != 0), b & 8 != 0);
    assert Crc32.FeedBits(IEEE, c, b, 6) ==
           Crc32.FeedBit(IEEE, Crc32.FeedBit(IEEE, Crc32.FeedBits(IEEE, c, b, 4), b & 16 != 0), b & 32 != 0);
  }

  lemma FeedsOneMore(t: seq<bv8>, b: bv8)
    ensures Crc32.Feed(IEEE, 0xFFFF_FFFF, t + [b]) == Feed8(Crc32.Feed(IEEE, 0xFFFF_FFFF, t), b)
  {
    hide Feed8, Crc32.FeedBits;
    var s := t + [b];
    assert s[..|s| - 1] == t;
    FeedsByte(Crc32.Feed(IEEE, 0xFFFF_FFFF, t), b);
  }

  lemma Registers()
    ensures Feed8(0xFFFF_FFFF, 0x31) == 0x7C23_1048
    ensures Feed8(0x7C23_1048, 0x32) == 0xB0AC_BB32
    ensures Feed8(0xB0AC_BB32, 0x33) == 0x77B7_9C2D
    ensures Feed8(0x77B7_9C2D, 0x34) == 0x641C_1F5C
    ensures Feed8(0x641C_1F5C, 0x35) == 0x340A_C5E3
    ensures Feed8(0x340A_C5E3, 0x36) == 0xF68D_2C9E
    ensures Feed8(0xF68D_2C9E, 0x37) == 0xAFFC_9660
    ensures Feed8(0xAFFC_9660, 0x38) == 0x651F_2550
    ensures Feed8(0x651F_2550, 0x39) == 0x340B_C6D9
  {
  }

  /** The digits from one to nine, and the check value of the catalogue entry CRC-32. */
  lemma CheckValue()
    ensures Crc32.Crc(IEEE, [0x31, 0x32, 0x33, 0x34, 0x35, 0x36, 0x37, 0x38, 0x39]) == 0xCBF4_3926
  {
    hide Feed8, Crc32.Feed;
    Registers();
    NoneFed();
    var s: seq<bv8> := [0x31, 0x32, 0x33, 0x34, 0x35, 0x36, 0x37, 0x38, 0x39];
    Prefixes(s);
    FeedsOneMore(s[..0], s[0]);
    FeedsOneMore(s[..1], s[1]);
    FeedsOneMore(s[..2], s[2]);
    FeedsOneMore(s[..3], s[3]);
    FeedsOneMore(s[..4], s[4]);
    FeedsOneMore(s[..5], s[5]);
    FeedsOneMore(s[..6], s[6]);
    FeedsOneMore(s[..7], s[7]);
    FeedsOneMore(s[..8], s[8]);
  }

  lemma Prefixes(s: seq<bv8>)
    ensures s[..0] == [] && s[..|s|] == s
    ensures forall k | 0 <= k < |s| :: s[..k] + [s[k]] == s[..k + 1]
  {
  }

  lemma NoneFed()
    ensures Crc32.Feed(IEEE, 0xFFFF_FFFF, []) == 0xFFFF_FFFF
  {
  }
}
