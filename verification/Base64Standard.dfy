/** The encoding as RFC 4648 defines it, on the input's string of bits. */
module Base64Standard {
  import opened Wrappers
  import opened Base64

  const UPPER := "ABCDEFGHIJKLMNOPQRSTUVWXYZ"
  const LOWER := "abcdefghijklmnopqrstuvwxyz"
  const DIGITS := "0123456789"

  /** The URL and filename safe alphabet: table 2 of RFC 4648. */
  const ALPHABET := UPPER + LOWER + DIGITS + "-_"

  lemma UpperIs(v: nat)
    requires v < 26
    ensures UPPER[v] as int == 65 + v
  {
  }

  lemma LowerIs(v: nat)
    requires v < 26
    ensures LOWER[v] as int == 97 + v
  {
  }

  lemma DigitIs(v: nat)
    requires v < 10
    ensures DIGITS[v] as int == 48 + v
  {
  }

  /** The table of signs is the alphabet. */
  lemma AlphabetIs(v: Sextet)
    ensures |ALPHABET| == 64 && Symbol(v) == ALPHABET[v] as int
  {
    hide UPPER, LOWER, DIGITS;
    Lengths();
    if v < 26 {
      UpperIs(v);
    } else if v < 52 {
      LowerIs(v - 26);
    } else if v < 62 {
      DigitIs(v - 52);
    }
  }

  lemma Lengths()
    ensures |UPPER| == 26 && |LOWER| == 26 && |DIGITS| == 10
  {
  }

  // ---------------------------------------------------------------- bits

  /** The bits of a byte, the most significant first. */
  function Bit(x: Byte, i: nat): (b: nat)
    requires i < 8
    ensures b < 2
  {
    (if i == 0 then x / 128 else if i == 1 then x / 64 else if i == 2 then x / 32 else if i == 3 then x / 16
     else if i == 4 then x / 8 else if i == 5 then x / 4 else if i == 6 then x / 2 else x) % 2
  }

  /** The input as one string of bits, followed by zeros. */
  function BitAt(src: seq<Byte>, n: nat): (b: nat)
    ensures b < 2
  {
    if n / 8 < |src| then Bit(src[n / 8], n % 8) else 0
  }

  /** The value of six bits in a row. */
  function SixBits(src: seq<Byte>, n: nat): (v: Sextet) {
    32 * BitAt(src, n) + 16 * BitAt(src, n + 1) + 8 * BitAt(src, n + 2)
    + 4 * BitAt(src, n + 3) + 2 * BitAt(src, n + 4) + BitAt(src, n + 5)
  }

  lemma Half(x: nat, d: nat)
    requires d in {1, 2, 4, 8, 16, 32, 64}
    ensures x / d == 2 * (x / (2 * d)) + x / d % 2
  {
    assert x / d / 2 == x / (2 * d);
  }

  lemma ByteBits(x: Byte)
    ensures x / 64 == 2 * Bit(x, 0) + Bit(x, 1)
    ensures x / 16 == 8 * Bit(x, 0) + 4 * Bit(x, 1) + 2 * Bit(x, 2) + Bit(x, 3)
    ensures x / 4 == 32 * Bit(x, 0) + 16 * Bit(x, 1) + 8 * Bit(x, 2) + 4 * Bit(x, 3) + 2 * Bit(x, 4) + Bit(x, 5)
    ensures x % 4 == 2 * Bit(x, 6) + Bit(x, 7)
    ensures x % 16 == 8 * Bit(x, 4) + 4 * Bit(x, 5) + 2 * Bit(x, 6) + Bit(x, 7)
    ensures x % 64 == 32 * Bit(x, 2) + 16 * Bit(x, 3) + 8 * Bit(x, 4) + 4 * Bit(x, 5) + 2 * Bit(x, 6) + Bit(x, 7)
  {
    Half(x, 1);
    Half(x, 2);
    Half(x, 4);
    Half(x, 8);
    Half(x, 16);
    Half(x, 32);
    Half(x, 64);
    assert x / 128 % 2 == x / 128;
    assert x % 4 == x - 4 * (x / 4) && x % 16 == x - 16 * (x / 16) && x % 64 == x - 64 * (x / 64);
  }

  lemma SixBitsShift(src: seq<Byte>, n: nat)
    requires |src| >= 3
    ensures SixBits(src, n + 24) == SixBits(src[3..], n)
  {
    forall i: nat ensures BitAt(src, i + 24) == BitAt(src[3..], i) {
      assert (i + 24) / 8 == i / 8 + 3 && (i + 24) % 8 == i % 8;
    }
  }

  /** The byte at a position, or zero behind the end. */
  function ByteAt(src: seq<Byte>, i: nat): Byte {
    if i < |src| then src[i] else 0
  }

  lemma BitOfByte(src: seq<Byte>, i: nat, j: nat)
    requires j < 8
    ensures BitAt(src, 8 * i + j) == Bit(ByteAt(src, i), j)
  {
    assert (8 * i + j) / 8 == i && (8 * i + j) % 8 == j;
  }

  /** The four windows of six bits in the first three bytes. */
  lemma GroupBits(src: seq<Byte>)
    ensures var a, b, c := ByteAt(src, 0), ByteAt(src, 1), ByteAt(src, 2);
      && SixBits(src, 0) == a / 4 && SixBits(src, 6) == a % 4 * 16 + b / 16
      && SixBits(src, 12) == b % 16 * 4 + c / 64 && SixBits(src, 18) == c % 64
  {
    hide Bit, BitAt, ByteAt;
    ByteBits(ByteAt(src, 0));
    ByteBits(ByteAt(src, 1));
    ByteBits(ByteAt(src, 2));
    forall i: nat, j: nat | j < 8 ensures BitAt(src, 8 * i + j) == Bit(ByteAt(src, i), j) { BitOfByte(src, i, j); }
  }

  // ---------------------------------------------------------------- the encoding

  lemma FirstSigns(src: seq<Byte>, k: nat)
    requires src != [] && k < 4
    ensures |Encoded(src)| >= 4
    ensures Encoded(src)[k] == if 6 * k < 8 * |src| then Symbol(SixBits(src, 6 * k)) else PAD
  {
    hide SixBits, Symbol, Encoded, ByteAt;
    GroupBits(src);
    FirstFour(src);
    assert k == 0 || k == 1 || k == 2 || k == 3;
  }

  lemma FirstFour(src: seq<Byte>)
    requires src != []
    ensures var r, a, b, c := Encoded(src), ByteAt(src, 0), ByteAt(src, 1), ByteAt(src, 2);
      && |r| >= 4 && r[0] == Symbol(a / 4) && r[1] == Symbol(a % 4 * 16 + b / 16)
      && r[2] == (if |src| > 1 then Symbol(b % 16 * 4 + c / 64) else PAD)
      && r[3] == if |src| > 2 then Symbol(c % 64) else PAD
  {
    hide Symbol;
  }

  lemma LaterSigns(src: seq<Byte>, k: nat)
    requires 4 <= k < |Encoded(src)|
    ensures |src| > 3 && k - 4 < |Encoded(src[3..])| && Encoded(src)[k] == Encoded(src[3..])[k - 4]
  {
    hide Symbol;
  }

  /** What the encoding is by section 5 of RFC 4648: the input's bits, six at a time with zeros behind the last, each
      as its sign of the alphabet, and padding signs up to a multiple of four. */
  lemma {:induction false} EncodedIs(src: seq<Byte>, k: nat)
    requires k < |Encoded(src)|
    ensures |ALPHABET| == 64
    ensures Encoded(src)[k] == if 6 * k < 8 * |src| then ALPHABET[SixBits(src, 6 * k)] as int else '=' as int
  {
    hide SixBits, Symbol, Encoded, ALPHABET;
    AlphabetIs(SixBits(src, 6 * k));
    if k < 4 {
      FirstSigns(src, k);
    } else {
      LaterSigns(src, k);
      EncodedIs(src[3..], k - 4);
      SixBitsShift(src, 6 * (k - 4));
    }
  }

  // ---------------------------------------------------------------- what decodes

  /** The padding signs among four bytes. */
  function Padding(a: Byte, b: Byte, c: Byte, d: Byte): nat {
    (if a as char == '=' then 1 else 0) + (if b as char == '=' then 1 else 0)
    + (if c as char == '=' then 1 else 0) + if d as char == '=' then 1 else 0
  }

  /** The first group that has padding, if any, has at most two signs of it; what follows that group is not read. */
  ghost predicate PaddingOk(t: seq<Byte>) {
    forall g: nat :: Padded(t, g) ==> Padding(t[4 * g], t[4 * g + 1], t[4 * g + 2], t[4 * g + 3]) <= 2
  }

  /** Group `g` is there and is the first with padding, if it has any. */
  ghost predicate Padded(t: seq<Byte>, g: nat) {
    4 * g + 4 <= |t| && forall j :: 0 <= j < 4 * g ==> t[j] as char != '='
  }

  lemma {:induction false} GroupsIff(t: seq<Byte>)
    requires |t| % 4 == 0 && forall i :: 0 <= i < |t| ==> ValueOf(t[i]) != SKIP
    ensures Groups(t).Some? <==> PaddingOk(t)
    decreases |t|
  {
    hide ValueOf, Ungroup, Groups;
    if t == [] {
      NoGroups();
    } else {
      var rest := t[4..];
      GroupsStep(t);
      GroupsIff(rest);
      assert Padded(t, 0);
      if Padding(t[0], t[1], t[2], t[3]) == 0 {
        forall g: nat ensures Padded(t, g + 1) <==> Padded(rest, g) { NextGroup(t, g); }
        if PaddingOk(t) {
          forall g: nat | Padded(rest, g)
            ensures Padding(rest[4 * g], rest[4 * g + 1], rest[4 * g + 2], rest[4 * g + 3]) <= 2
          {
            assert Padded(t, g + 1);
          }
        }
        if PaddingOk(rest) {
          forall g: nat | Padded(t, g) ensures Padding(t[4 * g], t[4 * g + 1], t[4 * g + 2], t[4 * g + 3]) <= 2 {
            if g > 0 { assert Padded(rest, g - 1); }
          }
        }
      }
    }
  }

  lemma NoGroups()
    ensures Groups([]) == Option.Some([])
  {
  }

  lemma NextGroup(t: seq<Byte>, g: nat)
    requires |t| >= 4 && Padding(t[0], t[1], t[2], t[3]) == 0
    ensures Padded(t, g + 1) <==> Padded(t[4..], g)
  {
    var rest := t[4..];
    if Padded(rest, g) {
      forall j | 0 <= j < 4 * (g + 1) ensures t[j] as char != '=' {
        if j >= 4 { assert rest[j - 4] == t[j]; }
      }
    }
  }

  /** Bytes decode exactly when those of the alphabet and the padding sign, the others being skipped, come in one or
      more groups of four, and the first group with padding has one or two signs of it. */
  lemma DecodedIff(src: seq<Byte>)
    ensures Decoded(src).Some? <==>
            Symbols(src) != [] && |Symbols(src)| % 4 == 0 && PaddingOk(Symbols(src))
  {
    hide Symbols, Groups, PaddingOk;
    if |Symbols(src)| % 4 == 0 { GroupsIff(Symbols(src)); }
  }
}
