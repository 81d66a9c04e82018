/** CRC-32 as in section 8 of RFC 1952, one bit at a time, and what it detects. */
module Crc32 {

  import opened Octet

  const POLY: bv32 := 0xEDB8_8320

  // Exclusive or, by name: the proofs use its laws and not its bits.
  function Xor(x: bv32, y: bv32): bv32 {
    x ^ y
  }

  function Widen(b: Byte): bv32 {
    b as bv32
  }

  function Shift(x: bv32): bv32 {
    if x & 1 == 1 then Xor(x >> 1, POLY) else x >> 1
  }

  function Shift8(x: bv32): bv32 {
    Shift(Shift(Shift(Shift(Shift(Shift(Shift(Shift(x))))))))
  }

  function Update(crc: bv32, b: Byte): bv32 {
    Shift8(Xor(crc, Widen(b)))
  }

  function Crc(crc: bv32, s: seq<Byte>): bv32
    decreases |s|
  {
    if s == [] then crc else Crc(Update(crc, s[0]), s[1..])
  }

  function Checksum(s: seq<Byte>): bv32 {
    Xor(Crc(0xFFFF_FFFF, s), 0xFFFF_FFFF)
  }

  // ----- laws

  lemma XorIs(x: bv32, y: bv32)
    ensures Xor(x, y) == x ^ y
  {
  }

  lemma XorAssoc(x: bv32, y: bv32, z: bv32)
    ensures Xor(Xor(x, y), z) == Xor(x, Xor(y, z))
  {
  }

  lemma XorSwap(x: bv32, y: bv32, p: bv32)
    ensures Xor(Xor(x, p), y) == Xor(Xor(x, y), p) && Xor(x, Xor(y, p)) == Xor(Xor(x, y), p)
    ensures Xor(Xor(x, p), Xor(y, p)) == Xor(x, y)
  {
  }

  lemma XorCancel(x: bv32, y: bv32, b: bv32)
    requires Xor(x, b) == Xor(y, b)
    ensures x == y
  {
  }

  lemma LowBit(x: bv32, y: bv32)
    ensures (x & 1 == 0 || x & 1 == 1) && (y & 1 == 0 || y & 1 == 1)
    ensures Xor(x, y) & 1 == if x & 1 == y & 1 then 0 else 1
  {
  }

  lemma HalfXorBits(x: bv32, y: bv32, z: bv32)
    requires z == x ^ y
    ensures z >> 1 == (x >> 1) ^ (y >> 1)
  {
  }

  lemma HalfXor(x: bv32, y: bv32)
    ensures Xor(x, y) >> 1 == Xor(x >> 1, y >> 1)
  {
    hide Xor;
    XorIs(x, y);
    XorIs(x >> 1, y >> 1);
    HalfXorBits(x, y, Xor(x, y));
  }

  // The shift loses nothing: its top bit tells which branch was taken.
  lemma ShiftInjective(x: bv32, y: bv32)
    requires Shift(x) == Shift(y)
    ensures x == y
  {
  }

  lemma ShiftLinear(x: bv32, y: bv32)
    ensures Shift(Xor(x, y)) == Xor(Shift(x), Shift(y))
  {
    LowBit(x, y);
    HalfXor(x, y);
    XorSwap(x >> 1, y >> 1, POLY);
    hide Xor;
  }

  lemma Shift8Injective(x: bv32, y: bv32)
    requires Shift8(x) == Shift8(y)
    ensures x == y
  {
    hide Shift;
    var x1, y1 := Shift(x), Shift(y);
    var x2, y2 := Shift(x1), Shift(y1);
    var x3, y3 := Shift(x2), Shift(y2);
    var x4, y4 := Shift(x3), Shift(y3);
    var x5, y5 := Shift(x4), Shift(y4);
    var x6, y6 := Shift(x5), Shift(y5);
    var x7, y7 := Shift(x6), Shift(y6);
    ShiftInjective(x7, y7);
    ShiftInjective(x6, y6);
    ShiftInjective(x5, y5);
    ShiftInjective(x4, y4);
    ShiftInjective(x3, y3);
    ShiftInjective(x2, y2);
    ShiftInjective(x1, y1);
    ShiftInjective(x, y);
  }

  lemma Shift8Linear(x: bv32, y: bv32)
    ensures Shift8(Xor(x, y)) == Xor(Shift8(x), Shift8(y))
  {
    hide Shift, Xor;
    var x1, y1 := Shift(x), Shift(y);
    var x2, y2 := Shift(x1), Shift(y1);
    var x3, y3 := Shift(x2), Shift(y2);
    var x4, y4 := Shift(x3), Shift(y3);
    var x5, y5 := Shift(x4), Shift(y4);
    var x6, y6 := Shift(x5), Shift(y5);
    var x7, y7 := Shift(x6), Shift(y6);
    ShiftLinear(x, y);
    ShiftLinear(x1, y1);
    ShiftLinear(x2, y2);
    ShiftLinear(x3, y3);
    ShiftLinear(x4, y4);
    ShiftLinear(x5, y5);
    ShiftLinear(x6, y6);
    ShiftLinear(x7, y7);
  }

  // A byte above the lowest one is only shifted down.
  lemma Shift8Lowers(b: bv32)
    requires b & 0xFF == 0
    ensures Shift8(b) == b >> 8
  {
  }

  // ----- splitting the register into its low byte and the rest

  lemma SplitBits(x: bv32, low: bv32, high: bv32)
    requires low == x & 0xFF && high == x & 0xFFFF_FF00
    ensures x == Xor(low, high) && high & 0xFF == 0 && high >> 8 == x >> 8
  {
  }

  lemma HighOfMixed(crc: bv32, b: Byte, x: bv32)
    requires x == Xor(crc, Widen(b))
    ensures x >> 8 == crc >> 8
  {
    hide *;
    WidenLow(b);
    XorIs(crc, Widen(b));
    HighBits(crc, Widen(b), x);
  }

  lemma WidenLow(b: Byte)
    ensures Widen(b) & 0xFFFF_FF00 == 0
  {
    WidenBits(b, Widen(b));
  }

  lemma WidenBits(b: Byte, x: bv32)
    requires x == b as bv32
    ensures x & 0xFFFF_FF00 == 0
  {
  }

  lemma HighBits(crc: bv32, low: bv32, x: bv32)
    requires x == crc ^ low && low & 0xFFFF_FF00 == 0
    ensures x >> 8 == crc >> 8
  {
  }

  // The byte-at-a-time form of section 8 of RFC 1952: a table entry for the low byte, the rest shifted.
  lemma UpdateByTable(crc: bv32, b: Byte)
    ensures Update(crc, b) == Xor(Shift8(Xor(crc, Widen(b)) & 0xFF), crc >> 8)
  {
    hide Xor, Widen, Shift8;
    var x := Xor(crc, Widen(b));
    var low, high := x & 0xFF, x & 0xFFFF_FF00;
    HighOfMixed(crc, b, x);
    SplitBits(x, low, high);
    Shift8Linear(low, high);
    Shift8Lowers(high);
  }

  // ----- four bytes at a time

  // A byte at a place in the register: Place(b, 1) is one byte up.
  function Place(b: Byte, k: nat): bv32
    requires k <= 3
  {
    if k == 0 then Widen(b) else if k == 1 then Widen(b) << 8 else if k == 2 then Widen(b) << 16 else Widen(b) << 24
  }

  // Four bytes as the word they form in the register.
  function Word(p: seq<Byte>): bv32
    requires |p| == 4
  {
    Xor(Xor(Xor(Place(p[0], 0), Place(p[1], 1)), Place(p[2], 2)), Place(p[3], 3))
  }

  lemma PlaceBits(x: bv32)
    requires x & 0xFFFF_FF00 == 0
    ensures (x << 8) & 0xFF == 0 && (x << 8) >> 8 == x
    ensures (x << 16) & 0xFF == 0 && (x << 16) >> 8 == x << 8
    ensures (x << 24) & 0xFF == 0 && (x << 24) >> 8 == x << 16
  {
  }

  // Shifting by a byte moves a placed byte one place down.
  lemma Shift8Places(b: Byte, k: nat)
    requires 1 <= k <= 3
    ensures Shift8(Place(b, k)) == Place(b, k - 1)
  {
    var x := Widen(b);
    hide Widen, Shift8;
    WidenLow(b);
    PlaceBits(x);
    Shift8Lowers(Place(b, k));
  }

  // Feeding a byte after a shift is feeding it, one place higher, before the shift.
  lemma FeedEarlier(x: bv32, b: Byte, k: nat)
    requires 1 <= k <= 3
    ensures Xor(Shift8(x), Place(b, k - 1)) == Shift8(Xor(x, Place(b, k)))
  {
    hide Shift8, Xor, Place;
    Shift8Linear(x, Place(b, k));
    Shift8Places(b, k);
  }

  lemma MixWord(s: bv32, p: seq<Byte>)
    requires |p| == 4
    ensures Xor(Xor(Xor(Xor(s, Place(p[0], 0)), Place(p[1], 1)), Place(p[2], 2)), Place(p[3], 3)) == Xor(s, Word(p))
  {
    hide Xor, Place;
    var a, b, c, d := Place(p[0], 0), Place(p[1], 1), Place(p[2], 2), Place(p[3], 3);
    XorAssoc(s, a, b);
    XorAssoc(s, Xor(a, b), c);
    XorAssoc(s, Xor(Xor(a, b), c), d);
  }

  // Four updates are four byte shifts of the register with the word mixed in.
  lemma FourUpdates(s: bv32, p: seq<Byte>)
    requires |p| == 4
    ensures Crc(s, p) == Shift8(Shift8(Shift8(Shift8(Xor(s, Word(p))))))
  {
    hide *;
    var a, b, c, d := p[0], p[1], p[2], p[3];
    var x := Xor(s, Place(a, 0));
    var y := Xor(x, Place(b, 1));
    var z := Xor(y, Place(c, 2));
    CrcFour(s, p);
    assert Update(s, a) == Shift8(x) by { UpdateIs(s, a); }
    assert Update(Shift8(x), b) == Shift8(Shift8(y)) by { UpdateIs(Shift8(x), b); FeedEarlier(x, b, 1); }
    assert Update(Shift8(Shift8(y)), c) == Shift8(Shift8(Shift8(z))) by {
      UpdateIs(Shift8(Shift8(y)), c);
      FeedEarlier(Shift8(y), c, 1);
      FeedEarlier(y, c, 2);
    }
    var w := Xor(z, Place(d, 3));
    assert Update(Shift8(Shift8(Shift8(z))), d) == Shift8(Shift8(Shift8(Shift8(w)))) by {
      UpdateIs(Shift8(Shift8(Shift8(z))), d);
      FeedEarlier(Shift8(Shift8(z)), d, 1);
      FeedEarlier(Shift8(z), d, 2);
      FeedEarlier(z, d, 3);
    }
    MixWord(s, p);
  }

  lemma UpdateIs(s: bv32, b: Byte)
    ensures Update(s, b) == Shift8(Xor(s, Place(b, 0)))
  {
    hide Xor, Shift8, Widen;
  }

  lemma CrcFour(s: bv32, p: seq<Byte>)
    requires |p| == 4
    ensures Crc(s, p) == Update(Update(Update(Update(s, p[0]), p[1]), p[2]), p[3])
  {
    hide Update;
    var p1, p2, p3 := p[1..], p[2..], p[3..];
    assert p1[1..] == p2 && p2[1..] == p3 && p3[1..] == [];
    assert p1[0] == p[1] && p2[0] == p[2] && p3[0] == p[3];
    var s1 := Update(s, p[0]);
    var s2 := Update(s1, p[1]);
    var s3 := Update(s2, p[2]);
    assert Crc(s3, p3) == Crc(Update(s3, p[3]), []) == Update(s3, p[3]);
    assert Crc(s, p) == Crc(s1, p1) == Crc(s2, p2) == Crc(s3, p3);
  }

  lemma WordBits(w: bv32, a: bv32, b: bv32, c: bv32, d: bv32)
    requires a <= 0xFF && b <= 0xFF && c <= 0xFF && d <= 0xFF
    requires w == a ^ (b << 8) ^ (c << 16) ^ (d << 24)
    ensures w & 0xFF == a && (w >> 8) & 0xFF == b && (w >> 16) & 0xFF == c && w >> 24 == d
  {
  }

  // The four bytes of a register.
  function Bytes(w: bv32): (bv32, bv32, bv32, bv32) {
    (w & 0xFF, (w >> 8) & 0xFF, (w >> 16) & 0xFF, w >> 24)
  }

  lemma BytesOfWord(w: bv32, a: bv32, b: bv32, c: bv32, d: bv32)
    requires a <= 0xFF && b <= 0xFF && c <= 0xFF && d <= 0xFF
    requires w == a ^ (b << 8) ^ (c << 16) ^ (d << 24)
    ensures Bytes(w) == (a, b, c, d)
  {
    WordBits(w, a, b, c, d);
  }

  lemma WidenInjective(a: Byte, b: Byte)
    ensures Widen(a) == Widen(b) ==> a == b
  {
  }

  lemma WidenSmall(b: Byte, x: bv32)
    requires x == Widen(b)
    ensures x <= 0xFF
  {
  }

  lemma PlaceIs(b: Byte)
    ensures Place(b, 0) == Widen(b) && Place(b, 1) == Widen(b) << 8 && Place(b, 2) == Widen(b) << 16 && Place(b, 3) == Widen(b) << 24
  {
    hide Widen;
  }

  lemma WordIs(p: seq<Byte>, w: bv32)
    requires |p| == 4 && w == Word(p)
    ensures w == Widen(p[0]) ^ (Widen(p[1]) << 8) ^ (Widen(p[2]) << 16) ^ (Widen(p[3]) << 24)
  {
    hide Widen, Xor, Place;
    var a, b, c, d := Place(p[0], 0), Place(p[1], 1), Place(p[2], 2), Place(p[3], 3);
    XorIs(a, b);
    XorIs(Xor(a, b), c);
    XorIs(Xor(Xor(a, b), c), d);
    PlaceIs(p[0]);
    PlaceIs(p[1]);
    PlaceIs(p[2]);
    PlaceIs(p[3]);
  }

  // A word holds its bytes at their places.
  lemma WordBytes(p: seq<Byte>)
    requires |p| == 4
    ensures Bytes(Word(p)) == (Widen(p[0]), Widen(p[1]), Widen(p[2]), Widen(p[3]))
  {
    hide Widen, Word, Bytes;
    var w, a, b, c, d := Word(p), Widen(p[0]), Widen(p[1]), Widen(p[2]), Widen(p[3]);
    WordIs(p, w);
    WidenSmall(p[0], a);
    WidenSmall(p[1], b);
    WidenSmall(p[2], c);
    WidenSmall(p[3], d);
    BytesOfWord(w, a, b, c, d);
  }

  lemma WordInjective(p: seq<Byte>, q: seq<Byte>)
    requires |p| == |q| == 4 && Word(p) == Word(q)
    ensures p == q
  {
    hide *;
    WordBytes(p);
    WordBytes(q);
    WidenInjective(p[0], q[0]);
    WidenInjective(p[1], q[1]);
    WidenInjective(p[2], q[2]);
    WidenInjective(p[3], q[3]);
  }

  // From one register, four bytes are told apart by the register they lead to.
  lemma FourBytesInjective(s: bv32, p: seq<Byte>, q: seq<Byte>)
    requires |p| == |q| == 4 && Crc(s, p) == Crc(s, q)
    ensures p == q
  {
    hide *;
    FourUpdates(s, p);
    FourUpdates(s, q);
    var x, y := Xor(s, Word(p)), Xor(s, Word(q));
    Shift8Injective(Shift8(Shift8(Shift8(x))), Shift8(Shift8(Shift8(y))));
    Shift8Injective(Shift8(Shift8(x)), Shift8(Shift8(y)));
    Shift8Injective(Shift8(x), Shift8(y));
    Shift8Injective(x, y);
    XorCancelLeft(s, Word(p), Word(q));
    WordInjective(p, q);
  }

  lemma XorCancelLeft(s: bv32, x: bv32, y: bv32)
    requires Xor(s, x) == Xor(s, y)
    ensures x == y
  {
  }

  // ----- messages

  lemma {:induction false} CrcAppend(crc: bv32, a: seq<Byte>, b: seq<Byte>)
    ensures Crc(crc, a + b) == Crc(Crc(crc, a), b)
    decreases |a|
  {
    hide Update;
    if a == [] {
      assert a + b == b;
    } else {
      assert (a + b)[1..] == a[1..] + b;
      CrcAppend(Update(crc, a[0]), a[1..], b);
    }
  }

  lemma UpdateInjective(x: bv32, y: bv32, b: Byte)
    requires Update(x, b) == Update(y, b)
    ensures x == y
  {
    hide Shift8, Xor, Widen;
    Shift8Injective(Xor(x, Widen(b)), Xor(y, Widen(b)));
    XorCancel(x, y, Widen(b));
  }

  // A common tail keeps different registers different.
  lemma {:induction false} CrcTailInjective(x: bv32, y: bv32, s: seq<Byte>)
    requires Crc(x, s) == Crc(y, s)
    ensures x == y
    decreases |s|
  {
    hide Update;
    if s != [] {
      CrcTailInjective(Update(x, s[0]), Update(y, s[0]), s[1..]);
      UpdateInjective(x, y, s[0]);
    }
  }

  // Two messages that differ only inside four consecutive bytes have different checksums.
  lemma BurstChangesChecksum(pre: seq<Byte>, p: seq<Byte>, q: seq<Byte>, post: seq<Byte>)
    requires |p| == |q| == 4 && p != q
    ensures Checksum(pre + p + post) != Checksum(pre + q + post)
  {
    hide Crc, Xor;
    CrcAppend(0xFFFF_FFFF, pre + p, post);
    CrcAppend(0xFFFF_FFFF, pre, p);
    CrcAppend(0xFFFF_FFFF, pre + q, post);
    CrcAppend(0xFFFF_FFFF, pre, q);
    var s := Crc(0xFFFF_FFFF, pre);
    if Checksum(pre + p + post) == Checksum(pre + q + post) {
      XorCancel(Crc(0xFFFF_FFFF, pre + p + post), Crc(0xFFFF_FFFF, pre + q + post), 0xFFFF_FFFF);
      CrcTailInjective(Crc(s, p), Crc(s, q), post);
      FourBytesInjective(s, p, q);
    }
  }

  // ----- known checksums

  lemma ShiftOf(x: bv32, y: bv32)
    requires y == if x & 1 == 1 then (x >> 1) ^ 0xEDB8_8320 else x >> 1
    ensures Shift(x) == y
  {
  }

  lemma FirstByte()
    ensures Update(0xFFFF_FFFF, 0x61) == 0x1748_41BC
  {
    assert Xor(0xFFFF_FFFF, Widen(0x61)) == 0xFFFF_FF9E;
    hide Shift, Xor;
    ShiftOf(0xFFFF_FF9E, 0x7FFF_FFCF);
    ShiftOf(0x7FFF_FFCF, 0xD247_7CC7);
    ShiftOf(0xD247_7CC7, 0x849B_3D43);
    ShiftOf(0x849B_3D43, 0xAFF5_1D81);
    ShiftOf(0xAFF5_1D81, 0xBA42_0DE0);
    ShiftOf(0xBA42_0DE0, 0x5D21_06F0);
    ShiftOf(0x5D21_06F0, 0x2E90_8378);
    ShiftOf(0x2E90_8378, 0x1748_41BC);
  }

  // Those of no byte at all, and of the letter "a".
  lemma KnownChecksums()
    ensures Checksum([]) == 0 && Checksum([0x61]) == 0xE8B7_BE43
  {
    FirstByte();
    hide Update;
    assert [0x61 as Byte][1..] == [];
    assert Crc(0xFFFF_FFFF, [0x61]) == 0x1748_41BC;
  }
}
