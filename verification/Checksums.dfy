/** CRC-32 in the reflected form of section 3.2.9 of IEEE 802.3, and why a short burst of
    changed bytes always changes it. */
module Checksums {

  type byte = bv8

  const POLYNOMIAL: bv32 := 0xEDB8_8320

  predicate LowBit(c: bv32) {
    c & 1 == 1
  }

  function Half(c: bv32): bv32 {
    c >> 1
  }

  function BitStep(c: bv32): bv32 {
    if LowBit(c) then Xor(Half(c), POLYNOMIAL) else Half(c)
  }

  function BitSteps(n: nat, c: bv32): bv32 {
    if n == 0 then c else BitStep(BitSteps(n - 1, c))
  }

  function Xor(a: bv32, b: bv32): bv32 {
    a ^ b
  }

  function Mix(c: bv32, b: byte): bv32 {
    BitSteps(8, Xor(c, b as bv32))
  }

  function Absorb(c: bv32, data: seq<byte>): bv32 {
    if data == [] then c else Mix(Absorb(c, data[..|data| - 1]), data[|data| - 1])
  }

  function Crc(data: seq<byte>): bv32 {
    Xor(Absorb(0xFFFF_FFFF, data), 0xFFFF_FFFF)
  }

  method Crc32(data: seq<byte>) returns (crc: bv32)
    ensures crc == Crc(data)
  {
    crc := 0xFFFF_FFFF;
    for i := 0 to |data|
      invariant crc == Absorb(0xFFFF_FFFF, data[..i])
    {
      assert data[..i + 1][..i] == data[..i];
      crc := MixByte(crc, data[i]);
    }
    assert data[..|data|] == data;
    crc := crc ^ 0xFFFF_FFFF;
  }

  method MixByte(c: bv32, d: byte) returns (crc: bv32)
    ensures crc == Mix(c, d)
  {
    crc := c ^ (d as bv32);
    for b := 0 to 8
      invariant crc == BitSteps(b, Xor(c, d as bv32))
    {
      var mask: bv32 := if crc & 1 == 1 then 0xFFFF_FFFF else 0;
      crc := (crc >> 1) ^ (POLYNOMIAL & mask);
    }
  }

  // ---- injectivity -----------------------------------------------------------------

  /** The polynomial has its top bit set, so a step loses nothing. */
  lemma BitStepInjective(a: bv32, b: bv32)
    requires BitStep(a) == BitStep(b)
    ensures a == b
  {
  }

  lemma {:induction false} BitStepsInjective(n: nat, a: bv32, b: bv32)
    requires BitSteps(n, a) == BitSteps(n, b)
    ensures a == b
  {
    if n > 0 {
      BitStepInjective(BitSteps(n - 1, a), BitSteps(n - 1, b));
      BitStepsInjective(n - 1, a, b);
    }
  }

  lemma XorInjective(a: bv32, b: bv32, x: bv32)
    requires Xor(a, x) == Xor(b, x)
    ensures a == b
  {
  }

  lemma MixInjective(a: bv32, b: bv32, d: byte)
    requires Mix(a, d) == Mix(b, d)
    ensures a == b
  {
    BitStepsInjective(8, Xor(a, d as bv32), Xor(b, d as bv32));
    XorInjective(a, b, d as bv32);
  }

  lemma {:induction false} AbsorbInjective(a: bv32, b: bv32, data: seq<byte>)
    requires Absorb(a, data) == Absorb(b, data)
    ensures a == b
  {
    if data != [] {
      var init := data[..|data| - 1];
      MixInjective(Absorb(a, init), Absorb(b, init), data[|data| - 1]);
      AbsorbInjective(a, b, init);
    }
  }

  lemma {:induction false} AbsorbSplit(c: bv32, x: seq<byte>, y: seq<byte>)
    ensures Absorb(c, x + y) == Absorb(Absorb(c, x), y)
  {
    if y == [] {
      assert x + y == x;
    } else {
      assert (x + y)[..|x + y| - 1] == x + y[..|y| - 1];
      AbsorbSplit(c, x, y[..|y| - 1]);
    }
  }

  // ---- bursts ----------------------------------------------------------------------

  /** A byte below a word, little-endian. */
  function Pack(b: byte, w: bv32): bv32 {
    (b as bv32) | (w << 8)
  }

  /** Up to four bytes as one little-endian word. */
  function Word(x: seq<byte>): bv32 {
    if x == [] then 0 else Pack(x[0], Word(x[1..]))
  }

  /** w fits in n bytes. */
  predicate Fits(n: nat, w: bv32) {
    && (n <= 3 ==> w & 0xFF00_0000 == 0)
    && (n <= 2 ==> w & 0xFFFF_0000 == 0)
    && (n <= 1 ==> w & 0xFFFF_FF00 == 0)
    && (n == 0 ==> w == 0)
  }

  lemma Shifted(b: bv32, w: bv32)
    requires b & 0xFFFF_FF00 == 0
    ensures w & 0xFFFF_0000 == 0 ==> (b | (w << 8)) & 0xFF00_0000 == 0
    ensures w & 0xFFFF_FF00 == 0 ==> (b | (w << 8)) & 0xFFFF_0000 == 0
    ensures w == 0 ==> (b | (w << 8)) & 0xFFFF_FF00 == 0
  {
  }

  lemma Narrow(b: byte)
    ensures (b as bv32) & 0xFFFF_FF00 == 0
  {
  }

  lemma PackFits(n: nat, b: byte, w: bv32)
    requires n <= 2 && Fits(n, w)
    ensures Fits(n + 1, Pack(b, w))
  {
    Narrow(b);
    Shifted(b as bv32, w);
  }

  lemma {:induction false} WordFits(x: seq<byte>)
    requires |x| <= 3
    ensures Fits(|x|, Word(x))
  {
    if x != [] {
      WordFits(x[1..]);
      PackFits(|x| - 1, x[0], Word(x[1..]));
    }
  }

  function Low(p: bv32): byte {
    (p & 0xFF) as byte
  }

  function High(p: bv32): bv32 {
    p >> 8
  }

  lemma PackParts(b: byte, w: bv32)
    requires w & 0xFF00_0000 == 0
    ensures Low(Pack(b, w)) == b && High(Pack(b, w)) == w
  {
  }

  lemma PackInjective(a: byte, b: byte, v: bv32, w: bv32)
    requires v & 0xFF00_0000 == 0 && w & 0xFF00_0000 == 0 && Pack(a, v) == Pack(b, w)
    ensures a == b && v == w
  {
    PackParts(a, v);
    PackParts(b, w);
  }

  lemma SameHeadAndTail(x: seq<byte>, y: seq<byte>)
    requires x != [] && y != [] && x[0] == y[0] && x[1..] == y[1..]
    ensures x == y
  {
    assert x == [x[0]] + x[1..] && y == [y[0]] + y[1..];
  }

  lemma {:induction false} WordInjective(x: seq<byte>, y: seq<byte>)
    requires |x| == |y| <= 4 && Word(x) == Word(y)
    ensures x == y
  {
    if x != [] {
      WordFits(x[1..]);
      WordFits(y[1..]);
      PackInjective(x[0], y[0], Word(x[1..]), Word(y[1..]));
      WordInjective(x[1..], y[1..]);
      SameHeadAndTail(x, y);
    }
  }

  function Double(w: bv32): bv32 {
    w << 1
  }

  predicate TopBitClear(w: bv32) {
    w & 0x8000_0000 == 0
  }

  lemma DoubleKeepsLow(x: bv32, w: bv32)
    ensures LowBit(Xor(x, Double(w))) == LowBit(x)
  {
  }

  lemma DoubleBack(x: bv32, w: bv32)
    requires TopBitClear(w)
    ensures Half(Xor(x, Double(w))) == Xor(Half(x), w)
  {
  }

  lemma XorCommutes(a: bv32, b: bv32)
    ensures Xor(a, b) == Xor(b, a)
  {
  }

  lemma XorAssociates(a: bv32, b: bv32, c: bv32)
    ensures Xor(Xor(a, b), c) == Xor(a, Xor(b, c))
  {
  }

  lemma XorSwap(a: bv32, b: bv32, c: bv32)
    ensures Xor(Xor(a, b), c) == Xor(Xor(a, c), b)
  {
    hide Xor;
    XorAssociates(a, b, c);
    XorAssociates(a, c, b);
    XorCommutes(b, c);
  }

  lemma Doubling(w: bv32)
    ensures Double(w) == w << 1
    ensures Double(w << 1) == w << 2
    ensures Double(w << 2) == w << 3
    ensures Double(w << 3) == w << 4
    ensures Double(w << 4) == w << 5
    ensures Double(w << 5) == w << 6
    ensures Double(w << 6) == w << 7
    ensures Double(w << 7) == w << 8
  {
  }

  lemma TopBits(w: bv32)
    requires w & 0xFF00_0000 == 0
    ensures TopBitClear(w) && TopBitClear(w << 1) && TopBitClear(w << 2) && TopBitClear(w << 3)
    ensures TopBitClear(w << 4) && TopBitClear(w << 5) && TopBitClear(w << 6) && TopBitClear(w << 7)
  {
  }

  lemma ShiftStep(y: bv32, v: bv32)
    requires TopBitClear(v)
    ensures BitStep(Xor(y, Double(v))) == Xor(BitStep(y), v)
  {
    hide LowBit, Half, Xor, Double, TopBitClear;
    DoubleKeepsLow(y, v);
    DoubleBack(y, v);
    XorSwap(Half(y), v, POLYNOMIAL);
  }

  lemma ShiftSteps(x: bv32, w: bv32, k: nat)
    requires TopBitClear(w)
    ensures BitStep(Xor(BitSteps(k, x), Double(w))) == Xor(BitSteps(k + 1, x), w)
  {
    ShiftStep(BitSteps(k, x), w);
  }

  lemma XorPack(c: bv32, b: byte, w: bv32)
    ensures Xor(c, Pack(b, w)) == Xor(Xor(c, b as bv32), w << 8)
  {
  }

  /** Folding a word in k steps early, k doublings up. */
  lemma FoldAhead(x: bv32, v0: bv32, v1: bv32, z: bv32, k: nat)
    requires v1 == Double(v0) && TopBitClear(v0)
    requires BitSteps(k, z) == Xor(BitSteps(k, x), v1)
    ensures BitSteps(k + 1, z) == Xor(BitSteps(k + 1, x), v0)
  {
    ShiftSteps(x, v0, k);
  }

  /** Each word is the double of the one before, and the doubling loses nothing. */
  predicate DoublingChain(ws: seq<bv32>) {
    |ws| >= 1 && (|ws| > 1 ==>
      ws[|ws| - 1] == Double(ws[|ws| - 2]) && TopBitClear(ws[|ws| - 2]) && DoublingChain(ws[..|ws| - 1]))
  }

  lemma {:induction false} FoldChain(k: nat, x: bv32, z: bv32, ws: seq<bv32>)
    requires DoublingChain(ws) && BitSteps(k, z) == Xor(BitSteps(k, x), ws[|ws| - 1])
    ensures BitSteps(k + |ws| - 1, z) == Xor(BitSteps(k + |ws| - 1, x), ws[0])
    decreases |ws|
  {
    if |ws| > 1 {
      FoldAhead(x, ws[|ws| - 2], ws[|ws| - 1], z, k);
      FoldChain(k + 1, x, z, ws[..|ws| - 1]);
    }
  }

  function Shifts(w: bv32): seq<bv32> {
    [w, w << 1, w << 2, w << 3, w << 4, w << 5, w << 6, w << 7, w << 8]
  }

  lemma ShiftsChain(w: bv32)
    requires w & 0xFF00_0000 == 0
    ensures DoublingChain(Shifts(w))
  {
    Doubling(w);
    TopBits(w);
    var s := Shifts(w);
    assert DoublingChain(s[..1]);
    assert s[..2][..1] == s[..1] && DoublingChain(s[..2]);
    assert s[..3][..2] == s[..2] && DoublingChain(s[..3]);
    assert s[..4][..3] == s[..3] && DoublingChain(s[..4]);
    assert s[..5][..4] == s[..4] && DoublingChain(s[..5]);
    assert s[..6][..5] == s[..5] && DoublingChain(s[..6]);
    assert s[..7][..6] == s[..6] && DoublingChain(s[..7]);
    assert s[..8][..7] == s[..7] && DoublingChain(s[..8]);
  }

  /** A byte that is still to come can be folded in eight steps early. */
  lemma MixAhead(c: bv32, b: byte, w: bv32)
    requires w & 0xFF00_0000 == 0
    ensures BitSteps(8, Xor(c, Pack(b, w))) == Xor(Mix(c, b), w)
  {
    XorPack(c, b, w);
    ShiftsChain(w);
    FoldChain(0, Xor(c, b as bv32), Xor(c, Pack(b, w)), Shifts(w));
  }

  lemma {:induction false} BitStepsAdd(m: nat, n: nat, c: bv32)
    ensures BitSteps(m + n, c) == BitSteps(m, BitSteps(n, c))
  {
    if m > 0 {
      BitStepsAdd(m - 1, n, c);
    }
  }

  lemma AbsorbFirst(c: bv32, x: seq<byte>)
    requires x != []
    ensures Absorb(c, x) == Absorb(Mix(c, x[0]), x[1..])
  {
    assert x == [x[0]] + x[1..] && [x[0]][..0] == [];
    AbsorbSplit(c, [x[0]], x[1..]);
  }

  lemma XorZero(c: bv32)
    ensures Xor(c, 0) == c
  {
  }

  /** Absorbing up to four bytes is one exclusive-or followed by the bit steps. */
  lemma {:induction false} AbsorbWord(c: bv32, x: seq<byte>)
    requires |x| <= 4
    ensures Absorb(c, x) == BitSteps(8 * |x|, Xor(c, Word(x)))
    decreases |x|
  {
    if x == [] {
      XorZero(c);
    } else {
      AbsorbFirst(c, x);
      AbsorbWord(Mix(c, x[0]), x[1..]);
      WordFits(x[1..]);
      MixAhead(c, x[0], Word(x[1..]));
      BitStepsAdd(8 * (|x| - 1), 8, Xor(c, Word(x)));
    }
  }

  lemma XorFlip(c: bv32, v: bv32, w: bv32)
    requires Xor(c, v) == Xor(c, w)
    ensures v == w
  {
  }

  lemma BurstMixes(c: bv32, x: seq<byte>, y: seq<byte>)
    requires |x| == |y| <= 4 && Absorb(c, x) == Absorb(c, y)
    ensures x == y
  {
    AbsorbWord(c, x);
    AbsorbWord(c, y);
    BitStepsInjective(8 * |x|, Xor(c, Word(x)), Xor(c, Word(y)));
    XorFlip(c, Word(x), Word(y));
    WordInjective(x, y);
  }

  /** Replacing up to four consecutive bytes by different ones always changes the checksum. */
  lemma BurstDetected(before: seq<byte>, x: seq<byte>, y: seq<byte>, after: seq<byte>)
    requires |x| == |y| <= 4 && x != y
    ensures Crc(before + x + after) != Crc(before + y + after)
  {
    var start: bv32 := 0xFFFF_FFFF;
    var c := Absorb(start, before);
    AbsorbSplit(start, before, x);
    AbsorbSplit(start, before, y);
    AbsorbSplit(start, before + x, after);
    AbsorbSplit(start, before + y, after);
    if Crc(before + x + after) == Crc(before + y + after) {
      XorInjective(Absorb(start, before + x + after), Absorb(start, before + y + after), start);
      AbsorbInjective(Absorb(c, x), Absorb(c, y), after);
      BurstMixes(c, x, y);
    }
  }

  // ---- the checksum as four bytes ----------------------------------------------------

  function CrcBytes(c: bv32): (r: seq<byte>)
    ensures |r| == 4
  {
    [(c & 0xFF) as byte, ((c >> 8) & 0xFF) as byte, ((c >> 16) & 0xFF) as byte, ((c >> 24) & 0xFF) as byte]
  }

  function CrcOf(b: seq<byte>): bv32
    requires |b| == 4
  {
    (b[0] as bv32) | ((b[1] as bv32) << 8) | ((b[2] as bv32) << 16) | ((b[3] as bv32) << 24)
  }

  lemma CrcRoundTrip(c: bv32)
    ensures CrcOf(CrcBytes(c)) == c
  {
  }

  lemma CrcOfInjective(a: seq<byte>, b: seq<byte>)
    requires |a| == |b| == 4 && CrcOf(a) == CrcOf(b)
    ensures a == b
  {
    FourBytes(a[0], a[1], a[2], a[3], b[0], b[1], b[2], b[3]);
  }

  lemma FourBytes(a0: byte, a1: byte, a2: byte, a3: byte, b0: byte, b1: byte, b2: byte, b3: byte)
    requires (a0 as bv32) | ((a1 as bv32) << 8) | ((a2 as bv32) << 16) | ((a3 as bv32) << 24)
          == (b0 as bv32) | ((b1 as bv32) << 8) | ((b2 as bv32) << 16) | ((b3 as bv32) << 24)
    ensures a0 == b0 && a1 == b1 && a2 == b2 && a3 == b3
  {
  }

  // ---- the check value -------------------------------------------------------------------

  lemma EightSteps(c: bv32)
    ensures BitSteps(8, c) == BitStep(BitStep(BitStep(BitStep(BitStep(BitStep(BitStep(BitStep(c))))))))
  {
    hide BitStep;
    assert BitSteps(1, c) == BitStep(c);
    assert BitSteps(3, c) == BitStep(BitStep(BitSteps(1, c)));
    assert BitSteps(5, c) == BitStep(BitStep(BitSteps(3, c)));
    assert BitSteps(7, c) == BitStep(BitStep(BitSteps(5, c)));
  }

  /** The digits one to nine, as characters. */
  const DIGITS: seq<byte> := [0x31, 0x32, 0x33, 0x34, 0x35, 0x36, 0x37, 0x38, 0x39]

  /** The register after each of them. */
  const REGISTERS: seq<bv32> := [
    0xFFFF_FFFF, 0x7C23_1048, 0xB0AC_BB32, 0x77B7_9C2D, 0x641C_1F5C, 0x340A_C5E3, 0xF68D_2C9E, 0xAFFC_9660,
    0x651F_2550, 0x340B_C6D9]

  lemma OneDigit(c: bv32, b: byte, next: bv32)
    requires BitStep(BitStep(BitStep(BitStep(BitStep(BitStep(BitStep(BitStep(Xor(c, b as bv32))))))))) == next
    ensures Mix(c, b) == next
  {
    EightSteps(Xor(c, b as bv32));
  }

  lemma EachDigit()
    ensures forall i :: 0 <= i < 9 ==> Mix(REGISTERS[i], DIGITS[i]) == REGISTERS[i + 1]
  {
    OneDigit(0xFFFF_FFFF, 0x31, 0x7C23_1048);
    OneDigit(0x7C23_1048, 0x32, 0xB0AC_BB32);
    OneDigit(0xB0AC_BB32, 0x33, 0x77B7_9C2D);
    OneDigit(0x77B7_9C2D, 0x34, 0x641C_1F5C);
    OneDigit(0x641C_1F5C, 0x35, 0x340A_C5E3);
    OneDigit(0x340A_C5E3, 0x36, 0xF68D_2C9E);
    OneDigit(0xF68D_2C9E, 0x37, 0xAFFC_9660);
    OneDigit(0xAFFC_9660, 0x38, 0x651F_2550);
    OneDigit(0x651F_2550, 0x39, 0x340B_C6D9);
  }

  /** The published check value: the checksum of the digits one to nine. */
  lemma CheckValue()
    ensures Crc(DIGITS) == 0xCBF4_3926
  {
    EachDigit();
    for i := 0 to 9
      invariant Absorb(0xFFFF_FFFF, DIGITS[..i]) == REGISTERS[i]
    {
      assert DIGITS[..i + 1][..i] == DIGITS[..i];
    }
    assert DIGITS[..9] == DIGITS;
  }
}
