/** `hash_crc32` of src/containers/hash.c: the bytewise loop on a 32-bit word, the bit-serial
    division register it implements, and the bursts of errors it is certain to detect. */
module Crc32 {
  const POLYNOMIAL: bv32 := 0xEDB88320
  const ALL_ONES: bv32 := 0xFFFFFFFF

  // ----- bits of a machine word ----------------------------------------------------------------

  function Bit(c: bv32, k: nat): bool {
    if k == 0 then c & 1 != 0 else Bit(c >> 1, k - 1)
  }

  // The facts about machine words are stated for named values: each is a small bit-vector problem,
  // and the inductions over the bit number never look inside one.

  lemma {:induction false} BitDown(c: bv32, d: bv32, k: nat)
    requires k > 0 && d == c >> 1
    ensures Bit(c, k) == Bit(d, k - 1)
  {
  }

  lemma {:induction false} XorShift(a: bv32, b: bv32, x: bv32)
    requires x == a ^ b
    ensures x >> 1 == (a >> 1) ^ (b >> 1)
  {
  }

  lemma {:induction false} XorLowBit(a: bv32, b: bv32, x: bv32)
    requires x == a ^ b
    ensures Bit(x, 0) == (Bit(a, 0) != Bit(b, 0))
  {
  }

  lemma {:induction false} BitOfXor(a: bv32, b: bv32, x: bv32, k: nat)
    requires x == a ^ b
    ensures Bit(x, k) == (Bit(a, k) != Bit(b, k))
    decreases k
  {
    if k == 0 {
      XorLowBit(a, b, x);
    } else {
      var a', b', x' := a >> 1, b >> 1, x >> 1;
      XorShift(a, b, x);
      BitDown(a, a', k);
      BitDown(b, b', k);
      BitDown(x, x', k);
      BitOfXor(a', b', x', k - 1);
    }
  }

  lemma {:induction false} BitOfZero(z: bv32, k: nat)
    requires z == 0
    ensures !Bit(z, k)
    decreases k
  {
    if k > 0 {
      BitDown(z, z, k);
      BitOfZero(z, k - 1);
    }
  }

  lemma {:induction false} EightShifts(c: bv32)
    ensures c >> 1 >> 1 >> 1 >> 1 >> 1 >> 1 >> 1 >> 1 == c >> 8
  {
  }

  lemma {:induction false} BitDown8(c: bv32, d: bv32, k: nat)
    requires k >= 8 && d == c >> 8
    ensures Bit(c, k) == Bit(d, k - 8)
  {
    var c1 := c >> 1;
    var c2 := c1 >> 1;
    var c3 := c2 >> 1;
    var c4 := c3 >> 1;
    var c5 := c4 >> 1;
    var c6 := c5 >> 1;
    var c7 := c6 >> 1;
    BitDown(c, c1, k);
    BitDown(c1, c2, k - 1);
    BitDown(c2, c3, k - 2);
    BitDown(c3, c4, k - 3);
    BitDown(c4, c5, k - 4);
    BitDown(c5, c6, k - 5);
    BitDown(c6, c7, k - 6);
    EightShifts(c);
    BitDown(c7, d, k - 7);
  }

  lemma {:induction false} AllShiftedOut(c: bv32)
    ensures c >> 8 >> 8 >> 8 >> 8 == 0
  {
  }

  lemma {:induction false} NoBitAbove(c: bv32, k: nat)
    requires k >= 32
    ensures !Bit(c, k)
  {
    var c1 := c >> 8;
    var c2 := c1 >> 8;
    var c3 := c2 >> 8;
    var c4 := c3 >> 8;
    BitDown8(c, c1, k);
    BitDown8(c1, c2, k - 8);
    BitDown8(c2, c3, k - 16);
    BitDown8(c3, c4, k - 24);
    AllShiftedOut(c);
    BitOfZero(c4, k - 32);
  }

  /** The eight low bits, read with masks. */
  lemma LowBits(c: bv32)
    ensures Bit(c, 0) == (c & 1 != 0) && Bit(c, 1) == (c & 2 != 0)
    ensures Bit(c, 2) == (c & 4 != 0) && Bit(c, 3) == (c & 8 != 0)
    ensures Bit(c, 4) == (c & 16 != 0) && Bit(c, 5) == (c & 32 != 0)
    ensures Bit(c, 6) == (c & 64 != 0) && Bit(c, 7) == (c & 128 != 0)
  {
  }

  /** The cells of a 32-bit word. */
  function Cells(c: bv32): Register {
    seq(32, k requires 0 <= k < 32 => Bit(c, k))
  }

  /** The taps: the reflected generator polynomial. */
  function Taps(): Register {
    Cells(POLYNOMIAL)
  }

  lemma {:induction false} TopTap()
    ensures Taps()[31]
  {
    var c0: bv32 := POLYNOMIAL;
    var c1 := c0 >> 8;
    var c2 := c1 >> 8;
    var c3 := c2 >> 8;
    BitDown8(c0, c1, 31);
    BitDown8(c1, c2, 23);
    BitDown8(c2, c3, 15);
    assert c3 == 0xED;
    LowBits(c3);
  }

  lemma {:induction false} BitOfOnes(c: bv32, k: nat)
    requires k < 8 && (c == 0xFF || c == 0xFFFF || c == 0xFFFFFF || c == ALL_ONES)
    ensures Bit(c, k)
  {
    LowBits(c);
  }

  lemma {:induction false} AllOnes(c: bv32, k: nat)
    requires k < 32 && c == ALL_ONES
    ensures Bit(c, k)
  {
    var c1: bv32, c2: bv32, c3: bv32 := 0xFFFFFF, 0xFFFF, 0xFF;
    if k < 8 {
      BitOfOnes(c, k);
    } else {
      BitDown8(c, c1, k);
      if k < 16 {
        BitOfOnes(c1, k - 8);
      } else {
        BitDown8(c1, c2, k - 8);
        if k < 24 {
          BitOfOnes(c2, k - 16);
        } else {
          BitDown8(c2, c3, k - 16);
          BitOfOnes(c3, k - 24);
        }
      }
    }
  }

  // ----- the division register -----------------------------------------------------------------

  /** 32 cells, least significant first. */
  type Register = r: seq<bool> | |r| == 32 witness seq(32, _ => false)

  function Cell(r: Register, k: nat): bool {
    k < 32 && r[k]
  }

  /** Shift down by one; if a one drops out, add the polynomial. */
  function Shift(r: Register): Register {
    seq(32, k requires 0 <= k < 32 => Cell(r, k + 1) != (r[0] && Taps()[k]))
  }

  function ShiftIn(r: Register, bit: bool): Register {
    Shift(r[0 := r[0] != bit])
  }

  /** The message goes through the register one bit at a time, in transmission order. */
  function Feed(r: Register, bits: seq<bool>): Register
    decreases |bits|
  {
    if bits == [] then r else Feed(ShiftIn(r, bits[0]), bits[1..])
  }

  function Shifts(n: nat, r: Register): Register {
    if n == 0 then r else Shifts(n - 1, Shift(r))
  }

  // ----- injectivity ---------------------------------------------------------------------------

  lemma {:induction false} ShiftIsInjective(a: Register, b: Register)
    requires Shift(a) == Shift(b)
    ensures a == b
  {
    TopTap();
    assert Shift(a)[31] == a[0] && Shift(b)[31] == b[0];
    forall k | 0 <= k < 32
      ensures a[k] == b[k]
    {
      if k > 0 {
        assert Shift(a)[k - 1] == (Cell(a, k) != (a[0] && Taps()[k - 1]));
        assert Shift(b)[k - 1] == (Cell(b, k) != (b[0] && Taps()[k - 1]));
      }
    }
  }

  lemma {:induction false} ShiftsAreInjective(n: nat, a: Register, b: Register)
    requires Shifts(n, a) == Shifts(n, b)
    ensures a == b
  {
    if n > 0 {
      ShiftsAreInjective(n - 1, Shift(a), Shift(b));
      ShiftIsInjective(a, b);
    }
  }

  lemma {:induction false} FeedIsInjective(a: Register, b: Register, bits: seq<bool>)
    requires Feed(a, bits) == Feed(b, bits)
    ensures a == b
    decreases |bits|
  {
    if bits != [] {
      FeedIsInjective(ShiftIn(a, bits[0]), ShiftIn(b, bits[0]), bits[1..]);
      var a', b' := a[0 := a[0] != bits[0]], b[0 := b[0] != bits[0]];
      ShiftIsInjective(a', b');
      assert a == a'[0 := a'[0] != bits[0]] && b == b'[0 := b'[0] != bits[0]];
    }
  }

  lemma {:induction false} FeedAppend(r: Register, u: seq<bool>, v: seq<bool>)
    ensures Feed(r, u + v) == Feed(Feed(r, u), v)
    decreases |u|
  {
    if u == [] {
      assert u + v == v;
    } else {
      assert (u + v)[1..] == u[1..] + v;
      FeedAppend(ShiftIn(r, u[0]), u[1..], v);
    }
  }

  // ----- up to 32 bits at once -----------------------------------------------------------------

  /** Add a short block of bits to the low end of the register. */
  function Add(r: Register, bits: seq<bool>): Register {
    seq(32, k requires 0 <= k < 32 => if k < |bits| then r[k] != bits[k] else r[k])
  }

  lemma {:induction false} ShiftOfSum(r: Register, bits: seq<bool>)
    requires 0 < |bits| <= 32
    ensures Shift(Add(r, bits)) == Add(ShiftIn(r, bits[0]), bits[1..])
  {
    var r', s := r[0 := r[0] != bits[0]], Add(r, bits);
    forall k | 0 <= k < 32
      ensures Shift(s)[k] == Add(Shift(r'), bits[1..])[k]
    {
      assert s[0] == r'[0];
      assert Cell(s, k + 1) == if k + 1 < |bits| then Cell(r, k + 1) != bits[k + 1] else Cell(r, k + 1);
    }
  }

  /** Feeding up to 32 bits is adding them all first and shifting afterwards. */
  lemma {:induction false} FeedIsAddThenShift(r: Register, bits: seq<bool>)
    requires |bits| <= 32
    ensures Feed(r, bits) == Shifts(|bits|, Add(r, bits))
    decreases |bits|
  {
    if bits == [] {
      assert Add(r, bits) == r;
    } else {
      var bit, rest := bits[0], bits[1..];
      FeedIsAddThenShift(ShiftIn(r, bit), rest);
      ShiftOfSum(r, bits);
    }
  }

  /** From one state, two different blocks of at most 32 bits lead to two different states. */
  lemma {:induction false} ShortBlocksDiffer(r: Register, u: seq<bool>, v: seq<bool>)
    requires |u| == |v| <= 32 && Feed(r, u) == Feed(r, v)
    ensures u == v
  {
    FeedIsAddThenShift(r, u);
    FeedIsAddThenShift(r, v);
    ShiftsAreInjective(|u|, Add(r, u), Add(r, v));
    forall k | 0 <= k < |u|
      ensures u[k] == v[k]
    {
      assert Add(r, u)[k] == Add(r, v)[k];
    }
  }

  // ----- messages ------------------------------------------------------------------------------

  /** The bits of a byte, least significant first. */
  function ByteBits(b: bv8): seq<bool> {
    [b & 1 != 0, b & 2 != 0, b & 4 != 0, b & 8 != 0, b & 16 != 0, b & 32 != 0, b & 64 != 0, b & 128 != 0]
  }

  function Bits(data: seq<bv8>): (bits: seq<bool>)
    ensures |bits| == 8 * |data|
  {
    if data == [] then [] else Bits(data[..|data| - 1]) + ByteBits(data[|data| - 1])
  }

  function Complement(r: Register): Register {
    seq(32, k requires 0 <= k < 32 => !r[k])
  }

  /** The CRC: start from all ones, divide, complement. */
  function Crc(data: seq<bv8>): Register {
    Complement(Feed(seq(32, _ => true), Bits(data)))
  }

  lemma {:induction false} ByteBitsAreInjective(a: bv8, b: bv8)
    requires ByteBits(a) == ByteBits(b)
    ensures a == b
  {
    assert forall k :: 0 <= k < 8 ==> ByteBits(a)[k] == ByteBits(b)[k];
    assert ByteBits(a)[0] == ByteBits(b)[0] && ByteBits(a)[1] == ByteBits(b)[1];
    assert ByteBits(a)[2] == ByteBits(b)[2] && ByteBits(a)[3] == ByteBits(b)[3];
    assert ByteBits(a)[4] == ByteBits(b)[4] && ByteBits(a)[5] == ByteBits(b)[5];
    assert ByteBits(a)[6] == ByteBits(b)[6] && ByteBits(a)[7] == ByteBits(b)[7];
  }

  function Nibble(b0: bool, b1: bool, b2: bool, b3: bool): bv8 {
    (if b0 then 1 else 0) | (if b1 then 2 else 0) | (if b2 then 4 else 0) | (if b3 then 8 else 0)
  }

  lemma {:induction false} NibbleBits(b0: bool, b1: bool, b2: bool, b3: bool, n: bv8)
    requires n == Nibble(b0, b1, b2, b3)
    ensures (n & 1 != 0) == b0 && (n & 2 != 0) == b1 && (n & 4 != 0) == b2 && (n & 8 != 0) == b3
    ensures n < 16
  {
  }

  lemma {:induction false} LowNibble(low: bv8, high: bv8, b: bv8)
    requires low < 16 && b == low | (high << 4)
    ensures (b & 1 != 0) == (low & 1 != 0) && (b & 2 != 0) == (low & 2 != 0)
    ensures (b & 4 != 0) == (low & 4 != 0) && (b & 8 != 0) == (low & 8 != 0)
  {
  }

  lemma {:induction false} HighNibble(low: bv8, high: bv8, b: bv8)
    requires low < 16 && b == low | (high << 4)
    ensures (b & 16 != 0) == (high & 1 != 0) && (b & 32 != 0) == (high & 2 != 0)
    ensures (b & 64 != 0) == (high & 4 != 0) && (b & 128 != 0) == (high & 8 != 0)
  {
  }

  lemma {:induction false} SameBits(b: bv8, bits: seq<bool>)
    requires |bits| == 8
    requires (b & 1 != 0) == bits[0] && (b & 2 != 0) == bits[1] && (b & 4 != 0) == bits[2] && (b & 8 != 0) == bits[3]
    requires (b & 16 != 0) == bits[4] && (b & 32 != 0) == bits[5]
    requires (b & 64 != 0) == bits[6] && (b & 128 != 0) == bits[7]
    ensures ByteBits(b) == bits
  {
  }

  lemma {:induction false} Nibbles(low: bv8, high: bv8, bits: seq<bool>)
    requires |bits| == 8
    requires low == Nibble(bits[0], bits[1], bits[2], bits[3]) && high == Nibble(bits[4], bits[5], bits[6], bits[7])
    ensures ByteBits(low | (high << 4)) == bits
  {
    var b := low | (high << 4);
    NibbleBits(bits[0], bits[1], bits[2], bits[3], low);
    NibbleBits(bits[4], bits[5], bits[6], bits[7], high);
    LowNibble(low, high, b);
    HighNibble(low, high, b);
    SameBits(b, bits);
  }

  /** The byte with the given bits. */
  function ByteOf(bits: seq<bool>): (b: bv8)
    requires |bits| == 8
    ensures ByteBits(b) == bits
  {
    var low, high := Nibble(bits[0], bits[1], bits[2], bits[3]), Nibble(bits[4], bits[5], bits[6], bits[7]);
    Nibbles(low, high, bits);
    low | (high << 4)
  }

  /** The message with the given bits. */
  function MessageOf(bits: seq<bool>): (data: seq<bv8>)
    requires |bits| % 8 == 0
    ensures 8 * |data| == |bits| && Bits(data) == bits
  {
    if bits == [] then []
    else
      var n := |bits| - 8;
      MessageOf(bits[..n]) + [ByteOf(bits[n..])]
  }

  lemma {:induction false} BitsAreInjective(a: seq<bv8>, b: seq<bv8>)
    requires Bits(a) == Bits(b)
    ensures a == b
  {
    assert |a| == |b|;
    if a != [] {
      var n := |a| - 1;
      assert Bits(a)[..8 * n] == Bits(a[..n]) && Bits(b)[..8 * n] == Bits(b[..n]);
      assert Bits(a)[8 * n..] == ByteBits(a[n]) && Bits(b)[8 * n..] == ByteBits(b[n]);
      BitsAreInjective(a[..n], b[..n]);
      ByteBitsAreInjective(a[n], b[n]);
      assert a == a[..n] + [a[n]] && b == b[..n] + [b[n]];
    }
  }

  lemma {:induction false} BitsAppend(a: seq<bv8>, b: seq<bv8>)
    ensures Bits(a + b) == Bits(a) + Bits(b)
  {
    if b == [] {
      assert a + b == a;
    } else {
      var n := |b| - 1;
      assert (a + b)[..|a + b| - 1] == a + b[..n];
      BitsAppend(a, b[..n]);
    }
  }

  // ----- main results --------------------------------------------------------------------------

  lemma {:induction false} ComplementIsInjective(a: Register, b: Register)
    requires Complement(a) == Complement(b)
    ensures a == b
  {
    forall k | 0 <= k < 32
      ensures a[k] == b[k]
    {
      assert Complement(a)[k] == Complement(b)[k];
    }
  }

  /** Two messages of equal length that differ, but only within 32 consecutive transmitted bits (at
      any offset, aligned or not), have different CRCs. */
  lemma {:induction false} BurstIsDetected(a: seq<bv8>, b: seq<bv8>, p: nat, q: nat)
    requires |a| == |b| && a != b && p <= q <= 8 * |a| && q - p <= 32
    requires Bits(a)[..p] == Bits(b)[..p] && Bits(a)[q..] == Bits(b)[q..]
    ensures Crc(a) != Crc(b)
  {
    var u, v := Bits(a), Bits(b);
    var ones: Register := seq(32, _ => true);
    assert u == u[..p] + (u[p..q] + u[q..]) && v == v[..p] + (v[p..q] + v[q..]);
    FeedAppend(ones, u[..p], u[p..q] + u[q..]);
    FeedAppend(ones, v[..p], v[p..q] + v[q..]);
    var r := Feed(ones, u[..p]);
    FeedAppend(r, u[p..q], u[q..]);
    FeedAppend(r, v[p..q], v[q..]);
    if Crc(a) == Crc(b) {
      ComplementIsInjective(Feed(ones, u), Feed(ones, v));
      FeedIsInjective(Feed(r, u[p..q]), Feed(r, v[p..q]), u[q..]);
      ShortBlocksDiffer(r, u[p..q], v[p..q]);
      BitsAreInjective(a, b);
    }
  }

  lemma {:induction false} BitsOfThree(x: seq<bv8>, y: seq<bv8>, z: seq<bv8>)
    ensures var bits, p, q := Bits(x + y + z), 8 * |x|, 8 * (|x| + |y|);
            bits[..p] == Bits(x) && bits[q..] == Bits(z)
  {
    BitsAppend(x + y, z);
    BitsAppend(x, y);
  }

  /** The case of whole bytes: a change confined to four consecutive bytes is always detected. */
  lemma {:induction false} FourByteBurstIsDetected(before: seq<bv8>, x: seq<bv8>, y: seq<bv8>, after: seq<bv8>)
    requires |x| == |y| <= 4 && x != y
    ensures Crc(before + x + after) != Crc(before + y + after)
  {
    var a, b, p, q := before + x + after, before + y + after, 8 * |before|, 8 * (|before| + |x|);
    BitsOfThree(before, x, after);
    BitsOfThree(before, y, after);
    assert a != b by {
      assert a[|before|..|before| + |x|] == x && b[|before|..|before| + |x|] == y;
    }
    BurstIsDetected(a, b, p, q);
  }

  /** A pattern of 33 bits, the polynomial itself, added to a stretch of bits. */
  function AddPolynomial(bits: seq<bool>): (r: seq<bool>)
    requires |bits| == 33
    ensures |r| == 33 && r != bits
  {
    var r := [!bits[0]] + seq(32, k requires 0 <= k < 32 => bits[k + 1] != Taps()[k]);
    assert r[0] != bits[0];
    r
  }

  lemma {:induction false} PolynomialVanishes(r: Register, bits: seq<bool>)
    requires |bits| == 33
    ensures Feed(r, bits) == Feed(r, AddPolynomial(bits))
  {
    var bits' := AddPolynomial(bits);
    FeedIsAddThenShift(ShiftIn(r, bits[0]), bits[1..]);
    FeedIsAddThenShift(ShiftIn(r, bits'[0]), bits'[1..]);
    var s, s' := ShiftIn(r, bits[0]), ShiftIn(r, bits'[0]);
    forall k | 0 <= k < 32
      ensures Add(s, bits[1..])[k] == Add(s', bits'[1..])[k]
    {
      assert s'[k] == (s[k] != Taps()[k]);
    }
    assert Add(s, bits[1..]) == Add(s', bits'[1..]);
  }

  lemma {:induction false} SameMiddle(r: Register, u: seq<bool>, x: seq<bool>, y: seq<bool>, w: seq<bool>)
    requires Feed(Feed(r, u), x) == Feed(Feed(r, u), y)
    ensures Feed(r, u + (x + w)) == Feed(r, u + (y + w))
  {
    FeedAppend(r, u, x + w);
    FeedAppend(r, u, y + w);
    FeedAppend(Feed(r, u), x, w);
    FeedAppend(Feed(r, u), y, w);
  }

  /** The polynomial added at bit position p. */
  function Toggled(u: seq<bool>, p: nat): (v: seq<bool>)
    requires p + 33 <= |u|
    ensures |v| == |u| && v[..p] == u[..p] && v[p + 33..] == u[p + 33..] && v != u
  {
    var x := AddPolynomial(u[p..p + 33]);
    var v := u[..p] + (x + u[p + 33..]);
    assert v[p..p + 33] == x;
    v
  }

  lemma {:induction false} ToggledVanishes(r: Register, u: seq<bool>, p: nat)
    requires p + 33 <= |u|
    ensures Feed(r, Toggled(u, p)) == Feed(r, u)
  {
    var x, y, w := u[p..p + 33], AddPolynomial(u[p..p + 33]), u[p + 33..];
    PolynomialVanishes(Feed(r, u[..p]), x);
    SameMiddle(r, u[..p], x, y, w);
    assert u == u[..p] + (x + w);
  }

  /** One bit more is too many: in every message, at every bit position, there is a different message
      of the same length that differs only inside 33 consecutive bits and has the same CRC. */
  lemma {:induction false} PolynomialGoesUndetected(a: seq<bv8>, p: nat) returns (b: seq<bv8>)
    requires p + 33 <= 8 * |a|
    ensures |b| == |a| && b != a && Crc(b) == Crc(a)
    ensures Bits(b)[..p] == Bits(a)[..p] && Bits(b)[p + 33..] == Bits(a)[p + 33..]
  {
    b := MessageOf(Toggled(Bits(a), p));
    ToggledVanishes(seq(32, _ => true), Bits(a), p);
  }

  // ----- the code ------------------------------------------------------------------------------

  /** One turn of the inner loop. */
  function BitStep(crc: bv32): bv32 {
    (crc >> 1) ^ (POLYNOMIAL & (0 - (crc & 1)))
  }

  lemma {:induction false} BitStepByCases(c: bv32, x: bv32, p: bv32)
    requires x == c >> 1 && p == if Bit(c, 0) then POLYNOMIAL else 0
    ensures BitStep(c) == x ^ p
  {
  }

  lemma {:induction false} BitStepIsShift(c: bv32)
    ensures Cells(BitStep(c)) == Shift(Cells(c))
  {
    var x, y := c >> 1, BitStep(c);
    var p: bv32 := if Bit(c, 0) then POLYNOMIAL else 0;
    BitStepByCases(c, x, p);
    forall k | 0 <= k < 32
      ensures Cells(y)[k] == Shift(Cells(c))[k]
    {
      BitOfXor(x, p, y, k);
      BitDown(c, x, k + 1);
      NoBitAbove(c, 32);
      assert Cell(Cells(c), k + 1) == Bit(c, k + 1);
      if !Bit(c, 0) {
        BitOfZero(p, k);
      }
      assert Bit(p, k) == (Cells(c)[0] && Taps()[k]);
    }
  }

  lemma {:induction false} BytesMasks(b: bv8, w: bv32)
    requires w == b as bv32
    ensures w >> 8 == 0
    ensures (w & 1 != 0) == (b & 1 != 0) && (w & 2 != 0) == (b & 2 != 0)
    ensures (w & 4 != 0) == (b & 4 != 0) && (w & 8 != 0) == (b & 8 != 0)
    ensures (w & 16 != 0) == (b & 16 != 0) && (w & 32 != 0) == (b & 32 != 0)
    ensures (w & 64 != 0) == (b & 64 != 0) && (w & 128 != 0) == (b & 128 != 0)
  {
  }

  lemma {:induction false} ByteCells(b: bv8, w: bv32, k: nat)
    requires w == b as bv32 && k < 32
    ensures Bit(w, k) == (k < 8 && ByteBits(b)[k])
  {
    BytesMasks(b, w);
    if k < 8 {
      LowBits(w);
    } else {
      BitDown8(w, 0, k);
      BitOfZero(0, k - 8);
    }
  }

  lemma {:induction false} XorIsAdd(c: bv32, b: bv8, w: bv32, x: bv32)
    requires w == b as bv32 && x == c ^ w
    ensures Cells(x) == Add(Cells(c), ByteBits(b))
  {
    forall k | 0 <= k < 32
      ensures Cells(x)[k] == Add(Cells(c), ByteBits(b))[k]
    {
      BitOfXor(c, w, x, k);
      ByteCells(b, w, k);
    }
  }

  lemma {:induction false} NotIsXor(c: bv32)
    ensures !c == c ^ ALL_ONES
  {
  }

  lemma {:induction false} NotIsComplement(c: bv32, x: bv32)
    requires x == !c
    ensures Cells(x) == Complement(Cells(c))
  {
    NotIsXor(c);
    var ones := ALL_ONES;
    forall k | 0 <= k < 32
      ensures Cells(x)[k] == Complement(Cells(c))[k]
    {
      BitOfXor(c, ones, x, k);
      AllOnes(ones, k);
    }
  }

  lemma {:induction false} LowByteZero(c: bv32)
    requires forall k: nat :: k < 8 ==> !Bit(c, k)
    ensures c & 0xFF == 0
  {
    LowBits(c);
    assert !Bit(c, 0) && !Bit(c, 1) && !Bit(c, 2) && !Bit(c, 3) && !Bit(c, 4) && !Bit(c, 5) && !Bit(c, 6) && !Bit(c, 7);
  }

  lemma {:induction false} FourZeroBytes(x: bv32, x1: bv32, x2: bv32, x3: bv32)
    requires x1 == x >> 8 && x2 == x1 >> 8 && x3 == x2 >> 8
    requires x & 0xFF == 0 && x1 & 0xFF == 0 && x2 & 0xFF == 0 && x3 & 0xFF == 0
    ensures x == 0
  {
  }

  lemma {:induction false} NoBitsNoWord(x: bv32)
    requires forall k :: 0 <= k < 32 ==> !Bit(x, k)
    ensures x == 0
  {
    var x1 := x >> 8;
    var x2 := x1 >> 8;
    var x3 := x2 >> 8;
    forall k: nat | k < 8
      ensures !Bit(x1, k) && !Bit(x2, k) && !Bit(x3, k)
    {
      BitDown8(x, x1, k + 8);
      BitDown8(x, x1, k + 16);
      BitDown8(x1, x2, k + 8);
      BitDown8(x, x1, k + 24);
      BitDown8(x1, x2, k + 16);
      BitDown8(x2, x3, k + 8);
    }
    LowByteZero(x);
    LowByteZero(x1);
    LowByteZero(x2);
    LowByteZero(x3);
    FourZeroBytes(x, x1, x2, x3);
  }

  /** A word is determined by its cells, so the contract of `HashCrc32` pins down its result. */
  lemma {:induction false} CellsAreInjective(a: bv32, b: bv32)
    requires Cells(a) == Cells(b)
    ensures a == b
  {
    forall k | 0 <= k < 32
      ensures Bit(a, k) == Bit(b, k)
    {
      assert Cells(a)[k] == Cells(b)[k];
    }
    var x := a ^ b;
    forall k | 0 <= k < 32
      ensures !Bit(x, k)
    {
      BitOfXor(a, b, x, k);
    }
    NoBitsNoWord(x);
    assert a ^ b == 0;
  }

  lemma {:induction false} ShiftsStep(n: nat, r: Register)
    ensures Shift(Shifts(n, r)) == Shifts(n + 1, r)
  {
    if n > 0 {
      ShiftsStep(n - 1, Shift(r));
    }
  }

  /** One turn of the outer loop. */
  method OneByte(crc: bv32, b: bv8) returns (crc': bv32)
    ensures Cells(crc') == Feed(Cells(crc), ByteBits(b))
  {
    crc' := crc ^ (b as bv32);
    XorIsAdd(crc, b, b as bv32, crc');
    ghost var sum := Add(Cells(crc), ByteBits(b));
    for n := 0 to 8
      invariant Cells(crc') == Shifts(n, sum)
    {
      ShiftsStep(n, sum);
      BitStepIsShift(crc');
      crc' := (crc' >> 1) ^ (POLYNOMIAL & (0 - (crc' & 1)));
    }
    FeedIsAddThenShift(Cells(crc), ByteBits(b));
  }

  /** `hash_crc32`: its result, cell by cell, is the CRC of the message. */
  method HashCrc32(data: seq<bv8>) returns (r: bv32)
    ensures Cells(r) == Crc(data)
  {
    var crc := ALL_ONES;
    ghost var ones: Register := seq(32, _ => true);
    assert Cells(crc) == ones by {
      forall k | 0 <= k < 32
        ensures Cells(crc)[k]
      {
        AllOnes(crc, k);
      }
    }
    for i := 0 to |data|
      invariant Cells(crc) == Feed(ones, Bits(data[..i]))
    {
      assert data[..i + 1][..i] == data[..i];
      crc := OneByte(crc, data[i]);
      FeedAppend(ones, Bits(data[..i]), ByteBits(data[i]));
    }
    assert data[..|data|] == data;
    r := !crc;
    NotIsComplement(crc, r);
  }

  // ----- the values of the standard ------------------------------------------------------------

  /** The exponents of the generator polynomial below 32. */
  predicate Exponent(e: int) {
    e in [26, 23, 22, 16, 12, 11, 10, 8, 7, 5, 4, 2, 1, 0]
  }

  /** The taps are the generator polynomial of the standard, highest exponent first. */
  lemma {:induction false} TapsAreTheStandards(k: nat)
    requires k < 32
    ensures Taps()[k] <==> Exponent(31 - k)
  {
    var c0: bv32 := POLYNOMIAL;
    var c1 := c0 >> 8;
    var c2 := c1 >> 8;
    var c3 := c2 >> 8;
    if k < 8 {
      LowBits(c0);
    } else {
      BitDown8(c0, c1, k);
      if k < 16 {
        LowBits(c1);
      } else {
        BitDown8(c1, c2, k - 8);
        if k < 24 {
          LowBits(c2);
        } else {
          BitDown8(c2, c3, k - 16);
          LowBits(c3);
        }
      }
    }
  }

  function Steps(n: nat, c: bv32): bv32 {
    if n == 0 then c else Steps(n - 1, BitStep(c))
  }

  lemma {:induction false} StepsAreShifts(n: nat, c: bv32)
    ensures Cells(Steps(n, c)) == Shifts(n, Cells(c))
  {
    if n > 0 {
      BitStepIsShift(c);
      StepsAreShifts(n - 1, BitStep(c));
    }
  }

  lemma {:induction false} ByteSteps(c: bv32, b: bv8, x: bv32)
    requires x == c ^ (b as bv32)
    ensures Cells(Steps(8, x)) == Feed(Cells(c), ByteBits(b))
  {
    XorIsAdd(c, b, b as bv32, x);
    StepsAreShifts(8, x);
    FeedIsAddThenShift(Cells(c), ByteBits(b));
  }

  lemma {:induction false} ShiftsAdd(m: nat, n: nat, r: Register)
    ensures Shifts(m + n, r) == Shifts(n, Shifts(m, r))
  {
    if m > 0 {
      ShiftsAdd(m - 1, n, Shift(r));
    }
  }

  lemma {:induction false} EightOf(c: bv32, c': bv32)
    requires c' == BitStep(BitStep(BitStep(BitStep(BitStep(BitStep(BitStep(BitStep(c))))))))
    ensures Steps(8, c) == c'
  {
    var c1 := BitStep(c);
    var c2 := BitStep(c1);
    var c3 := BitStep(c2);
    var c4 := BitStep(c3);
    var c5 := BitStep(c4);
    var c6 := BitStep(c5);
    var c7 := BitStep(c6);
    assert Steps(1, c7) == BitStep(c7);
    assert Steps(2, c6) == BitStep(c7);
    assert Steps(3, c5) == BitStep(c7);
    assert Steps(4, c4) == BitStep(c7);
    assert Steps(5, c3) == BitStep(c7);
    assert Steps(6, c2) == BitStep(c7);
    assert Steps(7, c1) == BitStep(c7);
  }

  function Ones(): Register {
    seq(32, _ => true)
  }

  lemma {:induction false} OnesWord()
    ensures Cells(0xFFFF_FFFF) == Ones()
  {
    forall k | 0 <= k < 32
      ensures Cells(0xFFFF_FFFF)[k]
    {
      AllOnes(0xFFFF_FFFF, k);
    }
  }

  /** All ones, shifted through four bytes. */
  lemma {:induction false} OnesShifted()
    ensures Shifts(8, Ones()) == Cells(0x2DFD_1072) && Shifts(32, Ones()) == Cells(0xDEBB_20E3)
  {
    OnesWord();
    EightOf(0xFFFF_FFFF, 0x2DFD_1072);
    EightOf(0x2DFD_1072, 0xBE26_ED00);
    EightOf(0xBE26_ED00, 0x00BE_26ED);
    EightOf(0x00BE_26ED, 0xDEBB_20E3);
    StepsAreShifts(8, 0xFFFF_FFFF);
    StepsAreShifts(8, 0x2DFD_1072);
    StepsAreShifts(8, 0xBE26_ED00);
    StepsAreShifts(8, 0x00BE_26ED);
    ShiftsAdd(8, 8, Ones());
    ShiftsAdd(16, 8, Ones());
    ShiftsAdd(24, 8, Ones());
  }

  /** Every message followed by its own CRC leaves one and the same residue. */
  lemma {:induction false} Residue(m: seq<bv8>)
    ensures Feed(Ones(), Bits(m) + Crc(m)) == Cells(0xDEBB_20E3)
    ensures Crc(m + MessageOf(Crc(m))) == Complement(Cells(0xDEBB_20E3))
  {
    var r := Feed(Ones(), Bits(m));
    FeedAppend(Ones(), Bits(m), Crc(m));
    FeedIsAddThenShift(r, Crc(m));
    assert Add(r, Crc(m)) == Ones();
    OnesShifted();
    BitsAppend(m, MessageOf(Crc(m)));
  }

  /** The empty message hashes to zero. */
  lemma {:induction false} EmptyIsZero()
    ensures Crc([]) == Cells(0)
  {
    forall k | 0 <= k < 32
      ensures Crc([])[k] == Cells(0)[k]
    {
      BitOfZero(0, k);
    }
  }

  lemma {:induction false} ZeroByteShifts()
    ensures Feed(Ones(), Bits([0])) == Cells(0x2DFD_1072) && Cells(0xFFFF_FFFF) == Ones()
  {
    var zero: seq<bv8> := [0];
    assert zero[..0] == [] && Bits(zero) == ByteBits(0);
    FeedIsAddThenShift(Ones(), ByteBits(0));
    assert Add(Ones(), ByteBits(0)) == Ones();
    OnesShifted();
    OnesWord();
  }

  /** A leading zero byte is noticed. */
  lemma {:induction false} LeadingZeroIsNoticed(m: seq<bv8>)
    ensures Crc([0] + m) != Crc(m)
  {
    var zero: seq<bv8> := [0];
    BitsAppend(zero, m);
    FeedAppend(Ones(), Bits(zero), Bits(m));
    var r := Feed(Ones(), Bits(zero));
    ZeroByteShifts();
    if Crc(zero + m) == Crc(m) {
      ComplementIsInjective(Feed(r, Bits(m)), Feed(Ones(), Bits(m)));
      FeedIsInjective(r, Ones(), Bits(m));
      CellsAreInjective(0x2DFD_1072, 0xFFFF_FFFF);
    }
  }

  /** The word c is the register after the message. */
  ghost predicate After(data: seq<bv8>, c: bv32) {
    Cells(c) == Feed(Ones(), Bits(data))
  }

  lemma {:induction false} NextByte(data: seq<bv8>, b: bv8, c: bv32, x: bv32, c': bv32) returns (data': seq<bv8>)
    requires After(data, c) && x == c ^ (b as bv32)
    requires c' == BitStep(BitStep(BitStep(BitStep(BitStep(BitStep(BitStep(BitStep(x))))))))
    ensures data' == data + [b] && After(data', c')
  {
    EightOf(x, c');
    ByteSteps(c, b, x);
    data' := data + [b];
    assert data'[..|data|] == data && Bits(data') == Bits(data) + ByteBits(b);
    FeedAppend(Ones(), Bits(data), ByteBits(b));
  }

  lemma {:induction false} Check123(data: seq<bv8>)
    requires After(data, 0xFFFF_FFFF)
    ensures After(data + [0x31, 0x32, 0x33], 0x77B7_9C2D)
  {
    var d := data;
    d := NextByte(d, 0x31, 0xFFFF_FFFF, 0xFFFF_FFCE, 0x7C23_1048);
    d := NextByte(d, 0x32, 0x7C23_1048, 0x7C23_107A, 0xB0AC_BB32);
    d := NextByte(d, 0x33, 0xB0AC_BB32, 0xB0AC_BB01, 0x77B7_9C2D);
    assert d == data + [0x31, 0x32, 0x33];
  }

  lemma {:induction false} Check456(data: seq<bv8>)
    requires After(data, 0x77B7_9C2D)
    ensures After(data + [0x34, 0x35, 0x36], 0xF68D_2C9E)
  {
    var d := data;
    d := NextByte(d, 0x34, 0x77B7_9C2D, 0x77B7_9C19, 0x641C_1F5C);
    d := NextByte(d, 0x35, 0x641C_1F5C, 0x641C_1F69, 0x340A_C5E3);
    d := NextByte(d, 0x36, 0x340A_C5E3, 0x340A_C5D5, 0xF68D_2C9E);
    assert d == data + [0x34, 0x35, 0x36];
  }

  lemma {:induction false} Check789(data: seq<bv8>)
    requires After(data, 0xF68D_2C9E)
    ensures After(data + [0x37, 0x38, 0x39], 0x340B_C6D9)
  {
    var d := data;
    d := NextByte(d, 0x37, 0xF68D_2C9E, 0xF68D_2CA9, 0xAFFC_9660);
    d := NextByte(d, 0x38, 0xAFFC_9660, 0xAFFC_9658, 0x651F_2550);
    d := NextByte(d, 0x39, 0x651F_2550, 0x651F_2569, 0x340B_C6D9);
    assert d == data + [0x37, 0x38, 0x39];
  }

  lemma {:induction false} CheckLast(data: seq<bv8>)
    requires After(data, 0x340B_C6D9)
    ensures Crc(data) == Cells(0xCBF4_3926)
  {
    NotIsComplement(0x340B_C6D9, 0xCBF4_3926);
  }

  lemma {:induction false} AfterNothing(data: seq<bv8>)
    requires data == []
    ensures After(data, 0xFFFF_FFFF)
  {
    OnesWord();
  }

  /** The check value: "123456789" hashes to 0xCBF43926. */
  lemma {:induction false} CheckValue(data: seq<bv8>)
    requires data == [0x31, 0x32, 0x33, 0x34, 0x35, 0x36, 0x37, 0x38, 0x39]
    ensures Crc(data) == Cells(0xCBF4_3926)
  {
    var d0 := data[..0];
    AfterNothing(d0);
    Check123(d0);
    var d3 := d0 + [0x31, 0x32, 0x33];
    Check456(d3);
    var d6 := d3 + [0x34, 0x35, 0x36];
    Check789(d6);
    var d9 := d6 + [0x37, 0x38, 0x39];
    CheckLast(d9);
    assert d9 == data;
  }
}
