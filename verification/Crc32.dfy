/** The CRC of PNG chunks (`crc32`, src/media/content.ts; section 5.5 of the PNG specification, second edition).
    A 32-bit register is the sequence of its bits, least significant first. */
module Crc32 {
  import opened UnicodeText

  type Bits = seq<bool>

  /** The n lowest bits of a number, least significant first: the order in which PNG feeds the bits of a byte. */
  function LowBits(number: nat, n: nat): (bits: Bits)
    ensures |bits| == n
    decreases n, number
  {
    if n == 0 then [] else [number % 2 == 1] + LowBits(number / 2, n - 1)
  }

  function Number(bits: Bits): nat {
    if bits == [] then 0 else (if bits[0] then 1 else 0) + 2 * Number(bits[1..])
  }

  // ---------------------------------------------------------------- the loop

  function Xor(a: Bits, b: Bits): (c: Bits)
    requires |a| == |b|
    ensures |c| == |a| && forall i :: 0 <= i < |a| ==> c[i] == (a[i] != b[i])
  {
    seq(|a|, i requires 0 <= i < |a| => a[i] != b[i])
  }

  function Zeros(n: nat): (c: Bits)
    ensures |c| == n && forall i :: 0 <= i < n ==> !c[i]
  {
    seq(n, _ => false)
  }

  function ShiftRight(crc: Bits): (r: Bits)
    requires crc != []
    ensures |r| == |crc| && forall i :: 0 <= i < |r| ==> r[i] == (i + 1 < |crc| && crc[i + 1])
  {
    seq(|crc|, i requires 0 <= i < |crc| => i + 1 < |crc| && crc[i + 1])
  }

  /** `word` as a 32-bit number. */
  function Widen(word: Bits): (r: Register)
    requires |word| <= 32
    ensures forall i :: 0 <= i < 32 ==> r[i] == (i < |word| && word[i])
  {
    seq(32, i requires 0 <= i < 32 => i < |word| && word[i])
  }

  type Register = r: Bits | |r| == 32 witness Zeros(32)

  /** The number with these four bytes, most significant first. */
  function Word(b3: Byte, b2: Byte, b1: Byte, b0: Byte): Register {
    LowBits(b0, 8) + LowBits(b1, 8) + LowBits(b2, 8) + LowBits(b3, 8)
  }

  /** The feedback polynomial as a register value; only its top bit matters to most of the theory. */
  type Feedback = g: Register | g[31] witness Zeros(31) + [true]

  function BitStep(g: Feedback, crc: Register): Register {
    Xor(ShiftRight(crc), if crc[0] then g else Zeros(32))
  }

  function BitSteps(g: Feedback, crc: Register, n: nat): Register
    decreases n, |crc|
  {
    if n == 0 then crc else BitSteps(g, BitStep(g, crc), n - 1)
  }

  lemma {:induction false} BitStepsLast(g: Feedback, crc: Register, n: nat)
    ensures BitSteps(g, crc, n + 1) == BitStep(g, BitSteps(g, crc, n))
    decreases n
  {
    if n > 0 {
      BitStepsLast(g, BitStep(g, crc), n - 1);
    }
  }

  function ByteStep(g: Feedback, crc: Register, b: Byte): Register { BitSteps(g, Xor(crc, Widen(LowBits(b, 8))), 8) }

  /** The register after `data`, started at `crc`. */
  function Run(g: Feedback, crc: Register, data: seq<Byte>): Register
    decreases |data|
  {
    if data == [] then crc else Run(g, ByteStep(g, crc, data[0]), data[1..])
  }

  function Checksum(g: Feedback, ones: Register, data: seq<Byte>): Register { Xor(Run(g, ones, data), ones) }

  /** The inner loop, n times around. */
  method ShiftOut(g: Feedback, start: Register, n: nat) returns (crc: Register)
    ensures crc == BitSteps(g, start, n)
  {
    crc := start;
    var bit := 0;
    while bit < n
      invariant 0 <= bit <= n && crc == BitSteps(g, start, bit)
    {
      BitStepsLast(g, start, bit);
      crc := Xor(ShiftRight(crc), if crc[0] then g else Zeros(32));
      bit := bit + 1;
    }
  }

  method Crc(g: Feedback, ones: Register, data: seq<Byte>) returns (r: Register)
    ensures r == Checksum(g, ones, data)
  {
    var crc: Register, i := ones, 0;
    while i < |data|
      invariant 0 <= i <= |data| && Run(g, ones, data) == Run(g, crc, data[i..])
    {
      assert data[i..][1..] == data[i + 1..];
      crc := ShiftOut(g, Xor(crc, Widen(LowBits(data[i], 8))), 8);
      i := i + 1;
    }
    r := Xor(crc, ones);
  }

  // ---------------------------------------------------------------- a fixed tail loses nothing

  lemma XorCancels(a: Bits, b: Bits, c: Bits)
    requires |a| == |b| == |c| && Xor(a, c) == Xor(b, c)
    ensures a == b
  {
    forall i | 0 <= i < |a| ensures a[i] == b[i] {
      assert Xor(a, c)[i] == Xor(b, c)[i];
    }
  }

  /** A bit step can be undone: the top bit of the result tells whether the polynomial was applied. */
  lemma BitStepInjective(g: Feedback, a: Register, b: Register)
    requires BitStep(g, a) == BitStep(g, b)
    ensures a == b
  {
    assert BitStep(g, a)[31] == a[0] && BitStep(g, b)[31] == b[0];
    XorCancels(ShiftRight(a), ShiftRight(b), if a[0] then g else Zeros(32));
    forall i | 0 < i < 32 ensures a[i] == b[i] {
      assert ShiftRight(a)[i - 1] == ShiftRight(b)[i - 1];
    }
  }

  lemma {:induction false} BitStepsInjective(g: Feedback, a: Register, b: Register, n: nat)
    requires BitSteps(g, a, n) == BitSteps(g, b, n)
    ensures a == b
    decreases n
  {
    if n > 0 {
      BitStepsInjective(g, BitStep(g, a), BitStep(g, b), n - 1);
      BitStepInjective(g, a, b);
    }
  }

  /** For a fixed tail the register is an injective function of the register before it. */
  lemma {:induction false} RunInjective(g: Feedback, a: Register, b: Register, data: seq<Byte>)
    requires Run(g, a, data) == Run(g, b, data)
    ensures a == b
    decreases |data|
  {
    if data != [] {
      RunInjective(g, ByteStep(g, a, data[0]), ByteStep(g, b, data[0]), data[1..]);
      BitStepsInjective(g, Xor(a, Widen(LowBits(data[0], 8))), Xor(b, Widen(LowBits(data[0], 8))), 8);
      XorCancels(a, b, Widen(LowBits(data[0], 8)));
    }
  }

  // ---------------------------------------------------------------- one bit at a time

  function Bit(b: bool): Register { Widen([b]) }

  function FeedBit(g: Feedback, crc: Register, b: bool): Register { BitStep(g, Xor(crc, Bit(b))) }

  function Feed(g: Feedback, crc: Register, bits: Bits): Register
    decreases |bits|
  {
    if bits == [] then crc else Feed(g, FeedBit(g, crc, bits[0]), bits[1..])
  }

  function BitsOf(data: seq<Byte>): Bits { if data == [] then [] else LowBits(data[0], 8) + BitsOf(data[1..]) }

  lemma StepIsFeed(g: Feedback, crc: Register, word: Bits)
    requires 0 < |word| <= 32
    ensures BitStep(g, Xor(crc, Widen(word))) == Xor(FeedBit(g, crc, word[0]), Widen(word[1..]))
  {
    var left, right := BitStep(g, Xor(crc, Widen(word))), Xor(FeedBit(g, crc, word[0]), Widen(word[1..]));
    forall i | 0 <= i < 32 ensures left[i] == right[i] {
      if i < 31 {
        assert Widen(word[1..])[i] == Widen(word)[i + 1];
      }
    }
    assert left == right;
  }

  /** Eight steps after adding a whole byte are eight bits fed one at a time. */
  lemma {:induction false} StepsAreFeed(g: Feedback, crc: Register, word: Bits)
    requires |word| <= 32
    ensures BitSteps(g, Xor(crc, Widen(word)), |word|) == Feed(g, crc, word)
    decreases |word|
  {
    if word == [] {
      assert Xor(crc, Widen(word)) == crc;
    } else {
      StepIsFeed(g, crc, word);
      StepsAreFeed(g, FeedBit(g, crc, word[0]), word[1..]);
    }
  }

  lemma {:induction false} FeedOfConcat(g: Feedback, crc: Register, a: Bits, b: Bits)
    ensures Feed(g, crc, a + b) == Feed(g, Feed(g, crc, a), b)
    decreases |a|
  {
    if a == [] {
      assert a + b == b;
    } else {
      assert (a + b)[1..] == a[1..] + b;
      FeedOfConcat(g, FeedBit(g, crc, a[0]), a[1..], b);
    }
  }

  /** The byte loop is the bit-serial register fed with the bits of the data. */
  lemma {:induction false} RunIsFeed(g: Feedback, crc: Register, data: seq<Byte>)
    ensures Run(g, crc, data) == Feed(g, crc, BitsOf(data))
    decreases |data|
  {
    if data != [] {
      StepsAreFeed(g, crc, LowBits(data[0], 8));
      FeedOfConcat(g, crc, LowBits(data[0], 8), BitsOf(data[1..]));
      RunIsFeed(g, ByteStep(g, crc, data[0]), data[1..]);
    }
  }

  // ---------------------------------------------------------------- bursts

  lemma FeedBitLinear(g: Feedback, x: Register, y: Register, b: bool, c: bool)
    ensures Xor(FeedBit(g, x, b), FeedBit(g, y, c)) == FeedBit(g, Xor(x, y), b != c)
  {
    var left, right := Xor(FeedBit(g, x, b), FeedBit(g, y, c)), FeedBit(g, Xor(x, y), b != c);
    assert Xor(Xor(x, y), Bit(b != c)) == Xor(Xor(x, Bit(b)), Xor(y, Bit(c)));
    forall i | 0 <= i < 32 ensures left[i] == right[i] {
    }
  }

  lemma {:induction false} FeedLinear(g: Feedback, x: Register, y: Register, a: Bits, b: Bits)
    requires |a| == |b|
    ensures Xor(Feed(g, x, a), Feed(g, y, b)) == Feed(g, Xor(x, y), Xor(a, b))
    decreases |a|
  {
    if a != [] {
      FeedBitLinear(g, x, y, a[0], b[0]);
      assert Xor(a, b)[1..] == Xor(a[1..], b[1..]);
      FeedLinear(g, FeedBit(g, x, a[0]), FeedBit(g, y, b[0]), a[1..], b[1..]);
    }
  }

  /** Only the n lowest bits may be set. */
  predicate Below(crc: Bits, n: nat) { forall i :: n <= i < |crc| ==> !crc[i] }

  /** A register can only reach zero after n more bits when its set bits lie among the n lowest. */
  lemma {:induction false} ZeroNeedsLowBits(g: Feedback, crc: Register, bits: Bits)
    requires Feed(g, crc, bits) == Zeros(32) && |bits| <= 32
    ensures Below(crc, |bits|)
    decreases |bits|
  {
    if bits != [] {
      var next := FeedBit(g, crc, bits[0]);
      ZeroNeedsLowBits(g, next, bits[1..]);
      assert !next[31];
      forall i | |bits| <= i < 32 ensures !crc[i] {
        assert next[i - 1] == crc[i];
      }
    }
  }

  /** From a zero register, a first set bit followed by at most 31 others never leads back to zero. */
  lemma BurstLeavesTrace(g: Feedback, bits: Bits)
    requires 0 < |bits| <= 32 && bits[0]
    ensures Feed(g, Zeros(32), bits) != Zeros(32)
  {
    var next := FeedBit(g, Zeros(32), true);
    assert next[31] == g[31];
    if Feed(g, next, bits[1..]) == Zeros(32) {
      ZeroNeedsLowBits(g, next, bits[1..]);
    }
  }

  lemma FeedZeroBit(g: Feedback)
    ensures FeedBit(g, Zeros(32), false) == Zeros(32)
  {
    var next := FeedBit(g, Zeros(32), false);
    assert forall i :: 0 <= i < 32 ==> !next[i];
  }

  /** The same for any pattern with a set bit: leading zeros leave the register at zero. */
  lemma {:induction false} ErrorLeavesTrace(g: Feedback, bits: Bits, k: nat)
    requires k < |bits| <= 32 && bits[k]
    ensures Feed(g, Zeros(32), bits) != Zeros(32)
    decreases k
  {
    if bits[0] {
      BurstLeavesTrace(g, bits);
    } else {
      FeedZeroBit(g);
      ErrorLeavesTrace(g, bits[1..], k - 1);
    }
  }

  lemma {:induction false} FeedInjective(g: Feedback, a: Register, b: Register, bits: Bits)
    requires Feed(g, a, bits) == Feed(g, b, bits)
    ensures a == b
    decreases |bits|
  {
    if bits != [] {
      FeedInjective(g, FeedBit(g, a, bits[0]), FeedBit(g, b, bits[0]), bits[1..]);
      BitStepInjective(g, Xor(a, Bit(bits[0])), Xor(b, Bit(bits[0])));
      XorCancels(a, b, Bit(bits[0]));
    }
  }

  lemma XorNonzero(a: Register, b: Register)
    requires Xor(a, b) != Zeros(32)
    ensures a != b
  {
    var i :| 0 <= i < 32 && Xor(a, b)[i];
  }

  lemma BitBurst(g: Feedback, crc: Register, u: Bits, v1: Bits, v2: Bits, w: Bits)
    requires |v1| == |v2| <= 32 && v1 != v2
    ensures Feed(g, crc, u + v1 + w) != Feed(g, crc, u + v2 + w)
  {
    var start := Feed(g, crc, u);
    var k :| 0 <= k < |v1| && v1[k] != v2[k];
    assert Xor(v1, v2)[k];
    assert Xor(start, start) == Zeros(32);
    ErrorLeavesTrace(g, Xor(v1, v2), k);
    FeedLinear(g, start, start, v1, v2);
    var a, b := Feed(g, start, v1), Feed(g, start, v2);
    XorNonzero(a, b);
    FeedOfConcat(g, crc, u + v1, w);
    FeedOfConcat(g, crc, u, v1);
    FeedOfConcat(g, crc, u + v2, w);
    FeedOfConcat(g, crc, u, v2);
    if Feed(g, a, w) == Feed(g, b, w) {
      FeedInjective(g, a, b, w);
    }
  }

  /** An error confined to 32 consecutive bits always changes the checksum. */
  lemma BurstDetected(g: Feedback, ones: Register, d1: seq<Byte>, d2: seq<Byte>, u: Bits, v1: Bits, v2: Bits, w: Bits)
    requires BitsOf(d1) == u + v1 + w && BitsOf(d2) == u + v2 + w
    requires |v1| == |v2| <= 32 && v1 != v2
    ensures Checksum(g, ones, d1) != Checksum(g, ones, d2)
  {
    BitBurst(g, ones, u, v1, v2, w);
    RunIsFeed(g, ones, d1);
    RunIsFeed(g, ones, d2);
    if Checksum(g, ones, d1) == Checksum(g, ones, d2) {
      XorCancels(Run(g, ones, d1), Run(g, ones, d2), ones);
    }
  }

  lemma {:induction false} BitsOfConcat(a: seq<Byte>, b: seq<Byte>)
    ensures BitsOf(a + b) == BitsOf(a) + BitsOf(b) && |BitsOf(a)| == 8 * |a|
  {
    if a == [] {
      assert a + b == b;
    } else {
      assert (a + b)[1..] == a[1..] + b;
      BitsOfConcat(a[1..], b);
    }
  }

  lemma Halves(number: nat, bound: nat)
    requires number < 2 * bound
    ensures number / 2 < bound && number == (if number % 2 == 1 then 1 else 0) + 2 * (number / 2)
  {
  }

  lemma {:induction false} NumberOfLowBits(number: nat, n: nat)
    requires number < Power(n)
    ensures Number(LowBits(number, n)) == number
    decreases n
  {
    if n > 0 {
      Halves(number, Power(n - 1));
      NumberOfLowBits(number / 2, n - 1);
      assert LowBits(number, n)[1..] == LowBits(number / 2, n - 1);
    }
  }

  function Power(n: nat): nat { if n == 0 then 1 else 2 * Power(n - 1) }

  lemma ByteOfBits(b: Byte)
    ensures Number(LowBits(b, 8)) == b
  {
    assert Power(8) == 256;
    NumberOfLowBits(b, 8);
  }

  lemma {:induction false} BitsOfInjective(a: seq<Byte>, b: seq<Byte>)
    requires |a| == |b| && BitsOf(a) == BitsOf(b)
    ensures a == b
  {
    if a != [] {
      ByteOfBits(a[0]);
      ByteOfBits(b[0]);
      assert BitsOf(a)[..8] == LowBits(a[0], 8) && BitsOf(b)[..8] == LowBits(b[0], 8);
      assert BitsOf(a)[8..] == BitsOf(a[1..]) && BitsOf(b)[8..] == BitsOf(b[1..]);
      BitsOfInjective(a[1..], b[1..]);
    }
  }

  /** Two buffers of one length that differ only inside four consecutive bytes, one byte included, never agree. */
  lemma FourByteBurst(g: Feedback, ones: Register, a: seq<Byte>, m1: seq<Byte>, m2: seq<Byte>, c: seq<Byte>)
    requires |m1| == |m2| <= 4 && m1 != m2
    ensures Checksum(g, ones, a + m1 + c) != Checksum(g, ones, a + m2 + c)
  {
    BitsOfConcat(a + m1, c);
    BitsOfConcat(a, m1);
    BitsOfConcat(a + m2, c);
    BitsOfConcat(a, m2);
    BitsOfConcat(m1, []);
    BitsOfConcat(m2, []);
    if BitsOf(m1) == BitsOf(m2) {
      BitsOfInjective(m1, m2);
    }
    BurstDetected(g, ones, a + m1 + c, a + m2 + c, BitsOf(a), BitsOf(m1), BitsOf(m2), BitsOf(c));
  }
}
