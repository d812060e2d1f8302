/** The CRC register is a remainder of polynomials over the two-element field. A polynomial is the set of its exponents;
    bit i of a register is the coefficient of x^(31-i). */
module CrcPolynomial {
  import opened UnicodeText
  import opened Crc32

  type Poly = set<nat>

  function Sum(a: Poly, b: Poly): Poly { (a - b) + (b - a) }

  function TimesX(p: Poly): Poly { set e | e in p :: e + 1 }

  function If(c: bool, p: Poly): Poly { if c then p else {} }

  predicate Coefficient(crc: Register, e: nat) { e < 32 && crc[31 - e] }

  function OfRegister(crc: Register): Poly { set e | 0 <= e < 32 && Coefficient(crc, e) }

  /** x^32 and the terms of the feedback register. */
  function Generator(g: Feedback): Poly { {32} + OfRegister(g) }

  /** What is divided: the start register times x^n plus the n message bits, first bit highest, times x^32. */
  function Dividend(start: Register, bits: Bits): Poly {
    Sum(set e | e in OfRegister(start) :: e + |bits|, set i | 0 <= i < |bits| && bits[i] :: 31 + |bits| - i)
  }

  /** The product of the generator and a quotient given by its coefficients, highest first. */
  function Product(g: Feedback, q: Bits): Poly {
    if q == [] then {} else Sum(TimesX(Product(g, q[..|q| - 1])), If(q[|q| - 1], Generator(g)))
  }

  /** `r` is a remainder of degree below 32 with quotient `q`. */
  predicate Divides(g: Feedback, start: Register, bits: Bits, q: Bits, r: Register) {
    |q| == |bits| && Dividend(start, bits) == Sum(Product(g, q), OfRegister(r))
  }

  // ---------------------------------------------------------------- one more bit

  lemma InTimesX(p: Poly, e: nat)
    ensures e in TimesX(p) <==> e > 0 && e - 1 in p
  {
    if e > 0 && e - 1 in p {
      assert (e - 1) + 1 in TimesX(p);
    }
  }

  lemma TimesXOfSum(a: Poly, b: Poly)
    ensures TimesX(Sum(a, b)) == Sum(TimesX(a), TimesX(b))
  {
    forall e: nat ensures e in TimesX(Sum(a, b)) <==> e in Sum(TimesX(a), TimesX(b)) {
      InTimesX(Sum(a, b), e);
      InTimesX(a, e);
      InTimesX(b, e);
    }
  }

  lemma InDividend(start: Register, bits: Bits, e: nat)
    ensures e in Dividend(start, bits) <==>
            (0 <= e - |bits| && Coefficient(start, e - |bits|)) != (0 <= 31 + |bits| - e < |bits| && bits[31 + |bits| - e])
  {
    var high := set x | x in OfRegister(start) :: x + |bits|;
    var low: Poly := set i | 0 <= i < |bits| && bits[i] :: 31 + |bits| - i;
    assert e in high <==> 0 <= e - |bits| && Coefficient(start, e - |bits|) by {
      if 0 <= e - |bits| && Coefficient(start, e - |bits|) {
        assert e - |bits| in OfRegister(start);
      }
    }
    assert e in low <==> 0 <= 31 + |bits| - e < |bits| && bits[31 + |bits| - e] by {
      if 0 <= 31 + |bits| - e < |bits| && bits[31 + |bits| - e] {
        var i := 31 + |bits| - e;
        assert 31 + |bits| - i == e;
      }
    }
  }

  lemma DividendOfNext(start: Register, bits: Bits, b: bool)
    ensures Dividend(start, bits + [b]) == Sum(TimesX(Dividend(start, bits)), If(b, {32}))
  {
    var next := bits + [b];
    forall e: nat ensures e in Dividend(start, next) <==> e in Sum(TimesX(Dividend(start, bits)), If(b, {32})) {
      InDividend(start, next, e);
      InTimesX(Dividend(start, bits), e);
      if e > 0 {
        InDividend(start, bits, e - 1);
      }
    }
  }

  lemma CoefficientOfNext(g: Feedback, crc: Register, b: bool, e: nat)
    requires e < 32
    ensures Coefficient(FeedBit(g, crc, b), e) ==
            ((e > 0 && Coefficient(crc, e - 1)) != (crc[0] != b && Coefficient(g, e)))
  {
    var x := Xor(crc, Bit(b));
    assert x[0] == (crc[0] != b);
    assert FeedBit(g, crc, b)[31 - e] == ((e > 0 && x[32 - e]) != (x[0] && g[31 - e]));
  }

  lemma RegisterOfNext(g: Feedback, crc: Register, b: bool)
    ensures OfRegister(FeedBit(g, crc, b)) ==
            Sum(Sum(TimesX(OfRegister(crc)), If(b, {32})), If(crc[0] != b, Generator(g)))
  {
    var left, right := OfRegister(FeedBit(g, crc, b)), Sum(Sum(TimesX(OfRegister(crc)), If(b, {32})), If(crc[0] != b, Generator(g)));
    forall e: nat ensures e in left <==> e in right { TermOfNext(g, crc, b, e); }
  }

  lemma TermOfNext(g: Feedback, crc: Register, b: bool, e: nat)
    ensures e in OfRegister(FeedBit(g, crc, b)) <==>
            e in Sum(Sum(TimesX(OfRegister(crc)), If(b, {32})), If(crc[0] != b, Generator(g)))
  {
    InTimesX(OfRegister(crc), e);
    if e < 32 {
      CoefficientOfNext(g, crc, b, e);
    } else {
      assert e in TimesX(OfRegister(crc)) <==> e == 32 && crc[0];
    }
  }

  lemma SumRegroup(a: Poly, b: Poly, c: Poly, d: Poly)
    ensures Sum(Sum(a, b), c) == Sum(Sum(a, d), Sum(Sum(b, c), d))
  {
  }

  lemma ProductOfNext(g: Feedback, q: Bits, c: bool)
    ensures Product(g, q + [c]) == Sum(TimesX(Product(g, q)), If(c, Generator(g)))
  {
    assert (q + [c])[..|q|] == q;
  }

  /** The register is a remainder: its quotient records where the polynomial was applied. */
  lemma {:induction false} FeedDivides(g: Feedback, start: Register, bits: Bits) returns (q: Bits)
    ensures Divides(g, start, bits, q, Feed(g, start, bits))
  {
    if bits == [] {
      q := [];
      forall e: nat ensures e in Dividend(start, bits) <==> e in OfRegister(start) {
        InDividend(start, bits, e);
      }
    } else {
      var n := |bits| - 1;
      var before, b := bits[..n], bits[n];
      var r := Feed(g, start, before);
      var p := FeedDivides(g, start, before);
      var c := r[0] != b;
      q := p + [c];
      assert bits == before + [b];
      FeedOfConcat(g, start, before, [b]);
      assert [b][1..] == [] && Feed(g, r, [b]) == FeedBit(g, r, b);
      DividendOfNext(start, before, b);
      TimesXOfSum(Product(g, p), OfRegister(r));
      RegisterOfNext(g, r, b);
      ProductOfNext(g, p, c);
      SumRegroup(TimesX(Product(g, p)), TimesX(OfRegister(r)), If(b, {32}), If(c, Generator(g)));
    }
  }

  // ---------------------------------------------------------------- the remainder is unique

  lemma {:induction false} ProductLinear(g: Feedback, a: Bits, b: Bits)
    requires |a| == |b|
    ensures Sum(Product(g, a), Product(g, b)) == Product(g, Xor(a, b))
  {
    if a != [] {
      var n := |a| - 1;
      assert Xor(a, b)[..n] == Xor(a[..n], b[..n]);
      ProductLinear(g, a[..n], b[..n]);
      TimesXOfSum(Product(g, a[..n]), Product(g, b[..n]));
      SumSwap(TimesX(Product(g, a[..n])), TimesX(Product(g, b[..n])), a[n], b[n], Generator(g));
    }
  }

  lemma SumSwap(a: Poly, b: Poly, c: bool, d: bool, p: Poly)
    ensures Sum(Sum(a, If(c, p)), Sum(b, If(d, p))) == Sum(Sum(a, b), If(c != d, p))
  {
  }

  /** The first coefficient of the quotient is the term of highest degree. */
  lemma {:induction false} ProductTop(g: Feedback, q: Bits)
    requires q != []
    ensures 31 + |q| in Product(g, q) <==> q[0]
    ensures forall e :: e in Product(g, q) ==> e <= 31 + |q|
  {
    var n := |q| - 1;
    var above := Product(g, q[..n]);
    if n > 0 {
      ProductTop(g, q[..n]);
    }
    forall e | e in Product(g, q) ensures e <= 31 + |q| {
      InTimesX(above, e);
    }
    InTimesX(above, 31 + |q|);
  }

  lemma {:induction false} ProductOfLeadingZero(g: Feedback, q: Bits)
    requires q != [] && !q[0]
    ensures Product(g, q) == Product(g, q[1..])
  {
    var n := |q| - 1;
    if n > 0 {
      ProductOfLeadingZero(g, q[..n]);
      assert q[..n][1..] == q[1..][..n - 1];
    } else {
      assert TimesX({}) == {};
    }
  }

  /** Only the zero quotient gives a product of degree below 32. */
  lemma {:induction false} SmallProduct(g: Feedback, q: Bits)
    requires forall e :: e in Product(g, q) ==> e < 32
    ensures Product(g, q) == {}
  {
    if q != [] {
      ProductTop(g, q);
      ProductOfLeadingZero(g, q);
      SmallProduct(g, q[1..]);
    }
  }

  lemma RegisterOfPoly(a: Register, b: Register)
    requires OfRegister(a) == OfRegister(b)
    ensures a == b
  {
    forall i | 0 <= i < 32 ensures a[i] == b[i] {
      assert 31 - i in OfRegister(a) <==> 31 - i in OfRegister(b);
      assert Coefficient(a, 31 - i) == a[i] && Coefficient(b, 31 - i) == b[i];
    }
  }

  lemma RemainderUnique(g: Feedback, q1: Bits, r1: Register, q2: Bits, r2: Register)
    requires |q1| == |q2| && Sum(Product(g, q1), OfRegister(r1)) == Sum(Product(g, q2), OfRegister(r2))
    ensures r1 == r2
  {
    var p1, p2 := Product(g, q1), Product(g, q2);
    ProductLinear(g, q1, q2);
    forall e | e in Sum(p1, p2) ensures e < 32 {
      assert e in Sum(p1, OfRegister(r1)) <==> e in Sum(p2, OfRegister(r2));
      assert e in OfRegister(r1) || e in OfRegister(r2);
    }
    SmallProduct(g, Xor(q1, q2));
    forall e: nat ensures e in p1 <==> e in p2 {
      assert e in Sum(p1, p2) <==> (e in p1) != (e in p2);
    }
    forall e: nat ensures e in OfRegister(r1) <==> e in OfRegister(r2) {
      assert e in Sum(p1, OfRegister(r1)) <==> e in Sum(p2, OfRegister(r2));
    }
    RegisterOfPoly(r1, r2);
  }

  /** The byte loop computes the remainder, and nothing else is one. */
  lemma RegisterIsRemainder(g: Feedback, start: Register, data: seq<Byte>, r: Register)
    ensures (exists q :: Divides(g, start, BitsOf(data), q, r)) <==> r == Run(g, start, data)
  {
    RunIsFeed(g, start, data);
    var p := FeedDivides(g, start, BitsOf(data));
    if q :| Divides(g, start, BitsOf(data), q, r) {
      RemainderUnique(g, q, r, p, Run(g, start, data));
    }
  }

  const PNG_EXPONENTS: Poly := {32, 26, 23, 22, 16, 12, 11, 10, 8, 7, 5, 4, 2, 1, 0}

  /** The constant of the loop, 0xEDB88320. */
  function PngFeedback(): Register { Word(0xED, 0xB8, 0x83, 0x20) }

  /** 0xFFFFFFFF. */
  function PngStart(): Register { Word(0xFF, 0xFF, 0xFF, 0xFF) }

  lemma Bits20()
    ensures LowBits(0x20, 8) == [false, false, false, false, false, true, false, false]
  {
  }

  lemma Bits83()
    ensures LowBits(0x83, 8) == [true, true, false, false, false, false, false, true]
  {
  }

  lemma BitsB8()
    ensures LowBits(0xB8, 8) == [false, false, false, true, true, true, false, true]
  {
  }

  lemma BitsED()
    ensures LowBits(0xED, 8) == [true, false, true, true, false, true, true, true]
  {
  }

  lemma BitsFF()
    ensures LowBits(0xFF, 8) == [true, true, true, true, true, true, true, true]
  {
  }

  /** The bits of 0xEDB88320, least significant first. */
  function PngPattern(): Register {
    [false, false, false, false, false, true, false, false] + [true, true, false, false, false, false, false, true]
    + [false, false, false, true, true, true, false, true] + [true, false, true, true, false, true, true, true]
  }

  lemma FeedbackPattern()
    ensures PngFeedback() == PngPattern()
  {
    Bits20();
    Bits83();
    BitsB8();
    BitsED();
  }

  lemma PngCoefficient(e: nat)
    requires e < 32
    ensures Coefficient(PngPattern(), e) <==> e in PNG_EXPONENTS
  {
  }

  lemma PngCoefficients(g: Register)
    requires g == PngPattern()
    ensures forall e: nat :: e < 32 ==> (Coefficient(g, e) <==> e in PNG_EXPONENTS)
  {
    forall e: nat | e < 32 ensures Coefficient(g, e) <==> e in PNG_EXPONENTS { PngCoefficient(e); }
  }

  lemma PngTop(g: Register)
    requires Coefficient(g, 0) <==> 0 in PNG_EXPONENTS
    ensures g[31]
  {
  }

  lemma GeneratorIs(g: Feedback, p: Poly)
    requires 32 in p && (forall e :: e in p ==> e <= 32)
    requires forall e: nat :: e < 32 ==> (Coefficient(g, e) <==> e in p)
    ensures Generator(g) == p
  {
  }

  lemma PatternGenerator(g: Register)
    requires g == PngPattern()
    ensures g[31] && Generator(g) == PNG_EXPONENTS
  {
    PngCoefficients(g);
    PngTop(g);
    PngDegree();
    GeneratorIs(g, PNG_EXPONENTS);
  }

  lemma PngDegree()
    ensures 32 in PNG_EXPONENTS && forall e :: e in PNG_EXPONENTS ==> e <= 32
  {
  }

  /** The loop divides by the generator of the PNG specification. */
  lemma PngGenerator()
    ensures PngFeedback()[31] && Generator(PngFeedback()) == PNG_EXPONENTS
  {
    FeedbackPattern();
    PatternGenerator(PngFeedback());
  }

  /** It starts from the polynomial with every term. */
  lemma PngStartAllOnes()
    ensures forall i :: 0 <= i < 32 ==> PngStart()[i]
  {
    BitsFF();
  }
}
