/** Strict unpadded base64url: `decodeBase64Url` (src/privacy/notice-bundle.ts) and the identical `bytes` helper of
    src/media/order-query-cursor.ts, over UTF-16 code units and bytes. */
module Base64Url {
  import opened Prelude
  import opened UnicodeText

  type Sextet = n: int | 0 <= n < 64

  /** The alphabet of section 5 of RFC 4648: A-Z, a-z, 0-9, '-', '_'. */
  function Symbol(n: Sextet): CodeUnit {
    if n < 26 then 65 + n else if n < 52 then 97 + (n - 26) else if n < 62 then 48 + (n - 52)
    else if n == 62 then 45 else 95
  }

  predicate IsSymbol(u: CodeUnit) {
    65 <= u <= 90 || 97 <= u <= 122 || 48 <= u <= 57 || u == 45 || u == 95
  }

  function Index(u: CodeUnit): Sextet
    requires IsSymbol(u)
  {
    if 65 <= u <= 90 then u - 65 else if 97 <= u <= 122 then u - 97 + 26 else if 48 <= u <= 57 then u - 48 + 52
    else if u == 45 then 62 else 63
  }

  lemma IndexOfSymbol(n: Sextet)
    ensures IsSymbol(Symbol(n)) && Index(Symbol(n)) == n
  {
  }

  lemma SymbolOfIndex(u: CodeUnit)
    requires IsSymbol(u)
    ensures Symbol(Index(u)) == u
  {
  }

  // ---------------------------------------------------------------- one group

  function ThreeBytes(a: Byte, b: Byte, c: Byte): (Sextet, Sextet, Sextet, Sextet) {
    (a / 4, a % 4 * 16 + b / 16, b % 16 * 4 + c / 64, c % 64)
  }

  function TwoBytes(a: Byte, b: Byte): (Sextet, Sextet, Sextet) {
    (a / 4, a % 4 * 16 + b / 16, b % 16 * 4)
  }

  function OneByte(a: Byte): (Sextet, Sextet) { (a / 4, a % 4 * 16) }

  function FourSextets(w: Sextet, x: Sextet, y: Sextet, z: Sextet): (Byte, Byte, Byte) {
    var w: int, x: int, y: int, z: int := w, x, y, z;
    (w * 4 + x / 16, x % 16 * 16 + y / 4, y % 4 * 64 + z)
  }

  /** The two spare low bits of the third sextet are dropped. */
  function ThreeSextets(w: Sextet, x: Sextet, y: Sextet): (Byte, Byte) {
    var w: int, x: int, y: int := w, x, y;
    (w * 4 + x / 16, x % 16 * 16 + y / 4)
  }

  /** The four spare low bits of the second sextet are dropped. */
  function TwoSextets(w: Sextet, x: Sextet): Byte {
    var w: int, x: int := w, x;
    w * 4 + x / 16
  }

  /** The six group conversions, passed around by name so that the inductions below see no arithmetic. */
  datatype Groups = Groups(
    three: (Byte, Byte, Byte) -> (Sextet, Sextet, Sextet, Sextet), two: (Byte, Byte) -> (Sextet, Sextet, Sextet),
    one: Byte -> (Sextet, Sextet), unfour: (Sextet, Sextet, Sextet, Sextet) -> (Byte, Byte, Byte),
    unthree: (Sextet, Sextet, Sextet) -> (Byte, Byte), untwo: (Sextet, Sextet) -> Byte)
  {
    /** Unpacking undoes packing; packing undoes unpacking exactly when the spare bits are zero. */
    ghost predicate Inverse() {
      && (forall a: Byte, b: Byte, c: Byte :: var g := three(a, b, c); unfour(g.0, g.1, g.2, g.3) == (a, b, c))
      && (forall a: Byte, b: Byte :: var g := two(a, b); unthree(g.0, g.1, g.2) == (a, b))
      && (forall a: Byte :: var g := one(a); untwo(g.0, g.1) == a)
      && (forall w: Sextet, x: Sextet, y: Sextet, z: Sextet :: var g := unfour(w, x, y, z); three(g.0, g.1, g.2) == (w, x, y, z))
      && (forall w: Sextet, x: Sextet, y: Sextet :: var g := unthree(w, x, y); two(g.0, g.1) == (w, x, y) <==> y % 4 == 0)
      && (forall w: Sextet, x: Sextet :: one(untwo(w, x)) == (w, x) <==> x % 16 == 0)
    }
  }

  const STANDARD: Groups := Groups(ThreeBytes, TwoBytes, OneByte, FourSextets, ThreeSextets, TwoSextets)

  lemma PackThree(a: Byte, b: Byte, c: Byte)
    ensures var g := ThreeBytes(a, b, c); FourSextets(g.0, g.1, g.2, g.3) == (a, b, c)
  {
    var g := ThreeBytes(a, b, c);
    assert g.1 / 16 == a % 4 && g.1 % 16 == b / 16;
    assert g.2 / 4 == b % 16 && g.2 % 4 == c / 64;
  }

  lemma PackTwo(a: Byte, b: Byte)
    ensures var g := TwoBytes(a, b); ThreeSextets(g.0, g.1, g.2) == (a, b)
  {
    var g := TwoBytes(a, b);
    assert g.1 / 16 == a % 4 && g.1 % 16 == b / 16;
    assert g.2 / 4 == b % 16;
  }

  lemma PackOne(a: Byte)
    ensures var g := OneByte(a); TwoSextets(g.0, g.1) == a
  {
    assert a % 4 * 16 / 16 == a % 4;
  }

  lemma UnpackFour(w: Sextet, x: Sextet, y: Sextet, z: Sextet)
    ensures var g := FourSextets(w, x, y, z); ThreeBytes(g.0, g.1, g.2) == (w, x, y, z)
  {
    var g := FourSextets(w, x, y, z);
    assert g.0 / 4 == w && g.0 % 4 == x / 16;
    assert g.1 / 16 == x % 16 && g.1 % 16 == y / 4;
    assert g.2 / 64 == y % 4 && g.2 % 64 == z;
  }

  lemma UnpackThree(w: Sextet, x: Sextet, y: Sextet)
    ensures var g := ThreeSextets(w, x, y); TwoBytes(g.0, g.1) == (w, x, y) <==> y % 4 == 0
  {
    var g := ThreeSextets(w, x, y);
    assert g.0 / 4 == w && g.0 % 4 == x / 16;
    assert g.1 / 16 == x % 16 && g.1 % 16 == y / 4;
  }

  lemma UnpackTwo(w: Sextet, x: Sextet)
    ensures OneByte(TwoSextets(w, x)) == (w, x) <==> x % 16 == 0
  {
    assert TwoSextets(w, x) / 4 == w && TwoSextets(w, x) % 4 == x / 16;
  }

  lemma StandardInverse()
    ensures STANDARD.Inverse()
  {
    forall a: Byte, b: Byte, c: Byte
      ensures var g := STANDARD.three(a, b, c); STANDARD.unfour(g.0, g.1, g.2, g.3) == (a, b, c)
    {
      PackThree(a, b, c);
    }
    forall a: Byte, b: Byte ensures var g := STANDARD.two(a, b); STANDARD.unthree(g.0, g.1, g.2) == (a, b) {
      PackTwo(a, b);
    }
    forall a: Byte ensures var g := STANDARD.one(a); STANDARD.untwo(g.0, g.1) == a {
      PackOne(a);
    }
    forall w: Sextet, x: Sextet, y: Sextet, z: Sextet
      ensures var g := STANDARD.unfour(w, x, y, z); STANDARD.three(g.0, g.1, g.2) == (w, x, y, z)
    {
      UnpackFour(w, x, y, z);
    }
    forall w: Sextet, x: Sextet, y: Sextet
      ensures var g := STANDARD.unthree(w, x, y); STANDARD.two(g.0, g.1) == (w, x, y) <==> y % 4 == 0
    {
      UnpackThree(w, x, y);
    }
    forall w: Sextet, x: Sextet ensures STANDARD.one(STANDARD.untwo(w, x)) == (w, x) <==> x % 16 == 0 {
      UnpackTwo(w, x);
    }
  }

  // ---------------------------------------------------------------- whole sequences

  /** Three bytes become four sextets; one or two trailing bytes become two or three. */
  function Sextets(g: Groups, b: seq<Byte>): seq<Sextet> {
    if b == [] then []
    else if |b| == 1 then var (w, x) := g.one(b[0]); [w, x]
    else if |b| == 2 then var (w, x, y) := g.two(b[0], b[1]); [w, x, y]
    else var (w, x, y, z) := g.three(b[0], b[1], b[2]); [w, x, y, z] + Sextets(g, b[3..])
  }

  /** The lenient platform reading: a lone last sextet is dropped. */
  function Pack(g: Groups, x: seq<Sextet>): seq<Byte> {
    if |x| < 2 then []
    else if |x| == 2 then [g.untwo(x[0], x[1])]
    else if |x| == 3 then var (a, b) := g.unthree(x[0], x[1], x[2]); [a, b]
    else var (a, b, c) := g.unfour(x[0], x[1], x[2], x[3]); [a, b, c] + Pack(g, x[4..])
  }

  lemma {:induction false} PackOfSextets(g: Groups, b: seq<Byte>)
    requires g.Inverse()
    ensures Pack(g, Sextets(g, b)) == b
  {
    if |b| > 2 {
      PackOfSextets(g, b[3..]);
      assert Sextets(g, b)[4..] == Sextets(g, b[3..]);
      assert b == [b[0], b[1], b[2]] + b[3..];
    }
  }

  /** Section 3.5 of RFC 4648: no lone last symbol, and the spare low bits of the last symbol are zero. */
  predicate CanonicalSextets(x: seq<Sextet>) {
    if x == [] then true
    else if |x| == 1 then false
    else if |x| == 2 then x[1] % 16 == 0
    else if |x| == 3 then x[2] % 4 == 0
    else CanonicalSextets(x[4..])
  }

  lemma {:induction false} SextetsOfPack(g: Groups, x: seq<Sextet>)
    requires g.Inverse()
    ensures Sextets(g, Pack(g, x)) == x <==> CanonicalSextets(x)
  {
    if |x| == 2 {
      assert x == [x[0], x[1]];
    } else if |x| == 3 {
      assert x == [x[0], x[1], x[2]];
    } else if |x| > 3 {
      SextetsOfPack(g, x[4..]);
      assert Pack(g, x)[3..] == Pack(g, x[4..]);
      assert x == [x[0], x[1], x[2], x[3]] + x[4..];
      assert Sextets(g, Pack(g, x))[4..] == Sextets(g, Pack(g, x[4..]));
    }
  }

  // ---------------------------------------------------------------- text

  predicate AllSymbols(s: seq<CodeUnit>) { forall i :: 0 <= i < |s| ==> IsSymbol(s[i]) }

  function Symbols(x: seq<Sextet>): (s: seq<CodeUnit>)
    ensures |s| == |x|
  {
    seq(|x|, i requires 0 <= i < |x| => Symbol(x[i]))
  }

  function Indices(s: seq<CodeUnit>): (x: seq<Sextet>)
    requires AllSymbols(s)
    ensures |x| == |s|
  {
    seq(|s|, i requires 0 <= i < |s| => Index(s[i]))
  }

  function Encode(b: seq<Byte>): seq<CodeUnit> { Symbols(Sextets(STANDARD, b)) }

  /** Decoded leniently, then refused unless it encodes back to the same string. */
  function Decode(s: seq<CodeUnit>): Option<seq<Byte>> {
    if s == [] || !AllSymbols(s) then None
    else
      var b := Pack(STANDARD, Indices(s));
      if Encode(b) == s then Some(b) else None
  }

  /** Never more than two symbols a byte. */
  lemma {:induction false} EncodeLength(b: seq<Byte>)
    ensures |Encode(b)| <= 2 * |b|
  {
    SextetsLength(STANDARD, b);
  }

  lemma {:induction false} SextetsLength(g: Groups, b: seq<Byte>)
    ensures |Sextets(g, b)| <= 2 * |b|
  {
    if |b| > 2 {
      SextetsLength(g, b[3..]);
    }
  }

  lemma IndicesOfSymbols(x: seq<Sextet>)
    ensures AllSymbols(Symbols(x)) && Indices(Symbols(x)) == x
  {
    forall i | 0 <= i < |x| ensures IsSymbol(Symbol(x[i])) && Index(Symbol(x[i])) == x[i] { IndexOfSymbol(x[i]); }
  }

  lemma SymbolsOfIndices(s: seq<CodeUnit>)
    requires AllSymbols(s)
    ensures Symbols(Indices(s)) == s
  {
    forall i | 0 <= i < |s| ensures Symbol(Index(s[i])) == s[i] { SymbolOfIndex(s[i]); }
  }

  lemma EncodeIsSymbols(b: seq<Byte>)
    ensures AllSymbols(Encode(b))
    ensures Encode(b) == [] <==> b == []
  {
    IndicesOfSymbols(Sextets(STANDARD, b));
  }

  /** Decoding is a bijection between the accepted strings and the non-empty byte sequences, inverse to Encode. */
  lemma DecodeBijection(s: seq<CodeUnit>, b: seq<Byte>)
    ensures Decode(s) == Some(b) <==> b != [] && s == Encode(b)
  {
    StandardInverse();
    PackOfSextets(STANDARD, b);
    IndicesOfSymbols(Sextets(STANDARD, b));
    EncodeIsSymbols(b);
  }

  /** The strings that are accepted, told from the string alone. */
  lemma AcceptedStrings(s: seq<CodeUnit>)
    ensures Decode(s).Some? <==> s != [] && AllSymbols(s) && CanonicalSextets(Indices(s))
  {
    if AllSymbols(s) {
      var x := Indices(s);
      StandardInverse();
      SymbolsOfIndices(s);
      SextetsOfPack(STANDARD, x);
      IndicesOfSymbols(Sextets(STANDARD, Pack(STANDARD, x)));
    }
  }
}
