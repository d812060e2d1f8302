/** UTF-16 well-formedness (src/platform/unicode-text.ts) and the UTF-8 bytes of a well-formed string.
    A JavaScript string is a sequence of 16-bit code units; its Unicode reading is a sequence of scalar values. */
module UnicodeText {
  import opened Prelude

  // ECMAScript, section 6.1.4: a String has at most 2^53 - 1 elements.
  const MAX_STRING_LENGTH: int := 0x20_0000_0000_0000 - 1

  type CodeUnit = u: int | 0 <= u < 0x1_0000
  type Byte = b: int | 0 <= b < 0x100
  type Scalar = c: int | 0 <= c < 0xD800 || 0xE000 <= c < 0x11_0000
  type JsString = s: seq<CodeUnit> | |s| <= MAX_STRING_LENGTH witness []

  predicate IsHigh(u: CodeUnit) { 0xD800 <= u <= 0xDBFF }

  predicate IsLow(u: CodeUnit) { 0xDC00 <= u <= 0xDFFF }

  /** UTF-16 of one scalar value (section 3.9 of the Unicode Standard). */
  function Utf16Unit(c: Scalar): seq<CodeUnit> {
    if c < 0x1_0000 then [c] else [0xD800 + (c - 0x1_0000) / 0x400, 0xDC00 + (c - 0x1_0000) % 0x400]
  }

  function Utf16(cs: seq<Scalar>): seq<CodeUnit> {
    if cs == [] then [] else Utf16Unit(cs[0]) + Utf16(cs[1..])
  }

  /** The scalar values of a code-unit sequence, or None when a surrogate is unpaired. */
  function Scalars(s: seq<CodeUnit>): Option<seq<Scalar>> {
    if s == [] then Some([])
    else if IsHigh(s[0]) then
      if |s| < 2 || !IsLow(s[1]) then None
      else
        var high: int, low: int := s[0], s[1];
        var c: Scalar := 0x1_0000 + (high - 0xD800) * 0x400 + (low - 0xDC00);
        match Scalars(s[2..]) case None => None case Some(rest) => Some([c] + rest)
    else if IsLow(s[0]) then None
    else
      var c: Scalar := s[0];
      match Scalars(s[1..]) case None => None case Some(rest) => Some([c] + rest)
  }

  predicate WellFormed(s: seq<CodeUnit>) { Scalars(s).Some? }

  lemma {:induction false} ScalarsOfUtf16(cs: seq<Scalar>)
    ensures Scalars(Utf16(cs)) == Some(cs)
  {
    if cs != [] {
      ScalarsOfUtf16(cs[1..]);
      var s, u := Utf16(cs), Utf16Unit(cs[0]);
      assert s[|u|..] == Utf16(cs[1..]);
      assert cs == [cs[0]] + cs[1..];
    }
  }

  lemma {:induction false} Utf16OfScalars(s: seq<CodeUnit>)
    requires WellFormed(s)
    ensures Utf16(Scalars(s).value) == s
  {
    if s != [] {
      var n := if IsHigh(s[0]) then 2 else 1;
      Utf16OfScalars(s[n..]);
      var cs := Scalars(s).value;
      assert cs[1..] == Scalars(s[n..]).value;
      assert Utf16Unit(cs[0]) == s[..n];
      assert s == s[..n] + s[n..];
    }
  }

  /** A string passes exactly when it is the UTF-16 form of some scalar sequence. */
  lemma WellFormedIffEncoded(s: seq<CodeUnit>)
    ensures WellFormed(s) <==> exists cs: seq<Scalar> :: s == Utf16(cs)
  {
    if WellFormed(s) {
      Utf16OfScalars(s);
    }
    if cs: seq<Scalar> :| s == Utf16(cs) {
      ScalarsOfUtf16(cs);
    }
  }

  method HasValidUnicode(value: JsString) returns (ok: bool)
    ensures ok <==> exists cs: seq<Scalar> :: value == Utf16(cs)
  {
    WellFormedIffEncoded(value);
    var index := 0;
    while index < |value|
      invariant 0 <= index <= |value|
      invariant WellFormed(value[index..]) <==> WellFormed(value)
    {
      var code := value[index];
      if 0xD800 <= code <= 0xDBFF {
        if index + 1 >= |value| {
          return false;
        }
        var next := value[index + 1];
        if next < 0xDC00 || next > 0xDFFF {
          return false;
        }
        assert value[index..][2..] == value[index + 2..];
        index := index + 1;
      } else if 0xDC00 <= code <= 0xDFFF {
        return false;
      } else {
        assert value[index..][1..] == value[index + 1..];
      }
      index := index + 1;
    }
    ok := true;
  }

  /** UTF-8 of one scalar value (section 3 of RFC 3629). */
  function Utf8Unit(c: Scalar): (b: seq<Byte>)
    ensures 1 <= |b| <= 4
    ensures 0 in b <==> c == 0
  {
    if c < 0x80 then [c]
    else if c < 0x800 then [0xC0 + c / 0x40, 0x80 + c % 0x40]
    else if c < 0x1_0000 then [0xE0 + c / 0x1000, 0x80 + c / 0x40 % 0x40, 0x80 + c % 0x40]
    else [0xF0 + c / 0x4_0000, 0x80 + c / 0x1000 % 0x40, 0x80 + c / 0x40 % 0x40, 0x80 + c % 0x40]
  }

  function Utf8(cs: seq<Scalar>): seq<Byte> {
    if cs == [] then [] else Utf8Unit(cs[0]) + Utf8(cs[1..])
  }

  /** The bytes `Buffer.from(s, 'utf8')` gives for a well-formed string. */
  function Utf8Bytes(s: seq<CodeUnit>): seq<Byte>
    requires WellFormed(s)
  {
    Utf8(Scalars(s).value)
  }

  function Utf8Length(lead: Byte): nat {
    if lead < 0x80 then 1 else if lead < 0xE0 then 2 else if lead < 0xF0 then 3 else 4
  }

  function Tail(b: int): int { b - 0x80 }

  /** One scalar off the front of a byte sequence, unless the bytes are not its canonical encoding. */
  function Utf8Head(b: seq<Byte>): Option<Scalar>
    requires b != []
  {
    var n := Utf8Length(b[0]);
    if |b| < n then None
    else
      var lead: int := b[0];
      var c: int :=
        if n == 1 then lead
        else if n == 2 then (lead - 0xC0) * 0x40 + Tail(b[1])
        else if n == 3 then (lead - 0xE0) * 0x1000 + Tail(b[1]) * 0x40 + Tail(b[2])
        else (lead - 0xF0) * 0x4_0000 + Tail(b[1]) * 0x1000 + Tail(b[2]) * 0x40 + Tail(b[3]);
      if (0 <= c < 0xD800 || 0xE000 <= c < 0x11_0000) && Utf8Unit(c) == b[..n] then Some(c) else None
  }

  function Utf8Decode(b: seq<Byte>): Option<seq<Scalar>> {
    if b == [] then Some([])
    else match Utf8Head(b)
      case None => None
      case Some(c) =>
        match Utf8Decode(b[Utf8Length(b[0])..])
        case None => None
        case Some(rest) => Some([c] + rest)
  }

  lemma Utf8HeadOfUnit(c: Scalar, rest: seq<Byte>)
    ensures Utf8Head(Utf8Unit(c) + rest) == Some(c)
    ensures |Utf8Unit(c)| == Utf8Length(Utf8Unit(c)[0])
  {
    var b := Utf8Unit(c);
    assert (b + rest)[..|b|] == b;
    assert c == c / 0x40 * 0x40 + c % 0x40;
    assert c / 0x1000 == c / 0x40 / 0x40;
    assert c / 0x4_0000 == c / 0x40 / 0x40 / 0x40;
  }

  lemma {:induction false} Utf8DecodeOfUtf8(cs: seq<Scalar>)
    ensures Utf8Decode(Utf8(cs)) == Some(cs)
  {
    if cs != [] {
      Utf8HeadOfUnit(cs[0], Utf8(cs[1..]));
      Utf8DecodeOfUtf8(cs[1..]);
      assert Utf8(cs)[|Utf8Unit(cs[0])|..] == Utf8(cs[1..]);
      assert cs == [cs[0]] + cs[1..];
    }
  }

  lemma {:induction false} Utf8ZeroByte(cs: seq<Scalar>)
    ensures 0 in Utf8(cs) <==> 0 in cs
  {
    if cs != [] {
      Utf8ZeroByte(cs[1..]);
      assert cs == [cs[0]] + cs[1..];
    }
  }

  lemma {:induction false} Utf16Zero(cs: seq<Scalar>)
    ensures 0 in Utf16(cs) <==> 0 in cs
  {
    if cs != [] {
      Utf16Zero(cs[1..]);
      assert cs == [cs[0]] + cs[1..];
    }
  }

  /** A code unit takes at most three UTF-8 bytes; an astral pair takes four. */
  lemma {:induction false} Utf8LengthBound(s: seq<CodeUnit>)
    requires WellFormed(s)
    ensures |Utf8Bytes(s)| <= 3 * |s|
    ensures s == [] <==> Utf8Bytes(s) == []
  {
    if s != [] {
      var n := if IsHigh(s[0]) then 2 else 1;
      Utf8LengthBound(s[n..]);
      assert Scalars(s).value[1..] == Scalars(s[n..]).value;
    }
  }

  /** UTF-8 undone: the string whose bytes these are, when the bytes are UTF-8. */
  function FromUtf8(b: seq<Byte>): Option<seq<CodeUnit>> {
    match Utf8Decode(b) case None => None case Some(cs) => Some(Utf16(cs))
  }

  lemma FromUtf8OfBytes(s: seq<CodeUnit>)
    requires WellFormed(s)
    ensures FromUtf8(Utf8Bytes(s)) == Some(s)
    ensures 0 in Utf8Bytes(s) <==> 0 in s
  {
    var cs := Scalars(s).value;
    Utf8DecodeOfUtf8(cs);
    Utf16OfScalars(s);
    Utf8ZeroByte(cs);
    Utf16Zero(cs);
  }
}
