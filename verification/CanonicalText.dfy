/** The hash preimage of the privacy text shown to a data subject (src/privacy/canonical-text.ts).
    Unicode normalisation is the parameter `nfc`; a theorem names each fact about it that it uses. */
module CanonicalText {
  import opened Prelude
  import opened UnicodeText

  const BYTE_ORDER_MARK: CodeUnit := 0xFEFF
  const NUL: CodeUnit := 0
  const CR: CodeUnit := 0x0D
  const LF: CodeUnit := 0x0A
  const U64_MODULUS: int := 0x1_0000_0000_0000_0000

  /** The bytes of tallermecario.privacy_consent.text.v1. */
  const HASH_DOMAIN: seq<Byte> := [
    116, 97, 108, 108, 101, 114, 109, 101, 99, 97, 114, 105, 111, 46,
    112, 114, 105, 118, 97, 99, 121, 95, 99, 111, 110, 115, 101, 110, 116, 46,
    116, 101, 120, 116, 46, 118, 49]

  datatype CanonicalTextError = CanonicalTextInvalid

  type Normalizer = JsString -> JsString

  /** legalName, address, phone, email and rightsChannel, each possibly null. */
  datatype Snapshot = Snapshot(legalName: Option<JsString>, address: Option<JsString>, phone: Option<JsString>,
                               email: Option<JsString>, rightsChannel: Option<JsString>)
  {
    function Fields(): (r: seq<Option<JsString>>)
      ensures |r| == 5
    {
      [legalName, address, phone, email, rightsChannel]
    }
  }

  datatype HashInput = HashInput(purposeCode: JsString, privacyNoticeVersion: JsString,
                                 authorizationTextVersion: JsString, noticeText: JsString,
                                 authorizationText: JsString, snapshot: Snapshot)

  // ---------------------------------------------------------------- canonical form

  /** Every CR LF and every lone CR becomes one LF. */
  function NormalizeNewlines(s: seq<CodeUnit>): (r: seq<CodeUnit>)
    ensures |r| <= |s|
    ensures CR !in r
  {
    if s == [] then []
    else if s[0] == CR then [LF] + NormalizeNewlines(s[if |s| > 1 && s[1] == LF then 2 else 1..])
    else [s[0]] + NormalizeNewlines(s[1..])
  }

  function StripBom(s: JsString): JsString {
    if s != [] && s[0] == BYTE_ORDER_MARK then s[1..] else s
  }

  function Canonicalize(nfc: Normalizer, value: JsString): Result<JsString, CanonicalTextError> {
    if !WellFormed(value) then Err(CanonicalTextInvalid)
    else Ok(nfc(NormalizeNewlines(StripBom(value))))
  }

  function CanonicalToken(nfc: Normalizer, value: JsString): Result<JsString, CanonicalTextError> {
    match Canonicalize(nfc, value)
    case Err(e) => Err(e)
    case Ok(c) => if c == [] || NUL in c then Err(CanonicalTextInvalid) else Ok(c)
  }

  function CanonicalField(nfc: Normalizer, value: Option<JsString>): Result<Option<JsString>, CanonicalTextError> {
    match value
    case None => Ok(None)
    case Some(v) => match Canonicalize(nfc, v) case Err(e) => Err(e) case Ok(c) => Ok(Some(c))
  }

  function CanonicalFields(nfc: Normalizer, fields: seq<Option<JsString>>)
    : (r: Result<seq<Option<JsString>>, CanonicalTextError>)
    ensures r.Ok? ==> |r.value| == |fields|
  {
    if fields == [] then Ok([])
    else match CanonicalField(nfc, fields[0])
      case Err(e) => Err(e)
      case Ok(f) =>
        match CanonicalFields(nfc, fields[1..])
        case Err(e) => Err(e)
        case Ok(rest) => Ok([f] + rest)
  }

  /** What a preimage is meant to determine: every canonicalized component. */
  datatype Evidence = Evidence(purposeCode: seq<CodeUnit>, privacyNoticeVersion: seq<CodeUnit>,
                               authorizationTextVersion: seq<CodeUnit>, noticeText: seq<CodeUnit>,
                               authorizationText: seq<CodeUnit>, fields: seq<Option<seq<CodeUnit>>>)

  function CanonicalEvidence(nfc: Normalizer, input: HashInput): Result<Evidence, CanonicalTextError> {
    var purpose := CanonicalToken(nfc, input.purposeCode);
    var notice := CanonicalToken(nfc, input.privacyNoticeVersion);
    var version := CanonicalToken(nfc, input.authorizationTextVersion);
    var noticeText := Canonicalize(nfc, input.noticeText);
    var text := Canonicalize(nfc, input.authorizationText);
    var fields := CanonicalFields(nfc, input.snapshot.Fields());
    if purpose.Ok? && notice.Ok? && version.Ok? && noticeText.Ok? && text.Ok? && fields.Ok?
    then Ok(Evidence(purpose.value, notice.value, version.value, noticeText.value, text.value, fields.value))
    else Err(CanonicalTextInvalid)
  }

  /** The facts about NFC the encoding rests on: its output is well formed (section 3.11 of the Unicode Standard). */
  ghost predicate KeepsWellFormed(nfc: Normalizer) {
    forall s: JsString :: WellFormed(s) ==> WellFormed(nfc(s))
  }

  /** Taking a scalar value off the front. */
  lemma ScalarFirst(s: seq<CodeUnit>, n: nat)
    requires s != [] && n == (if IsHigh(s[0]) then 2 else 1)
    ensures WellFormed(s) <==> n <= |s| && !IsLow(s[0]) && (n == 2 ==> IsLow(s[1])) && WellFormed(s[n..])
  {
  }

  lemma {:induction false} NewlinesKeepWellFormed(s: seq<CodeUnit>)
    requires WellFormed(s)
    ensures WellFormed(NormalizeNewlines(s))
    decreases |s|
  {
    if s != [] {
      var n := if IsHigh(s[0]) then 2 else 1;
      ScalarFirst(s, n);
      var t := NormalizeNewlines(s);
      if s[0] == CR && |s| > 1 && s[1] == LF {
        ScalarFirst(s[1..], 1);
        assert s[1..][1..] == s[2..];
        NewlinesKeepWellFormed(s[2..]);
      } else {
        NewlinesKeepWellFormed(s[n..]);
        if n == 2 {
          NewlinesRest(s);
          NewlinesRest(s[1..]);
          assert s[1..][1..] == s[2..] && t[1..][1..] == t[2..];
        }
      }
      NewlinesRest(s);
      ScalarFirst(t, if IsHigh(t[0]) then 2 else 1);
    }
  }

  lemma NewlinesRest(s: seq<CodeUnit>)
    requires s != []
    ensures var t, rest := NormalizeNewlines(s), s[if s[0] == CR && |s| > 1 && s[1] == LF then 2 else 1..];
            t != [] && t[0] == (if s[0] == CR then LF else s[0]) && t[1..] == NormalizeNewlines(rest)
  {
  }

  lemma CanonicalIsWellFormed(nfc: Normalizer, value: JsString)
    requires KeepsWellFormed(nfc)
    requires Canonicalize(nfc, value).Ok?
    ensures WellFormed(Canonicalize(nfc, value).value)
  {
    if value != [] && value[0] == BYTE_ORDER_MARK {
      assert Scalars(value[1..]).Some?;
    }
    NewlinesKeepWellFormed(StripBom(value));
  }

  // ---------------------------------------------------------------- encoding

  /** The low `n` base-256 digits of `v`, most significant first. */
  function BigEndian(v: nat, n: nat): (r: seq<Byte>)
    ensures |r| == n
  {
    if n == 0 then [] else BigEndian(v / 0x100, n - 1) + [v % 0x100]
  }

  function FromBigEndian(b: seq<Byte>): nat {
    if b == [] then 0 else FromBigEndian(b[..|b| - 1]) * 0x100 + b[|b| - 1]
  }

  function Pow256(n: nat): nat { if n == 0 then 1 else 0x100 * Pow256(n - 1) }

  lemma {:induction false} FromBigEndianOfBigEndian(v: nat, n: nat)
    requires v < Pow256(n)
    ensures FromBigEndian(BigEndian(v, n)) == v
  {
    if n > 0 {
      FromBigEndianOfBigEndian(v / 0x100, n - 1);
      var b := BigEndian(v, n);
      assert b[..n - 1] == BigEndian(v / 0x100, n - 1);
    }
  }

  function U64be(length: nat): seq<Byte> { BigEndian(length, 8) }

  /** Writes the eight bytes of a length into a fresh buffer, from the last one backwards. */
  method WriteU64be(length: nat) returns (out: array<Byte>)
    requires length < U64_MODULUS
    ensures fresh(out) && out[..] == U64be(length)
  {
    out := new Byte[8](_ => 0);
    var rest, i := length, 8;
    while i > 0
      invariant 0 <= i <= 8 && out.Length == 8
      invariant BigEndian(rest, i) + out[i..] == U64be(length)
    {
      i := i - 1;
      assert BigEndian(rest, i + 1) == BigEndian(rest / 0x100, i) + [rest % 0x100];
      ghost var before := out[i + 1..];
      out[i] := rest % 0x100;
      assert out[i..] == [rest % 0x100] + before;
      rest := rest / 0x100;
    }
    assert out[0..] == out[..];
  }

  function LengthPrefixed(s: seq<CodeUnit>): seq<Byte>
    requires WellFormed(s)
  {
    U64be(|Utf8Bytes(s)|) + Utf8Bytes(s)
  }

  function SnapshotField(f: Option<seq<CodeUnit>>): seq<Byte>
    requires f.Some? ==> WellFormed(f.value)
  {
    match f case None => [0x00] case Some(s) => [0x01] + LengthPrefixed(s)
  }

  predicate AllWellFormed(fs: seq<Option<seq<CodeUnit>>>) {
    forall i :: 0 <= i < |fs| && fs[i].Some? ==> WellFormed(fs[i].value)
  }

  function SnapshotFields(fs: seq<Option<seq<CodeUnit>>>): seq<Byte>
    requires AllWellFormed(fs)
  {
    if fs == [] then [] else SnapshotField(fs[0]) + SnapshotFields(fs[1..])
  }

  function Token(s: seq<CodeUnit>): seq<Byte>
    requires WellFormed(s)
  {
    Utf8Bytes(s) + [0]
  }

  /** Every present field is well formed and its length fits the eight-byte prefix. */
  ghost predicate AllShort(fs: seq<Option<seq<CodeUnit>>>) {
    forall i :: 0 <= i < |fs| && fs[i].Some? ==> WellFormed(fs[i].value) && |Utf8Bytes(fs[i].value)| < U64_MODULUS
  }

  ghost predicate Encodable(e: Evidence) {
    && WellFormed(e.purposeCode) && NUL !in e.purposeCode
    && WellFormed(e.privacyNoticeVersion) && NUL !in e.privacyNoticeVersion
    && WellFormed(e.authorizationTextVersion) && NUL !in e.authorizationTextVersion
    && WellFormed(e.noticeText) && |Utf8Bytes(e.noticeText)| < U64_MODULUS
    && WellFormed(e.authorizationText) && |Utf8Bytes(e.authorizationText)| < U64_MODULUS
    && |e.fields| == 5
    && AllShort(e.fields)
  }

  /** The preimage layout: domain, three NUL-ended tokens, two length-prefixed texts, five tagged fields. */
  ghost function Layout(e: Evidence): seq<Byte>
    requires Encodable(e)
  {
    HASH_DOMAIN + [0] + (Token(e.purposeCode) + (Token(e.privacyNoticeVersion) + (Token(e.authorizationTextVersion)
    + (LengthPrefixed(e.noticeText) + (LengthPrefixed(e.authorizationText) + SnapshotFields(e.fields))))))
  }

  lemma {:induction false} CanonicalFieldsEncodable(nfc: Normalizer, fields: seq<Option<JsString>>)
    requires KeepsWellFormed(nfc)
    requires CanonicalFields(nfc, fields).Ok?
    ensures AllShort(CanonicalFields(nfc, fields).value)
  {
    if fields != [] {
      CanonicalFieldsEncodable(nfc, fields[1..]);
      if fields[0].Some? {
        CanonicalIsWellFormed(nfc, fields[0].value);
        Utf8LengthBound(Canonicalize(nfc, fields[0].value).value);
      }
    }
  }

  lemma EvidenceEncodable(nfc: Normalizer, input: HashInput)
    requires KeepsWellFormed(nfc)
    requires CanonicalEvidence(nfc, input).Ok?
    ensures Encodable(CanonicalEvidence(nfc, input).value)
  {
    var e := CanonicalEvidence(nfc, input).value;
    CanonicalIsWellFormed(nfc, input.purposeCode);
    CanonicalIsWellFormed(nfc, input.privacyNoticeVersion);
    CanonicalIsWellFormed(nfc, input.authorizationTextVersion);
    CanonicalIsWellFormed(nfc, input.noticeText);
    CanonicalIsWellFormed(nfc, input.authorizationText);
    Utf8LengthBound(e.noticeText);
    Utf8LengthBound(e.authorizationText);
    CanonicalFieldsEncodable(nfc, input.snapshot.Fields());
  }

  /** The preimage specification of one input. */
  ghost function Preimage(nfc: Normalizer, input: HashInput): Result<seq<Byte>, CanonicalTextError>
    requires KeepsWellFormed(nfc)
  {
    match CanonicalEvidence(nfc, input)
    case Err(e) => Err(e)
    case Ok(e) => EvidenceEncodable(nfc, input); Ok(Layout(e))
  }

  lemma SnapshotFieldsFirst(fs: seq<Option<seq<CodeUnit>>>)
    requires AllWellFormed(fs) && fs != []
    ensures AllWellFormed(fs[1..]) && (fs[0].Some? ==> WellFormed(fs[0].value))
    ensures SnapshotFields(fs) == SnapshotField(fs[0]) + SnapshotFields(fs[1..])
  {
  }

  lemma {:induction false} SnapshotFieldsAppend(fs: seq<Option<seq<CodeUnit>>>, f: Option<seq<CodeUnit>>)
    requires AllWellFormed(fs) && (f.Some? ==> WellFormed(f.value))
    ensures AllWellFormed(fs + [f])
    ensures SnapshotFields(fs + [f]) == SnapshotFields(fs) + SnapshotField(f)
    decreases |fs|
  {
    var more := fs + [f];
    SnapshotFieldsFirst(more);
    if fs == [] {
      assert more[1..] == [];
      assert SnapshotField(f) + [] == SnapshotField(f) == [] + SnapshotField(f);
    } else {
      SnapshotFieldsFirst(fs);
      assert more[1..] == fs[1..] + [f];
      SnapshotFieldsAppend(fs[1..], f);
      Joined(SnapshotField(fs[0]), SnapshotFields(fs[1..]), SnapshotField(f));
    }
  }

  lemma Joined(a: seq<Byte>, b: seq<Byte>, c: seq<Byte>)
    ensures a + (b + c) == a + b + c
  {
  }

  /** The snapshot part of the preimage: one tagged field after another. */
  method AppendSnapshot(nfc: Normalizer, fields: seq<Option<JsString>>)
    returns (r: Result<seq<Byte>, CanonicalTextError>)
    requires KeepsWellFormed(nfc)
    ensures r.Ok? <==> CanonicalFields(nfc, fields).Ok?
    ensures r.Ok? ==> AllWellFormed(CanonicalFields(nfc, fields).value)
                      && r.value == SnapshotFields(CanonicalFields(nfc, fields).value)
  {
    var parts, i := [], 0;
    ghost var done: seq<Option<seq<CodeUnit>>> := [];
    while i < |fields|
      invariant 0 <= i <= |fields|
      invariant CanonicalFields(nfc, fields[..i]) == Ok(done)
      invariant AllWellFormed(done)
      invariant parts == SnapshotFields(done)
    {
      var field := CanonicalField(nfc, fields[i]);
      assert fields[..i + 1] == fields[..i] + [fields[i]];
      CanonicalFieldsAppend(nfc, fields[..i], fields[i]);
      assert fields == fields[..i + 1] + fields[i + 1..];
      if field.Err? {
        CanonicalFieldsPrefix(nfc, fields[..i + 1], fields[i + 1..]);
        return Err(CanonicalTextInvalid);
      }
      if fields[i].Some? {
        CanonicalIsWellFormed(nfc, fields[i].value);
      }
      SnapshotFieldsAppend(done, field.value);
      parts := parts + SnapshotField(field.value);
      done := done + [field.value];
      i := i + 1;
    }
    assert fields[..i] == fields;
    r := Ok(parts);
  }

  lemma {:induction false} CanonicalFieldsAppend(nfc: Normalizer, fs: seq<Option<JsString>>, f: Option<JsString>)
    requires CanonicalFields(nfc, fs).Ok?
    ensures CanonicalFields(nfc, fs + [f]) ==
            match CanonicalField(nfc, f) case Err(e) => Err(e) case Ok(c) => Ok(CanonicalFields(nfc, fs).value + [c])
  {
    if fs == [] {
      assert fs + [f] == [f];
      assert [f][1..] == [];
      if CanonicalField(nfc, f).Ok? {
        assert [CanonicalField(nfc, f).value] + [] == [] + [CanonicalField(nfc, f).value];
      }
    } else {
      assert (fs + [f])[1..] == fs[1..] + [f];
      CanonicalFieldsAppend(nfc, fs[1..], f);
      var head, rest := CanonicalField(nfc, fs[0]).value, CanonicalFields(nfc, fs[1..]).value;
      if CanonicalField(nfc, f).Ok? {
        assert [head] + (rest + [CanonicalField(nfc, f).value]) == [head] + rest + [CanonicalField(nfc, f).value];
      }
    }
  }

  lemma {:induction false} CanonicalFieldsPrefix(nfc: Normalizer, fs: seq<Option<JsString>>, gs: seq<Option<JsString>>)
    requires CanonicalFields(nfc, fs).Err?
    ensures CanonicalFields(nfc, fs + gs).Err?
  {
    assert (fs + gs)[1..] == fs[1..] + gs;
    if CanonicalField(nfc, fs[0]).Ok? {
      CanonicalFieldsPrefix(nfc, fs[1..], gs);
    }
  }

  /** Appends the parts in the fixed order; every canonicalization failure aborts the preimage. */
  method AuthorizationTextPreimage(nfc: Normalizer, input: HashInput)
    returns (r: Result<seq<Byte>, CanonicalTextError>)
    requires KeepsWellFormed(nfc)
    ensures r == Preimage(nfc, input)
  {
    var purpose := CanonicalToken(nfc, input.purposeCode);
    var notice := CanonicalToken(nfc, input.privacyNoticeVersion);
    var version := CanonicalToken(nfc, input.authorizationTextVersion);
    var noticeText := Canonicalize(nfc, input.noticeText);
    var text := Canonicalize(nfc, input.authorizationText);
    if purpose.Err? || notice.Err? || version.Err? || noticeText.Err? || text.Err? {
      return Err(CanonicalTextInvalid);
    }
    var fields := AppendSnapshot(nfc, input.snapshot.Fields());
    if fields.Err? {
      return Err(CanonicalTextInvalid);
    }
    EvidenceEncodable(nfc, input);
    r := Ok(HASH_DOMAIN + [0] + (Token(purpose.value) + (Token(notice.value) + (Token(version.value)
      + (LengthPrefixed(noticeText.value) + (LengthPrefixed(text.value) + fields.value))))));
  }

  // ---------------------------------------------------------------- decoding

  /** A value read from the front of a byte sequence and the bytes after it. */
  datatype Read<+T> = Fail | Done(value: T, rest: seq<Byte>)

  function IndexOfZero(b: seq<Byte>): (i: nat)
    ensures i <= |b|
    ensures (forall k :: 0 <= k < i ==> b[k] != 0) && (i < |b| ==> b[i] == 0)
  {
    if b == [] || b[0] == 0 then 0
    else
      var j := IndexOfZero(b[1..]);
      j + 1
  }

  function ReadToken(b: seq<Byte>): Read<seq<CodeUnit>> {
    var i := IndexOfZero(b);
    if i == |b| then Fail
    else match FromUtf8(b[..i]) case None => Fail case Some(s) => Done(s, b[i + 1..])
  }

  function ReadBlock(b: seq<Byte>): Read<seq<CodeUnit>> {
    if |b| < 8 then Fail
    else
      var n := FromBigEndian(b[..8]);
      if |b| < 8 + n then Fail
      else match FromUtf8(b[8..8 + n]) case None => Fail case Some(s) => Done(s, b[8 + n..])
  }

  function ReadField(b: seq<Byte>): Read<Option<seq<CodeUnit>>> {
    if b == [] then Fail
    else if b[0] == 0 then Done(None, b[1..])
    else if b[0] == 1 then
      match ReadBlock(b[1..]) case Fail => Fail case Done(s, rest) => Done(Some(s), rest)
    else Fail
  }

  function ReadFields(b: seq<Byte>, n: nat): Read<seq<Option<seq<CodeUnit>>>> {
    if n == 0 then Done([], b)
    else match ReadField(b)
      case Fail => Fail
      case Done(f, rest) =>
        match ReadFields(rest, n - 1)
        case Fail => Fail
        case Done(fs, end) => Done([f] + fs, end)
  }

  function DecodePreimage(b: seq<Byte>): Option<Evidence> {
    if !(HASH_DOMAIN + [0] <= b) then None
    else match ReadToken(b[|HASH_DOMAIN| + 1..])
      case Fail => None
      case Done(purpose, b1) =>
        match ReadToken(b1)
        case Fail => None
        case Done(notice, b2) =>
          match ReadToken(b2)
          case Fail => None
          case Done(version, b3) =>
            match ReadBlock(b3)
            case Fail => None
            case Done(noticeText, b4) =>
              match ReadBlock(b4)
              case Fail => None
              case Done(text, b5) =>
                match ReadFields(b5, 5)
                case Fail => None
                case Done(fields, end) =>
                  if end == [] then Some(Evidence(purpose, notice, version, noticeText, text, fields)) else None
  }

  lemma {:induction false} IndexOfFirstZero(u: seq<Byte>, rest: seq<Byte>)
    requires 0 !in u
    ensures IndexOfZero(u + ([0] + rest)) == |u|
  {
    if u != [] {
      IndexOfFirstZero(u[1..], rest);
      assert (u + ([0] + rest))[1..] == u[1..] + ([0] + rest);
    }
  }

  lemma ReadTokenOfToken(s: seq<CodeUnit>, rest: seq<Byte>)
    requires WellFormed(s) && NUL !in s
    ensures ReadToken(Token(s) + rest) == Done(s, rest)
  {
    var u, b := Utf8Bytes(s), Token(s) + rest;
    assert b == u + ([0] + rest);
    assert b[..|u|] == u;
    assert b[|u| + 1..] == rest;
    FromUtf8OfBytes(s);
    IndexOfFirstZero(u, rest);
  }

  lemma ReadBlockOfPrefixed(s: seq<CodeUnit>, rest: seq<Byte>)
    requires WellFormed(s) && |Utf8Bytes(s)| < U64_MODULUS
    ensures ReadBlock(LengthPrefixed(s) + rest) == Done(s, rest)
  {
    FromUtf8OfBytes(s);
    var u, b := Utf8Bytes(s), LengthPrefixed(s) + rest;
    assert Pow256(8) == U64_MODULUS by {
      assert Pow256(4) == 0x1_0000_0000;
    }
    FromBigEndianOfBigEndian(|u|, 8);
    assert b[..8] == U64be(|u|);
    assert b[8..8 + |u|] == u;
    assert b[8 + |u|..] == rest;
  }

  lemma ReadFieldOfField(f: Option<seq<CodeUnit>>, rest: seq<Byte>)
    requires f.Some? ==> WellFormed(f.value) && |Utf8Bytes(f.value)| < U64_MODULUS
    ensures ReadField(SnapshotField(f) + rest) == Done(f, rest)
  {
    if f.None? {
      assert ([0x00] + rest)[1..] == rest;
    } else {
      var tail := LengthPrefixed(f.value) + rest;
      assert SnapshotField(f) + rest == [0x01] + tail;
      assert ([0x01] + tail)[1..] == tail;
      ReadBlockOfPrefixed(f.value, rest);
    }
  }

  lemma {:induction false} ReadFieldsOfFields(fs: seq<Option<seq<CodeUnit>>>)
    requires AllShort(fs)
    ensures ReadFields(SnapshotFields(fs), |fs|) == Done(fs, [])
  {
    if fs != [] {
      ReadFieldOfField(fs[0], SnapshotFields(fs[1..]));
      ReadFieldsOfFields(fs[1..]);
      assert [fs[0]] + fs[1..] == fs;
    }
  }

  /** The decoder undoes the layout, so no two different pieces of evidence share their bytes. */
  lemma DecodeOfLayout(e: Evidence)
    requires Encodable(e)
    ensures DecodePreimage(Layout(e)) == Some(e)
  {
    var fields := SnapshotFields(e.fields);
    var b4 := LengthPrefixed(e.authorizationText) + fields;
    var b3 := LengthPrefixed(e.noticeText) + b4;
    var b2 := Token(e.authorizationTextVersion) + b3;
    var b1 := Token(e.privacyNoticeVersion) + b2;
    var b0 := Token(e.purposeCode) + b1;
    assert Layout(e) == HASH_DOMAIN + [0] + b0;
    assert Layout(e)[|HASH_DOMAIN| + 1..] == b0;
    ReadTokenOfToken(e.purposeCode, b1);
    ReadTokenOfToken(e.privacyNoticeVersion, b2);
    ReadTokenOfToken(e.authorizationTextVersion, b3);
    ReadBlockOfPrefixed(e.noticeText, b4);
    ReadBlockOfPrefixed(e.authorizationText, fields);
    ReadFieldsOfFields(e.fields);
  }

  /** Two inputs hash the same bytes exactly when their canonicalized components agree; null is not "". */
  lemma PreimageUnambiguous(nfc: Normalizer, a: HashInput, b: HashInput)
    requires KeepsWellFormed(nfc)
    requires Preimage(nfc, a).Ok? && Preimage(nfc, b).Ok?
    ensures Preimage(nfc, a) == Preimage(nfc, b) <==> CanonicalEvidence(nfc, a) == CanonicalEvidence(nfc, b)
  {
    EvidenceEncodable(nfc, a);
    EvidenceEncodable(nfc, b);
    DecodeOfLayout(CanonicalEvidence(nfc, a).value);
    DecodeOfLayout(CanonicalEvidence(nfc, b).value);
  }

  // ---------------------------------------------------------------- what is hashed, field by field

  predicate IsCanonical(nfc: Normalizer, value: JsString, text: seq<CodeUnit>) { Canonicalize(nfc, value) == Ok(text) }

  predicate IsToken(nfc: Normalizer, value: JsString, token: seq<CodeUnit>) {
    IsCanonical(nfc, value, token) && |token| > 0 && forall i :: 0 <= i < |token| ==> token[i] != 0
  }

  predicate IsField(nfc: Normalizer, value: Option<JsString>, field: Option<seq<CodeUnit>>) {
    value.Some? == field.Some? && (value.Some? ==> IsCanonical(nfc, value.value, field.value))
  }

  lemma {:induction false} FieldsExact(nfc: Normalizer, values: seq<Option<JsString>>, fields: seq<Option<seq<CodeUnit>>>)
    ensures CanonicalFields(nfc, values) == Ok(fields) <==>
            |values| == |fields| && forall i :: 0 <= i < |values| ==> IsField(nfc, values[i], fields[i])
    decreases |values|
  {
    if values != [] && fields != [] {
      FieldsExact(nfc, values[1..], fields[1..]);
      assert fields == [fields[0]] + fields[1..];
      assert forall i :: 0 <= i < |values[1..]| ==> values[1..][i] == values[i + 1];
      assert forall i :: 1 <= i < |values| ==> values[i] == values[1..][i - 1];
      if |values| == |fields| {
        assert forall i :: 1 <= i < |fields| ==> fields[i] == fields[1..][i - 1];
      }
    }
  }

  /** The evidence of an input: every text in canonical form, the three tokens not empty and without U+0000, the five notice
      fields in their order, null staying null. */
  lemma EvidenceExact(nfc: Normalizer, q: HashInput, e: Evidence)
    ensures CanonicalEvidence(nfc, q) == Ok(e) <==>
            && IsToken(nfc, q.purposeCode, e.purposeCode) && IsToken(nfc, q.privacyNoticeVersion, e.privacyNoticeVersion)
            && IsToken(nfc, q.authorizationTextVersion, e.authorizationTextVersion)
            && IsCanonical(nfc, q.noticeText, e.noticeText) && IsCanonical(nfc, q.authorizationText, e.authorizationText)
            && |e.fields| == 5 && IsField(nfc, q.snapshot.legalName, e.fields[0]) && IsField(nfc, q.snapshot.address, e.fields[1])
            && IsField(nfc, q.snapshot.phone, e.fields[2]) && IsField(nfc, q.snapshot.email, e.fields[3])
            && IsField(nfc, q.snapshot.rightsChannel, e.fields[4])
  {
    var values := q.snapshot.Fields();
    FieldsExact(nfc, values, e.fields);
    FiveFields(nfc, values, e.fields);
    if CanonicalFields(nfc, values).Ok? {
      FieldsExact(nfc, values, CanonicalFields(nfc, values).value);
    }
  }

  lemma FiveFields(nfc: Normalizer, values: seq<Option<JsString>>, fields: seq<Option<seq<CodeUnit>>>)
    requires |values| == 5
    ensures (|values| == |fields| && forall i :: 0 <= i < |values| ==> IsField(nfc, values[i], fields[i])) <==>
            |fields| == 5 && IsField(nfc, values[0], fields[0]) && IsField(nfc, values[1], fields[1])
            && IsField(nfc, values[2], fields[2]) && IsField(nfc, values[3], fields[3]) && IsField(nfc, values[4], fields[4])
  {
  }

  /** The bytes of a text behind their number. */
  function Block(s: seq<CodeUnit>): seq<Byte>
    requires WellFormed(s)
  {
    U64be(|Utf8Bytes(s)|) + Utf8Bytes(s)
  }

  function Tagged(f: Option<seq<CodeUnit>>): seq<Byte>
    requires f.Some? ==> WellFormed(f.value)
  {
    if f.Some? then [1] + Block(f.value) else [0]
  }

  /** The preimage, byte for byte. */
  lemma LayoutFlat(e: Evidence)
    requires Encodable(e)
    ensures AllWellFormed(e.fields)
    ensures Layout(e) ==
            HASH_DOMAIN + [0] + Utf8Bytes(e.purposeCode) + [0] + Utf8Bytes(e.privacyNoticeVersion) + [0]
            + Utf8Bytes(e.authorizationTextVersion) + [0] + Block(e.noticeText) + Block(e.authorizationText)
            + Tagged(e.fields[0]) + Tagged(e.fields[1]) + Tagged(e.fields[2]) + Tagged(e.fields[3]) + Tagged(e.fields[4])
  {
    FieldsFlat(e.fields);
    Flattened(HASH_DOMAIN + [0], Utf8Bytes(e.purposeCode), Utf8Bytes(e.privacyNoticeVersion), Utf8Bytes(e.authorizationTextVersion),
              Block(e.noticeText), Block(e.authorizationText), SnapshotFields(e.fields));
    Associate(HASH_DOMAIN + [0] + Utf8Bytes(e.purposeCode) + [0] + Utf8Bytes(e.privacyNoticeVersion) + [0]
              + Utf8Bytes(e.authorizationTextVersion) + [0] + Block(e.noticeText) + Block(e.authorizationText),
              Tagged(e.fields[0]), Tagged(e.fields[1]), Tagged(e.fields[2]), Tagged(e.fields[3]), Tagged(e.fields[4]));
  }

  lemma FieldsFlat(fs: seq<Option<seq<CodeUnit>>>)
    requires |fs| == 5 && AllWellFormed(fs)
    ensures SnapshotFields(fs) == Tagged(fs[0]) + Tagged(fs[1]) + Tagged(fs[2]) + Tagged(fs[3]) + Tagged(fs[4])
  {
    forall i | 0 <= i < 5 ensures SnapshotField(fs[i]) == Tagged(fs[i]) {
    }
    assert SnapshotFields(fs[4..]) == Tagged(fs[4]) by { assert fs[4..][1..] == []; }
    assert SnapshotFields(fs[3..]) == Tagged(fs[3]) + SnapshotFields(fs[4..]) by { assert fs[3..][1..] == fs[4..]; }
    assert SnapshotFields(fs[2..]) == Tagged(fs[2]) + SnapshotFields(fs[3..]) by { assert fs[2..][1..] == fs[3..]; }
    assert SnapshotFields(fs[1..]) == Tagged(fs[1]) + SnapshotFields(fs[2..]) by { assert fs[1..][1..] == fs[2..]; }
    Associate([], Tagged(fs[0]), Tagged(fs[1]), Tagged(fs[2]), Tagged(fs[3]), Tagged(fs[4]));
  }

  lemma Associate(x: seq<Byte>, a: seq<Byte>, b: seq<Byte>, c: seq<Byte>, d: seq<Byte>, e: seq<Byte>)
    ensures x + (a + b + c + d + e) == x + a + b + c + d + e
    ensures a + (b + (c + (d + e))) == a + b + c + d + e
  {
  }

  lemma Flattened(x: seq<Byte>, a: seq<Byte>, b: seq<Byte>, c: seq<Byte>, d: seq<Byte>, e: seq<Byte>, f: seq<Byte>)
    ensures x + ((a + [0]) + ((b + [0]) + ((c + [0]) + (d + (e + f))))) == x + a + [0] + b + [0] + c + [0] + d + e + f
  {
  }

  // ---------------------------------------------------------------- a second canonicalization

  /** NFC facts about stability: idempotent, never introduces CR, leaves a leading U+FEFF where it is and puts none there. */
  ghost predicate StableNormalizer(nfc: Normalizer) {
    && KeepsWellFormed(nfc)
    && (forall s: JsString :: nfc(nfc(s)) == nfc(s))
    && (forall s: JsString :: CR !in s ==> CR !in nfc(s))
    && (forall s: JsString :: s != [] && s[0] == BYTE_ORDER_MARK ==> nfc(s) == [BYTE_ORDER_MARK] + nfc(s[1..]))
    && (forall s: JsString :: nfc(s) != [] && nfc(s)[0] == BYTE_ORDER_MARK ==> s != [] && s[0] == BYTE_ORDER_MARK)
  }

  /** The facts agree with each other: on text that is in normal form already, NFC is the identity. */
  lemma IdentityIsStable()
    ensures StableNormalizer((s: JsString) => s)
  {
    var identity: Normalizer := (s: JsString) => s;
    forall s: JsString | s != [] && s[0] == BYTE_ORDER_MARK ensures identity(s) == [BYTE_ORDER_MARK] + identity(s[1..]) {
    }
  }

  lemma {:induction false} NewlinesFixed(s: seq<CodeUnit>)
    requires CR !in s
    ensures NormalizeNewlines(s) == s
  {
    if s != [] {
      NewlinesFixed(s[1..]);
    }
  }

  predicate StartsWithTwoMarks(value: JsString) { |value| >= 2 && value[0] == value[1] == BYTE_ORDER_MARK }

  /** The canonical form starts with a mark exactly when the text starts with two. */
  lemma MarkLeft(nfc: Normalizer, value: JsString)
    requires StableNormalizer(nfc) && WellFormed(value)
    ensures var once := Canonicalize(nfc, value).value;
            once != [] && once[0] == BYTE_ORDER_MARK <==> StartsWithTwoMarks(value)
  {
    var stripped := StripBom(value);
    var lines: JsString := NormalizeNewlines(stripped);
    assert lines != [] && lines[0] == BYTE_ORDER_MARK <==> stripped != [] && stripped[0] == BYTE_ORDER_MARK;
    if lines != [] && lines[0] == BYTE_ORDER_MARK {
      assert nfc(lines) == [BYTE_ORDER_MARK] + nfc(lines[1..]);
    }
  }

  /** Canonicalizing twice changes nothing exactly when the text does not start with two byte order marks. */
  lemma CanonicalizeTwice(nfc: Normalizer, value: JsString)
    requires StableNormalizer(nfc) && WellFormed(value)
    ensures Canonicalize(nfc, value).Ok?
    ensures var once := Canonicalize(nfc, value).value;
            Canonicalize(nfc, once) == Ok(once) <==> !StartsWithTwoMarks(value)
  {
    CanonicalIsWellFormed(nfc, value);
    MarkLeft(nfc, value);
    var once := Canonicalize(nfc, value).value;
    NewlinesFixed(StripBom(once));
    if once != [] && once[0] == BYTE_ORDER_MARK {
      var tail: JsString := once[1..];
      assert nfc(once) == [BYTE_ORDER_MARK] + nfc(tail);
      assert |nfc(once)| == 1 + |nfc(tail)|;
      assert nfc(once) == once;
    }
  }

  /** The failing family is real: text that starts with two marks. */
  lemma TwoBomsAreNotCanonical(nfc: Normalizer)
    requires StableNormalizer(nfc)
    ensures var text: JsString := [BYTE_ORDER_MARK, BYTE_ORDER_MARK];
            Canonicalize(nfc, text).Ok?
            && Canonicalize(nfc, Canonicalize(nfc, text).value) != Canonicalize(nfc, text)
  {
    var text: JsString := [BYTE_ORDER_MARK, BYTE_ORDER_MARK];
    assert Scalars(text[1..][1..]) == Some([]);
    assert text[1..] == [BYTE_ORDER_MARK];
    assert Scalars(text[1..]).Some?;
    assert WellFormed(text);
    CanonicalizeTwice(nfc, text);
  }
}
