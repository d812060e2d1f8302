/** The offline privacy-notice bundle (src/privacy/notice-bundle.ts): base64url(payload) "." base64url(MAC).
    HMAC, JSON text and date text are parameters gathered in `Primitives`; each theorem names what it assumes of them. */
module NoticeBundle {
  import opened Prelude
  import opened UnicodeText
  import opened CanonicalText
  import Base64Url

  const MAX_BUNDLE_LENGTH := 256 * 1024
  const MAC_BYTES := 32
  const MIN_KEY_BYTES := 32
  const MAX_FIELD_LENGTH := 1000
  const DOT: CodeUnit := 46

  /** The object names a payload uses; every other name is `Other`. */
  datatype Name = Authorizations | ControllerNoticeSnapshot | ExpiresAt | Format | IssuedAt | KeyVersion | NoticeText
                | PrivacyNoticeVersion | TenantId | PurposeCode | AuthorizationTextVersion | Text
                | LegalName | Address | Phone | Email | RightsChannel | Other(name: JsString)

  /** A parsed JSON value; a number is known by the bits of its double. */
  datatype Json = Null | Bool(b: bool) | Number(bits: nat) | Str(s: JsString) | Arr(items: seq<Json>)
                | Obj(members: map<Name, Json>)

  function Ascii(s: string): JsString
    requires |s| <= 100
  {
    seq(|s|, i requires 0 <= i < |s| => CodeOf(s[i]))
  }

  function CodeOf(c: char): CodeUnit { if c < 128 as char then c as int else 0 }

  const FORMAT: JsString := Ascii("tallermecario.privacy_notice_bundle.v1")

  const PURPOSES: seq<JsString> := [
    Ascii("service_provision"), Ascii("service_notifications_whatsapp"), Ascii("appointment_reminders"),
    Ascii("marketing"), Ascii("image_use")]

  datatype Rejection = Malformed | MacMismatch | PayloadInvalid | KeyVersionMismatch | TenantMismatch
                     | NotValidNow | CatalogMismatch

  datatype IssueError = DocumentVersionNotAvailable | NoticeNotConfigured | InvalidTime | KeyVersionUnknown

  datatype Authorization = Authorization(purposeCode: JsString, version: JsString, text: JsString)

  datatype Payload = Payload(format: JsString, keyVersion: JsString, tenantId: JsString,
                             privacyNoticeVersion: JsString, noticeText: JsString,
                             authorizations: seq<Authorization>, snapshot: Snapshot,
                             issuedAt: JsString, expiresAt: JsString)

  datatype Primitives = Primitives(
    mac: (seq<Byte>, seq<Byte>) -> seq<Byte>,
    stringify: Json -> seq<Byte>,
    parse: seq<Byte> -> Option<Json>,
    nfc: Normalizer,
    isUuid: JsString -> bool,
    isInstant: JsString -> bool,
    parseDate: JsString -> int,
    toIso: int -> JsString)
  {
    /** MACs are 32 bytes. */
    ghost predicate MacLaw() { forall k, p :: |mac(k, p)| == MAC_BYTES }

    /** The JSON text of a value reads back as that value. */
    predicate TextLaw(j: Json) { stringify(j) != [] && parse(stringify(j)) == Some(j) }

    /** The ISO instant of a time reads back as that time. */
    predicate TimeLaw(t: int) { parseDate(toIso(t)) == t }
  }

  // ---------------------------------------------------------------- key ring and catalog

  datatype KeyEntry = KeyEntry(version: JsString, key: seq<Byte>)

  /** The ring in insertion order, as its constructor leaves it: versions distinct, keys long enough, not empty.
      Two versions may carry equal key bytes. */
  ghost predicate ValidRing(ring: seq<KeyEntry>) {
    && ring != []
    && (forall i :: 0 <= i < |ring| ==> |ring[i].key| >= MIN_KEY_BYTES)
    && forall i, j :: 0 <= i < j < |ring| ==> ring[i].version != ring[j].version
  }

  /** The index of a version in the ring, or the ring's length when it is unknown. */
  function Position(ring: seq<KeyEntry>, version: JsString): (k: nat)
    ensures k <= |ring| && (k < |ring| ==> ring[k].version == version)
    ensures forall i :: 0 <= i < k ==> ring[i].version != version
  {
    if ring == [] || ring[0].version == version then 0 else 1 + Position(ring[1..], version)
  }

  datatype Catalog = Catalog(notices: map<JsString, JsString>, authorizations: map<(JsString, JsString), JsString>)
  {
    function NoticeText(version: JsString): Option<JsString> {
      if version in notices then Some(notices[version]) else None
    }

    function AuthorizationText(purpose: JsString, version: JsString): Option<JsString> {
      if (purpose, version) in authorizations then Some(authorizations[(purpose, version)]) else None
    }

    /** Every published entry has a well-shaped version, and its purpose is declared. */
    ghost predicate Published() {
      && (forall v :: v in notices ==> IsVersion(v))
      && forall k :: k in authorizations ==> k.0 in PURPOSES && IsVersion(k.1)
    }
  }

  predicate IsAlphanumeric(u: CodeUnit) { 48 <= u <= 57 || 65 <= u <= 90 || 97 <= u <= 122 }

  /** One to forty characters, alphanumeric at both ends, with '.', '_' and '-' allowed between. */
  predicate IsVersion(v: JsString) {
    && 1 <= |v| <= 40 && IsAlphanumeric(v[0]) && IsAlphanumeric(v[|v| - 1])
    && forall i :: 0 <= i < |v| ==> IsAlphanumeric(v[i]) || v[i] in {45, 46, 95}
  }

  predicate LetterOrDigit(u: CodeUnit) {
    ('a' as int <= u <= 'z' as int) || ('A' as int <= u <= 'Z' as int) || ('0' as int <= u <= '9' as int)
  }

  predicate Joiner(u: CodeUnit) { u == '.' as int || u == '_' as int || u == '-' as int }

  /** A version is one letter or digit, or two of them around at most 38 of letters, digits and joiners. */
  lemma VersionExact(v: JsString)
    ensures IsVersion(v) <==>
            (|v| == 1 && LetterOrDigit(v[0])) ||
            exists head: CodeUnit, middle: seq<CodeUnit>, tail: CodeUnit ::
              v == [head] + middle + [tail] && LetterOrDigit(head) && LetterOrDigit(tail) && VersionMiddle(middle)
  {
    if IsVersion(v) && |v| > 1 {
      var middle := v[1..|v| - 1];
      assert v == [v[0]] + middle + [v[|v| - 1]];
      assert VersionMiddle(middle);
    }
    forall head: CodeUnit, middle: seq<CodeUnit>, tail: CodeUnit |
      v == [head] + middle + [tail] && LetterOrDigit(head) && LetterOrDigit(tail) && VersionMiddle(middle)
      ensures IsVersion(v)
    {
      forall i | 0 <= i < |v| ensures IsAlphanumeric(v[i]) || v[i] in {45, 46, 95} {
        if 0 < i < |v| - 1 {
          assert v[i] == middle[i - 1];
        }
      }
    }
  }

  predicate VersionMiddle(s: seq<CodeUnit>) { |s| <= 38 && forall i :: 0 <= i < |s| ==> LetterOrDigit(s[i]) || Joiner(s[i]) }

  // ---------------------------------------------------------------- snapshot

  /** White space and line terminators of ECMAScript, sections 12.2 and 12.3. */
  predicate IsWhite(u: int) {
    || 9 <= u <= 13 || u == 32 || u == 0xA0 || u == 0xFEFF || u == 0x1680 || 0x2000 <= u <= 0x200A
    || u == 0x2028 || u == 0x2029 || u == 0x202F || u == 0x205F || u == 0x3000
  }

  predicate Trimmed(s: JsString) { s == [] || (!IsWhite(s[0]) && !IsWhite(s[|s| - 1])) }

  /** A field that equals its own required form: canonical, trimmed, one to a thousand units. */
  predicate ExactField(nfc: Normalizer, f: Option<JsString>, nullable: bool) {
    match f
    case None => nullable
    case Some(s) => Canonicalize(nfc, s) == Ok(s) && Trimmed(s) && 0 < |s| <= MAX_FIELD_LENGTH
  }

  predicate ValidSnapshot(nfc: Normalizer, s: Snapshot) {
    && ExactField(nfc, s.legalName, false) && ExactField(nfc, s.address, false)
    && ExactField(nfc, s.rightsChannel, false) && ExactField(nfc, s.phone, true) && ExactField(nfc, s.email, true)
    && (s.phone.Some? || s.email.Some?)
  }

  function FieldJson(f: Option<JsString>): Json { match f case None => Null case Some(s) => Str(s) }

  function SnapshotJson(s: Snapshot): Json {
    Obj(map[LegalName := FieldJson(s.legalName), Address := FieldJson(s.address), Phone := FieldJson(s.phone),
            Email := FieldJson(s.email), RightsChannel := FieldJson(s.rightsChannel)])
  }

  /** Null or a string; anything else is not a snapshot field. */
  function JsonField(j: Json): Option<Option<JsString>> {
    match j case Null => Some(None) case Str(s) => Some(Some(s)) case _ => None
  }

  const SNAPSHOT_KEYS: set<Name> := {LegalName, Address, Phone, Email, RightsChannel}

  /** The five fields of a JSON snapshot, before they are checked. */
  function ReadSnapshot(j: Json): Option<Snapshot> {
    if !j.Obj? || j.members.Keys != SNAPSHOT_KEYS then None
    else
      var l, a, p, e, r := JsonField(j.members[LegalName]), JsonField(j.members[Address]),
        JsonField(j.members[Phone]), JsonField(j.members[Email]), JsonField(j.members[RightsChannel]);
      if l.None? || a.None? || p.None? || e.None? || r.None? then None
      else Some(Snapshot(l.value, a.value, p.value, e.value, r.value))
  }

  function ParseSnapshot(nfc: Normalizer, j: Json): Option<Snapshot> {
    var s := ReadSnapshot(j);
    if s.Some? && ValidSnapshot(nfc, s.value) then s else None
  }

  lemma SnapshotRoundTrip(s: Snapshot)
    ensures ReadSnapshot(SnapshotJson(s)) == Some(s)
  {
    assert SnapshotJson(s).members.Keys == SNAPSHOT_KEYS;
  }

  // ---------------------------------------------------------------- payload

  function AuthorizationJson(a: Authorization): Json {
    Obj(map[PurposeCode := Str(a.purposeCode), AuthorizationTextVersion := Str(a.version), Text := Str(a.text)])
  }

  function AuthorizationsJson(s: seq<Authorization>): seq<Json> {
    if s == [] then [] else [AuthorizationJson(s[0])] + AuthorizationsJson(s[1..])
  }

  function PayloadJson(p: Payload): Json {
    Obj(map[Format := Str(p.format), KeyVersion := Str(p.keyVersion), TenantId := Str(p.tenantId),
            PrivacyNoticeVersion := Str(p.privacyNoticeVersion), NoticeText := Str(p.noticeText),
            Authorizations := Arr(AuthorizationsJson(p.authorizations)),
            ControllerNoticeSnapshot := SnapshotJson(p.snapshot),
            IssuedAt := Str(p.issuedAt), ExpiresAt := Str(p.expiresAt)])
  }

  const ENTRY_KEYS: set<Name> := {PurposeCode, AuthorizationTextVersion, Text}
  const PAYLOAD_KEYS: set<Name> := {Authorizations, ControllerNoticeSnapshot, ExpiresAt, Format, IssuedAt,
                                      KeyVersion, NoticeText, PrivacyNoticeVersion, TenantId}

  function ParseEntry(j: Json): Option<Authorization> {
    if !j.Obj? || j.members.Keys != ENTRY_KEYS then None
    else
      var p, v, t := j.members[PurposeCode], j.members[AuthorizationTextVersion], j.members[Text];
      if p.Str? && p.s in PURPOSES && v.Str? && IsVersion(v.s) && t.Str? then Some(Authorization(p.s, v.s, t.s))
      else None
  }

  /** Entries in order; a purpose already in `seen` is refused. */
  function ParseEntries(items: seq<Json>, seen: set<JsString>): Option<seq<Authorization>> {
    if items == [] then Some([])
    else match ParseEntry(items[0])
      case None => None
      case Some(a) =>
        if a.purposeCode in seen then None
        else match ParseEntries(items[1..], seen + {a.purposeCode})
          case None => None
          case Some(rest) => Some([a] + rest)
  }

  method ParseAuthorizations(items: seq<Json>) returns (r: Option<seq<Authorization>>)
    ensures r == ParseEntries(items, {})
  {
    var purposes: set<JsString> := {};
    var authorizations: seq<Authorization> := [];
    var i := 0;
    assert items[0..] == items;
    if ParseEntries(items, {}).Some? {
      assert [] + ParseEntries(items, {}).value == ParseEntries(items, {}).value;
    }
    while i < |items|
      invariant 0 <= i <= |items|
      invariant match ParseEntries(items[i..], purposes)
                case None => ParseEntries(items, {}) == None
                case Some(rest) => ParseEntries(items, {}) == Some(authorizations + rest)
    {
      assert items[i..][1..] == items[i + 1..];
      var entry := ParseEntry(items[i]);
      if entry.None? || entry.value.purposeCode in purposes {
        return None;
      }
      purposes := purposes + {entry.value.purposeCode};
      ghost var rest := ParseEntries(items[i + 1..], purposes);
      if rest.Some? {
        assert authorizations + ([entry.value] + rest.value) == authorizations + [entry.value] + rest.value;
      }
      authorizations := authorizations + [entry.value];
      i := i + 1;
    }
    assert items[i..] == [];
    assert authorizations + [] == authorizations;
    r := Some(authorizations);
  }

  /** A payload object of the right names and JSON types; its entries and snapshot still unread. */
  datatype RawPayload = RawPayload(format: JsString, keyVersion: JsString, tenantId: JsString,
                                   privacyNoticeVersion: JsString, noticeText: JsString, items: seq<Json>,
                                   snapshot: Json, issuedAt: JsString, expiresAt: JsString)

  function ReadPayload(j: Json): Option<RawPayload> {
    if !j.Obj? || j.members.Keys != PAYLOAD_KEYS then None
    else
      var m := j.members;
      if !(m[Format].Str? && m[KeyVersion].Str? && m[TenantId].Str? && m[PrivacyNoticeVersion].Str?
           && m[NoticeText].Str? && m[IssuedAt].Str? && m[ExpiresAt].Str? && m[Authorizations].Arr?) then None
      else Some(RawPayload(m[Format].s, m[KeyVersion].s, m[TenantId].s, m[PrivacyNoticeVersion].s, m[NoticeText].s,
                           m[Authorizations].items, m[ControllerNoticeSnapshot], m[IssuedAt].s, m[ExpiresAt].s))
  }

  /** The strict reading of an authenticated JSON value. */
  function ParsePayload(prim: Primitives, j: Json): Option<Payload> {
    match ReadPayload(j)
    case None => None
    case Some(raw) =>
      var snapshot, entries := ParseSnapshot(prim.nfc, raw.snapshot), ParseEntries(raw.items, {});
      if raw.format == FORMAT && prim.isUuid(raw.tenantId) && IsVersion(raw.privacyNoticeVersion)
         && prim.isInstant(raw.issuedAt) && prim.isInstant(raw.expiresAt) && raw.items != []
         && snapshot.Some? && entries.Some?
      then Some(Payload(FORMAT, raw.keyVersion, raw.tenantId, raw.privacyNoticeVersion, raw.noticeText,
                        entries.value, snapshot.value, raw.issuedAt, raw.expiresAt))
      else None
  }

  ghost predicate ValidEntries(s: seq<Authorization>, seen: set<JsString>) {
    && (forall i :: 0 <= i < |s| ==> s[i].purposeCode in PURPOSES && s[i].purposeCode !in seen && IsVersion(s[i].version))
    && forall i, j :: 0 <= i < j < |s| ==> s[i].purposeCode != s[j].purposeCode
  }

  /** The payloads whose JSON form reads back: each purpose once, all shapes strict. */
  ghost predicate ValidPayload(prim: Primitives, p: Payload) {
    && p.format == FORMAT && prim.isUuid(p.tenantId) && IsVersion(p.privacyNoticeVersion)
    && prim.isInstant(p.issuedAt) && prim.isInstant(p.expiresAt)
    && p.authorizations != [] && ValidEntries(p.authorizations, {}) && ValidSnapshot(prim.nfc, p.snapshot)
  }

  lemma ValidEntriesStep(s: seq<Authorization>, seen: set<JsString>)
    requires s != []
    ensures ValidEntries(s, seen) <==>
            s[0].purposeCode in PURPOSES && s[0].purposeCode !in seen && IsVersion(s[0].version)
            && ValidEntries(s[1..], seen + {s[0].purposeCode})
  {
    assert forall i :: 0 <= i < |s[1..]| ==> s[1..][i] == s[i + 1];
    if ValidEntries(s[1..], seen + {s[0].purposeCode}) {
      forall i | 0 < i < |s|
        ensures s[i].purposeCode in PURPOSES && s[i].purposeCode !in seen + {s[0].purposeCode} && IsVersion(s[i].version)
      {
        assert s[i] == s[1..][i - 1];
      }
      forall i, j | 0 < i < j < |s| ensures s[i].purposeCode != s[j].purposeCode {
        assert s[i] == s[1..][i - 1] && s[j] == s[1..][j - 1];
      }
    }
  }

  lemma EntryRoundTrip(a: Authorization)
    ensures ParseEntry(AuthorizationJson(a)) == if a.purposeCode in PURPOSES && IsVersion(a.version) then Some(a) else None
  {
    assert AuthorizationJson(a).members.Keys == ENTRY_KEYS;
  }

  /** Reading a row of entries is reading the first and then the others. */
  lemma ParseEntriesNext(first: Json, rest: seq<Json>, seen: set<JsString>)
    ensures var a := ParseEntry(first);
            ParseEntries([first] + rest, seen) ==
            if a.None? || a.value.purposeCode in seen then None
            else match ParseEntries(rest, seen + {a.value.purposeCode}) case None => None case Some(s) => Some([a.value] + s)
  {
    assert ([first] + rest)[1..] == rest;
  }

  lemma {:induction false} EntriesRoundTrip(s: seq<Authorization>, seen: set<JsString>)
    ensures ParseEntries(AuthorizationsJson(s), seen) == if ValidEntries(s, seen) then Some(s) else None
    decreases |s|
  {
    if s != [] {
      EntryRoundTrip(s[0]);
      ParseEntriesNext(AuthorizationJson(s[0]), AuthorizationsJson(s[1..]), seen);
      ValidEntriesStep(s, seen);
      EntriesRoundTrip(s[1..], seen + {s[0].purposeCode});
      assert s == [s[0]] + s[1..];
    }
  }

  lemma ReadPayloadOfJson(p: Payload)
    ensures ReadPayload(PayloadJson(p)) ==
            Some(RawPayload(p.format, p.keyVersion, p.tenantId, p.privacyNoticeVersion, p.noticeText,
                            AuthorizationsJson(p.authorizations), SnapshotJson(p.snapshot), p.issuedAt, p.expiresAt))
  {
    assert PayloadJson(p).members.Keys == PAYLOAD_KEYS;
  }

  lemma PayloadRoundTrip(prim: Primitives, p: Payload)
    ensures ParsePayload(prim, PayloadJson(p)) == Some(p) <==> ValidPayload(prim, p)
    ensures ParsePayload(prim, PayloadJson(p)).Some? ==> ParsePayload(prim, PayloadJson(p)) == Some(p)
  {
    ReadPayloadOfJson(p);
    SnapshotRoundTrip(p.snapshot);
    EntriesRoundTrip(p.authorizations, {});
    assert p.authorizations != [] <==> AuthorizationsJson(p.authorizations) != [];
  }

  lemma SnapshotExact(j: Json, s: Snapshot)
    ensures ReadSnapshot(j) == Some(s) <==> j == SnapshotJson(s)
  {
    SnapshotRoundTrip(s);
    if ReadSnapshot(j) == Some(s) {
      forall k | k in SNAPSHOT_KEYS ensures j.members[k] == SnapshotJson(s).members[k] {
      }
      assert j.members == SnapshotJson(s).members;
    }
  }

  lemma EntryExact(j: Json, a: Authorization)
    ensures ParseEntry(j) == Some(a) <==> a.purposeCode in PURPOSES && IsVersion(a.version) && j == AuthorizationJson(a)
  {
    assert AuthorizationJson(a).members.Keys == ENTRY_KEYS;
    if ParseEntry(j) == Some(a) {
      forall k | k in ENTRY_KEYS ensures j.members[k] == AuthorizationJson(a).members[k] {
      }
      assert j.members == AuthorizationJson(a).members;
    }
  }

  lemma {:induction false} EntriesExact(items: seq<Json>, seen: set<JsString>, s: seq<Authorization>)
    ensures ParseEntries(items, seen) == Some(s) <==> ValidEntries(s, seen) && items == AuthorizationsJson(s)
  {
    EntriesRoundTrip(s, seen);
    if ParseEntries(items, seen) == Some(s) && items != [] {
      EntriesExact(items[1..], seen + {s[0].purposeCode}, s[1..]);
      EntryExact(items[0], s[0]);
      assert items == [items[0]] + items[1..];
    }
  }

  lemma RawExact(j: Json, raw: RawPayload)
    ensures ReadPayload(j) == Some(raw) ==>
              j == Obj(map[Format := Str(raw.format), KeyVersion := Str(raw.keyVersion), TenantId := Str(raw.tenantId),
                           PrivacyNoticeVersion := Str(raw.privacyNoticeVersion), NoticeText := Str(raw.noticeText),
                           Authorizations := Arr(raw.items), ControllerNoticeSnapshot := raw.snapshot,
                           IssuedAt := Str(raw.issuedAt), ExpiresAt := Str(raw.expiresAt)])
  {
    if ReadPayload(j) == Some(raw) {
      var m := j.members;
      var all := map[Format := Str(raw.format), KeyVersion := Str(raw.keyVersion), TenantId := Str(raw.tenantId),
                     PrivacyNoticeVersion := Str(raw.privacyNoticeVersion), NoticeText := Str(raw.noticeText),
                     Authorizations := Arr(raw.items), ControllerNoticeSnapshot := raw.snapshot,
                     IssuedAt := Str(raw.issuedAt), ExpiresAt := Str(raw.expiresAt)];
      assert all.Keys == PAYLOAD_KEYS;
      forall k | k in PAYLOAD_KEYS ensures m[k] == all[k] {
      }
      assert m == all;
    }
  }

  /** A JSON value is read as a payload exactly when it is its JSON form and the payload is valid. */
  lemma PayloadExact(prim: Primitives, j: Json, p: Payload)
    ensures ParsePayload(prim, j) == Some(p) <==> ValidPayload(prim, p) && j == PayloadJson(p)
  {
    PayloadRoundTrip(prim, p);
    if ParsePayload(prim, j) == Some(p) {
      var raw := ReadPayload(j).value;
      RawExact(j, raw);
      SnapshotExact(raw.snapshot, p.snapshot);
      EntriesExact(raw.items, {}, p.authorizations);
    }
  }

  // ---------------------------------------------------------------- envelope

  /** String.split on ".". */
  function Split(s: seq<CodeUnit>): (parts: seq<seq<CodeUnit>>)
    ensures |parts| >= 1
  {
    if s == [] then [[]]
    else if s[0] == DOT then [[]] + Split(s[1..])
    else
      var rest := Split(s[1..]);
      [[s[0]] + rest[0]] + rest[1..]
  }

  lemma {:induction false} SplitNoDot(s: seq<CodeUnit>)
    requires DOT !in s
    ensures Split(s) == [s]
  {
    if s != [] {
      SplitNoDot(s[1..]);
      assert [s[0]] + s[1..] == s;
    }
  }

  lemma {:induction false} SplitAtDot(a: seq<CodeUnit>, b: seq<CodeUnit>)
    requires DOT !in a && DOT !in b
    ensures Split(a + [DOT] + b) == [a, b]
  {
    var s := a + [DOT] + b;
    if a == [] {
      SplitNoDot(b);
      assert s[1..] == b;
    } else {
      SplitAtDot(a[1..], b);
      assert s[1..] == a[1..] + [DOT] + b;
      assert [a[0]] + a[1..] == a;
    }
  }

  lemma {:induction false} SplitJoins(s: seq<CodeUnit>)
    requires |Split(s)| <= 2
    ensures |Split(s)| == 1 ==> s == Split(s)[0]
    ensures |Split(s)| == 2 ==> s == Split(s)[0] + [DOT] + Split(s)[1]
  {
    if s != [] {
      SplitJoins(s[1..]);
      assert s == [s[0]] + s[1..];
    }
  }

  function Envelope(payload: seq<Byte>, mac: seq<Byte>): seq<CodeUnit> {
    Base64Url.Encode(payload) + [DOT] + Base64Url.Encode(mac)
  }

  /** The bytes and MAC of a well-formed envelope. */
  function OpenEnvelope(bundle: seq<CodeUnit>): Option<(seq<Byte>, seq<Byte>)> {
    if bundle == [] || |bundle| > MAX_BUNDLE_LENGTH then None
    else
      var parts := Split(bundle);
      if |parts| != 2 then None
      else
        var payload, mac := Base64Url.Decode(parts[0]), Base64Url.Decode(parts[1]);
        if payload.Some? && mac.Some? && |mac.value| == MAC_BYTES then Some((payload.value, mac.value)) else None
  }

  lemma OpenEnvelopeExact(bundle: seq<CodeUnit>, payload: seq<Byte>, mac: seq<Byte>)
    ensures OpenEnvelope(bundle) == Some((payload, mac)) <==>
            bundle == Envelope(payload, mac) && payload != [] && |mac| == MAC_BYTES && |bundle| <= MAX_BUNDLE_LENGTH
  {
    if |Split(bundle)| == 2 {
      SplitJoins(bundle);
      Base64Url.DecodeBijection(Split(bundle)[0], payload);
      Base64Url.DecodeBijection(Split(bundle)[1], mac);
    }
    var a, b := Base64Url.Encode(payload), Base64Url.Encode(mac);
    Base64Url.EncodeIsSymbols(payload);
    Base64Url.EncodeIsSymbols(mac);
    SplitAtDot(a, b);
    Base64Url.DecodeBijection(a, payload);
    Base64Url.DecodeBijection(b, mac);
  }

  // ---------------------------------------------------------------- issue

  datatype Request = Request(keyVersion: JsString, tenantId: JsString, privacyNoticeVersion: JsString,
                             authorizations: seq<(JsString, JsString)>, snapshot: Snapshot, issuedAt: int, expiresAt: int)

  // ECMAScript, section 21.4.1.1: the times a Date can hold. Any other number stands for an invalid date.
  const MAX_TIME := 8_640_000_000_000_000

  predicate IsTime(t: int) { -MAX_TIME <= t <= MAX_TIME }

  function ResolveTexts(c: Catalog, wanted: seq<(JsString, JsString)>): Option<seq<Authorization>> {
    if wanted == [] then Some([])
    else match c.AuthorizationText(wanted[0].0, wanted[0].1)
      case None => None
      case Some(text) =>
        match ResolveTexts(c, wanted[1..])
        case None => None
        case Some(rest) => Some([Authorization(wanted[0].0, wanted[0].1, text)] + rest)
  }

  /** The payload an issue request stands for; its texts come from the catalog only. */
  function IssuedPayload(prim: Primitives, c: Catalog, q: Request): Result<Payload, IssueError> {
    match c.NoticeText(q.privacyNoticeVersion)
    case None => Err(DocumentVersionNotAvailable)
    case Some(notice) =>
      match ResolveTexts(c, q.authorizations)
      case None => Err(DocumentVersionNotAvailable)
      case Some(entries) =>
        if !ValidSnapshot(prim.nfc, q.snapshot) then Err(NoticeNotConfigured)
        else if !IsTime(q.issuedAt) || !IsTime(q.expiresAt) then Err(InvalidTime)
        else Ok(Payload(FORMAT, q.keyVersion, q.tenantId, q.privacyNoticeVersion, notice, entries, q.snapshot,
                        prim.toIso(q.issuedAt), prim.toIso(q.expiresAt)))
  }

  function PayloadBytes(prim: Primitives, p: Payload): seq<Byte> { prim.stringify(PayloadJson(p)) }

  function Issue(prim: Primitives, ring: seq<KeyEntry>, c: Catalog, q: Request): Result<seq<CodeUnit>, IssueError> {
    match IssuedPayload(prim, c, q)
    case Err(e) => Err(e)
    case Ok(p) =>
      var k := Position(ring, p.keyVersion);
      if k == |ring| then Err(KeyVersionUnknown)
      else
        var bytes := PayloadBytes(prim, p);
        Ok(Envelope(bytes, prim.mac(ring[k].key, bytes)))
  }

  // ---------------------------------------------------------------- verify

  /** What the verifier is configured with. */
  datatype Policy = Policy(ring: seq<KeyEntry>, catalog: Catalog, expectedTenantId: JsString,
                           validity: (int, int, int) -> bool, now: int)

  /** The first ring version whose MAC of the bytes equals the received one. */
  function FirstMatch(prim: Primitives, ring: seq<KeyEntry>, bytes: seq<Byte>, mac: seq<Byte>): Option<JsString> {
    if ring == [] then None
    else if prim.mac(ring[0].key, bytes) == mac then Some(ring[0].version)
    else FirstMatch(prim, ring[1..], bytes, mac)
  }

  predicate TextsMatch(c: Catalog, s: seq<Authorization>) {
    forall i :: 0 <= i < |s| ==> c.AuthorizationText(s[i].purposeCode, s[i].version) == Some(s[i].text)
  }

  /** The checks of a payload that was authenticated under a version, in turn. */
  function Judged(prim: Primitives, p: Payload, version: JsString, o: Policy): (r: Result<Payload, Rejection>)
    ensures r.Err? ==> r.error in {KeyVersionMismatch, TenantMismatch, NotValidNow, CatalogMismatch}
  {
    var issued, expires := prim.parseDate(p.issuedAt), prim.parseDate(p.expiresAt);
    if p.keyVersion != version then Err(KeyVersionMismatch)
    else if p.tenantId != o.expectedTenantId then Err(TenantMismatch)
    else if !(issued < expires && o.validity(issued, expires, o.now)) then Err(NotValidNow)
    else if o.catalog.NoticeText(p.privacyNoticeVersion) != Some(p.noticeText) then Err(CatalogMismatch)
    else if !TextsMatch(o.catalog, p.authorizations) then Err(CatalogMismatch)
    else Ok(p)
  }

  function Verification(prim: Primitives, bundle: seq<CodeUnit>, o: Policy): Result<Payload, Rejection> {
    match OpenEnvelope(bundle)
    case None => Err(Malformed)
    case Some((bytes, mac)) =>
      match FirstMatch(prim, o.ring, bytes, mac)
      case None => Err(MacMismatch)
      case Some(version) =>
        var parsed := match prim.parse(bytes) case None => None case Some(j) => ParsePayload(prim, j);
        match parsed case None => Err(PayloadInvalid) case Some(p) => Judged(prim, p, version, o)
  }

  /** Checks the MAC under every ring version, without an early exit. */
  method MatchVersion(prim: Primitives, ring: seq<KeyEntry>, bytes: seq<Byte>, mac: seq<Byte>)
    returns (matchedVersion: Option<JsString>)
    ensures matchedVersion == FirstMatch(prim, ring, bytes, mac)
  {
    matchedVersion := None;
    var i := 0;
    while i < |ring|
      invariant 0 <= i <= |ring|
      invariant FirstMatch(prim, ring, bytes, mac) ==
                if matchedVersion.Some? then matchedVersion else FirstMatch(prim, ring[i..], bytes, mac)
    {
      assert ring[i..][1..] == ring[i + 1..];
      if prim.mac(ring[i].key, bytes) == mac && matchedVersion.None? {
        matchedVersion := Some(ring[i].version);
      }
      i := i + 1;
    }
  }

  method CheckTexts(c: Catalog, entries: seq<Authorization>) returns (ok: bool)
    ensures ok <==> TextsMatch(c, entries)
  {
    var k := 0;
    while k < |entries|
      invariant 0 <= k <= |entries|
      invariant forall n :: 0 <= n < k ==>
                  c.AuthorizationText(entries[n].purposeCode, entries[n].version) == Some(entries[n].text)
    {
      if c.AuthorizationText(entries[k].purposeCode, entries[k].version) != Some(entries[k].text) {
        return false;
      }
      k := k + 1;
    }
    ok := true;
  }

  /** Authenticates the received bytes before parsing them, then checks version, tenant, window and catalog in turn. */
  method VerifyPrivacyNoticeBundle(prim: Primitives, bundle: seq<CodeUnit>, o: Policy)
    returns (r: Result<Payload, Rejection>)
    ensures r == Verification(prim, bundle, o)
  {
    var envelope := OpenEnvelope(bundle);
    if envelope.None? {
      return Err(Malformed);
    }
    var (bytes, mac) := envelope.value;
    var matchedVersion := MatchVersion(prim, o.ring, bytes, mac);
    if matchedVersion.None? {
      return Err(MacMismatch);
    }
    var json := prim.parse(bytes);
    var payload := if json.None? then None else ParsePayload(prim, json.value);
    if payload.None? {
      return Err(PayloadInvalid);
    }
    var p := payload.value;
    if p.keyVersion != matchedVersion.value {
      return Err(KeyVersionMismatch);
    }
    if p.tenantId != o.expectedTenantId {
      return Err(TenantMismatch);
    }
    var issuedAt, expiresAt := prim.parseDate(p.issuedAt), prim.parseDate(p.expiresAt);
    if !(issuedAt < expiresAt) || !o.validity(issuedAt, expiresAt, o.now) {
      return Err(NotValidNow);
    }
    if o.catalog.NoticeText(p.privacyNoticeVersion) != Some(p.noticeText) {
      return Err(CatalogMismatch);
    }
    var published := CheckTexts(o.catalog, p.authorizations);
    if !published {
      return Err(CatalogMismatch);
    }
    r := Ok(p);
  }

  // ---------------------------------------------------------------- round trip

  lemma {:induction false} FirstMatchIs(prim: Primitives, ring: seq<KeyEntry>, bytes: seq<Byte>, mac: seq<Byte>, k: nat)
    requires forall i, j :: 0 <= i < j < |ring| ==> ring[i].version != ring[j].version
    requires k < |ring| && prim.mac(ring[k].key, bytes) == mac
    ensures FirstMatch(prim, ring, bytes, mac).Some?
    ensures FirstMatch(prim, ring, bytes, mac) == Some(ring[k].version)
            <==> forall i :: 0 <= i < k ==> prim.mac(ring[i].key, bytes) != mac
  {
    if prim.mac(ring[0].key, bytes) != mac {
      assert forall i :: 0 <= i < |ring[1..]| ==> ring[1..][i] == ring[i + 1];
      FirstMatchIs(prim, ring[1..], bytes, mac, k - 1);
      if forall i :: 0 <= i < k - 1 ==> prim.mac(ring[1..][i].key, bytes) != mac {
        forall i | 0 <= i < k ensures prim.mac(ring[i].key, bytes) != mac {
          if i > 0 {
            assert ring[i] == ring[1..][i - 1];
          }
        }
      }
    }
  }

  lemma {:induction false} ResolvedTexts(c: Catalog, wanted: seq<(JsString, JsString)>)
    requires ResolveTexts(c, wanted).Some?
    ensures TextsMatch(c, ResolveTexts(c, wanted).value)
    ensures |ResolveTexts(c, wanted).value| == |wanted|
    ensures forall i :: 0 <= i < |wanted| ==>
              ResolveTexts(c, wanted).value[i].purposeCode == wanted[i].0
              && ResolveTexts(c, wanted).value[i].version == wanted[i].1
  {
    if wanted != [] {
      ResolvedTexts(c, wanted[1..]);
      var s := ResolveTexts(c, wanted).value;
      assert forall i :: 0 < i < |s| ==> s[i] == ResolveTexts(c, wanted[1..]).value[i - 1] && wanted[i] == wanted[1..][i - 1];
    }
  }

  ghost predicate DistinctPurposes(wanted: seq<(JsString, JsString)>) {
    forall i, j :: 0 <= i < j < |wanted| ==> wanted[i].0 != wanted[j].0
  }

  /** The inputs on which an issued bundle verifies; the issuer itself checks none of them. */
  ghost predicate Acceptable(prim: Primitives, q: Request, o: Policy, bundle: seq<CodeUnit>) {
    && |bundle| <= MAX_BUNDLE_LENGTH
    && prim.isUuid(q.tenantId) && q.tenantId == o.expectedTenantId
    && q.authorizations != [] && DistinctPurposes(q.authorizations)
    && prim.isInstant(prim.toIso(q.issuedAt)) && prim.isInstant(prim.toIso(q.expiresAt))
    && q.issuedAt < q.expiresAt && o.validity(q.issuedAt, q.expiresAt, o.now)
  }

  /** No earlier ring version gives these bytes the same MAC: what equal key bytes under two versions would break. */
  ghost predicate MacIsFirst(prim: Primitives, ring: seq<KeyEntry>, version: JsString, bytes: seq<Byte>) {
    var k := Position(ring, version);
    k < |ring| && forall i :: 0 <= i < k ==> prim.mac(ring[i].key, bytes) != prim.mac(ring[k].key, bytes)
  }

  lemma IssuedPayloadValid(prim: Primitives, o: Policy, q: Request)
    requires o.catalog.Published() && IssuedPayload(prim, o.catalog, q).Ok?
    ensures var p := IssuedPayload(prim, o.catalog, q).value;
            ValidPayload(prim, p) <==>
            prim.isUuid(q.tenantId) && q.authorizations != [] && DistinctPurposes(q.authorizations)
            && prim.isInstant(prim.toIso(q.issuedAt)) && prim.isInstant(prim.toIso(q.expiresAt))
  {
    ResolvedTexts(o.catalog, q.authorizations);
    var s := IssuedPayload(prim, o.catalog, q).value.authorizations;
    forall i | 0 <= i < |s| ensures s[i].purposeCode in PURPOSES && IsVersion(s[i].version) {
      assert o.catalog.AuthorizationText(s[i].purposeCode, s[i].version).Some?;
    }
  }

  /** A key of the ring authenticates the bytes, and no earlier one does. */
  predicate Authenticates(prim: Primitives, ring: seq<KeyEntry>, i: nat, bytes: seq<Byte>, mac: seq<Byte>)
  {
    i < |ring| && prim.mac(ring[i].key, bytes) == mac && forall k :: 0 <= k < i ==> prim.mac(ring[k].key, bytes) != mac
  }

  lemma {:induction false} FirstMatchExact(prim: Primitives, ring: seq<KeyEntry>, bytes: seq<Byte>, mac: seq<Byte>) returns (i: nat)
    ensures i <= |ring| && (FirstMatch(prim, ring, bytes, mac).Some? <==> i < |ring|)
    ensures i < |ring| ==> Authenticates(prim, ring, i, bytes, mac) && FirstMatch(prim, ring, bytes, mac) == Some(ring[i].version)
    ensures i == |ring| ==> forall k :: 0 <= k < |ring| ==> prim.mac(ring[k].key, bytes) != mac
  {
    if ring == [] || prim.mac(ring[0].key, bytes) == mac {
      i := 0;
    } else {
      var j := FirstMatchExact(prim, ring[1..], bytes, mac);
      i := j + 1;
      forall k | 0 <= k < |ring| && k < i ensures prim.mac(ring[k].key, bytes) != mac {
        if k > 0 {
          assert ring[k] == ring[1..][k - 1];
        }
      }
    }
  }

  /** A payload that may be shown: valid, for this tenant, within its window, and with published texts only. */
  ghost predicate Presentable(prim: Primitives, p: Payload, o: Policy) {
    && ValidPayload(prim, p) && p.tenantId == o.expectedTenantId
    && prim.parseDate(p.issuedAt) < prim.parseDate(p.expiresAt)
    && o.validity(prim.parseDate(p.issuedAt), prim.parseDate(p.expiresAt), o.now)
    && o.catalog.NoticeText(p.privacyNoticeVersion) == Some(p.noticeText)
    && forall i :: 0 <= i < |p.authorizations| ==>
         var a := p.authorizations[i]; o.catalog.AuthorizationText(a.purposeCode, a.version) == Some(a.text)
  }

  /** The bundle is the envelope of these bytes, with the MAC of key i of the ring. */
  ghost predicate Sealed(prim: Primitives, bundle: seq<CodeUnit>, o: Policy, bytes: seq<Byte>, i: nat) {
    && i < |o.ring| && Authenticates(prim, o.ring, i, bytes, prim.mac(o.ring[i].key, bytes))
    && bytes != [] && |prim.mac(o.ring[i].key, bytes)| == MAC_BYTES && |bundle| <= MAX_BUNDLE_LENGTH
    && bundle == Envelope(bytes, prim.mac(o.ring[i].key, bytes))
  }

  lemma SealedFound(prim: Primitives, bundle: seq<CodeUnit>, o: Policy, bytes: seq<Byte>, i: nat)
    requires Sealed(prim, bundle, o, bytes, i)
    ensures OpenEnvelope(bundle) == Some((bytes, prim.mac(o.ring[i].key, bytes)))
    ensures FirstMatch(prim, o.ring, bytes, prim.mac(o.ring[i].key, bytes)) == Some(o.ring[i].version)
  {
    var mac := prim.mac(o.ring[i].key, bytes);
    OpenEnvelopeExact(bundle, bytes, mac);
    var j := FirstMatchExact(prim, o.ring, bytes, mac);
  }

  lemma JudgedExact(prim: Primitives, p: Payload, version: JsString, o: Policy)
    requires ValidPayload(prim, p)
    ensures var r := Judged(prim, p, version, o);
            (r.Ok? ==> r.value == p) && (r.Ok? <==> p.keyVersion == version && Presentable(prim, p, o))
  {
  }

  /** Reading a bundle that key i seals. */
  lemma SealedReads(prim: Primitives, bundle: seq<CodeUnit>, o: Policy, p: Payload, bytes: seq<Byte>, i: nat)
    requires Sealed(prim, bundle, o, bytes, i)
    ensures Verification(prim, bundle, o) == Ok(p) <==>
            prim.parse(bytes) == Some(PayloadJson(p)) && p.keyVersion == o.ring[i].version && Presentable(prim, p, o)
  {
    SealedFound(prim, bundle, o, bytes, i);
    if prim.parse(bytes).Some? {
      var read := ParsePayload(prim, prim.parse(bytes).value);
      PayloadExact(prim, prim.parse(bytes).value, p);
      if read.Some? {
        PayloadExact(prim, prim.parse(bytes).value, read.value);
        JudgedExact(prim, read.value, o.ring[i].version, o);
      }
    }
  }

  /** What opens and finds a key is sealed by it. */
  lemma FoundSealed(prim: Primitives, bundle: seq<CodeUnit>, o: Policy) returns (bytes: seq<Byte>, i: nat)
    requires OpenEnvelope(bundle).Some? && FirstMatch(prim, o.ring, OpenEnvelope(bundle).value.0, OpenEnvelope(bundle).value.1).Some?
    ensures Sealed(prim, bundle, o, bytes, i)
  {
    var mac := OpenEnvelope(bundle).value.1;
    bytes := OpenEnvelope(bundle).value.0;
    OpenEnvelopeExact(bundle, bytes, mac);
    i := FirstMatchExact(prim, o.ring, bytes, mac);
  }

  /** Exactly what verifies: a bundle sealed with a key of the ring, over the text of a payload that names the version of
      that key and may be shown. */
  lemma VerificationExact(prim: Primitives, bundle: seq<CodeUnit>, o: Policy, p: Payload)
    ensures Verification(prim, bundle, o) == Ok(p) <==>
            exists bytes: seq<Byte>, i: nat :: Sealed(prim, bundle, o, bytes, i) && prim.parse(bytes) == Some(PayloadJson(p))
                                               && p.keyVersion == o.ring[i].version && Presentable(prim, p, o)
  {
    if Verification(prim, bundle, o) == Ok(p) {
      var bytes, i := FoundSealed(prim, bundle, o);
      SealedReads(prim, bundle, o, p, bytes, i);
    }
    forall bytes: seq<Byte>, i: nat | Sealed(prim, bundle, o, bytes, i)
      ensures Verification(prim, bundle, o) == Ok(p) <==>
              prim.parse(bytes) == Some(PayloadJson(p)) && p.keyVersion == o.ring[i].version && Presentable(prim, p, o)
    {
      SealedReads(prim, bundle, o, p, bytes, i);
    }
  }

  /** Whatever is accepted was authenticated under its own key version and says only published text. */
  lemma AcceptedIsAuthentic(prim: Primitives, bundle: seq<CodeUnit>, o: Policy)
    requires Verification(prim, bundle, o).Ok?
    ensures var p := Verification(prim, bundle, o).value;
            && (exists bytes, i :: 0 <= i < |o.ring| && bundle == Envelope(bytes, prim.mac(o.ring[i].key, bytes))
                                   && o.ring[i].version == p.keyVersion
                                   && prim.parse(bytes).Some? && ParsePayload(prim, prim.parse(bytes).value) == Some(p))
            && p.tenantId == o.expectedTenantId
            && o.catalog.NoticeText(p.privacyNoticeVersion) == Some(p.noticeText)
            && TextsMatch(o.catalog, p.authorizations)
  {
    var p := Verification(prim, bundle, o).value;
    var bytes, i := FoundSealed(prim, bundle, o);
    SealedReads(prim, bundle, o, p, bytes, i);
    PayloadExact(prim, PayloadJson(p), p);
  }

  lemma IssuedSealed(prim: Primitives, q: Request, o: Policy, p: Payload, bundle: seq<CodeUnit>)
    requires prim.MacLaw() && prim.TextLaw(PayloadJson(p))
    requires IssuedPayload(prim, o.catalog, q) == Ok(p) && Issue(prim, o.ring, o.catalog, q) == Ok(bundle)
    ensures Sealed(prim, bundle, o, PayloadBytes(prim, p), Position(o.ring, p.keyVersion)) <==>
            |bundle| <= MAX_BUNDLE_LENGTH && MacIsFirst(prim, o.ring, p.keyVersion, PayloadBytes(prim, p))
  {
  }

  /** Another key that seals an issued bundle is of another version. */
  lemma OnlySeal(prim: Primitives, q: Request, o: Policy, p: Payload, bundle: seq<CodeUnit>, bytes: seq<Byte>, i: nat)
    requires prim.MacLaw() && ValidRing(o.ring) && prim.TextLaw(PayloadJson(p)) && Sealed(prim, bundle, o, bytes, i)
    requires IssuedPayload(prim, o.catalog, q) == Ok(p) && Issue(prim, o.ring, o.catalog, q) == Ok(bundle)
    ensures bytes == PayloadBytes(prim, p) && (i == Position(o.ring, p.keyVersion) || p.keyVersion != o.ring[i].version)
  {
    OpenEnvelopeExact(bundle, bytes, prim.mac(o.ring[i].key, bytes));
    OpenEnvelopeExact(bundle, PayloadBytes(prim, p), prim.mac(o.ring[Position(o.ring, p.keyVersion)].key, PayloadBytes(prim, p)));
  }

  /** What an issued bundle verifies to is what was issued, under the key it was issued with. */
  lemma IssuedRead(prim: Primitives, q: Request, o: Policy, p: Payload, bundle: seq<CodeUnit>, read: Payload)
    requires prim.MacLaw() && ValidRing(o.ring) && prim.TextLaw(PayloadJson(p)) && Verification(prim, bundle, o) == Ok(read)
    requires IssuedPayload(prim, o.catalog, q) == Ok(p) && Issue(prim, o.ring, o.catalog, q) == Ok(bundle)
    ensures read == p && Sealed(prim, bundle, o, PayloadBytes(prim, p), Position(o.ring, p.keyVersion))
  {
    var bytes, i := FoundSealed(prim, bundle, o);
    OnlySeal(prim, q, o, p, bundle, bytes, i);
    SealedReads(prim, bundle, o, read, bytes, i);
    PayloadExact(prim, PayloadJson(p), read);
    PayloadRoundTrip(prim, p);
  }

  lemma IssuedPresentable(prim: Primitives, q: Request, o: Policy, p: Payload, bundle: seq<CodeUnit>)
    requires o.catalog.Published() && IssuedPayload(prim, o.catalog, q) == Ok(p) && prim.TimeLaw(q.issuedAt) && prim.TimeLaw(q.expiresAt)
    ensures Acceptable(prim, q, o, bundle) <==> |bundle| <= MAX_BUNDLE_LENGTH && Presentable(prim, p, o)
  {
    IssuedPayloadValid(prim, o, q);
    ResolvedTexts(o.catalog, q.authorizations);
  }

  /** An issued bundle verifies to the issued payload exactly on the acceptable inputs, under one ring and catalog. Of the
      primitives it needs MACs of 32 bytes, and that this payload and these two times read back as they were written. */
  lemma IssuedBundleVerifies(prim: Primitives, q: Request, o: Policy)
    requires prim.MacLaw() && ValidRing(o.ring) && o.catalog.Published()
    requires Issue(prim, o.ring, o.catalog, q).Ok?
    requires prim.TextLaw(PayloadJson(IssuedPayload(prim, o.catalog, q).value))
    requires prim.TimeLaw(q.issuedAt) && prim.TimeLaw(q.expiresAt)
    ensures var bundle := Issue(prim, o.ring, o.catalog, q).value;
            var p := IssuedPayload(prim, o.catalog, q).value;
            Verification(prim, bundle, o) == Ok(p) <==>
            Acceptable(prim, q, o, bundle) && MacIsFirst(prim, o.ring, q.keyVersion, PayloadBytes(prim, p))
    ensures Verification(prim, Issue(prim, o.ring, o.catalog, q).value, o).Ok? ==>
              Verification(prim, Issue(prim, o.ring, o.catalog, q).value, o) == Ok(IssuedPayload(prim, o.catalog, q).value)
  {
    var bundle, p := Issue(prim, o.ring, o.catalog, q).value, IssuedPayload(prim, o.catalog, q).value;
    var bytes, k := PayloadBytes(prim, p), Position(o.ring, p.keyVersion);
    IssuedSealed(prim, q, o, p, bundle);
    IssuedPresentable(prim, q, o, p, bundle);
    if Sealed(prim, bundle, o, bytes, k) {
      SealedReads(prim, bundle, o, p, bytes, k);
    }
    if Verification(prim, bundle, o).Ok? {
      IssuedRead(prim, q, o, p, bundle, Verification(prim, bundle, o).value);
    }
  }

  ghost predicate IsEnvelope(bundle: seq<CodeUnit>, bytes: seq<Byte>, mac: seq<Byte>) {
    bundle == Envelope(bytes, mac) && bytes != [] && |mac| == MAC_BYTES && |bundle| <= MAX_BUNDLE_LENGTH
  }

  lemma OpensExact(bundle: seq<CodeUnit>)
    ensures OpenEnvelope(bundle).Some? <==> exists bytes: seq<Byte>, mac: seq<Byte> :: IsEnvelope(bundle, bytes, mac)
  {
    if OpenEnvelope(bundle).Some? {
      var (bytes, mac) := OpenEnvelope(bundle).value;
      OpenEnvelopeExact(bundle, bytes, mac);
      assert IsEnvelope(bundle, bytes, mac);
    }
    forall bytes: seq<Byte>, mac: seq<Byte> | IsEnvelope(bundle, bytes, mac) ensures OpenEnvelope(bundle).Some? {
      OpenEnvelopeExact(bundle, bytes, mac);
    }
  }

  /** Nothing is said about a payload before its bytes are authenticated: what is not an envelope is malformed, an envelope
      that no key seals is a MAC mismatch, and every other refusal is of a sealed bundle. */
  lemma RefusalExact(prim: Primitives, bundle: seq<CodeUnit>, o: Policy)
    ensures var r := Verification(prim, bundle, o);
            && (r == Err(Malformed) <==> !exists bytes: seq<Byte>, mac: seq<Byte> :: IsEnvelope(bundle, bytes, mac))
            && (r.Ok? || (r.error != Malformed && r.error != MacMismatch) <==> exists bytes: seq<Byte>, i: nat :: Sealed(prim, bundle, o, bytes, i))
  {
    OpensExact(bundle);
    var r := Verification(prim, bundle, o);
    if r.Ok? || (r.error != Malformed && r.error != MacMismatch) {
      var bytes, i := FoundSealed(prim, bundle, o);
    }
    forall bytes: seq<Byte>, i: nat | Sealed(prim, bundle, o, bytes, i) ensures r.Ok? || (r.error != Malformed && r.error != MacMismatch) {
      SealedFound(prim, bundle, o, bytes, i);
    }
  }

  // ---------------------------------------------------------------- an example

  const ONE: JsString := [49]
  const TWO: JsString := [50]
  const NAME: JsString := [65]

  function Zeros(n: nat): seq<Byte> { seq(n, i requires 0 <= i < n => 0) }

  function ExampleSnapshot(): Snapshot { Snapshot(Some(NAME), Some(NAME), Some(NAME), None, Some(NAME)) }

  /** A short window, one purpose, one key. */
  function ExampleRequest(): Request { Request(ONE, ONE, ONE, [(PURPOSES[0], ONE)], ExampleSnapshot(), 1, 2) }

  function ExamplePolicy(): Policy {
    Policy([KeyEntry(ONE, Zeros(32))], Catalog(map[ONE := NAME], map[(PURPOSES[0], ONE) := NAME]), ONE,
           (issued: int, expires: int, now: int) => issued <= now < expires, 1)
  }

  function ExamplePayload(): Payload {
    Payload(FORMAT, ONE, ONE, ONE, NAME, [Authorization(PURPOSES[0], ONE, NAME)], ExampleSnapshot(), ONE, TWO)
  }

  function ExamplePrimitives(): Primitives {
    Primitives((key: seq<Byte>, bytes: seq<Byte>) => Zeros(32), (j: Json) => [123, 125],
               (bytes: seq<Byte>) => Some(PayloadJson(ExamplePayload())), (s: JsString) => s,
               (s: JsString) => true, (s: JsString) => true, (s: JsString) => if s == ONE then 1 else 2,
               (t: int) => if t == 1 then ONE else TWO)
  }

  lemma ExampleFields()
    ensures ValidSnapshot(ExamplePrimitives().nfc, ExampleSnapshot())
  {
    assert Scalars(NAME[1..]) == Some([]);
    NewlinesFixed(NAME);
  }

  lemma ExampleIssued()
    ensures IssuedPayload(ExamplePrimitives(), ExamplePolicy().catalog, ExampleRequest()) == Ok(ExamplePayload())
  {
    ExampleFields();
    var wanted := ExampleRequest().authorizations;
    assert wanted[1..] == [];
    assert ResolveTexts(ExamplePolicy().catalog, wanted[1..]) == Some([]);
    assert ExamplePolicy().catalog.AuthorizationText(PURPOSES[0], ONE) == Some(NAME);
    var entry := Authorization(PURPOSES[0], ONE, NAME);
    assert [entry] + [] == [entry];
    assert ResolveTexts(ExamplePolicy().catalog, wanted) == Some([entry]);
  }

  lemma ExampleLaws()
    ensures var prim, o, q, p := ExamplePrimitives(), ExamplePolicy(), ExampleRequest(), ExamplePayload();
            && prim.MacLaw() && ValidRing(o.ring) && o.catalog.Published()
            && prim.TextLaw(PayloadJson(p)) && prim.TimeLaw(q.issuedAt) && prim.TimeLaw(q.expiresAt)
  {
  }

  const EXAMPLE_BUNDLE: seq<CodeUnit> := Envelope([123, 125], Zeros(32))

  lemma ExampleBundle()
    ensures Issue(ExamplePrimitives(), ExamplePolicy().ring, ExamplePolicy().catalog, ExampleRequest()) == Ok(EXAMPLE_BUNDLE)
    ensures |EXAMPLE_BUNDLE| <= MAX_BUNDLE_LENGTH
  {
    ExampleIssued();
    assert Position(ExamplePolicy().ring, ONE) == 0;
    Base64Url.EncodeLength([123, 125]);
    Base64Url.EncodeLength(Zeros(32));
  }

  lemma ExampleAcceptable()
    requires |EXAMPLE_BUNDLE| <= MAX_BUNDLE_LENGTH
    ensures Acceptable(ExamplePrimitives(), ExampleRequest(), ExamplePolicy(), EXAMPLE_BUNDLE)
    ensures MacIsFirst(ExamplePrimitives(), ExamplePolicy().ring, ONE, PayloadBytes(ExamplePrimitives(), ExamplePayload()))
  {
    assert Position(ExamplePolicy().ring, ONE) == 0;
  }

  lemma Verifies(prim: Primitives, q: Request, o: Policy, p: Payload, bundle: seq<CodeUnit>)
    requires prim.MacLaw() && ValidRing(o.ring) && o.catalog.Published()
    requires IssuedPayload(prim, o.catalog, q) == Ok(p) && Issue(prim, o.ring, o.catalog, q) == Ok(bundle)
    requires prim.TextLaw(PayloadJson(p)) && prim.TimeLaw(q.issuedAt) && prim.TimeLaw(q.expiresAt)
    requires Acceptable(prim, q, o, bundle) && MacIsFirst(prim, o.ring, q.keyVersion, PayloadBytes(prim, p))
    ensures Verification(prim, bundle, o) == Ok(p)
  {
    IssuedBundleVerifies(prim, q, o);
  }

  /** The theorem speaks of something: here all it asks for holds, and the issued bundle verifies. */
  lemma BundleExample()
    ensures var prim, o, q, p := ExamplePrimitives(), ExamplePolicy(), ExampleRequest(), ExamplePayload();
            && prim.MacLaw() && ValidRing(o.ring) && o.catalog.Published()
            && IssuedPayload(prim, o.catalog, q) == Ok(p) && Issue(prim, o.ring, o.catalog, q).Ok?
            && prim.TextLaw(PayloadJson(p)) && prim.TimeLaw(q.issuedAt) && prim.TimeLaw(q.expiresAt)
            && Verification(prim, Issue(prim, o.ring, o.catalog, q).value, o) == Ok(p)
  {
    var prim, o, q, p := ExamplePrimitives(), ExamplePolicy(), ExampleRequest(), ExamplePayload();
    ExampleLaws();
    ExampleIssued();
    ExampleBundle();
    ExampleAcceptable();
    Verifies(prim, q, o, p, EXAMPLE_BUNDLE);
  }
}
