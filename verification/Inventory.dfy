/** What a LIST reply says (`field`, `parseInventory`, src/media/reconciliation-r2.ts:52-79): one page of object keys, or a
    protocol failure. Characters are Unicode scalar values, as in XmlText. */
module Inventory {
  import opened Prelude
  import opened UnicodeText
  import opened XmlText
  import opened XmlTree
  import opened XmlReply

  const MAX_KEY_BYTES: nat := 1024
  const MAX_TOKEN_LENGTH: nat := 4096

  /** decodeURIComponent: None when it throws. */
  type Decoder = string -> Option<string>

  /** What was asked for: the bucket, the key prefix, the page size and where to go on. */
  datatype Request = Request(bucket: string, prefix: string, limit: nat, token: Option<string>)

  datatype Page = Page(keys: seq<string>, truncated: bool, nextToken: Option<string>)

  /** Bytes of the UTF-8 form. */
  function ByteLength(s: string): nat {
    if s == [] then 0
    else
      var c := s[|s| - 1] as int;
      ByteLength(s[..|s| - 1]) + if c < 0x80 then 1 else if c < 0x800 then 2 else if c < 0x10000 then 3 else 4
  }

  /** Code units of the UTF-16 form. */
  function UnitLength(s: string): nat {
    if s == [] then 0 else UnitLength(s[..|s| - 1]) + if s[|s| - 1] as int < 0x10000 then 1 else 2
  }

  // ---------------------------------------------------------------- the reader

  function Named(nodes: seq<Xml>, name: string): seq<Xml> {
    if nodes == [] then [] else (if nodes[0].name == name then [nodes[0]] else []) + Named(nodes[1..], name)
  }

  /** The text of the only child of that name, which has no children itself; None when there is no such child. */
  function Field(node: Xml, name: string): Result<Option<string>, StorageFailure> {
    var fields := Named(node.children, name);
    if fields == [] then Ok(None)
    else if |fields| != 1 || fields[0].children != [] then Err(ProtocolFailure)
    else Ok(Some(fields[0].text))
  }

  predicate StartsWith(s: string, prefix: string) { |prefix| <= |s| && s[..|prefix|] == prefix }

  predicate KeyAllowed(key: string, prefix: string) { key != [] && ByteLength(key) <= MAX_KEY_BYTES && StartsWith(key, prefix) }

  /** The decoded key of one entry. */
  function KeyOf(decode: Decoder, entry: Xml, prefix: string): Option<string> {
    var text := Field(entry, "Key");
    if text.Err? || text.value.None? then None
    else
      var key := decode(text.value.value);
      if key.Some? && KeyAllowed(key.value, prefix) then key else None
  }

  function Keys(decode: Decoder, entries: seq<Xml>, prefix: string): Option<seq<string>> {
    if entries == [] then Some([])
    else
      var first, rest := KeyOf(decode, entries[0], prefix), Keys(decode, entries[1..], prefix);
      if first.None? || rest.None? then None else Some([first.value] + rest.value)
  }

  predicate Distinct(keys: seq<string>) { forall i, j :: 0 <= i < j < |keys| ==> keys[i] != keys[j] }

  predicate TokenAllowed(next: Option<string>, token: Option<string>) {
    next.Some? && next.value != [] && UnitLength(next.value) <= MAX_TOKEN_LENGTH && next != token
  }

  /** The fields that repeat the request. */
  predicate Echoes(decode: Decoder, root: Xml, q: Request) {
    && root.name == "ListBucketResult" && Blank(root.text)
    && Field(root, "Name") == Ok(Some(q.bucket)) && Field(root, "EncodingType") == Ok(Some("url"))
    && Field(root, "MaxKeys") == Ok(Some(Decimal(q.limit))) && Field(root, "ContinuationToken") == Ok(q.token)
    && Field(root, "Prefix").Ok? && Field(root, "Prefix").value.Some? && decode(Field(root, "Prefix").value.value) == Some(q.prefix)
    && Named(root.children, "CommonPrefixes") == []
  }

  function ParseTree(decode: Decoder, root: Xml, q: Request): Result<Page, StorageFailure> {
    if !Echoes(decode, root, q) then Err(ProtocolFailure)
    else
      var flag, keys := Field(root, "IsTruncated"), Keys(decode, Named(root.children, "Contents"), q.prefix);
      if flag != Ok(Some("true")) && flag != Ok(Some("false")) then Err(ProtocolFailure)
      else if keys.None? then Err(ProtocolFailure)
      else if |keys.value| > q.limit || !Distinct(keys.value) || Field(root, "KeyCount") != Ok(Some(Decimal(|keys.value|))) then
        Err(ProtocolFailure)
      else
        var next := Field(root, "NextContinuationToken");
        if next.Err? then Err(ProtocolFailure)
        else if flag == Ok(Some("true")) && (keys.value == [] || !TokenAllowed(next.value, q.token)) then Err(ProtocolFailure)
        else if flag == Ok(Some("false")) && next.value.Some? then Err(ProtocolFailure)
        else Ok(Page(keys.value, flag == Ok(Some("true")), next.value))
  }

  /** `parseInventory`. */
  function ParseInventory(decode: Decoder, xml: string, q: Request): Result<Page, StorageFailure> {
    match ReadXml(xml) case Err(e) => Err(e) case Ok(root) => ParseTree(decode, root, q)
  }

  // ---------------------------------------------------------------- what a reply says

  /** The tree has one leaf of that name, with that text. */
  predicate Has(t: Xml, name: string, text: string) {
    |Named(t.children, name)| == 1 && Named(t.children, name)[0].children == [] && Named(t.children, name)[0].text == text
  }

  predicate HasNone(t: Xml, name: string) { Named(t.children, name) == [] }

  predicate HasOptional(t: Xml, name: string, text: Option<string>) { if text.Some? then Has(t, name, text.value) else HasNone(t, name) }

  /** The leaf of that name spells a text, percent-encoded in any way. */
  ghost predicate Spelt(decode: Decoder, t: Xml, name: string, text: string) {
    exists raw :: Has(t, name, raw) && decode(raw) == Some(text)
  }

  /** Entry by entry the keys are spelt, whatever else the entries hold. */
  ghost predicate ListsKeys(decode: Decoder, entries: seq<Xml>, keys: seq<string>) {
    |entries| == |keys| && forall i :: 0 <= i < |keys| ==> Spelt(decode, entries[i], "Key", keys[i])
  }

  /** A reply to the request that describes the page, with its fields in any order and any others beside them. */
  ghost predicate Says(decode: Decoder, t: Xml, q: Request, page: Page) {
    && t.name == "ListBucketResult" && Blank(t.text)
    && Has(t, "Name", q.bucket) && Has(t, "EncodingType", "url") && Has(t, "MaxKeys", Decimal(q.limit))
    && HasOptional(t, "ContinuationToken", q.token) && Spelt(decode, t, "Prefix", q.prefix) && HasNone(t, "CommonPrefixes")
    && Has(t, "IsTruncated", if page.truncated then "true" else "false") && Has(t, "KeyCount", Decimal(|page.keys|))
    && HasOptional(t, "NextContinuationToken", page.nextToken)
    && ListsKeys(decode, Named(t.children, "Contents"), page.keys)
  }

  /** A page a provider may return for the request. */
  predicate Acceptable(q: Request, page: Page) {
    && |page.keys| <= q.limit && Distinct(page.keys) && (forall i :: 0 <= i < |page.keys| ==> KeyAllowed(page.keys[i], q.prefix))
    && if page.truncated then page.keys != [] && TokenAllowed(page.nextToken, q.token) else page.nextToken.None?
  }

  lemma FieldIs(t: Xml, name: string, text: Option<string>)
    ensures Field(t, name) == Ok(text) <==> HasOptional(t, name, text)
  {
  }

  lemma SpeltIs(decode: Decoder, t: Xml, name: string, text: string)
    ensures Spelt(decode, t, name, text) <==>
            Field(t, name).Ok? && Field(t, name).value.Some? && decode(Field(t, name).value.value) == Some(text)
  {
    if Field(t, name).Ok? && Field(t, name).value.Some? {
      assert Has(t, name, Field(t, name).value.value);
    }
  }

  lemma {:induction false} KeysAre(decode: Decoder, entries: seq<Xml>, prefix: string, keys: seq<string>)
    ensures Keys(decode, entries, prefix) == Some(keys) <==>
            ListsKeys(decode, entries, keys) && forall i :: 0 <= i < |keys| ==> KeyAllowed(keys[i], prefix)
  {
    if entries != [] && keys != [] {
      KeysAre(decode, entries[1..], prefix, keys[1..]);
      SpeltIs(decode, entries[0], "Key", keys[0]);
      assert keys == [keys[0]] + keys[1..];
      KeysFirst(decode, entries, prefix, keys);
    }
  }

  lemma KeysFirst(decode: Decoder, entries: seq<Xml>, prefix: string, keys: seq<string>)
    requires entries != [] && keys != []
    ensures ListsKeys(decode, entries, keys) <==> Spelt(decode, entries[0], "Key", keys[0]) && ListsKeys(decode, entries[1..], keys[1..])
    ensures (forall i :: 0 <= i < |keys| ==> KeyAllowed(keys[i], prefix)) <==>
            KeyAllowed(keys[0], prefix) && forall i :: 0 <= i < |keys[1..]| ==> KeyAllowed(keys[1..][i], prefix)
  {
    var es, ks := entries[1..], keys[1..];
    assert forall i :: 0 < i < |entries| ==> entries[i] == es[i - 1];
    assert forall i :: 0 < i < |keys| ==> keys[i] == ks[i - 1];
  }

  lemma EchoesIs(decode: Decoder, t: Xml, q: Request)
    ensures Echoes(decode, t, q) <==>
            && t.name == "ListBucketResult" && Blank(t.text)
            && Has(t, "Name", q.bucket) && Has(t, "EncodingType", "url") && Has(t, "MaxKeys", Decimal(q.limit))
            && HasOptional(t, "ContinuationToken", q.token) && Spelt(decode, t, "Prefix", q.prefix) && HasNone(t, "CommonPrefixes")
  {
    FieldIs(t, "Name", Some(q.bucket));
    FieldIs(t, "EncodingType", Some("url"));
    FieldIs(t, "MaxKeys", Some(Decimal(q.limit)));
    FieldIs(t, "ContinuationToken", q.token);
    SpeltIs(decode, t, "Prefix", q.prefix);
  }

  /** A tree is read as a page exactly when it says that page and the page is acceptable. */
  lemma InventoryExact(decode: Decoder, t: Xml, q: Request, page: Page)
    ensures ParseTree(decode, t, q) == Ok(page) <==> Says(decode, t, q, page) && Acceptable(q, page)
  {
    EchoesIs(decode, t, q);
    FieldIs(t, "IsTruncated", Some("true"));
    FieldIs(t, "IsTruncated", Some("false"));
    FieldIs(t, "KeyCount", Some(Decimal(|page.keys|)));
    FieldIs(t, "NextContinuationToken", page.nextToken);
    KeysAre(decode, Named(t.children, "Contents"), q.prefix, page.keys);
  }

  /** A tree says one page at most. */
  lemma SaysOne(decode: Decoder, t: Xml, q: Request, a: Page, b: Page)
    requires Says(decode, t, q, a) && Says(decode, t, q, b)
    ensures a == b
  {
    assert "true" != "false";
    var entries := Named(t.children, "Contents");
    forall i | 0 <= i < |a.keys| ensures a.keys[i] == b.keys[i] {
      SpeltIs(decode, entries[i], "Key", a.keys[i]);
      SpeltIs(decode, entries[i], "Key", b.keys[i]);
    }
  }

  /** The printed reply of a provider, in the service namespace or not: it is read as the page it says when that page is
      acceptable, and refused otherwise. */
  lemma PrintedInventory(decode: Decoder, t: Xml, withNs: bool, before: string, after: string, q: Request, page: Page)
    requires WellNamed(t) && Levels(t) <= MAX_DEPTH && Blank(before) && Blank(after) && Says(decode, t, q, page)
    ensures ParseInventory(decode, before + Print(t, withNs) + after, q) == if Acceptable(q, page) then Ok(page) else Err(ProtocolFailure)
  {
    ReadOfPrint(t, withNs, before, after);
    InventoryExact(decode, t, q, page);
    var r := ParseTree(decode, t, q);
    if r.Ok? {
      InventoryExact(decode, t, q, r.value);
      SaysOne(decode, t, q, page, r.value);
    }
  }

  // ---------------------------------------------------------------- the same in plain terms

  function CodePoints(s: string): seq<Scalar> { seq(|s|, i requires 0 <= i < |s| => s[i] as int) }

  lemma {:induction false} LengthsAppend(a: seq<Scalar>, b: seq<Scalar>)
    ensures |Utf8(a + b)| == |Utf8(a)| + |Utf8(b)| && |Utf16(a + b)| == |Utf16(a)| + |Utf16(b)|
    decreases |a|
  {
    if a == [] {
      assert a + b == b;
    } else {
      assert (a + b)[1..] == a[1..] + b;
      LengthsAppend(a[1..], b);
    }
  }

  lemma LengthsOfOne(c: Scalar)
    ensures |Utf8([c])| == if c < 0x80 then 1 else if c < 0x800 then 2 else if c < 0x10000 then 3 else 4
    ensures |Utf16([c])| == if c < 0x10000 then 1 else 2
  {
    assert [c][1..] == [];
  }

  /** The lengths are those of the UTF-8 and UTF-16 forms. */
  lemma {:induction false} LengthsExact(s: string)
    ensures ByteLength(s) == |Utf8(CodePoints(s))| && UnitLength(s) == |Utf16(CodePoints(s))|
    decreases |s|
  {
    if s != [] {
      var n := |s| - 1;
      var last: Scalar := s[n] as int;
      LengthsExact(s[..n]);
      assert CodePoints(s) == CodePoints(s[..n]) + [last];
      LengthsAppend(CodePoints(s[..n]), [last]);
      LengthsOfOne(last);
    }
  }

  /** A number is printed in digits, without leading zeros, and means what it is. */
  lemma {:induction false} DecimalExact(n: nat)
    ensures AllDigits(Decimal(n)) && Numeral(Decimal(n), 10) == n && (n > 0 ==> Decimal(n)[0] != '0')
  {
    DecimalReads(n);
    if n >= 10 {
      DecimalExact(n / 10);
    } else {
      assert forall i :: 1 <= i < 10 ==> DECIMALS[i] != '0';
    }
  }

  /** Node i is the only one of that name. */
  predicate Only(nodes: seq<Xml>, name: string, i: nat) {
    i < |nodes| && forall j :: 0 <= j < |nodes| ==> (nodes[j].name == name <==> j == i)
  }

  predicate NoneNamed(nodes: seq<Xml>, name: string) { forall j :: 0 <= j < |nodes| ==> nodes[j].name != name }

  lemma NoneNext(nodes: seq<Xml>, name: string)
    requires nodes != []
    ensures NoneNamed(nodes, name) <==> nodes[0].name != name && NoneNamed(nodes[1..], name)
    ensures Only(nodes, name, 0) <==> nodes[0].name == name && NoneNamed(nodes[1..], name)
  {
    var rest := nodes[1..];
    assert forall j :: 1 <= j < |nodes| ==> nodes[j] == rest[j - 1];
    if NoneNamed(nodes, name) || Only(nodes, name, 0) {
      forall j | 0 <= j < |rest| ensures rest[j].name != name { assert rest[j] == nodes[j + 1]; }
    }
  }

  lemma OnlyNext(nodes: seq<Xml>, name: string, i: nat)
    requires nodes != [] && i > 0
    ensures Only(nodes, name, i) <==> nodes[0].name != name && Only(nodes[1..], name, i - 1)
  {
    var rest := nodes[1..];
    assert forall j :: 1 <= j < |nodes| ==> nodes[j] == rest[j - 1];
    if Only(nodes, name, i) {
      forall j | 0 <= j < |rest| ensures rest[j].name == name <==> j == i - 1 { assert rest[j] == nodes[j + 1]; }
    }
  }

  lemma {:induction false} NamedNone(nodes: seq<Xml>, name: string)
    ensures Named(nodes, name) == [] <==> NoneNamed(nodes, name)
    decreases |nodes|
  {
    if nodes != [] {
      NoneNext(nodes, name);
      NamedNone(nodes[1..], name);
    }
  }

  lemma {:induction false} NamedOnly(nodes: seq<Xml>, name: string, i: nat)
    requires Only(nodes, name, i)
    ensures Named(nodes, name) == [nodes[i]]
    decreases |nodes|
  {
    if i == 0 {
      NoneNext(nodes, name);
      NamedNone(nodes[1..], name);
    } else {
      OnlyNext(nodes, name, i);
      NamedOnly(nodes[1..], name, i - 1);
    }
  }

  lemma {:induction false} FindOnly(nodes: seq<Xml>, name: string) returns (i: nat)
    requires |Named(nodes, name)| == 1
    ensures Only(nodes, name, i)
    decreases |nodes|
  {
    if nodes[0].name == name {
      NamedNone(nodes[1..], name);
      NoneNext(nodes, name);
      i := 0;
    } else {
      var j := FindOnly(nodes[1..], name);
      i := j + 1;
      OnlyNext(nodes, name, i);
    }
  }

  /** A field is the only child of its name, a leaf, and holds the text. */
  lemma HasExact(t: Xml, name: string, text: string)
    ensures Has(t, name, text) <==> exists i: nat :: Only(t.children, name, i) && t.children[i].children == [] && t.children[i].text == text
    ensures HasNone(t, name) <==> forall j :: 0 <= j < |t.children| ==> t.children[j].name != name
  {
    NamedNone(t.children, name);
    if Has(t, name, text) {
      var i := FindOnly(t.children, name);
      NamedOnly(t.children, name, i);
    }
    forall i: nat | Only(t.children, name, i) ensures Named(t.children, name) == [t.children[i]] {
      NamedOnly(t.children, name, i);
    }
  }

  lemma PrefixExact(s: string, prefix: string)
    ensures StartsWith(s, prefix) <==> exists rest :: s == prefix + rest
  {
    if StartsWith(s, prefix) {
      assert s == prefix + s[|prefix|..];
    }
  }

  /** A key under the prefix, of at most 1024 bytes of UTF-8. */
  ghost predicate PlainKey(key: string, prefix: string) {
    key != "" && |Utf8(CodePoints(key))| <= 1024 && exists rest :: key == prefix + rest
  }

  lemma KeyExact(key: string, prefix: string)
    ensures KeyAllowed(key, prefix) <==> PlainKey(key, prefix)
  {
    LengthsExact(key);
    PrefixExact(key, prefix);
  }

  lemma TokenExact(next: Option<string>, token: Option<string>)
    ensures TokenAllowed(next, token) <==> next.Some? && next != token && 1 <= |Utf16(CodePoints(next.value))| <= 4096
  {
    if next.Some? {
      LengthsExact(next.value);
      SomeUnits(next.value);
    }
  }

  /** The keys and pages a provider may return, with lengths in bytes of UTF-8 and units of UTF-16. */
  lemma AcceptableExact(q: Request, page: Page)
    ensures Acceptable(q, page) <==>
            && |page.keys| <= q.limit && (forall i, j :: 0 <= i < j < |page.keys| ==> page.keys[i] != page.keys[j])
            && (forall i :: 0 <= i < |page.keys| ==> PlainKey(page.keys[i], q.prefix))
            && if page.truncated then
                 page.keys != [] && page.nextToken.Some? && page.nextToken != q.token &&
                 1 <= |Utf16(CodePoints(page.nextToken.value))| <= 4096
               else page.nextToken == None
  {
    forall i | 0 <= i < |page.keys| ensures KeyAllowed(page.keys[i], q.prefix) <==> PlainKey(page.keys[i], q.prefix) {
      KeyExact(page.keys[i], q.prefix);
    }
    TokenExact(page.nextToken, q.token);
  }

  lemma SomeUnits(s: string)
    ensures s != "" <==> |Utf16(CodePoints(s))| >= 1
  {
    LengthsExact(s);
  }
}
