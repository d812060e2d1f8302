/** From the characters of a LIST reply to its element tree (`xmlTree`, src/media/reconciliation-r2.ts):
    prolog, trimming, tokens and tag shapes; and the printer whose output it reads back. */
module XmlReply {
  import opened Prelude
  import opened XmlText
  import opened XmlTree

  // ---------------------------------------------------------------- lexical level

  function LeadingWhite(s: string): (n: nat)
    ensures n <= |s| && (forall k :: 0 <= k < n ==> IsWhite(s[k])) && (n < |s| ==> !IsWhite(s[n]))
  {
    if s == [] || !IsWhite(s[0]) then 0
    else
      var n := LeadingWhite(s[1..]);
      n + 1
  }

  function TrimEnd(s: string): string {
    if s == [] || !IsWhite(s[|s| - 1]) then s else TrimEnd(s[..|s| - 1])
  }

  function Trim(s: string): string { TrimEnd(s[LeadingWhite(s)..]) }

  /** White space, "<?xml", white space, anything without '?', "?>": removed when it opens the reply. */
  function StripProlog(s: string): string {
    var rest := s[LeadingWhite(s)..];
    if |rest| > 5 && rest[..5] == "<?xml" && IsWhite(rest[5]) then
      var q := 5 + IndexOf(rest[5..], '?');
      if q + 1 < |rest| && rest[q + 1] == '>' then rest[q + 2..] else s
    else s
  }

  /** Alternating markup tokens and runs of text; None when some '<' is never closed. */
  function Tokenize(s: string): Option<seq<string>>
    decreases |s|
  {
    if s == [] then Some([])
    else
      var n := if s[0] == '<' then IndexOf(s, '>') + 1 else IndexOf(s, '<');
      if n > |s| then None
      else
        assert n > 0;
        match Tokenize(s[n..]) case None => None case Some(rest) => Some([s[..n]] + rest)
  }

  predicate IsLetter(c: char) { 'a' <= c <= 'z' || 'A' <= c <= 'Z' }

  predicate IsNameChar(c: char) { IsLetter(c) || IsDigit(c) }

  predicate IsName(s: string) { s != [] && IsLetter(s[0]) && forall i :: 0 <= i < |s| ==> IsNameChar(s[i]) }

  /** Names are ASCII letters and digits, a letter first. */
  lemma NameExact(s: string)
    ensures IsName(s) <==>
            && |s| > 0 && (65 <= s[0] as int <= 90 || 97 <= s[0] as int <= 122)
            && forall i :: 0 <= i < |s| ==> 65 <= s[i] as int <= 90 || 97 <= s[i] as int <= 122 || 48 <= s[i] as int <= 57
  {
    assert forall i :: 0 <= i < |s| ==>
        (IsNameChar(s[i]) <==> 65 <= s[i] as int <= 90 || 97 <= s[i] as int <= 122 || 48 <= s[i] as int <= 57);
  }

  function NameEnd(s: string): (n: nat)
    ensures n <= |s|
    ensures forall i :: 0 <= i < n ==> IsNameChar(s[i])
    ensures n < |s| ==> !IsNameChar(s[n])
  {
    if s == [] || !IsNameChar(s[0]) then 0 else 1 + NameEnd(s[1..])
  }

  // In short pieces, whose characters the verifier knows one by one.
  const NAMESPACE: string := " xmlns=\"" + "http://s3." + "amazonaws" + ".com/doc" + "/2006-03" + "-01/\""

  predicate IsLineTerminator(c: char) { c as int in {10, 13, 0x2028, 0x2029} }

  /** The namespace attribute; its pattern leaves the dots of the host name unescaped, so any character matches them. */
  predicate IsNamespace(s: string) {
    |s| == |NAMESPACE| && forall i :: 0 <= i < |s| ==> s[i] == NAMESPACE[i] || (NAMESPACE[i] == '.' && !IsLineTerminator(s[i]))
  }

  /** The one attribute the reader knows: how it is written, and the test a token must pass. */
  datatype Attribute = Attribute(text: string, test: string -> bool)
  {
    ghost predicate Sound() {
      && text != [] && !IsNameChar(text[0]) && text[0] != '/' && '>' !in text
      && test(text) && !test(['/']) && !test(text + ['/'])
    }
  }

  const SERVICE_NAMESPACE: Attribute := Attribute(NAMESPACE, IsNamespace)

  /** What follows the name of an opening tag. */
  function OpenTag(ns: Attribute, name: string, rest: string): Tag {
    if !IsName(name) then Unsupported
    else if rest == [] then Open(name, false, false)
    else if rest == ['/'] then Open(name, false, true)
    else if ns.test(rest) then Open(name, true, false)
    else if rest[|rest| - 1] == '/' && ns.test(rest[..|rest| - 1]) then Open(name, true, true)
    else Unsupported
  }

  /** What a token is: text, a closing tag, an opening or empty tag, or markup the reader refuses. */
  function Classify(ns: Attribute, token: string): Tag {
    if token == [] || token[0] != '<' then TextTag(token)
    else if |token| < 2 then Unsupported
    else
      var body := token[1..|token| - 1];
      if body != [] && body[0] == '/' then
        if IsName(body[1..]) then Close(body[1..]) else Unsupported
      else
        OpenTag(ns, body[..NameEnd(body)], body[NameEnd(body)..])
  }

  function ClassifyAll(ns: Attribute, tokens: seq<string>): seq<Tag> {
    if tokens == [] then [] else [Classify(ns, tokens[0])] + ClassifyAll(ns, tokens[1..])
  }

  function ReadInput(un: Unescaper, ns: Attribute, input: string): Result<Xml, StorageFailure> {
    match Tokenize(input)
    case None => Err(ProtocolFailure)
    case Some(tokens) => ParseTags(un, ClassifyAll(ns, tokens))
  }

  /** The tree of a reply. */
  function ReadXml(xml: string): Result<Xml, StorageFailure> {
    ReadInput(Unescape, SERVICE_NAMESPACE, Trim(StripProlog(xml)))
  }

  /** One pass over the tokens with a stack of open elements. */
  method ReadTree(xml: string) returns (r: Result<Xml, StorageFailure>)
    ensures r == ReadXml(xml)
  {
    var parts := Tokenize(Trim(StripProlog(xml)));
    if parts.None? {
      return Err(ProtocolFailure);
    }
    var tokens, stack: Stack, i := parts.value, [DOCUMENT], 0;
    while i < |tokens|
      invariant 0 <= i <= |tokens|
      invariant Run(Unescape, [DOCUMENT], ClassifyAll(SERVICE_NAMESPACE, tokens)) ==
                Run(Unescape, stack, ClassifyAll(SERVICE_NAMESPACE, tokens[i..]))
    {
      var tag := Classify(SERVICE_NAMESPACE, tokens[i]);
      assert tokens[i..][1..] == tokens[i + 1..];
      RunFirst(Unescape, stack, tag, ClassifyAll(SERVICE_NAMESPACE, tokens[i + 1..]));
      var next := Step(Unescape, stack, tag);
      if next.Err? {
        return Err(next.error);
      }
      stack := next.value;
      i := i + 1;
    }
    r := Finish(stack);
  }

  // ---------------------------------------------------------------- printing

  /** What an opening tag holds after its name. */
  function OpenRest(ns: Attribute, withNs: bool, selfClosing: bool): string {
    (if withNs then ns.text else []) + (if selfClosing then ['/'] else [])
  }

  /** The characters of a token, between '<' and '>' when it is markup. */
  function PrintTag(ns: Attribute, tag: Tag): string {
    match tag
    case TextTag(raw) => raw
    case Open(name, withNs, selfClosing) => ['<'] + (name + OpenRest(ns, withNs, selfClosing)) + ['>']
    case Close(name) => ['<'] + (['/'] + name) + ['>']
    case Unsupported => []
  }

  function PrintTags(ns: Attribute, tags: seq<Tag>): string {
    if tags == [] then [] else PrintTag(ns, tags[0]) + PrintTags(ns, tags[1..])
  }

  /** The content an element is printed with: its escaped text first, then its children. */
  function ContentOf(t: Xml): seq<Item>
    decreases t, 0
  {
    (if t.text == [] then [] else [Chars(Escape(t.text))]) + ChildItems(t.children)
  }

  function ChildItems(ts: seq<Xml>): seq<Item>
    decreases ts, 1
  {
    if ts == [] then [] else [Element(ts[0].name, false, ContentOf(ts[0]))] + ChildItems(ts[1..])
  }

  /** The printed form, with the service namespace on the root when asked. */
  function PrintWith(ns: Attribute, t: Xml, withNs: bool): string {
    PrintTags(ns, ItemTags(Element(t.name, withNs, ContentOf(t))))
  }

  function Print(t: Xml, withNs: bool): string { PrintWith(SERVICE_NAMESPACE, t, withNs) }

  predicate WellNamed(t: Xml)
    decreases t, 0
  {
    IsName(t.name) && AllWellNamed(t.children)
  }

  predicate AllWellNamed(ts: seq<Xml>)
    decreases ts, 1
  {
    ts != [] ==> WellNamed(ts[0]) && AllWellNamed(ts[1..])
  }

  function Levels(t: Xml): nat
    decreases t, 0
  {
    1 + MaxLevels(t.children)
  }

  function MaxLevels(ts: seq<Xml>): nat
    decreases ts, 1
  {
    if ts == [] then 0
    else
      var a, b := Levels(ts[0]), MaxLevels(ts[1..]);
      if a > b then a else b
  }

  // ---------------------------------------------------------------- printed tokens come back

  /** A tag whose printed form is one token that classifies back to it. */
  predicate Printable(tag: Tag) {
    match tag
    case TextTag(raw) => raw != [] && '<' !in raw
    case Open(name, ns, selfClosing) => IsName(name)
    case Close(name) => IsName(name)
    case Unsupported => false
  }

  /** No text directly after text: the tokenizer would join the two. */
  predicate Separated(tags: seq<Tag>) {
    && (forall i :: 0 <= i < |tags| ==> Printable(tags[i]))
    && (forall i :: 0 < i < |tags| ==> !(tags[i - 1].TextTag? && tags[i].TextTag?))
  }

  function Tokens(ns: Attribute, tags: seq<Tag>): seq<string> {
    if tags == [] then [] else [PrintTag(ns, tags[0])] + Tokens(ns, tags[1..])
  }

  /** What stands between the brackets of a printed tag. */
  function Inner(ns: Attribute, tag: Tag): string
    requires tag.Open? || tag.Close?
  {
    if tag.Close? then ['/'] + tag.name else tag.name + OpenRest(ns, tag.ns, tag.selfClosing)
  }

  lemma NoBracketInside(ns: Attribute, tag: Tag)
    requires ns.Sound() && Printable(tag) && !tag.TextTag?
    ensures '>' !in Inner(ns, tag)
  {
    forall i | 0 <= i < |tag.name| ensures tag.name[i] != '>' { assert IsNameChar(tag.name[i]); }
  }

  lemma TokenizeMarkup(inner: string, rest: string)
    requires '>' !in inner
    ensures Tokenize(['<'] + inner + ['>'] + rest) ==
            match Tokenize(rest) case None => None case Some(ts) => Some([['<'] + inner + ['>']] + ts)
  {
    var token := ['<'] + inner + ['>'];
    var s := token + rest;
    assert s == (['<'] + inner) + ['>'] + rest;
    IndexOfFirst(['<'] + inner, '>', rest);
    assert s[..|token|] == token && s[|token|..] == rest;
  }

  lemma TokenizeText(raw: string, rest: string)
    requires raw != [] && '<' !in raw && (rest != [] ==> rest[0] == '<')
    ensures Tokenize(raw + rest) ==
            match Tokenize(rest) case None => None case Some(ts) => Some([raw] + ts)
  {
    var s := raw + rest;
    if rest == [] {
      assert s == raw;
      IndexOfNone(raw, '<');
    } else {
      assert s == raw + ['<'] + rest[1..];
      IndexOfFirst(raw, '<', rest[1..]);
    }
    assert s[..|raw|] == raw && s[|raw|..] == rest;
  }

  lemma {:induction false} TokenizePrinted(ns: Attribute, tags: seq<Tag>)
    requires ns.Sound() && Separated(tags)
    ensures Tokenize(PrintTags(ns, tags)) == Some(Tokens(ns, tags))
  {
    if tags != [] {
      var rest := tags[1..];
      assert forall i :: 0 <= i < |rest| ==> rest[i] == tags[i + 1];
      TokenizePrinted(ns, rest);
      if tags[0].TextTag? {
        if rest != [] {
          assert PrintTag(ns, rest[0])[0] == '<';
        }
        TokenizeText(tags[0].raw, PrintTags(ns, rest));
      } else {
        NoBracketInside(ns, tags[0]);
        TokenizeMarkup(Inner(ns, tags[0]), PrintTags(ns, rest));
      }
    }
  }

  lemma {:induction false} NameEndOfName(name: string, rest: string)
    requires forall i :: 0 <= i < |name| ==> IsNameChar(name[i])
    requires rest != [] ==> !IsNameChar(rest[0])
    ensures NameEnd(name + rest) == |name|
  {
    if name == [] {
      assert name + rest == rest;
    } else {
      assert (name + rest)[1..] == name[1..] + rest;
      NameEndOfName(name[1..], rest);
    }
  }

  lemma OpenTagOfRest(ns: Attribute, name: string, withNs: bool, selfClosing: bool)
    requires ns.Sound() && IsName(name)
    ensures OpenTag(ns, name, OpenRest(ns, withNs, selfClosing)) == Open(name, withNs, selfClosing)
  {
    var rest := OpenRest(ns, withNs, selfClosing);
    if withNs && selfClosing {
      assert rest == ns.text + ['/'];
      assert rest[..|rest| - 1] == ns.text;
    } else if withNs {
      assert rest == ns.text;
    } else if selfClosing {
      assert rest == ['/'];
    }
  }

  lemma ClassifyOpen(ns: Attribute, name: string, withNs: bool, selfClosing: bool)
    requires ns.Sound() && IsName(name)
    ensures Classify(ns, PrintTag(ns, Open(name, withNs, selfClosing))) == Open(name, withNs, selfClosing)
  {
    var rest := OpenRest(ns, withNs, selfClosing);
    var body := name + rest;
    var token := ['<'] + body + ['>'];
    assert token[1..|token| - 1] == body;
    assert body[..|name|] == name;
    assert body[|name|..] == rest;
    assert body[0] == name[0] && IsNameChar(name[0]);
    NameEndOfName(name, rest);
    OpenTagOfRest(ns, name, withNs, selfClosing);
  }

  lemma ClassifyPrinted(ns: Attribute, tag: Tag)
    requires ns.Sound() && Printable(tag)
    ensures Classify(ns, PrintTag(ns, tag)) == tag
  {
    match tag
    case TextTag(raw) => assert raw[0] in raw;
    case Open(name, withNs, selfClosing) => ClassifyOpen(ns, name, withNs, selfClosing);
    case Close(name) =>
      var token := PrintTag(ns, tag);
      assert token[1..|token| - 1] == ['/'] + name;
      assert (['/'] + name)[1..] == name;
  }

  lemma {:induction false} ClassifyTokens(ns: Attribute, tags: seq<Tag>)
    requires ns.Sound() && Separated(tags)
    ensures ClassifyAll(ns, Tokens(ns, tags)) == tags
  {
    if tags != [] {
      assert forall i :: 0 <= i < |tags[1..]| ==> tags[1..][i] == tags[i + 1];
      ClassifyTokens(ns, tags[1..]);
      ClassifyPrinted(ns, tags[0]);
      assert Tokens(ns, tags)[1..] == Tokens(ns, tags[1..]);
    }
  }

  // ---------------------------------------------------------------- printed trees

  /** Content tags are printable and separated, and only their first tag can be text. */
  lemma ContentSeparated(t: Xml)
    requires WellNamed(t)
    ensures Separated(Tags(ContentOf(t)))
    decreases t, 0
  {
    ChildrenSeparated(t.children);
    if t.text == [] {
      assert ContentOf(t) == ChildItems(t.children);
    } else {
      var raw := Escape(t.text);
      EscapeHasNoMarkup(t.text);
      var content := ContentOf(t);
      assert content[0] == Chars(raw) && content[1..] == ChildItems(t.children);
      assert Tags(content) == [TextTag(raw)] + Tags(ChildItems(t.children));
      TextFirst(raw, Tags(ChildItems(t.children)));
    }
  }

  lemma TextFirst(raw: string, tags: seq<Tag>)
    requires Printable(TextTag(raw)) && Separated(tags) && (tags != [] ==> !tags[0].TextTag?)
    ensures Separated([TextTag(raw)] + tags)
  {
  }

  lemma ChildrenSeparated(ts: seq<Xml>)
    requires AllWellNamed(ts)
    ensures var tags := Tags(ChildItems(ts)); Separated(tags) && (tags != [] ==> !tags[0].TextTag?)
    decreases ts, 1
  {
    if ts != [] {
      var items := ChildItems(ts);
      assert items[1..] == ChildItems(ts[1..]);
      ContentSeparated(ts[0]);
      ChildrenSeparated(ts[1..]);
      var first, rest := ItemTags(items[0]), Tags(items[1..]);
      ElementSeparated(ts[0].name, false, ContentOf(ts[0]));
      assert Tags(items) == first + rest;
    }
  }

  lemma ElementSeparated(name: string, ns: bool, items: seq<Item>)
    requires IsName(name) && Separated(Tags(items))
    ensures var tags := ItemTags(Element(name, ns, items));
            Separated(tags) && !tags[0].TextTag? && !tags[|tags| - 1].TextTag?
  {
    var tags := ItemTags(Element(name, ns, items));
    assert tags == [Open(name, ns, false)] + Tags(items) + [Close(name)];
  }

  ghost predicate UndoesEscape(un: Unescaper) { forall t :: un(Escape(t)) == Ok(t) }

  /** Reading the printed content builds the tree again. */
  lemma BuildContent(un: Unescaper, t: Xml)
    requires UndoesEscape(un)
    ensures Build(un, Xml(t.name, "", []), ContentOf(t)) == t
    decreases t, 0
  {
    var node, content := Xml(t.name, "", []), ContentOf(t);
    if t.text == [] {
      assert content == ChildItems(t.children);
      BuildChildren(un, node, t.children);
    } else {
      assert content[0] == Chars(Escape(t.text)) && content[1..] == ChildItems(t.children);
      assert "" + t.text == t.text;
      BuildChildren(un, Xml(t.name, t.text, []), t.children);
    }
    assert [] + t.children == t.children;
  }

  lemma AppendFirst<T>(before: seq<T>, ts: seq<T>)
    requires ts != []
    ensures before + [ts[0]] + ts[1..] == before + ts
  {
    assert ts == [ts[0]] + ts[1..];
  }

  lemma BuildFirst(un: Unescaper, node: Xml, t: Xml, content: seq<Item>, rest: seq<Item>)
    requires Build(un, Xml(t.name, "", []), content) == t
    ensures Build(un, node, [Element(t.name, false, content)] + rest) == Build(un, AddChild(node, t), rest)
  {
    var items := [Element(t.name, false, content)] + rest;
    assert items[0] == Element(t.name, false, content) && items[1..] == rest;
  }

  lemma BuildChildren(un: Unescaper, node: Xml, ts: seq<Xml>)
    requires UndoesEscape(un)
    ensures Build(un, node, ChildItems(ts)) == node.(children := node.children + ts)
    decreases ts, 1
  {
    var items := ChildItems(ts);
    if ts == [] {
      assert node.children + [] == node.children;
    } else {
      BuildContent(un, ts[0]);
      BuildChildren(un, AddChild(node, ts[0]), ts[1..]);
      BuildFirst(un, node, ts[0], ContentOf(ts[0]), ChildItems(ts[1..]));
      AppendFirst(node.children, ts);
    }
  }

  /** Printed content is valid exactly while it stays within the depth the reader allows. */
  lemma ContentValid(un: Unescaper, t: Xml, depth: nat)
    requires UndoesEscape(un) && depth <= MAX_DEPTH
    ensures ValidItems(un, ContentOf(t), depth) <==> depth + MaxLevels(t.children) <= MAX_DEPTH
    decreases t, 0
  {
    var content := ContentOf(t);
    ChildrenValid(un, t.children, depth);
    if t.text == [] {
      assert content == ChildItems(t.children);
    } else {
      assert content[0] == Chars(Escape(t.text)) && content[1..] == ChildItems(t.children);
    }
  }

  lemma ChildrenValid(un: Unescaper, ts: seq<Xml>, depth: nat)
    requires UndoesEscape(un) && depth <= MAX_DEPTH
    ensures ValidItems(un, ChildItems(ts), depth) <==> depth + MaxLevels(ts) <= MAX_DEPTH
    decreases ts, 1
  {
    if ts != [] {
      var items := ChildItems(ts);
      assert items[1..] == ChildItems(ts[1..]);
      ChildrenValid(un, ts[1..], depth);
      if depth < MAX_DEPTH {
        ContentValid(un, ts[0], depth + 1);
      }
    }
  }

  lemma PrintedInput(un: Unescaper, ns: Attribute, t: Xml, withNs: bool)
    requires UndoesEscape(un) && ns.Sound() && WellNamed(t)
    ensures ReadInput(un, ns, PrintWith(ns, t, withNs)) == if Levels(t) <= MAX_DEPTH then Ok(t) else Err(ProtocolFailure)
  {
    var item := Element(t.name, withNs, ContentOf(t));
    var tags := ItemTags(item);
    ContentSeparated(t);
    ElementSeparated(t.name, withNs, ContentOf(t));
    TokenizePrinted(ns, tags);
    ClassifyTokens(ns, tags);
    ContentValid(un, t, 1);
    ParsePrinted(un, t, withNs);
  }

  lemma ParsePrinted(un: Unescaper, t: Xml, withNs: bool)
    requires UndoesEscape(un) && (ValidItems(un, ContentOf(t), 1) <==> Levels(t) <= MAX_DEPTH)
    ensures ParseTags(un, ItemTags(Element(t.name, withNs, ContentOf(t)))) ==
            if Levels(t) <= MAX_DEPTH then Ok(t) else Err(ProtocolFailure)
  {
    var item := Element(t.name, withNs, ContentOf(t));
    assert [] + [DOCUMENT] == [DOCUMENT] && ItemTags(item) + [] == ItemTags(item);
    if Levels(t) <= MAX_DEPTH {
      RunItem(un, [], DOCUMENT, item, []);
      BuildContent(un, t);
      assert [] + [AddChild(DOCUMENT, t)] == [AddChild(DOCUMENT, t)];
    } else {
      RunInvalidItem(un, [], DOCUMENT, item, []);
      assert ParseTags(un, ItemTags(item)).error.ProtocolFailure?;
    }
  }

  // ---------------------------------------------------------------- the whole reply

  lemma {:induction false} LeadingWhiteOf(w: string, s: string)
    requires Blank(w) && (s != [] ==> !IsWhite(s[0]))
    ensures LeadingWhite(w + s) == |w|
  {
    if w == [] {
      assert w + s == s;
    } else {
      assert (w + s)[1..] == w[1..] + s;
      assert forall i :: 0 <= i < |w[1..]| ==> w[1..][i] == w[i + 1];
      LeadingWhiteOf(w[1..], s);
    }
  }

  lemma {:induction false} TrimEndOf(s: string, w: string)
    requires Blank(w) && (s != [] ==> !IsWhite(s[|s| - 1]))
    ensures TrimEnd(s + w) == s
  {
    if w == [] {
      assert s + w == s;
    } else {
      var n := |w| - 1;
      assert (s + w)[..|s + w| - 1] == s + w[..n];
      TrimEndOf(s, w[..n]);
    }
  }

  lemma TrimOf(before: string, s: string, after: string)
    requires Blank(before) && Blank(after) && s != [] && !IsWhite(s[0]) && !IsWhite(s[|s| - 1])
    ensures Trim(before + s + after) == s
  {
    assert before + s + after == before + (s + after);
    LeadingWhiteOf(before, s + after);
    assert (before + (s + after))[|before|..] == s + after;
    TrimEndOf(s, after);
  }

  /** The XML declaration a service may send first. */
  function Declaration(content: string): string { "<?xml" + content + "?>" }

  lemma StripDeclaration(before: string, content: string, rest: string)
    requires Blank(before) && content != [] && IsWhite(content[0]) && '?' !in content
    ensures StripProlog(before + Declaration(content) + rest) == rest
  {
    var d := Declaration(content) + rest;
    assert before + Declaration(content) + rest == before + d;
    assert d[0] == '<';
    LeadingWhiteOf(before, d);
    assert (before + d)[|before|..] == d;
    assert d[..5] == "<?xml" && d[5] == content[0];
    assert d[5..] == content + ['?'] + (['>'] + rest);
    IndexOfFirst(content, '?', ['>'] + rest);
    assert d[5 + |content| + 2..] == rest;
  }

  lemma NoProlog(before: string, s: string)
    requires Blank(before) && |s| > 1 && s[0] == '<' && s[1] != '?'
    ensures StripProlog(before + s) == before + s
  {
    LeadingWhiteOf(before, s);
    assert (before + s)[|before|..] == s;
    if |s| > 5 {
      assert s[..5][1] == s[1];
    }
  }

  lemma PrintShape(ns: Attribute, t: Xml, withNs: bool)
    requires ns.Sound() && WellNamed(t)
    ensures var p := PrintWith(ns, t, withNs);
            |p| > 1 && p[0] == '<' && p[1] != '?' && !IsWhite(p[0]) && p[|p| - 1] == '>' && !IsWhite(p[|p| - 1])
  {
    var open, items := Open(t.name, withNs, false), Tags(ContentOf(t));
    var content := [open] + items;
    PrintTagsLast(ns, content, Close(t.name));
    assert content[0] == open && content[1..] == items;
    assert PrintTags(ns, content) == PrintTag(ns, open) + PrintTags(ns, items);
    NamePrinted(ns, t.name, withNs);
  }

  lemma NamePrinted(ns: Attribute, name: string, withNs: bool)
    requires IsName(name)
    ensures var p := PrintTag(ns, Open(name, withNs, false)); |p| > 1 && p[0] == '<' && p[1] != '?'
    ensures var p := PrintTag(ns, Close(name)); |p| > 1 && p[|p| - 1] == '>'
  {
    assert IsNameChar(name[0]);
  }

  lemma {:induction false} PrintTagsLast(ns: Attribute, tags: seq<Tag>, last: Tag)
    ensures PrintTags(ns, tags + [last]) == PrintTags(ns, tags) + PrintTag(ns, last)
  {
    if tags == [] {
      assert tags + [last] == [last];
      assert [last][1..] == [];
      assert PrintTags(ns, [last]) == PrintTag(ns, last) + [];
    } else {
      var more := tags + [last];
      assert more[0] == tags[0] && more[1..] == tags[1..] + [last];
      PrintTagsLast(ns, tags[1..], last);
      Regroup(PrintTag(ns, tags[0]), PrintTags(ns, tags[1..]), PrintTag(ns, last), []);
    }
  }

  /** The namespace but for its two dots, in whose places anything may stand that does not end a line. */
  predicate UpToDots(s: string) {
    && |s| == 48 && (forall i :: 0 <= i < 48 && i != 17 && i != 27 ==> s[i] == NAMESPACE[i])
    && !IsLineTerminator(s[17]) && !IsLineTerminator(s[27])
  }

  lemma DotsOfNamespace()
    ensures |NAMESPACE| == 48 && NAMESPACE[17] == NAMESPACE[27] == '.'
    ensures forall i :: 0 <= i < 48 && i != 17 && i != 27 ==> NAMESPACE[i] != '.'
  {
  }

  /** An opening tag with an attribute is read as one in the service namespace exactly when the attribute is that namespace
      up to its dots. */
  lemma NamespaceExact(name: string, s: string)
    requires IsName(name) && s != [] && !IsNameChar(s[0])
    ensures Classify(SERVICE_NAMESPACE, ['<'] + (name + s) + ['>']) == Open(name, true, false) <==> UpToDots(s)
  {
    var token := ['<'] + (name + s) + ['>'];
    assert token[1..|token| - 1] == name + s;
    NameEndOfName(name, s);
    assert (name + s)[..|name|] == name && (name + s)[|name|..] == s;
    assert IsLetter(name[0]);
    DotsOfNamespace();
    assert IsNamespace(s) <==> UpToDots(s);
  }

  /** Another host name in the place of the service's. */
  lemma OtherHost()
    ensures var s := NAMESPACE[17 := 'x'];
            s != NAMESPACE && Classify(SERVICE_NAMESPACE, ['<'] + ("r" + s) + ['>']) == Open("r", true, false)
  {
    var s := NAMESPACE[17 := 'x'];
    DotsOfNamespace();
    assert s[17] == 'x' && NAMESPACE[0] == ' ';
    NamespaceExact("r", s);
  }

  lemma UnescapeUndoes()
    ensures UndoesEscape(Unescape)
  {
    forall t ensures Unescape(Escape(t)) == Ok(t) { UnescapeOfEscape(t); }
  }

  lemma ServiceNamespaceSound()
    ensures SERVICE_NAMESPACE.Sound()
  {
    assert |NAMESPACE| == 48 && NAMESPACE[0] == ' ' && NAMESPACE[47] == '"';
    assert forall i :: 0 <= i < 48 ==> NAMESPACE[i] != '>';
    assert IsNamespace(NAMESPACE);
  }

  /** A printed tree reads back as itself when it has at most four levels, with or without the service namespace and
      with white space around it; a deeper tree is refused. */
  lemma ReadOfPrint(t: Xml, withNs: bool, before: string, after: string)
    requires WellNamed(t) && Blank(before) && Blank(after)
    ensures ReadXml(before + Print(t, withNs) + after) == if Levels(t) <= MAX_DEPTH then Ok(t) else Err(ProtocolFailure)
  {
    var p := Print(t, withNs);
    ServiceNamespaceSound();
    UnescapeUndoes();
    PrintShape(SERVICE_NAMESPACE, t, withNs);
    Regroup(before, p, after, []);
    NoProlog(before, p + after);
    TrimOf(before, p, after);
    PrintedInput(Unescape, SERVICE_NAMESPACE, t, withNs);
  }

  /** The same behind an XML declaration. */
  lemma ReadOfDeclaredPrint(t: Xml, withNs: bool, before: string, content: string, between: string, after: string)
    requires WellNamed(t) && Blank(before) && Blank(between) && Blank(after)
    requires content != [] && IsWhite(content[0]) && '?' !in content
    ensures ReadXml(before + Declaration(content) + (between + Print(t, withNs) + after)) ==
            if Levels(t) <= MAX_DEPTH then Ok(t) else Err(ProtocolFailure)
  {
    ServiceNamespaceSound();
    UnescapeUndoes();
    PrintShape(SERVICE_NAMESPACE, t, withNs);
    StripDeclaration(before, content, between + Print(t, withNs) + after);
    TrimOf(between, Print(t, withNs), after);
    PrintedInput(Unescape, SERVICE_NAMESPACE, t, withNs);
  }
}
