/** The duplicate-name scan of the cursor key configuration (`parseConfiguration`, src/media/order-query-cursor.ts):
    JSON text is cut into tokens by one regular expression and the tokens are walked with a stack of name sets. */
module JsonKeys {
  import opened Prelude
  import opened UnicodeText

  type Text = seq<CodeUnit>

  const QUOTE: CodeUnit := 0x22
  const COMMA: CodeUnit := 0x2C
  const COLON: CodeUnit := 0x3A
  const LEFT_BRACKET: CodeUnit := 0x5B
  const BACKSLASH: CodeUnit := 0x5C
  const RIGHT_BRACKET: CodeUnit := 0x5D
  const LEFT_BRACE: CodeUnit := 0x7B
  const RIGHT_BRACE: CodeUnit := 0x7D

  predicate IsMark(c: CodeUnit) {
    c == COMMA || c == COLON || c == LEFT_BRACKET || c == RIGHT_BRACKET || c == LEFT_BRACE || c == RIGHT_BRACE
  }

  // ---------------------------------------------------------------- JSON texts (RFC 8259)

  /** One character of a string literal, section 7 of RFC 8259; a numeric escape with its four digits as they are written. */
  datatype Piece = Plain(c: CodeUnit) | Short(letter: CodeUnit) | Hex(digits: Text)

  /** What the two-character escape stands for: quote, backslash, slash, b, f, n, r, t. */
  function ShortValue(letter: CodeUnit): Option<CodeUnit> {
    if letter == QUOTE || letter == BACKSLASH || letter == 0x2F then Some(letter)
    else if letter == 0x62 then Some(8) else if letter == 0x66 then Some(12) else if letter == 0x6E then Some(10)
    else if letter == 0x72 then Some(13) else if letter == 0x74 then Some(9)
    else None
  }

  predicate IsPiece(p: Piece) {
    match p
    case Plain(c) => c >= 0x20 && c != QUOTE && c != BACKSLASH
    case Short(letter) => ShortValue(letter).Some?
    case Hex(digits) => |digits| == 4 && HexUnit(digits).Some?
  }

  function PieceText(p: Piece): Text
    requires IsPiece(p)
  {
    match p
    case Plain(c) => [c]
    case Short(letter) => [BACKSLASH, letter]
    case Hex(digits) => [BACKSLASH, 0x75] + digits
  }

  predicate IsPlain(s: Text) { forall i :: 0 <= i < |s| ==> s[i] != QUOTE && s[i] != BACKSLASH }

  function PieceValue(p: Piece): CodeUnit
    requires IsPiece(p)
  {
    match p
    case Plain(c) => c
    case Short(letter) => ShortValue(letter).value
    case Hex(digits) => HexUnit(digits).value
  }

  function FromHex(d3: nat, d2: nat, d1: nat, d0: nat): CodeUnit
    requires d3 < 16 && d2 < 16 && d1 < 16 && d0 < 16
  {
    var n: int := ((d3 * 16 + d2) * 16 + d1) * 16 + d0;
    n
  }

  predicate ArePieces(ps: seq<Piece>) { forall i :: 0 <= i < |ps| ==> IsPiece(ps[i]) }

  function Body(ps: seq<Piece>): Text
    requires ArePieces(ps)
  {
    if ps == [] then [] else PieceText(ps[0]) + Body(ps[1..])
  }

  /** The string a literal denotes. */
  function Meaning(ps: seq<Piece>): Text
    requires ArePieces(ps)
  {
    if ps == [] then [] else [PieceValue(ps[0])] + Meaning(ps[1..])
  }

  function LiteralText(ps: seq<Piece>): Text
    requires ArePieces(ps)
  {
    [QUOTE] + Body(ps) + [QUOTE]
  }

  predicate IsSpace(s: Text) { forall i :: 0 <= i < |s| ==> s[i] == 0x20 || s[i] == 0x09 || s[i] == 0x0A || s[i] == 0x0D }

  predicate AreDigits(s: Text) { forall i :: 0 <= i < |s| ==> 0x30 <= s[i] <= 0x39 }

  /** Minus, integer, fraction and exponent of a number, section 6 of RFC 8259. */
  predicate NumberParts(t: Text, minus: Text, whole: Text, frac: Text, exp: Text) {
    && t == minus + whole + frac + exp
    && (minus == [] || minus == [0x2D])
    && AreDigits(whole) && whole != [] && (whole[0] == 0x30 ==> |whole| == 1)
    && (frac != [] ==> |frac| > 1 && frac[0] == 0x2E && AreDigits(frac[1..]))
    && (exp != [] ==> |exp| > 1 && (exp[0] == 0x45 || exp[0] == 0x65) && SignedDigits(exp[1..]))
  }

  predicate SignedDigits(s: Text)
    requires s != []
  {
    AreDigits(s) || (|s| > 1 && (s[0] == 0x2B || s[0] == 0x2D) && AreDigits(s[1..]))
  }

  ghost predicate IsNumber(t: Text) { exists minus, whole, frac, exp :: NumberParts(t, minus, whole, frac, exp) }

  const TRUE: Text := [0x74, 0x72, 0x75, 0x65]
  const FALSE: Text := [0x66, 0x61, 0x6C, 0x73, 0x65]
  const NULL: Text := [0x6E, 0x75, 0x6C, 0x6C]

  ghost predicate IsAtom(t: Text) { t == TRUE || t == FALSE || t == NULL || IsNumber(t) }

  /** A JSON text with its white space and the spelling of its strings. `blank` is what empty brackets hold. */
  datatype Json = Atom(text: Text) | Str(pieces: seq<Piece>)
                | Arr(elements: seq<Element>, blank: Text) | Obj(members: seq<Member>, blank: Text)

  datatype Element = Element(before: Text, value: Json, after: Text)

  datatype Member = Member(before: Text, name: seq<Piece>, after: Text, element: Element)

  ghost predicate IsJson(v: Json)
    decreases v, 0
  {
    match v
    case Atom(t) => IsAtom(t)
    case Str(ps) => ArePieces(ps)
    case Arr(es, blank) => IsSpace(blank) && (es != [] ==> blank == []) && AreElements(es)
    case Obj(ms, blank) => IsSpace(blank) && (ms != [] ==> blank == []) && AreMembers(ms)
  }

  ghost predicate IsElement(e: Element)
    decreases e, 1
  {
    IsSpace(e.before) && IsSpace(e.after) && IsJson(e.value)
  }

  ghost predicate AreElements(es: seq<Element>)
    decreases es, 2
  {
    es != [] ==> IsElement(es[0]) && AreElements(es[1..])
  }

  ghost predicate AreMembers(ms: seq<Member>)
    decreases ms, 2
  {
    ms != [] ==>
      IsSpace(ms[0].before) && ArePieces(ms[0].name) && IsSpace(ms[0].after) && IsElement(ms[0].element) && AreMembers(ms[1..])
  }

  /** The pieces a text is made of: characters outside every string, structural characters, string literals. */
  datatype Lexeme = Inert(text: Text) | Mark(c: CodeUnit) | Quoted(pieces: seq<Piece>)

  function Lexemes(v: Json): seq<Lexeme>
    decreases v, 0
  {
    match v
    case Atom(t) => [Inert(t)]
    case Str(ps) => [Quoted(ps)]
    case Arr(es, blank) =>
      [Mark(LEFT_BRACKET)] + (if es == [] then [Inert(blank)] else ElementLexemes(es)) + [Mark(RIGHT_BRACKET)]
    case Obj(ms, blank) =>
      [Mark(LEFT_BRACE)] + (if ms == [] then [Inert(blank)] else MemberLexemes(ms)) + [Mark(RIGHT_BRACE)]
  }

  function Spaced(e: Element): seq<Lexeme>
    decreases e, 1
  {
    [Inert(e.before)] + Lexemes(e.value) + [Inert(e.after)]
  }

  function ElementLexemes(es: seq<Element>): seq<Lexeme>
    requires es != []
    decreases es, 2
  {
    Spaced(es[0]) + if |es| == 1 then [] else [Mark(COMMA)] + ElementLexemes(es[1..])
  }

  function NameLexemes(m: Member): seq<Lexeme> { [Inert(m.before), Quoted(m.name), Inert(m.after), Mark(COLON)] }

  function MemberLexemes(ms: seq<Member>): seq<Lexeme>
    requires ms != []
    decreases ms, 2
  {
    NameLexemes(ms[0]) + Spaced(ms[0].element) + if |ms| == 1 then [] else [Mark(COMMA)] + MemberLexemes(ms[1..])
  }

  predicate IsInert(s: Text) { forall i :: 0 <= i < |s| ==> s[i] != QUOTE && !IsMark(s[i]) }

  predicate IsLexeme(l: Lexeme) {
    match l
    case Inert(s) => IsInert(s)
    case Mark(c) => IsMark(c)
    case Quoted(ps) => ArePieces(ps)
  }

  predicate AreLexemes(ls: seq<Lexeme>) { forall i :: 0 <= i < |ls| ==> IsLexeme(ls[i]) }

  function LexemeText(l: Lexeme): Text
    requires IsLexeme(l)
  {
    match l
    case Inert(s) => s
    case Mark(c) => [c]
    case Quoted(ps) => LiteralText(ps)
  }

  function Render(ls: seq<Lexeme>): Text
    requires AreLexemes(ls)
  {
    if ls == [] then [] else LexemeText(ls[0]) + Render(ls[1..])
  }

  /** The characters of a JSON text. */
  ghost function JsonText(e: Element): Text
    requires IsElement(e)
  {
    ElementInert(e);
    Render(Spaced(e))
  }

  // ---------------------------------------------------------------- what the text may contain

  lemma NumberInert(t: Text)
    requires IsNumber(t)
    ensures IsInert(t)
  {
    var minus, whole, frac, exp :| NumberParts(t, minus, whole, frac, exp);
    assert IsInert(minus) && IsInert(whole);
    if frac != [] {
      assert frac == [frac[0]] + frac[1..];
      assert IsInert(frac);
    }
    if exp != [] {
      if AreDigits(exp[1..]) {
        assert exp == [exp[0]] + exp[1..];
      } else {
        assert exp == [exp[0], exp[1]] + exp[1..][1..];
      }
      assert IsInert(exp);
    }
  }

  lemma JsonInert(v: Json)
    requires IsJson(v)
    ensures AreLexemes(Lexemes(v))
    decreases v, 0
  {
    match v
    case Atom(t) => if IsNumber(t) { NumberInert(t); }
    case Str(ps) =>
    case Arr(es, blank) => if es != [] { ElementsInert(es); }
    case Obj(ms, blank) => if ms != [] { MembersInert(ms); }
  }

  lemma ElementInert(e: Element)
    requires IsElement(e)
    ensures AreLexemes(Spaced(e))
    decreases e, 1
  {
    JsonInert(e.value);
  }

  lemma ElementsInert(es: seq<Element>)
    requires es != [] && AreElements(es)
    ensures AreLexemes(ElementLexemes(es))
    decreases es, 2
  {
    ElementInert(es[0]);
    if |es| > 1 {
      ElementsInert(es[1..]);
    }
  }

  lemma MembersInert(ms: seq<Member>)
    requires ms != [] && AreMembers(ms)
    ensures AreLexemes(MemberLexemes(ms))
    decreases ms, 2
  {
    ElementInert(ms[0].element);
    if |ms| > 1 {
      MembersInert(ms[1..]);
    }
  }

  // ---------------------------------------------------------------- the tokens of the regular expression

  predicate IsLineTerminator(c: CodeUnit) { c == 10 || c == 13 || c == 0x2028 || c == 0x2029 }

  /** Length of a string token after its opening quote: anything but quotes and backslashes, or a backslash and one
      character that is not a line terminator, up to the closing quote. `escaped` says a backslash was just read. */
  function LiteralEnd(s: Text, escaped: bool): (n: Option<nat>)
    ensures n.Some? ==> 0 < n.value <= |s|
  {
    if s == [] then None
    else if s[0] == QUOTE && !escaped then Some(1)
    else if escaped && IsLineTerminator(s[0]) then None
    else
      match LiteralEnd(s[1..], s[0] == BACKSLASH && !escaped)
      case None => None
      case Some(n) => Some(n + 1)
  }

  /** Every leftmost match, characters that start none being skipped. */
  function Tokenize(s: Text): seq<Text>
    decreases |s|
  {
    if s == [] then []
    else if s[0] == QUOTE && LiteralEnd(s[1..], false).Some? then
      var n := 1 + LiteralEnd(s[1..], false).value;
      [s[..n]] + Tokenize(s[n..])
    else if IsMark(s[0]) then [[s[0]]] + Tokenize(s[1..])
    else Tokenize(s[1..])
  }

  function HexValue(c: CodeUnit): Option<nat> {
    if 0x30 <= c <= 0x39 then Some(c - 0x30)
    else if 0x41 <= c <= 0x46 then Some(c - 0x41 + 10)
    else if 0x61 <= c <= 0x66 then Some(c - 0x61 + 10)
    else None
  }

  function HexUnit(s: Text): Option<CodeUnit>
    requires |s| == 4
  {
    var h3, h2, h1, h0 := HexValue(s[0]), HexValue(s[1]), HexValue(s[2]), HexValue(s[3]);
    if h3.Some? && h2.Some? && h1.Some? && h0.Some? && h3.value < 16 && h2.value < 16 && h1.value < 16 && h0.value < 16
    then Some(FromHex(h3.value, h2.value, h1.value, h0.value)) else None
  }

  const DIGITS: string := "0123456789abcdef"
  const CAPITALS: string := "0123456789ABCDEF"

  /** The digits of either case, with their values. */
  lemma HexExact(c: CodeUnit, v: nat)
    ensures HexValue(c) == Some(v) <==> v < 16 && (c == DIGITS[v] as int || c == CAPITALS[v] as int)
  {
    assert forall i :: 0 <= i < 10 ==> DIGITS[i] as int == 0x30 + i && CAPITALS[i] as int == 0x30 + i;
    assert forall i :: 10 <= i < 16 ==> DIGITS[i] as int == 0x61 - 10 + i && CAPITALS[i] as int == 0x41 - 10 + i;
  }

  /** Four digits, most significant first. */
  lemma HexUnitExact(s: Text)
    requires |s| == 4
    ensures HexUnit(s).Some? <==> HexValue(s[0]).Some? && HexValue(s[1]).Some? && HexValue(s[2]).Some? && HexValue(s[3]).Some?
    ensures HexUnit(s).Some? ==>
              HexUnit(s).value ==
              4096 * HexValue(s[0]).value + 256 * HexValue(s[1]).value + 16 * HexValue(s[2]).value + HexValue(s[3]).value
  {
    HexSmall(s[0]);
    HexSmall(s[1]);
    HexSmall(s[2]);
    HexSmall(s[3]);
  }

  lemma HexSmall(c: CodeUnit)
    ensures HexValue(c).Some? ==> HexValue(c).value < 16
  {
  }

  /** The two-character escapes. */
  lemma ShortExact(letter: CodeUnit, v: CodeUnit)
    ensures ShortValue(letter) == Some(v) <==>
            || (letter == v && (v == '"' as int || v == '\\' as int || v == '/' as int))
            || (letter == 'b' as int && v == 0x08) || (letter == 'f' as int && v == 0x0C)
            || (letter == 'n' as int && v == '\n' as int) || (letter == 'r' as int && v == '\r' as int)
            || (letter == 't' as int && v == '\t' as int)
  {
  }

  function Prepend(c: CodeUnit, rest: Option<Text>): Option<Text> {
    match rest case None => None case Some(t) => Some([c] + t)
  }

  /** The string between the quotes, as JSON.parse reads it; None is a syntax error. */
  function Unquote(s: Text): Option<Text> {
    if s == [] then Some([])
    else if s[0] == BACKSLASH then
      if |s| >= 6 && s[1] == 0x75 && HexUnit(s[2..6]).Some? then Prepend(HexUnit(s[2..6]).value, Unquote(s[6..]))
      else if |s| >= 2 && ShortValue(s[1]).Some? then Prepend(ShortValue(s[1]).value, Unquote(s[2..]))
      else None
    else if s[0] < 0x20 || s[0] == QUOTE then None
    else Prepend(s[0], Unquote(s[1..]))
  }

  /** What the scan needs to know of a token. */
  datatype Kind = OpenObject | OpenArray | CloseScope | Colon | Comma | Literal(meaning: Option<Text>)

  predicate IsToken(t: Text) { t != [] && if t[0] == QUOTE then |t| >= 2 else IsMark(t[0]) && |t| == 1 }

  function KindOf(token: Text): Kind
    requires IsToken(token)
  {
    if token[0] == QUOTE then Literal(Unquote(token[1..|token| - 1]))
    else if token[0] == LEFT_BRACE then OpenObject
    else if token[0] == LEFT_BRACKET then OpenArray
    else if token[0] == RIGHT_BRACE || token[0] == RIGHT_BRACKET then CloseScope
    else if token[0] == COLON then Colon
    else Comma
  }

  predicate AreTokens(ts: seq<Text>) {
    forall i :: 0 <= i < |ts| ==> IsToken(ts[i])
  }

  function Kinds(ts: seq<Text>): seq<Kind>
    requires AreTokens(ts)
  {
    if ts == [] then [] else [KindOf(ts[0])] + Kinds(ts[1..])
  }

  lemma {:induction false} TokenizeTokens(s: Text)
    ensures AreTokens(Tokenize(s))
    decreases |s|
  {
    if s != [] {
      if s[0] == QUOTE && LiteralEnd(s[1..], false).Some? {
        TokenizeTokens(s[1 + LiteralEnd(s[1..], false).value..]);
      } else {
        TokenizeTokens(s[1..]);
      }
    }
  }

  // ---------------------------------------------------------------- the scan

  /** The open scopes, outermost first: the names seen in an object, None for an array. */
  type Scopes = seq<Option<set<Text>>>

  function Pop(objects: Scopes): Scopes { if objects == [] then [] else objects[..|objects| - 1] }

  /** Whether no name is met twice in one scope. */
  predicate Scan(kinds: seq<Kind>, objects: Scopes)
    decreases |kinds|
  {
    if kinds == [] then true
    else if kinds[0].OpenObject? then Scan(kinds[1..], objects + [Some({})])
    else if kinds[0].OpenArray? then Scan(kinds[1..], objects + [None])
    else if kinds[0].CloseScope? then Scan(kinds[1..], Pop(objects))
    else if kinds[0].Literal? && |kinds| > 1 && kinds[1].Colon? then
      && objects != [] && objects[|objects| - 1].Some? && kinds[0].meaning.Some?
      && kinds[0].meaning.value !in objects[|objects| - 1].value
      && Scan(kinds[1..], Pop(objects) + [Some(objects[|objects| - 1].value + {kinds[0].meaning.value})])
    else Scan(kinds[1..], objects)
  }

  predicate NamesDistinct(raw: Text) {
    TokenizeTokens(raw);
    Scan(Kinds(Tokenize(raw)), [])
  }

  lemma {:induction false} KindsAt(ts: seq<Text>, i: nat)
    requires AreTokens(ts) && i < |ts|
    ensures |Kinds(ts)| == |ts| && Kinds(ts)[i] == KindOf(ts[i])
    ensures Kinds(ts[i..]) == Kinds(ts)[i..]
  {
    if i > 0 {
      KindsAt(ts[1..], i - 1);
      assert ts[1..][i - 1..] == ts[i..];
    } else {
      assert ts[0..] == ts;
      if |ts| > 1 {
        KindsAt(ts[1..], 0);
      }
    }
  }

  /** What JSON.parse makes of a text: objects keep one value a name. */
  datatype Value = Primitive(text: Text) | String(meaning: Text) | List(items: seq<Value>) | Object(members: map<Text, Value>)

  /** JSON.parse decides syntax; the token loop decides about names. `parse` is JSON.parse. */
  method ParseConfiguration(raw: Text, parse: Text -> Option<Value>) returns (value: Option<Value>)
    ensures value == if parse(raw).Some? && NamesDistinct(raw) then parse(raw) else None
  {
    value := parse(raw);
    if value.None? {
      return;
    }
    var tokens := Tokenize(raw);
    TokenizeTokens(raw);
    var objects: Scopes, i := [], 0;
    while i < |tokens|
      invariant 0 <= i <= |tokens| && AreTokens(tokens)
      invariant AreTokens(tokens[i..]) && Scan(Kinds(tokens), []) == Scan(Kinds(tokens[i..]), objects)
    {
      var token := tokens[i];
      assert tokens[i..][1..] == tokens[i + 1..] && tokens[i..][0] == token;
      assert Kinds(tokens[i..])[1..] == Kinds(tokens[i + 1..]);
      if i + 1 < |tokens| {
        KindsAt(tokens[i + 1..], 0);
      }
      if token == [LEFT_BRACE] {
        objects := objects + [Some({})];
      } else if token == [LEFT_BRACKET] {
        objects := objects + [None];
      } else if token == [RIGHT_BRACE] || token == [RIGHT_BRACKET] {
        objects := Pop(objects);
      } else if token[0] == QUOTE && i + 1 < |tokens| && tokens[i + 1] == [COLON] {
        var keys := if objects == [] then None else objects[|objects| - 1];
        var key := Unquote(token[1..|token| - 1]);
        if key.None? || keys.None? || key.value in keys.value {
          return None;
        }
        objects := Pop(objects) + [Some(keys.value + {key.value})];
      }
      i := i + 1;
    }
  }

  // ---------------------------------------------------------------- tokens of a JSON text

  function LexemeKinds(l: Lexeme): seq<Kind> {
    match l
    case Inert(_) => []
    case Mark(c) => [if IsMark(c) then KindOf([c]) else Comma]
    case Quoted(ps) => [Literal(Some(NameOf(ps)))]
  }

  function NameOf(ps: seq<Piece>): Text { if ArePieces(ps) then Meaning(ps) else [] }

  /** The kinds of the tokens in `ls`, then `rest`. */
  function AllKinds(ls: seq<Lexeme>, rest: seq<Kind>): seq<Kind>
    decreases |ls|
  {
    if ls == [] then rest else LexemeKinds(ls[0]) + AllKinds(ls[1..], rest)
  }

  lemma {:induction false} AllKindsOfConcat(a: seq<Lexeme>, b: seq<Lexeme>, rest: seq<Kind>)
    ensures AllKinds(a + b, rest) == AllKinds(a, AllKinds(b, rest))
  {
    if a == [] {
      assert a + b == b;
    } else {
      assert (a + b)[1..] == a[1..] + b;
      AllKindsOfConcat(a[1..], b, rest);
    }
  }

  lemma AllKindsFirst(l: Lexeme, b: seq<Lexeme>, rest: seq<Kind>)
    ensures AllKinds([l] + b, rest) == LexemeKinds(l) + AllKinds(b, rest)
    ensures AllKinds([l], rest) == LexemeKinds(l) + rest
    ensures l.Inert? ==> AllKinds([l] + b, rest) == AllKinds(b, rest) && AllKinds([l], rest) == rest
  {
    assert ([l] + b)[1..] == b;
    assert [] + rest == rest && [] + AllKinds(b, rest) == AllKinds(b, rest);
  }

  lemma {:induction false} TokenizeInert(s: Text, rest: Text)
    requires IsInert(s)
    ensures Tokenize(s + rest) == Tokenize(rest)
  {
    if s == [] {
      assert s + rest == rest;
    } else {
      assert (s + rest)[1..] == s[1..] + rest;
      TokenizeInert(s[1..], rest);
    }
  }

  lemma LiteralEndStep(c: CodeUnit, tail: Text, escaped: bool)
    requires (escaped && !IsLineTerminator(c)) || (!escaped && c != QUOTE)
    requires LiteralEnd(tail, c == BACKSLASH && !escaped).Some?
    ensures LiteralEnd([c] + tail, escaped) == Some(1 + LiteralEnd(tail, c == BACKSLASH && !escaped).value)
  {
    assert ([c] + tail)[1..] == tail;
  }

  lemma LiteralEndOfEscape(c: CodeUnit, tail: Text)
    requires !IsLineTerminator(c) && LiteralEnd(tail, false).Some?
    ensures LiteralEnd([BACKSLASH, c] + tail, false) == Some(2 + LiteralEnd(tail, false).value)
  {
    LiteralEndStep(c, tail, true);
    LiteralEndStep(BACKSLASH, [c] + tail, false);
    assert [BACKSLASH, c] + tail == [BACKSLASH] + ([c] + tail);
  }

  lemma {:induction false} LiteralEndOfPlain(plain: Text, tail: Text)
    requires IsPlain(plain) && LiteralEnd(tail, false).Some?
    ensures LiteralEnd(plain + tail, false) == Some(|plain| + LiteralEnd(tail, false).value)
  {
    if plain == [] {
      assert plain + tail == tail;
    } else {
      LiteralEndOfPlain(plain[1..], tail);
      LiteralEndStep(plain[0], plain[1..] + tail, false);
      assert plain + tail == [plain[0]] + (plain[1..] + tail);
    }
  }

  lemma LiteralEndOfHex(digits: Text, tail: Text)
    requires IsPlain(digits) && LiteralEnd(tail, false).Some?
    ensures LiteralEnd([BACKSLASH, 0x75] + (digits + tail), false) == Some(2 + |digits| + LiteralEnd(tail, false).value)
  {
    LiteralEndOfPlain(digits, tail);
    LiteralEndOfEscape(0x75, digits + tail);
  }

  lemma LiteralEndOfPiece(p: Piece, tail: Text)
    requires IsPiece(p) && LiteralEnd(tail, false).Some?
    ensures LiteralEnd(PieceText(p) + tail, false) == Some(|PieceText(p)| + LiteralEnd(tail, false).value)
  {
    match p
    case Plain(c) => LiteralEndOfPlain([c], tail);
    case Short(letter) => LiteralEndOfEscape(letter, tail);
    case Hex(digits) =>
      LiteralEndOfHex(digits, tail);
      Regroup([BACKSLASH, 0x75], digits, tail, []);
  }

  lemma {:induction false} LiteralEndOfBody(ps: seq<Piece>, rest: Text)
    requires ArePieces(ps)
    ensures LiteralEnd(Body(ps) + ([QUOTE] + rest), false) == Some(|Body(ps)| + 1)
  {
    if ps == [] {
      assert Body(ps) + ([QUOTE] + rest) == [QUOTE] + rest;
    } else {
      LiteralEndOfBody(ps[1..], rest);
      Regroup(PieceText(ps[0]), Body(ps[1..]), [QUOTE] + rest, []);
      LiteralEndOfPiece(ps[0], Body(ps[1..]) + ([QUOTE] + rest));
    }
  }

  lemma {:induction false} UnquoteBody(ps: seq<Piece>)
    requires ArePieces(ps)
    ensures Unquote(Body(ps)) == Some(Meaning(ps))
  {
    if ps != [] {
      var s, t := Body(ps), PieceText(ps[0]);
      UnquoteBody(ps[1..]);
      assert s[|t|..] == Body(ps[1..]);
      match ps[0]
      case Plain(c) =>
      case Short(letter) =>
      case Hex(digits) => assert s[2..6] == t[2..6] == digits;
    }
  }

  /** The pieces spell every string body there is: what is read as a string is the body of some pieces. */
  lemma {:induction false} BodyOfUnquote(s: Text) returns (ps: seq<Piece>)
    requires Unquote(s).Some?
    ensures ArePieces(ps) && Body(ps) == s
    decreases |s|
  {
    if s == [] {
      ps := [];
    } else {
      var p := if s[0] != BACKSLASH then Plain(s[0])
               else if |s| >= 6 && s[1] == 0x75 && HexUnit(s[2..6]).Some? then Hex(s[2..6]) else Short(s[1]);
      var t := PieceText(p);
      assert s == t + s[|t|..];
      var rest := BodyOfUnquote(s[|t|..]);
      ps := [p] + rest;
      assert ps[1..] == rest;
    }
  }

  /** Two spellings of one name: the letters of an escape may be in either case, each for itself. */
  lemma MixedCaseAlias()
    ensures var a, b: seq<Piece> := [Hex([0x30, 0x30, 0x61, 0x42])], [Hex([0x30, 0x30, 0x61, 0x62])];
            ArePieces(a) && ArePieces(b) && Body(a) != Body(b) && Meaning(a) == Meaning(b) == [0xAB]
  {
    var a, b: seq<Piece> := [Hex([0x30, 0x30, 0x61, 0x42])], [Hex([0x30, 0x30, 0x61, 0x62])];
    assert a[1..] == [] && b[1..] == [];
    assert Body(a)[5] != Body(b)[5];
  }

  lemma TokenizeQuoted(ps: seq<Piece>, rest: Text)
    requires ArePieces(ps)
    ensures Tokenize(LiteralText(ps) + rest) == [LiteralText(ps)] + Tokenize(rest)
  {
    var s := LiteralText(ps) + rest;
    LiteralEndOfBody(ps, rest);
    assert s[1..] == Body(ps) + ([QUOTE] + rest);
    assert s[..|LiteralText(ps)|] == LiteralText(ps) && s[|LiteralText(ps)|..] == rest;
  }

  lemma KindOfQuoted(ps: seq<Piece>)
    requires ArePieces(ps)
    ensures IsToken(LiteralText(ps)) && KindOf(LiteralText(ps)) == Literal(Some(Meaning(ps)))
  {
    var token := LiteralText(ps);
    assert token[1..|token| - 1] == Body(ps);
    UnquoteBody(ps);
  }

  lemma {:induction false} TokenizeRender(ls: seq<Lexeme>)
    requires AreLexemes(ls)
    ensures AreTokens(Tokenize(Render(ls))) && Kinds(Tokenize(Render(ls))) == AllKinds(ls, [])
  {
    TokenizeTokens(Render(ls));
    if ls != [] {
      var rest := Render(ls[1..]);
      TokenizeRender(ls[1..]);
      match ls[0]
      case Inert(t) => TokenizeInert(t, rest);
      case Mark(c) => assert ([c] + rest)[1..] == rest;
      case Quoted(ps) =>
        TokenizeQuoted(ps, rest);
        KindOfQuoted(ps);
    }
  }

  // ---------------------------------------------------------------- the scan against the tree

  function MemberName(m: Member): Text { NameOf(m.name) }

  predicate DistinctNames(ms: seq<Member>) {
    forall i, j :: 0 <= i < j < |ms| ==> MemberName(ms[i]) != MemberName(ms[j])
  }

  /** No object, at any depth, has two names equal after unescaping. */
  predicate Unambiguous(v: Json)
    decreases v, 0
  {
    match v
    case Atom(_) => true
    case Str(_) => true
    case Arr(es, _) => ElementsUnambiguous(es)
    case Obj(ms, _) => DistinctNames(ms) && MembersUnambiguous(ms)
  }

  predicate ElementsUnambiguous(es: seq<Element>)
    decreases es, 1
  {
    es != [] ==> Unambiguous(es[0].value) && ElementsUnambiguous(es[1..])
  }

  predicate MembersUnambiguous(ms: seq<Member>)
    decreases ms, 1
  {
    ms != [] ==> Unambiguous(ms[0].element.value) && MembersUnambiguous(ms[1..])
  }

  function NamesOf(ms: seq<Member>): set<Text> { set m | m in ms :: MemberName(m) }

  /** The names are distinct and none of them was seen before. */
  predicate Fresh(ms: seq<Member>, seen: set<Text>) { DistinctNames(ms) && NamesOf(ms) !! seen }

  lemma {:induction false} NamesInclude(ms: seq<Member>)
    ensures forall name :: name in NamesOf(ms) <==> exists i :: 0 <= i < |ms| && MemberName(ms[i]) == name
  {
  }

  lemma DistinctFirst(ms: seq<Member>)
    requires ms != []
    ensures DistinctNames(ms) <==> DistinctNames(ms[1..]) && MemberName(ms[0]) !in NamesOf(ms[1..])
  {
    var rest := ms[1..];
    NamesInclude(rest);
    if DistinctNames(ms) {
      forall i, j | 0 <= i < j < |rest| ensures MemberName(rest[i]) != MemberName(rest[j]) {
        assert rest[i] == ms[i + 1] && rest[j] == ms[j + 1];
      }
    }
    if DistinctNames(rest) && MemberName(ms[0]) !in NamesOf(rest) {
      forall i, j | 0 <= i < j < |ms| ensures MemberName(ms[i]) != MemberName(ms[j]) {
        assert ms[j] == rest[j - 1] && (i > 0 ==> ms[i] == rest[i - 1]);
      }
    }
  }

  lemma FreshFirst(ms: seq<Member>, seen: set<Text>)
    requires ms != []
    ensures Fresh(ms, seen) <==> MemberName(ms[0]) !in seen && Fresh(ms[1..], seen + {MemberName(ms[0])})
    ensures NamesOf(ms) == {MemberName(ms[0])} + NamesOf(ms[1..])
  {
    assert ms == [ms[0]] + ms[1..];
    assert NamesOf(ms) == {MemberName(ms[0])} + NamesOf(ms[1..]);
    DistinctFirst(ms);
  }

  predicate NotColon(rest: seq<Kind>) { rest != [] ==> !rest[0].Colon? }

  lemma ScanOne(kind: Kind, rest: seq<Kind>, objects: Scopes)
    ensures ([kind] + rest)[1..] == rest && ([kind] + rest)[0] == kind
    ensures kind.Comma? ==> Scan([kind] + rest, objects) == Scan(rest, objects)
    ensures kind.OpenObject? ==> Scan([kind] + rest, objects) == Scan(rest, objects + [Some({})])
    ensures kind.OpenArray? ==> Scan([kind] + rest, objects) == Scan(rest, objects + [None])
    ensures kind.CloseScope? ==> Scan([kind] + rest, objects) == Scan(rest, Pop(objects))
    ensures kind.Literal? && NotColon(rest) ==> Scan([kind] + rest, objects) == Scan(rest, objects)
  {
  }

  lemma ScanName(name: Text, rest: seq<Kind>, below: Scopes, seen: set<Text>)
    ensures Scan([Literal(Some(name)), Colon] + rest, below + [Some(seen)]) <==>
            name !in seen && Scan(rest, below + [Some(seen + {name})])
  {
    var kinds := [Literal(Some(name)), Colon] + rest;
    assert kinds[1..] == [Colon] + rest && kinds[1..][1..] == rest;
    assert Pop(below + [Some(seen)]) == below;
  }

  lemma ScanValue(v: Json, rest: seq<Kind>, objects: Scopes)
    requires NotColon(rest)
    ensures Scan(AllKinds(Lexemes(v), rest), objects) <==> Unambiguous(v) && Scan(rest, objects)
    decreases v, 0
  {
    match v
    case Atom(t) => AllKindsFirst(Inert(t), [], rest);
    case Str(ps) =>
      AllKindsFirst(Quoted(ps), [], rest);
      ScanOne(Literal(Some(NameOf(ps))), rest, objects);
    case Arr(es, blank) =>
      var inside := if es == [] then [Inert(blank)] else ElementLexemes(es);
      var after := [CloseScope] + rest;
      Bracketed(LEFT_BRACKET, inside, RIGHT_BRACKET, rest);
      ScanOne(OpenArray, AllKinds(inside, after), objects);
      PopTop(objects, None);
      ScanOne(CloseScope, rest, objects + [None]);
      if es == [] {
        AllKindsFirst(Inert(blank), [], after);
      } else {
        ScanElements(es, after, objects + [None]);
      }
    case Obj(ms, blank) =>
      var inside := if ms == [] then [Inert(blank)] else MemberLexemes(ms);
      var after := [CloseScope] + rest;
      Bracketed(LEFT_BRACE, inside, RIGHT_BRACE, rest);
      ScanOne(OpenObject, AllKinds(inside, after), objects);
      PopTop(objects, Some({} + NamesOf(ms)));
      ScanOne(CloseScope, rest, objects + [Some({} + NamesOf(ms))]);
      if ms == [] {
        AllKindsFirst(Inert(blank), [], after);
        assert {} + NamesOf(ms) == {};
      } else {
        ScanMembers(ms, after, objects, {});
      }
  }

  lemma PopTop(objects: Scopes, top: Option<set<Text>>)
    ensures Pop(objects + [top]) == objects
  {
  }

  lemma Bracketed(left: CodeUnit, inside: seq<Lexeme>, right: CodeUnit, rest: seq<Kind>)
    requires IsMark(left) && IsMark(right)
    ensures AllKinds([Mark(left)] + inside + [Mark(right)], rest) ==
            [KindOf([left])] + AllKinds(inside, [KindOf([right])] + rest)
  {
    AllKindsOfConcat([Mark(left)] + inside, [Mark(right)], rest);
    AllKindsFirst(Mark(right), [], rest);
    AllKindsFirst(Mark(left), inside, [KindOf([right])] + rest);
  }

  lemma SpacedKinds(e: Element, rest: seq<Kind>)
    ensures AllKinds(Spaced(e), rest) == AllKinds(Lexemes(e.value), rest)
  {
    AllKindsOfConcat([Inert(e.before)] + Lexemes(e.value), [Inert(e.after)], rest);
    AllKindsFirst(Inert(e.after), [], rest);
    AllKindsFirst(Inert(e.before), Lexemes(e.value), rest);
  }

  lemma ScanElements(es: seq<Element>, rest: seq<Kind>, objects: Scopes)
    requires es != [] && NotColon(rest)
    ensures Scan(AllKinds(ElementLexemes(es), rest), objects) <==> ElementsUnambiguous(es) && Scan(rest, objects)
    decreases es, 1
  {
    if |es| == 1 {
      assert ElementLexemes(es) == Spaced(es[0]);
      SpacedKinds(es[0], rest);
      ScanValue(es[0].value, rest, objects);
    } else {
      var more := AllKinds(ElementLexemes(es[1..]), rest);
      ListKinds(Spaced(es[0]), ElementLexemes(es[1..]), rest);
      SpacedKinds(es[0], [Comma] + more);
      ScanValue(es[0].value, [Comma] + more, objects);
      ScanOne(Comma, more, objects);
      ScanElements(es[1..], rest, objects);
    }
  }

  lemma ListKinds(first: seq<Lexeme>, others: seq<Lexeme>, rest: seq<Kind>)
    ensures AllKinds(first + ([Mark(COMMA)] + others), rest) == AllKinds(first, [Comma] + AllKinds(others, rest))
  {
    AllKindsOfConcat(first, [Mark(COMMA)] + others, rest);
    AllKindsFirst(Mark(COMMA), others, rest);
  }

  lemma NameKinds(m: Member, others: seq<Lexeme>, rest: seq<Kind>)
    ensures AllKinds(NameLexemes(m) + others, rest) ==
            [Literal(Some(MemberName(m))), Colon] + AllKinds(others, rest)
  {
    var kinds := AllKinds(others, rest);
    AllKindsOfConcat(NameLexemes(m), others, rest);
    AllKindsFirst(Mark(COLON), [], kinds);
    AllKindsFirst(Inert(m.after), [Mark(COLON)], kinds);
    AllKindsFirst(Quoted(m.name), [Inert(m.after), Mark(COLON)], kinds);
    AllKindsFirst(Inert(m.before), [Quoted(m.name), Inert(m.after), Mark(COLON)], kinds);
    assert NameLexemes(m) == [Inert(m.before)] + ([Quoted(m.name)] + ([Inert(m.after)] + [Mark(COLON)]));
  }

  lemma ScanMembers(ms: seq<Member>, rest: seq<Kind>, below: Scopes, seen: set<Text>)
    requires ms != [] && NotColon(rest)
    ensures Scan(AllKinds(MemberLexemes(ms), rest), below + [Some(seen)]) <==>
            Fresh(ms, seen) && MembersUnambiguous(ms) && Scan(rest, below + [Some(seen + NamesOf(ms))])
    decreases ms, 1
  {
    var name, value, more := MemberName(ms[0]), ms[0].element.value, ms[1..];
    var scopes := below + [Some(seen + {name})];
    FreshFirst(ms, seen);
    if |ms| == 1 {
      assert MemberLexemes(ms) == NameLexemes(ms[0]) + Spaced(ms[0].element);
      NameKinds(ms[0], Spaced(ms[0].element), rest);
      SpacedKinds(ms[0].element, rest);
      ScanName(name, AllKinds(Lexemes(value), rest), below, seen);
      ScanValue(value, rest, scopes);
      assert NamesOf(more) == {} && seen + NamesOf(ms) == seen + {name};
    } else {
      var others := Spaced(ms[0].element) + ([Mark(COMMA)] + MemberLexemes(more));
      var kinds := AllKinds(MemberLexemes(more), rest);
      MemberLexemesMore(ms);
      NameKinds(ms[0], others, rest);
      ListKinds(Spaced(ms[0].element), MemberLexemes(more), rest);
      SpacedKinds(ms[0].element, [Comma] + kinds);
      ScanName(name, AllKinds(Lexemes(value), [Comma] + kinds), below, seen);
      ScanValue(value, [Comma] + kinds, scopes);
      ScanOne(Comma, kinds, scopes);
      ScanMembers(more, rest, below, seen + {name});
      assert seen + {name} + NamesOf(more) == seen + NamesOf(ms);
    }
  }

  lemma MemberLexemesMore(ms: seq<Member>)
    requires |ms| > 1
    ensures MemberLexemes(ms) ==
            NameLexemes(ms[0]) + (Spaced(ms[0].element) + ([Mark(COMMA)] + MemberLexemes(ms[1..])))
  {
    Regroup(NameLexemes(ms[0]), Spaced(ms[0].element), [Mark(COMMA)] + MemberLexemes(ms[1..]), []);
  }

  /** On every valid JSON text the token scan says exactly whether some object, at any depth, repeats a name. */
  lemma NamesDistinctExact(e: Element)
    requires IsElement(e)
    ensures NamesDistinct(JsonText(e)) <==> Unambiguous(e.value)
  {
    var ls := Spaced(e);
    ElementInert(e);
    TokenizeRender(ls);
    SpacedKinds(e, []);
    ScanValue(e.value, [], []);
  }

  // ---------------------------------------------------------------- the parsed value

  /** The value of a JSON text. */
  function ValueOf(v: Json): Value
    decreases v, 0
  {
    match v
    case Atom(t) => Primitive(t)
    case Str(ps) => String(NameOf(ps))
    case Arr(es, _) => List(ItemsOf(es))
    case Obj(ms, _) => Object(ObjectOf(ms))
  }

  function ItemsOf(es: seq<Element>): seq<Value>
    decreases es, 1
  {
    if es == [] then [] else [ValueOf(es[0].value)] + ItemsOf(es[1..])
  }

  /** Members in order: a later one of the same name replaces the earlier one. */
  function ObjectOf(ms: seq<Member>): map<Text, Value>
    decreases ms, 1
  {
    if ms == [] then map[]
    else
      var last := ms[|ms| - 1];
      ObjectOf(ms[..|ms| - 1])[MemberName(last) := ValueOf(last.element.value)]
  }

  lemma {:induction false} ObjectNames(ms: seq<Member>)
    ensures ObjectOf(ms).Keys == NamesOf(ms)
  {
    if ms != [] {
      ObjectNames(ms[..|ms| - 1]);
      assert ms == ms[..|ms| - 1] + [ms[|ms| - 1]];
    }
  }

  lemma SizeOfNext<K, V>(m: map<K, V>, k: K, v: V)
    ensures |m[k := v]| == |m| + if k in m then 0 else 1
  {
    assert m[k := v].Keys == m.Keys + {k};
    assert |m[k := v]| == |m[k := v].Keys| && |m| == |m.Keys|;
  }

  lemma DistinctLast(ms: seq<Member>)
    requires ms != []
    ensures DistinctNames(ms) <==> DistinctNames(ms[..|ms| - 1]) && MemberName(ms[|ms| - 1]) !in NamesOf(ms[..|ms| - 1])
  {
    var n := |ms| - 1;
    NamesInclude(ms[..n]);
    assert forall i :: 0 <= i < n ==> ms[..n][i] == ms[i];
  }

  /** An object keeps as many members as it was written with exactly when its names are distinct. */
  lemma {:induction false} NothingReplaced(ms: seq<Member>)
    ensures |ObjectOf(ms)| <= |ms|
    ensures DistinctNames(ms) <==> |ObjectOf(ms)| == |ms|
  {
    if ms != [] {
      var n := |ms| - 1;
      NothingReplaced(ms[..n]);
      ObjectNames(ms[..n]);
      DistinctLast(ms);
      SizeOfNext(ObjectOf(ms[..n]), MemberName(ms[n]), ValueOf(ms[n].element.value));
    }
  }

  /** When names are distinct every member is in the object, with its own value. */
  lemma {:induction false} MemberKept(ms: seq<Member>, i: nat)
    requires DistinctNames(ms) && i < |ms|
    ensures MemberName(ms[i]) in ObjectOf(ms) && ObjectOf(ms)[MemberName(ms[i])] == ValueOf(ms[i].element.value)
  {
    var n := |ms| - 1;
    if i < n {
      DistinctLast(ms);
      assert ms[..n][i] == ms[i];
      MemberKept(ms[..n], i);
    }
  }

  /** No object, at any depth, has lost a member on the way to its value. */
  predicate NothingLost(v: Json)
    decreases v, 0
  {
    match v
    case Atom(_) => true
    case Str(_) => true
    case Arr(es, _) => NoneLost(es)
    case Obj(ms, _) => |ObjectOf(ms)| == |ms| && NoMemberLost(ms)
  }

  predicate NoneLost(es: seq<Element>)
    decreases es, 1
  {
    es != [] ==> NothingLost(es[0].value) && NoneLost(es[1..])
  }

  predicate NoMemberLost(ms: seq<Member>)
    decreases ms, 1
  {
    ms != [] ==> NothingLost(ms[0].element.value) && NoMemberLost(ms[1..])
  }

  lemma LostIsAmbiguous(v: Json)
    ensures NothingLost(v) <==> Unambiguous(v)
    decreases v, 0
  {
    match v
    case Atom(_) =>
    case Str(_) =>
    case Arr(es, _) => NoneLostIsUnambiguous(es);
    case Obj(ms, _) =>
      NothingReplaced(ms);
      NoMemberLostIsUnambiguous(ms);
  }

  lemma NoneLostIsUnambiguous(es: seq<Element>)
    ensures NoneLost(es) <==> ElementsUnambiguous(es)
    decreases es, 1
  {
    if es != [] {
      LostIsAmbiguous(es[0].value);
      NoneLostIsUnambiguous(es[1..]);
    }
  }

  lemma NoMemberLostIsUnambiguous(ms: seq<Member>)
    ensures NoMemberLost(ms) <==> MembersUnambiguous(ms)
    decreases ms, 1
  {
    if ms != [] {
      LostIsAmbiguous(ms[0].element.value);
      NoMemberLostIsUnambiguous(ms[1..]);
    }
  }

  ghost predicate Writes(e: Element, raw: Text) { IsElement(e) && JsonText(e) == raw }

  /** JSON.parse: the texts of the grammar, each with a value it writes. */
  ghost predicate ParsesJson(parse: Text -> Option<Value>) {
    forall raw ::
      if parse(raw).None? then forall e :: !Writes(e, raw)
      else exists e :: Writes(e, raw) && ValueOf(e.value) == parse(raw).value
  }

  ghost function SomeValue(raw: Text): Option<Value> {
    if exists e :: Writes(e, raw) then
      var e :| Writes(e, raw);
      Some(ValueOf(e.value))
    else None
  }

  lemma ParsersExist()
    ensures ParsesJson((raw: Text) => SomeValue(raw))
  {
  }

  /** A configuration is let through exactly when it is a JSON text in which no object repeats a name, and then its value
      holds every member that was written. */
  lemma ConfigurationExact(raw: Text, parse: Text -> Option<Value>)
    requires ParsesJson(parse)
    ensures parse(raw).Some? && NamesDistinct(raw) <==> exists e :: Writes(e, raw) && Unambiguous(e.value)
    ensures parse(raw).Some? && NamesDistinct(raw) ==>
              exists e :: Writes(e, raw) && ValueOf(e.value) == parse(raw).value && NothingLost(e.value)
  {
    if e :| Writes(e, raw) && Unambiguous(e.value) {
      NamesDistinctExact(e);
    }
    if parse(raw).Some? && NamesDistinct(raw) {
      var e :| Writes(e, raw) && ValueOf(e.value) == parse(raw).value;
      NamesDistinctExact(e);
      LostIsAmbiguous(e.value);
    }
  }
}
