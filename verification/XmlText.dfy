/** Character references of the strict LIST reply reader (`unescapeXml`, src/media/reconciliation-r2.ts).
    The reply was decoded as fatal UTF-8, so its characters are Unicode scalar values. */
module XmlText {
  import opened Prelude

  datatype StorageFailure = ProtocolFailure

  predicate IsDigit(c: char) { '0' <= c <= '9' }

  predicate IsHexDigit(c: char) { IsDigit(c) || 'a' <= c <= 'f' || 'A' <= c <= 'F' }

  function DigitValue(c: char): nat
    requires IsHexDigit(c)
  {
    if IsDigit(c) then (c - '0') as int else if 'a' <= c <= 'f' then (c - 'a') as int + 10 else (c - 'A') as int + 10
  }

  /** The number written by the digits, in base ten or sixteen. */
  function Numeral(s: string, radix: nat): nat
    requires forall i :: 0 <= i < |s| ==> IsHexDigit(s[i])
  {
    if s == [] then 0 else Numeral(s[..|s| - 1], radix) * radix + DigitValue(s[|s| - 1])
  }

  predicate AllDigits(s: string) { s != [] && forall i :: 0 <= i < |s| ==> IsDigit(s[i]) }

  predicate AllHexDigits(s: string) { s != [] && forall i :: 0 <= i < |s| ==> IsHexDigit(s[i]) }

  /** The character of a numeric reference: control characters and surrogates are refused. */
  function CodePoint(code: nat): Option<char> {
    if code < 32 || code > 0x10FFFF || 0xD800 <= code <= 0xDFFF then None else Some(code as char)
  }

  /** What stands between '&' and ';'. */
  function EntityChar(name: string): Option<char> {
    if name == "amp" then Some('&') else if name == "lt" then Some('<') else if name == "gt" then Some('>')
    else if name == "quot" then Some('"') else if name == "apos" then Some('\'')
    else if |name| > 1 && name[0] == '#' && AllDigits(name[1..]) then CodePoint(Numeral(name[1..], 10))
    else if |name| > 2 && name[0] == '#' && name[1] == 'x' && AllHexDigits(name[2..]) then
      CodePoint(Numeral(name[2..], 16))
    else None
  }

  const DECIMALS: string := "0123456789"
  const HEXADECIMALS: string := "0123456789" + "abcdef"
  const CAPITALS: string := "0123456789" + "ABCDEF"

  /** A number in decimal, and in hexadecimal with these digits. */
  function Decimal(n: nat): (s: string)
    ensures s != []
  {
    if n < 10 then [DECIMALS[n]] else Decimal(n / 10) + [DECIMALS[n % 10]]
  }

  function Hexadecimal(n: nat, digits: string): (s: string)
    requires |digits| == 16
    ensures s != []
    decreases n
  {
    if n < 16 then [digits[n]] else Hexadecimal(n / 16, digits) + [digits[n % 16]]
  }

  /** Each digit stands at its value. */
  predicate AreDigits(digits: string) {
    forall i :: 0 <= i < |digits| ==> IsHexDigit(digits[i]) && DigitValue(digits[i]) == i
  }

  lemma DigitSets()
    ensures AreDigits(DECIMALS) && AreDigits(HEXADECIMALS) && AreDigits(CAPITALS)
    ensures |DECIMALS| == 10 && |HEXADECIMALS| == 16 && |CAPITALS| == 16
    ensures forall i :: 0 <= i < 10 ==> IsDigit(DECIMALS[i])
  {
  }

  lemma {:induction false} DecimalReads(n: nat)
    ensures AllDigits(Decimal(n)) && Numeral(Decimal(n), 10) == n
  {
    var s := Decimal(n);
    DigitSets();
    if n < 10 {
      assert s[..0] == [];
    } else {
      DecimalReads(n / 10);
      assert s[..|s| - 1] == Decimal(n / 10);
    }
  }

  lemma {:induction false} HexadecimalReads(n: nat, digits: string)
    requires AreDigits(digits) && |digits| == 16
    ensures AllHexDigits(Hexadecimal(n, digits)) && Numeral(Hexadecimal(n, digits), 16) == n
    decreases n
  {
    var s := Hexadecimal(n, digits);
    if n < 16 {
      assert s[..0] == [];
    } else {
      HexadecimalReads(n / 16, digits);
      assert s[..|s| - 1] == Hexadecimal(n / 16, digits);
    }
  }

  /** A numeric reference, decimal or hexadecimal, stands for the character of its number, which is no control character, no
      surrogate and not beyond the last plane. */
  lemma NumericExact(n: nat)
    ensures var c := if n < 32 || n > 1114111 || 55296 <= n <= 57343 then None else Some(n as char);
            && EntityChar("#" + Decimal(n)) == c && EntityChar("#x" + Hexadecimal(n, HEXADECIMALS)) == c
            && EntityChar("#x" + Hexadecimal(n, CAPITALS)) == c
  {
    DigitSets();
    DecimalReads(n);
    HexadecimalReads(n, HEXADECIMALS);
    HexadecimalReads(n, CAPITALS);
    DecimalReference(Decimal(n));
    HexReference(Hexadecimal(n, HEXADECIMALS));
    HexReference(Hexadecimal(n, CAPITALS));
  }

  lemma DecimalReference(s: string)
    requires AllDigits(s)
    ensures EntityChar("#" + s) == CodePoint(Numeral(s, 10))
  {
    var name := "#" + s;
    assert name[1..] == s;
    NotNamed(name);
  }

  lemma HexReference(s: string)
    requires AllHexDigits(s)
    ensures EntityChar("#x" + s) == CodePoint(Numeral(s, 16))
  {
    var name := "#x" + s;
    assert name[2..] == s;
    assert name[1..][0] == 'x' && !IsDigit('x');
    NotNamed(name);
  }

  lemma NotNamed(name: string)
    requires name != [] && name[0] == '#'
    ensures name != "amp" && name != "lt" && name != "gt" && name != "quot" && name != "apos"
  {
  }

  predicate DecimalCode(c: char) { 48 <= c as int <= 57 }

  predicate HexCode(c: char) { DecimalCode(c) || 65 <= c as int <= 70 || 97 <= c as int <= 102 }

  /** There are no other references than the five named ones and numbers in digits. */
  lemma EntityOnly(name: string)
    ensures EntityChar("amp") == Some('&') && EntityChar("lt") == Some('<') && EntityChar("gt") == Some('>')
    ensures EntityChar("quot") == Some('"') && EntityChar("apos") == Some('\'')
    ensures EntityChar(name).Some? ==>
              || name in {"amp", "lt", "gt", "quot", "apos"}
              || (|name| > 1 && name[0] == '#' && forall i :: 1 <= i < |name| ==> DecimalCode(name[i]))
              || (|name| > 2 && name[0] == '#' && name[1] == 'x' && forall i :: 2 <= i < |name| ==> HexCode(name[i]))
  {
    if EntityChar(name).Some? && name !in {"amp", "lt", "gt", "quot", "apos"} {
      if AllDigits(name[1..]) {
        forall i | 1 <= i < |name| ensures DecimalCode(name[i]) { assert IsDigit(name[1..][i - 1]); }
      } else {
        forall i | 2 <= i < |name| ensures HexCode(name[i]) { assert IsHexDigit(name[2..][i - 2]); }
      }
    }
  }

  function IndexOf(s: string, c: char): (i: nat)
    ensures i <= |s| && (forall k :: 0 <= k < i ==> s[k] != c) && (i < |s| ==> s[i] == c)
  {
    if s == [] || s[0] == c then 0
    else
      var j := IndexOf(s[1..], c);
      j + 1
  }

  lemma {:induction false} IndexOfFirst(a: string, c: char, b: string)
    requires c !in a
    ensures IndexOf(a + [c] + b, c) == |a|
  {
    if a != [] {
      IndexOfFirst(a[1..], c, b);
      assert (a + [c] + b)[1..] == a[1..] + [c] + b;
    }
  }

  lemma {:induction false} IndexOfNone(a: string, c: char)
    requires c !in a
    ensures IndexOf(a, c) == |a|
  {
    if a != [] {
      IndexOfNone(a[1..], c);
    }
  }

  lemma NoSemicolonInName(name: string)
    requires EntityChar(name).Some?
    ensures ';' !in name
  {
    forall k | 0 <= k < |name| ensures name[k] != ';' {
      if |name| > 1 && name[0] == '#' && k > 0 && AllDigits(name[1..]) {
        assert IsDigit(name[1..][k - 1]);
      } else if |name| > 2 && name[0] == '#' && k > 1 && AllHexDigits(name[2..]) {
        assert IsHexDigit(name[2..][k - 2]);
      }
    }
  }

  // ---------------------------------------------------------------- pieces

  /** One written character: itself, or a reference to it by an accepted name. */
  datatype Piece = Raw(c: char) | Reference(name: string, denotes: char)

  /** The meaning of a reference name, passed around by name so that the inductions below do not look inside it. */
  type Entities = string -> Option<char>

  ghost predicate NamesHaveNoSemicolon(ent: Entities) { forall name :: ent(name).Some? ==> ';' !in name }

  predicate ValidPiece(ent: Entities, p: Piece) {
    match p
    case Raw(c) => c != '&'
    case Reference(name, c) => ent(name) == Some(c)
  }

  function PieceText(p: Piece): (r: string)
    ensures r != []
  {
    match p case Raw(c) => [c] case Reference(name, _) => ['&'] + name + [';']
  }

  function PieceMeaning(p: Piece): char { match p case Raw(c) => c case Reference(_, c) => c }

  /** The next character of a text: an ordinary one, or a whole reference. */
  function Head(ent: Entities, s: string): (r: Option<Piece>)
    requires s != []
    ensures r.Some? ==> ValidPiece(ent, r.value)
    ensures r.Some? ==> |PieceText(r.value)| <= |s| && s[..|PieceText(r.value)|] == PieceText(r.value)
  {
    if s[0] != '&' then Some(Raw(s[0]))
    else
      var i := IndexOf(s, ';');
      if i == |s| then None
      else match ent(s[1..i])
        case None => None
        case Some(c) =>
          assert s[..i + 1] == ['&'] + s[1..i] + [';'];
          Some(Reference(s[1..i], c))
  }

  /** Fails at the first '&' that does not start an accepted reference. */
  function UnescapeWith(ent: Entities, s: string): Result<string, StorageFailure> {
    if s == [] then Ok([])
    else match Head(ent, s)
      case None => Err(ProtocolFailure)
      case Some(p) =>
        match UnescapeWith(ent, s[|PieceText(p)|..])
        case Err(e) => Err(e)
        case Ok(t) => Ok([PieceMeaning(p)] + t)
  }

  function Unescape(s: string): Result<string, StorageFailure> { UnescapeWith(EntityChar, s) }

  /** `s` writes the characters of `t` one after another, each as the given piece. */
  predicate Writes(ent: Entities, ps: seq<Piece>, s: string, t: string) {
    if ps == [] then s == [] && t == []
    else
      var u := PieceText(ps[0]);
      ValidPiece(ent, ps[0]) && |u| <= |s| && s[..|u|] == u && t != [] && t[0] == PieceMeaning(ps[0])
      && Writes(ent, ps[1..], s[|u|..], t[1..])
  }

  lemma HeadOfPiece(ent: Entities, p: Piece, rest: string)
    requires NamesHaveNoSemicolon(ent) && ValidPiece(ent, p)
    ensures Head(ent, PieceText(p) + rest) == Some(p)
  {
    var s := PieceText(p) + rest;
    if p.Reference? {
      assert s == (['&'] + p.name) + [';'] + rest;
      assert s[1..|p.name| + 1] == p.name;
      IndexOfFirst(['&'] + p.name, ';', rest);
    }
  }

  lemma {:induction false} UnescapeOfWritten(ent: Entities, ps: seq<Piece>, s: string, t: string)
    requires NamesHaveNoSemicolon(ent) && Writes(ent, ps, s, t)
    ensures UnescapeWith(ent, s) == Ok(t)
  {
    if ps != [] {
      var u := PieceText(ps[0]);
      assert s == s[..|u|] + s[|u|..];
      assert t == [t[0]] + t[1..];
      UnescapeOfWritten(ent, ps[1..], s[|u|..], t[1..]);
      HeadOfPiece(ent, ps[0], s[|u|..]);
    }
  }

  lemma {:induction false} WrittenOfUnescape(ent: Entities, s: string) returns (ps: seq<Piece>)
    requires UnescapeWith(ent, s).Ok?
    ensures Writes(ent, ps, s, UnescapeWith(ent, s).value)
  {
    ps := [];
    if s != [] {
      var p := Head(ent, s).value;
      var rest := WrittenOfUnescape(ent, s[|PieceText(p)|..]);
      ps := [p] + rest;
      assert ps[1..] == rest;
      assert UnescapeWith(ent, s).value[1..] == UnescapeWith(ent, s[|PieceText(p)|..]).value;
    }
  }

  lemma EntityNames()
    ensures NamesHaveNoSemicolon(EntityChar)
  {
    forall name | EntityChar(name).Some? ensures ';' !in name { NoSemicolonInName(name); }
  }

  /** `s` spells `t`: for some choice of pieces it writes exactly the characters of `t`. */
  ghost predicate Spells(ent: Entities, s: string, t: string) { exists ps :: WritesAs(ent, s, t, ps) }

  predicate WritesAs(ent: Entities, s: string, t: string, ps: seq<Piece>) { Writes(ent, ps, s, t) }

  lemma UnescapeExactWith(ent: Entities, s: string, t: string)
    requires NamesHaveNoSemicolon(ent)
    ensures UnescapeWith(ent, s) == Ok(t) <==> Spells(ent, s, t)
  {
    forall ps | WritesAs(ent, s, t, ps) ensures UnescapeWith(ent, s) == Ok(t) {
      UnescapeOfWritten(ent, ps, s, t);
    }
    if UnescapeWith(ent, s) == Ok(t) {
      var ps := WrittenOfUnescape(ent, s);
      assert WritesAs(ent, s, t, ps);
    }
  }

  /** A string is read as `t` exactly when it spells `t`, each character raw or by some reference. */
  lemma UnescapeExact(s: string, t: string)
    ensures Unescape(s) == Ok(t) <==> Spells(EntityChar, s, t)
  {
    EntityNames();
    UnescapeExactWith(EntityChar, s, t);
  }

  // ---------------------------------------------------------------- escaping

  /** The five predefined entities of section 4.6 of XML 1.0. */
  function EscapePiece(c: char): Piece {
    if c == '&' then Reference("amp", c) else if c == '<' then Reference("lt", c)
    else if c == '>' then Reference("gt", c) else if c == '"' then Reference("quot", c)
    else if c == '\'' then Reference("apos", c) else Raw(c)
  }

  /** Writing a text with a chosen piece for every character. */
  function EscapeWith(esc: char -> Piece, t: string): string {
    if t == [] then [] else PieceText(esc(t[0])) + EscapeWith(esc, t[1..])
  }

  function Escape(t: string): string { EscapeWith(EscapePiece, t) }

  /** Every choice of piece is a valid one, denotes its character and brings no markup. */
  ghost predicate Faithful(ent: Entities, esc: char -> Piece) {
    forall c :: ValidPiece(ent, esc(c)) && PieceMeaning(esc(c)) == c
                && '<' !in PieceText(esc(c)) && '>' !in PieceText(esc(c))
  }

  lemma {:induction false} EscapeWrites(ent: Entities, esc: char -> Piece, t: string) returns (ps: seq<Piece>)
    requires Faithful(ent, esc)
    ensures Writes(ent, ps, EscapeWith(esc, t), t)
  {
    ps := [];
    if t != [] {
      var head, tail := PieceText(esc(t[0])), EscapeWith(esc, t[1..]);
      var rest := EscapeWrites(ent, esc, t[1..]);
      ps := [esc(t[0])] + rest;
      assert ps[1..] == rest;
      assert (head + tail)[|head|..] == tail;
    }
  }

  lemma EscapeIsFaithful()
    ensures Faithful(EntityChar, EscapePiece)
  {
    forall c ensures ValidPiece(EntityChar, EscapePiece(c)) && PieceMeaning(EscapePiece(c)) == c
                     && '<' !in PieceText(EscapePiece(c)) && '>' !in PieceText(EscapePiece(c))
    {
      var p := EscapePiece(c);
      if p.Reference? {
        assert forall k :: 0 <= k < |p.name| ==> p.name[k] != '<' && p.name[k] != '>';
      }
    }
  }

  /** Unescaping undoes escaping on every text. */
  lemma UnescapeOfEscape(t: string)
    ensures Unescape(Escape(t)) == Ok(t)
  {
    EntityNames();
    EscapeIsFaithful();
    var ps := EscapeWrites(EntityChar, EscapePiece, t);
    UnescapeOfWritten(EntityChar, ps, Escape(t), t);
  }

  lemma {:induction false} EscapeWithHasNoMarkup(ent: Entities, esc: char -> Piece, t: string)
    requires Faithful(ent, esc)
    ensures '<' !in EscapeWith(esc, t) && '>' !in EscapeWith(esc, t)
    ensures EscapeWith(esc, t) == [] <==> t == []
  {
    if t != [] {
      EscapeWithHasNoMarkup(ent, esc, t[1..]);
    }
  }

  lemma EscapeHasNoMarkup(t: string)
    ensures '<' !in Escape(t) && '>' !in Escape(t)
    ensures Escape(t) == [] <==> t == []
  {
    EscapeIsFaithful();
    EscapeWithHasNoMarkup(EntityChar, EscapePiece, t);
  }
}
