/** The chunk walk of `inspectPng` (src/media/content.ts), against the grammar of the files it accepts. */
module PngChunks {
  import opened Prelude
  import opened UnicodeText

  type Bytes = seq<Byte>

  datatype Rejection = Invalid | Unsupported | LimitExceeded | Unavailable

  const SIGNATURE: Bytes := [0x89, 0x50, 0x4E, 0x47, 0x0D, 0x0A, 0x1A, 0x0A]
  const MAX_CHUNKS := 4096

  function U32(b: Bytes): nat {
    if |b| != 4 then 0
    else
      var b3: int, b2: int, b1: int, b0: int := b[0], b[1], b[2], b[3];
      ((b3 * 256 + b2) * 256 + b1) * 256 + b0
  }

  /** What the walk distinguishes. `Other` starts with a lower-case letter, `Critical` with an upper-case one. */
  datatype Kind = Ihdr | Plte | Idat | Iend | Actl | Critical | Other | Malformed

  predicate IsLetter(c: nat) { 0x41 <= c <= 0x5A || 0x61 <= c <= 0x7A }

  /** The type is decoded as ASCII, which drops the top bit of each byte. */
  function KindOf(b: Bytes): Kind {
    var k := if |b| == 4 then (b[0] % 128, b[1] % 128, b[2] % 128, b[3] % 128) else (0, 0, 0, 0);
    if !IsLetter(k.0) || !IsLetter(k.1) || !IsLetter(k.2) || !IsLetter(k.3) then Malformed
    else if k == (0x49, 0x48, 0x44, 0x52) then Ihdr
    else if k == (0x50, 0x4C, 0x54, 0x45) then Plte
    else if k == (0x49, 0x44, 0x41, 0x54) then Idat
    else if k == (0x49, 0x45, 0x4E, 0x44) then Iend
    else if k == (0x61, 0x63, 0x54, 0x4C) then Actl
    else if k.0 <= 0x5A then Critical
    else Other
  }

  predicate IsPlainType(b: Bytes) { |b| == 4 && forall i :: 0 <= i < 4 ==> IsLetter(b[i]) }

  /** Only the low seven bits of a type count. */
  lemma TopBitsIgnored(a: Bytes, b: Bytes)
    requires |a| == |b| == 4 && forall i :: 0 <= i < 4 ==> a[i] % 128 == b[i] % 128
    ensures KindOf(a) == KindOf(b)
  {
    assert a[0] % 128 == b[0] % 128 && a[1] % 128 == b[1] % 128 && a[2] % 128 == b[2] % 128 && a[3] % 128 == b[3] % 128;
  }

  /** An accepted type is four letters, as the specification wants, exactly when no top bit is set; clearing the top bits
      always gives four letters of the same kind. */
  lemma PlainTypeExact(b: Bytes)
    requires |b| == 4 && !KindOf(b).Malformed?
    ensures IsPlainType(b) <==> forall i :: 0 <= i < 4 ==> b[i] < 0x80
    ensures var plain: Bytes := [b[0] % 128, b[1] % 128, b[2] % 128, b[3] % 128];
            IsPlainType(plain) && KindOf(plain) == KindOf(b)
  {
    var plain: Bytes := [b[0] % 128, b[1] % 128, b[2] % 128, b[3] % 128];
    TopBitsIgnored(plain, b);
    if forall i :: 0 <= i < 4 ==> b[i] < 0x80 {
      assert b[0] % 128 == b[0] && b[1] % 128 == b[1] && b[2] % 128 == b[2] && b[3] % 128 == b[3];
    }
  }

  predicate UpperCase(c: char) { 'A' <= c <= 'Z' }

  predicate LowerCase(c: char) { 'a' <= c <= 'z' }

  function Decoded(b: Byte): char {
    var low := b % 128;
    low as char
  }

  /** The low seven bits of the bytes spell this name. */
  predicate Spells(b: Bytes, name: string) { |b| == |name| && forall i :: 0 <= i < |b| ==> Decoded(b[i]) == name[i] }

  lemma SpellsExact(b: Bytes, name: string)
    requires |b| == |name| == 4
    ensures Spells(b, name) <==>
            Decoded(b[0]) == name[0] && Decoded(b[1]) == name[1] && Decoded(b[2]) == name[2] && Decoded(b[3]) == name[3]
  {
  }

  /** Every kind by the name it spells, or, for a name that has no meaning here, by the case of its first letter. */
  lemma KindExact(b: Bytes)
    requires |b| == 4
    ensures KindOf(b) == Ihdr <==> Spells(b, "IHDR")
    ensures KindOf(b) == Plte <==> Spells(b, "PLTE")
    ensures KindOf(b) == Idat <==> Spells(b, "IDAT")
    ensures KindOf(b) == Iend <==> Spells(b, "IEND")
    ensures KindOf(b) == Actl <==> Spells(b, "acTL")
    ensures KindOf(b) == Malformed <==> !forall i :: 0 <= i < 4 ==> UpperCase(Decoded(b[i])) || LowerCase(Decoded(b[i]))
    ensures KindOf(b) == Other ==> LowerCase(Decoded(b[0]))
    ensures KindOf(b) == Critical ==> UpperCase(Decoded(b[0]))
  {
    SpellsExact(b, "IHDR");
    SpellsExact(b, "PLTE");
    SpellsExact(b, "IDAT");
    SpellsExact(b, "IEND");
    SpellsExact(b, "acTL");
    forall i | 0 <= i < 4 ensures IsLetter(b[i] % 128) <==> UpperCase(Decoded(b[i])) || LowerCase(Decoded(b[i])) {
    }
  }

  /** A type that is not four letters and is taken for a header. */
  lemma DisguisedHeader()
    ensures var b: Bytes := [0xC9, 0x48, 0x44, 0x52]; KindOf(b) == Ihdr && !IsPlainType(b)
  {
    var b: Bytes := [0xC9, 0x48, 0x44, 0x52];
    assert !IsLetter(b[0]);
  }

  /** How the fields of a chunk are read: a big-endian length, the type, the CRC of type and body. */
  datatype Fields = Fields(u32: Bytes -> nat, kindOf: Bytes -> Kind, crc: Bytes -> nat)

  /** The four parts of a chunk, as they stand in the file. */
  datatype Chunk = Chunk(size: Bytes, kind: Bytes, body: Bytes, check: Bytes)

  predicate IsChunk(f: Fields, c: Chunk) {
    && |c.size| == 4 && f.u32(c.size) == |c.body|
    && |c.kind| == 4 && !f.kindOf(c.kind).Malformed?
    && |c.check| == 4 && f.crc(c.kind + c.body) == f.u32(c.check)
  }

  function ChunkBytes(c: Chunk): Bytes { c.size + c.kind + c.body + c.check }

  function FileBytes(cs: seq<Chunk>): Bytes { if cs == [] then [] else ChunkBytes(cs[0]) + FileBytes(cs[1..]) }

  // ---------------------------------------------------------------- the walk

  /** The variables of the loop. */
  datatype State = State(chunks: nat, header: Option<Bytes>, palette: bool, compressed: seq<Bytes>, idatEnded: bool,
                         ended: bool)

  const START: State := State(0, None, false, [], false, false)

  function ReadChunk(f: Fields, rest: Bytes): Result<Chunk, Rejection> {
    if |rest| < 12 then Err(Invalid)
    else
      var length := f.u32(rest[..4]);
      if 12 + length > |rest| || f.kindOf(rest[4..8]).Malformed? then Err(Invalid)
      else if f.crc(rest[4..8 + length]) != f.u32(rest[8 + length..12 + length]) then Err(Invalid)
      else Ok(Chunk(rest[..4], rest[4..8], rest[8..8 + length], rest[8 + length..12 + length]))
  }

  predicate PaletteSize(n: nat) { 3 <= n <= 768 && n % 3 == 0 }

  /** One turn of the loop after the chunk was read; `last` says that the file ends with it. */
  function Step(s: State, kind: Kind, body: Bytes, last: bool): Result<State, Rejection> {
    var next := s.(chunks := s.chunks + 1);
    if s.header.None? && !kind.Ihdr? then Err(Invalid)
    else match kind
      case Ihdr => if s.header.Some? || |body| != 13 then Err(Invalid) else Ok(next.(header := Some(body)))
      case Plte =>
        if s.palette || s.compressed != [] || !PaletteSize(|body|) then Err(Invalid) else Ok(next.(palette := true))
      case Idat => if s.idatEnded then Err(Invalid) else Ok(next.(compressed := s.compressed + [body]))
      case _ =>
        var closed := next.(idatEnded := s.idatEnded || s.compressed != []);
        if kind.Iend? then
          if body != [] || s.compressed == [] || !last then Err(Invalid) else Ok(closed.(ended := true))
        else if kind.Actl? then Err(Unsupported)
        else if kind.Other? then Ok(closed)
        else Err(Invalid)
  }

  function Walk(f: Fields, rest: Bytes, s: State): Result<State, Rejection>
    decreases |rest|
  {
    if rest == [] then if s.header.None? || !s.ended then Err(Invalid) else Ok(s)
    else if s.chunks + 1 > MAX_CHUNKS then Err(LimitExceeded)
    else match ReadChunk(f, rest)
      case Err(e) => Err(e)
      case Ok(c) =>
        var length := |ChunkBytes(c)|;
        match Step(s, f.kindOf(c.kind), c.body, length == |rest|)
        case Err(e) => Err(e)
        case Ok(next) => Walk(f, rest[length..], next)
  }

  /** The state after the last chunk of a file. */
  function Chunks(f: Fields, data: Bytes): Result<State, Rejection> {
    if |data| < 8 || data[..8] != SIGNATURE then Err(Invalid) else Walk(f, data[8..], START)
  }

  /** Reading at offset p of the whole buffer instead of at the front of what is left. */
  function ReadAt(f: Fields, data: Bytes, p: nat): Result<Chunk, Rejection> {
    if p + 12 > |data| then Err(Invalid)
    else
      var length := f.u32(data[p..p + 4]);
      if p + 12 + length > |data| || f.kindOf(data[p + 4..p + 8]).Malformed? then Err(Invalid)
      else if f.crc(data[p + 4..p + 8 + length]) != f.u32(data[p + 8 + length..p + 12 + length]) then Err(Invalid)
      else
        Ok(Chunk(data[p..p + 4], data[p + 4..p + 8], data[p + 8..p + 8 + length], data[p + 8 + length..p + 12 + length]))
  }

  lemma ReadAtOffset(f: Fields, data: Bytes, p: nat)
    requires p <= |data|
    ensures ReadChunk(f, data[p..]) == ReadAt(f, data, p)
  {
    var rest := data[p..];
    if p + 12 <= |data| {
      assert rest[..4] == data[p..p + 4] && rest[4..8] == data[p + 4..p + 8];
      var length := f.u32(rest[..4]);
      if p + 12 + length <= |data| {
        assert rest[4..8 + length] == data[p + 4..p + 8 + length];
        assert rest[8 + length..12 + length] == data[p + 8 + length..p + 12 + length];
        assert rest[8..8 + length] == data[p + 8..p + 8 + length];
      }
    }
  }

  lemma WalkAt(f: Fields, data: Bytes, p: nat, s: State)
    requires p < |data| && s.chunks < MAX_CHUNKS && ReadAt(f, data, p).Ok?
    ensures var c := ReadAt(f, data, p).value;
            Walk(f, data[p..], s) == Continue(f, data, p + 12 + |c.body|, Step(s, f.kindOf(c.kind), c.body, p + 12 + |c.body| == |data|))
  {
    ReadAtOffset(f, data, p);
    var length := |ReadAt(f, data, p).value.body|;
    assert data[p..][12 + length..] == data[p + 12 + length..];
  }

  function Continue(f: Fields, data: Bytes, p: nat, next: Result<State, Rejection>): Result<State, Rejection>
    requires p <= |data|
  {
    if next.Ok? then Walk(f, data[p..], next.value) else next
  }

  /** The branches on the chunk type. */
  method Account(s: State, kind: Kind, body: Bytes, last: bool) returns (r: Result<State, Rejection>)
    ensures r == Step(s, kind, body, last)
  {
    var State(chunks, header, palette, compressed, idatEnded, ended) := s;
    if header.None? && !kind.Ihdr? {
      return Err(Invalid);
    }
    if kind.Ihdr? {
      if header.Some? || |body| != 13 {
        return Err(Invalid);
      }
      header := Some(body);
    } else if kind.Plte? {
      if palette || compressed != [] || |body| < 3 || |body| > 768 || |body| % 3 != 0 {
        return Err(Invalid);
      }
      palette := true;
    } else if kind.Idat? {
      if idatEnded {
        return Err(Invalid);
      }
      compressed := compressed + [body];
    } else {
      if compressed != [] {
        idatEnded := true;
      }
      if kind.Iend? {
        if body != [] || compressed == [] || !last {
          return Err(Invalid);
        }
        ended := true;
      } else if kind.Actl? {
        return Err(Unsupported);
      } else if !kind.Other? {
        return Err(Invalid);
      }
    }
    r := Ok(State(chunks + 1, header, palette, compressed, idatEnded, ended));
  }

  method InspectChunks(f: Fields, data: Bytes) returns (r: Result<State, Rejection>)
    ensures r == Chunks(f, data)
  {
    if |data| < 8 || data[..8] != SIGNATURE {
      return Err(Invalid);
    }
    var p, s := 8, START;
    while p < |data|
      invariant 8 <= p <= |data|
      invariant Chunks(f, data) == Walk(f, data[p..], s)
    {
      if s.chunks + 1 > MAX_CHUNKS {
        return Err(LimitExceeded);
      }
      var read := ReadAt(f, data, p);
      ReadAtOffset(f, data, p);
      if read.Err? {
        return Err(read.error);
      }
      var Chunk(_, kind, body, _) := read.value;
      WalkAt(f, data, p, s);
      var next := Account(s, f.kindOf(kind), body, p + 12 + |body| == |data|);
      if next.Err? {
        return next;
      }
      s := next.value;
      p := p + 12 + |body|;
    }
    assert data[p..] == [];
    if s.header.None? || !s.ended {
      return Err(Invalid);
    }
    r := Ok(s);
  }

  // ---------------------------------------------------------------- the grammar

  datatype Part = Part(kind: Kind, body: Bytes)

  function Parts(f: Fields, cs: seq<Chunk>): (ps: seq<Part>)
    ensures |ps| == |cs|
  {
    seq(|cs|, k requires 0 <= k < |cs| => Part(f.kindOf(cs[k].kind), cs[k].body))
  }

  predicate Has(ps: seq<Part>, kind: Kind) { exists k :: 0 <= k < |ps| && ps[k].kind == kind }

  /** IHDR first and only first, 13 bytes long. */
  predicate HeaderFirst(ps: seq<Part>) {
    forall k :: 0 <= k < |ps| ==> (ps[k].kind.Ihdr? <==> k == 0) && (k == 0 ==> |ps[k].body| == 13)
  }

  /** One to 256 entries of three bytes. */
  predicate PaletteEntries(n: nat) { exists entries :: 1 <= entries <= 256 && n == Triple(entries) }

  function Triple(n: nat): nat { 3 * n }

  lemma PaletteExact(n: nat)
    ensures PaletteSize(n) <==> PaletteEntries(n)
  {
    if PaletteSize(n) {
      assert n == Triple(n / 3);
    }
  }

  /** At most one palette, ahead of the image data. */
  predicate PaletteEarly(ps: seq<Part>) {
    forall k :: 0 <= k < |ps| && ps[k].kind.Plte? ==>
      PaletteEntries(|ps[k].body|) && forall j :: 0 <= j < k ==> !ps[j].kind.Plte? && !ps[j].kind.Idat?
  }

  /** Nothing between image data chunks. */
  predicate DataContiguous(ps: seq<Part>) {
    forall i, j, k :: 0 <= i < j < k < |ps| && ps[i].kind.Idat? && ps[k].kind.Idat? ==> ps[j].kind.Idat?
  }

  /** IEND last, empty, and after some image data. */
  predicate EndLast(ps: seq<Part>) {
    forall k :: 0 <= k < |ps| && ps[k].kind.Iend? ==> k == |ps| - 1 && ps[k].body == [] && Has(ps, Idat)
  }

  predicate Known(kind: Kind) { kind.Ihdr? || kind.Plte? || kind.Idat? || kind.Iend? || kind.Other? }

  predicate KindsKnown(ps: seq<Part>) { forall k :: 0 <= k < |ps| ==> Known(ps[k].kind) }

  predicate Ordered(ps: seq<Part>) {
    HeaderFirst(ps) && PaletteEarly(ps) && DataContiguous(ps) && EndLast(ps) && KindsKnown(ps)
  }

  predicate AllChunks(f: Fields, cs: seq<Chunk>) { forall k :: 0 <= k < |cs| ==> IsChunk(f, cs[k]) }

  /** The chunk sequence of an accepted file. */
  predicate IsPng(f: Fields, cs: seq<Chunk>) {
    AllChunks(f, cs) && |cs| <= MAX_CHUNKS && Ordered(Parts(f, cs)) && Has(Parts(f, cs), Iend)
  }

  /** The bodies of the image data chunks. */
  function DataOf(ps: seq<Part>): seq<Bytes> {
    if ps == [] then []
    else DataOf(ps[..|ps| - 1]) + if ps[|ps| - 1].kind.Idat? then [ps[|ps| - 1].body] else []
  }

  /** What the loop variables hold once `ps` has been read. */
  function StateOf(ps: seq<Part>): State {
    State(|ps|, if ps == [] then None else Some(ps[0].body), Has(ps, Plte), DataOf(ps),
          Has(ps, Idat) && !ps[|ps| - 1].kind.Idat?, Has(ps, Iend))
  }

  // ---------------------------------------------------------------- one more chunk

  lemma HasOfNext(ps: seq<Part>, p: Part, kind: Kind)
    ensures Has(ps + [p], kind) <==> Has(ps, kind) || p.kind == kind
  {
    var all := ps + [p];
    if Has(ps, kind) {
      var k :| 0 <= k < |ps| && ps[k].kind == kind;
      assert all[k].kind == kind;
    }
    if p.kind == kind {
      assert all[|ps|].kind == kind;
    }
  }

  lemma {:induction false} HasData(ps: seq<Part>)
    ensures DataOf(ps) != [] <==> Has(ps, Idat)
  {
    if ps != [] {
      var n := |ps| - 1;
      HasData(ps[..n]);
      HasOfNext(ps[..n], ps[n], Idat);
      assert ps[..n] + [ps[n]] == ps;
    }
  }

  lemma StateOfNext(ps: seq<Part>, p: Part)
    ensures StateOf(ps + [p]) == State(|ps| + 1, Some(if ps == [] then p.body else ps[0].body),
                                       Has(ps, Plte) || p.kind.Plte?, DataOf(ps) + (if p.kind.Idat? then [p.body] else []),
                                       (Has(ps, Idat) || p.kind.Idat?) && !p.kind.Idat?, Has(ps, Iend) || p.kind.Iend?)
  {
    HasOfNext(ps, p, Plte);
    HasOfNext(ps, p, Idat);
    HasOfNext(ps, p, Iend);
    assert (ps + [p])[..|ps|] == ps;
  }

  /** What the next chunk must satisfy for the order rules to go on holding. */
  predicate Fits(ps: seq<Part>, p: Part) {
    && (p.kind.Ihdr? <==> ps == []) && (p.kind.Ihdr? ==> |p.body| == 13)
    && (p.kind.Plte? ==> PaletteEntries(|p.body|) && !Has(ps, Plte) && !Has(ps, Idat))
    && (p.kind.Idat? && Has(ps, Idat) ==> ps[|ps| - 1].kind.Idat?)
    && (p.kind.Iend? ==> p.body == [] && Has(ps, Idat))
    && Known(p.kind)
  }

  lemma OrderedFits(ps: seq<Part>, p: Part)
    requires Ordered(ps + [p])
    ensures Fits(ps, p)
  {
    var all, n := ps + [p], |ps|;
    assert all[n] == p && forall k :: 0 <= k < n ==> ps[k] == all[k];
    HasOfNext(ps, p, Idat);
    if p.kind.Idat? && Has(ps, Idat) {
      var i :| 0 <= i < n && ps[i].kind.Idat?;
      assert all[i].kind.Idat? && all[n - 1] == ps[n - 1];
    }
  }

  lemma FitsOrdered(ps: seq<Part>, p: Part)
    requires Ordered(ps) && !Has(ps, Iend) && Fits(ps, p)
    ensures Ordered(ps + [p])
  {
    var all, n := ps + [p], |ps|;
    assert all[n] == p && forall k :: 0 <= k < n ==> all[k] == ps[k];
    HasOfNext(ps, p, Idat);
    forall i, j, k | 0 <= i < j < k < |all| && all[i].kind.Idat? && all[k].kind.Idat? ensures all[j].kind.Idat? {
      assert ps[i].kind.Idat?;
      if k == n && j < n - 1 {
        assert ps[n - 1].kind.Idat?;
      }
    }
    assert DataContiguous(all);
    assert PaletteEarly(all);
    assert HeaderFirst(all) && EndLast(all) && KindsKnown(all);
  }

  /** A turn of the loop succeeds exactly when the order rules allow the chunk, and keeps the variables in step. */
  lemma StepExact(ps: seq<Part>, p: Part, last: bool)
    requires Ordered(ps) && !Has(ps, Iend)
    ensures Step(StateOf(ps), p.kind, p.body, last).Ok? <==> Ordered(ps + [p]) && (p.kind.Iend? ==> last)
    ensures Step(StateOf(ps), p.kind, p.body, last).Ok? ==>
            Step(StateOf(ps), p.kind, p.body, last).value == StateOf(ps + [p])
  {
    PaletteExact(|p.body|);
    HasData(ps);
    StateOfNext(ps, p);
    if Ordered(ps + [p]) {
      OrderedFits(ps, p);
    } else if Fits(ps, p) {
      FitsOrdered(ps, p);
    }
  }

  // ---------------------------------------------------------------- accepted files

  lemma ReadExact(f: Fields, rest: Bytes)
    requires ReadChunk(f, rest).Ok?
    ensures var c := ReadChunk(f, rest).value;
            IsChunk(f, c) && |ChunkBytes(c)| <= |rest| && ChunkBytes(c) == rest[..|ChunkBytes(c)|]
  {
    var c := ReadChunk(f, rest).value;
    var length := |c.body|;
    assert rest[4..8 + length] == c.kind + c.body;
    assert rest[..12 + length] == c.size + c.kind + c.body + c.check;
  }

  lemma ReadPrinted(f: Fields, c: Chunk, after: Bytes)
    requires IsChunk(f, c)
    ensures ReadChunk(f, ChunkBytes(c) + after) == Ok(c)
  {
    var rest := ChunkBytes(c) + after;
    var length := |c.body|;
    assert rest[..4] == c.size && rest[4..8] == c.kind;
    assert rest[4..8 + length] == c.kind + c.body && rest[8..8 + length] == c.body;
    assert rest[8 + length..12 + length] == c.check;
  }

  lemma PartsOfNext(f: Fields, cs: seq<Chunk>, c: Chunk)
    ensures Parts(f, cs + [c]) == Parts(f, cs) + [Part(f.kindOf(c.kind), c.body)]
  {
  }

  /** The chunks read so far: allowed, and nothing may follow IEND. */
  predicate ReadSoFar(f: Fields, cs: seq<Chunk>, rest: Bytes) {
    AllChunks(f, cs) && |cs| <= MAX_CHUNKS && Ordered(Parts(f, cs)) && (Has(Parts(f, cs), Iend) ==> rest == [])
  }

  function WalkFrom(f: Fields, cs: seq<Chunk>, rest: Bytes): Result<State, Rejection> {
    Walk(f, rest, StateOf(Parts(f, cs)))
  }

  lemma WalkTurn(f: Fields, cs: seq<Chunk>, rest: Bytes) returns (c: Chunk, after: Bytes)
    requires ReadSoFar(f, cs, rest) && rest != [] && WalkFrom(f, cs, rest).Ok?
    ensures rest == ChunkBytes(c) + after && |after| < |rest| && ReadSoFar(f, cs + [c], after)
    ensures WalkFrom(f, cs, rest) == WalkFrom(f, cs + [c], after)
  {
    c := ReadChunk(f, rest).value;
    var length := |ChunkBytes(c)|;
    var p := Part(f.kindOf(c.kind), c.body);
    after := rest[length..];
    ReadExact(f, rest);
    PartsOfNext(f, cs, c);
    StepExact(Parts(f, cs), p, length == |rest|);
    HasOfNext(Parts(f, cs), p, Iend);
  }

  /** A walk that succeeds has read whole chunks in an allowed order. */
  lemma {:induction false} WalkReads(f: Fields, cs: seq<Chunk>, rest: Bytes) returns (more: seq<Chunk>)
    requires ReadSoFar(f, cs, rest) && WalkFrom(f, cs, rest).Ok?
    ensures rest == FileBytes(more) && IsPng(f, cs + more)
    ensures WalkFrom(f, cs, rest).value == StateOf(Parts(f, cs + more))
    decreases |rest|
  {
    if rest == [] {
      more := [];
      assert cs + more == cs;
    } else {
      var c, after := WalkTurn(f, cs, rest);
      var tail := WalkReads(f, cs + [c], after);
      more := [c] + tail;
      AppendFirst(cs, c, tail);
    }
  }

  lemma AppendFirst<T>(before: seq<T>, t: T, after: seq<T>)
    ensures before + [t] + after == before + ([t] + after)
    ensures ([t] + after)[0] == t && ([t] + after)[1..] == after
  {
  }

  lemma OrderedPrefix(ps: seq<Part>, k: nat)
    requires Ordered(ps) && k < |ps|
    ensures Ordered(ps[..k]) && !Has(ps[..k], Iend)
  {
    var front := ps[..k];
    assert forall j :: 0 <= j < k ==> front[j] == ps[j] && !ps[j].kind.Iend?;
  }

  lemma AcceptTurn(f: Fields, cs: seq<Chunk>, c: Chunk, more: seq<Chunk>)
    requires IsPng(f, cs + [c] + more)
    ensures WalkFrom(f, cs, ChunkBytes(c) + FileBytes(more)) == WalkFrom(f, cs + [c], FileBytes(more))
  {
    var all, ps, p := Parts(f, cs + [c] + more), Parts(f, cs), Part(f.kindOf(c.kind), c.body);
    assert (cs + [c] + more)[|cs|] == c;
    assert ps == all[..|cs|] && ps + [p] == all[..|cs| + 1] == Parts(f, cs + [c]);
    OrderedPrefix(all, |cs|);
    if more == [] {
      assert all[..|cs| + 1] == all;
    } else {
      OrderedPrefix(all, |cs| + 1);
      HasOfNext(ps, p, Iend);
    }
    var rest := ChunkBytes(c) + FileBytes(more);
    ReadPrinted(f, c, FileBytes(more));
    assert rest[|ChunkBytes(c)|..] == FileBytes(more);
    StepExact(ps, p, |ChunkBytes(c)| == |rest|);
  }

  /** Every chunk sequence in an allowed order is read. */
  lemma {:induction false} WalkAccepts(f: Fields, cs: seq<Chunk>, more: seq<Chunk>)
    requires IsPng(f, cs + more)
    ensures WalkFrom(f, cs, FileBytes(more)) == Ok(StateOf(Parts(f, cs + more)))
    decreases |more|
  {
    if more == [] {
      assert cs + more == cs;
      var k :| 0 <= k < |Parts(f, cs)| && Parts(f, cs)[k].kind.Iend?;
    } else {
      AppendFirst(cs, more[0], more[1..]);
      assert [more[0]] + more[1..] == more;
      AcceptTurn(f, cs, more[0], more[1..]);
      WalkAccepts(f, cs + [more[0]], more[1..]);
    }
  }

  predicate Describes(f: Fields, data: Bytes, cs: seq<Chunk>) {
    data == SIGNATURE + FileBytes(cs) && IsPng(f, cs)
  }

  lemma NothingRead(f: Fields, rest: Bytes)
    ensures ReadSoFar(f, [], rest) && WalkFrom(f, [], rest) == Walk(f, rest, START)
  {
    assert Parts(f, []) == [] && StateOf([]) == START;
  }

  lemma RestRead(f: Fields, rest: Bytes) returns (cs: seq<Chunk>)
    requires Walk(f, rest, START).Ok?
    ensures rest == FileBytes(cs) && IsPng(f, cs)
  {
    NothingRead(f, rest);
    cs := WalkReads(f, [], rest);
    assert [] + cs == cs;
  }

  lemma RestAccepted(f: Fields, cs: seq<Chunk>)
    requires IsPng(f, cs)
    ensures Walk(f, FileBytes(cs), START) == Ok(StateOf(Parts(f, cs)))
  {
    NothingRead(f, FileBytes(cs));
    assert [] + cs == cs;
    WalkAccepts(f, [], cs);
  }

  /** The walk accepts exactly the signature followed by chunks in an allowed order, and returns what they hold. */
  lemma ChunksExact(f: Fields, data: Bytes)
    ensures Chunks(f, data).Ok? <==> exists cs :: Describes(f, data, cs)
    ensures forall cs :: Describes(f, data, cs) ==> Chunks(f, data) == Ok(StateOf(Parts(f, cs)))
  {
    if Chunks(f, data).Ok? {
      var cs := RestRead(f, data[8..]);
      assert data == data[..8] + data[8..];
      assert Describes(f, data, cs);
    }
    forall cs | Describes(f, data, cs) ensures Chunks(f, data) == Ok(StateOf(Parts(f, cs))) {
      assert data[..8] == SIGNATURE && data[8..] == FileBytes(cs);
      RestAccepted(f, cs);
    }
  }
}
