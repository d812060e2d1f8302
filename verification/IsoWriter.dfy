/** Writing boxes (section 4.2 of ISO/IEC 14496-12): numbers, flags and rows of boxes as bytes, and that the box walk reads
    back what was written. */
module IsoWriter {
  import opened Prelude
  import opened UnicodeText
  import opened PngChunks
  import opened IsoBoxes
  import opened IsoFragments
  import Crc32

  // ---------------------------------------------------------------- numbers

  /** Readers, and writers that go with them; `bits` is the number with these bits set. */
  datatype Writer = Writer(n: Numbers, w24: nat -> Bytes, w32: nat -> Bytes, w64: nat -> Bytes, s32: int -> Bytes, bits: set<nat> -> nat)
  {
    ghost predicate Writes24() { forall v: nat :: v < 0x100_0000 ==> |w24(v)| == 3 && n.u24(w24(v)) == v }

    ghost predicate Writes32() { forall v: nat :: v < 0x1_0000_0000 ==> |w32(v)| == 4 && n.u32(w32(v)) == v }

    ghost predicate Writes64() { forall v: nat :: v < 0x1_0000_0000_0000_0000 ==> |w64(v)| == 8 && n.u64(w64(v)) == v }

    ghost predicate WritesSigned() {
      forall v: int :: -0x8000_0000 <= v < 0x8000_0000 ==> |s32(v)| == 4 && n.s32(s32(v)) == v
    }

    ghost predicate WritesBits() {
      forall s: set<nat> :: Below24(s) ==> bits(s) < 0x100_0000 && forall k: nat :: k < 24 ==> (n.flag(bits(s), k) <==> k in s)
    }

    ghost predicate Sound() { Writes24() && Writes32() && Writes64() && WritesSigned() && WritesBits() }
  }

  predicate Below24(s: set<nat>) { forall k :: k in s ==> k < 24 }

  /** A number as `size` bytes, most significant first. */
  function Digits(v: nat, size: nat): (b: Bytes)
    ensures |b| == size
    decreases size
  {
    if size == 0 then [] else Digits(v / 256, size - 1) + [v % 256]
  }

  function Capacity(size: nat): nat { if size == 0 then 1 else 256 * Capacity(size - 1) }

  lemma Quotient(v: nat, bound: nat)
    requires v < 256 * bound
    ensures v / 256 < bound && 256 * (v / 256) + v % 256 == v
  {
  }

  lemma {:induction false} DigitsRead(v: nat, size: nat)
    requires v < Capacity(size)
    ensures BigEndian(Digits(v, size)) == v
    decreases size
  {
    if size > 0 {
      Quotient(v, Capacity(size - 1));
      DigitsRead(v / 256, size - 1);
      assert Digits(v, size)[..size - 1] == Digits(v / 256, size - 1);
    }
  }

  lemma Capacities()
    ensures Capacity(3) == 0x100_0000 && Capacity(4) == 0x1_0000_0000 && Capacity(8) == 0x1_0000_0000_0000_0000
  {
    assert Capacity(1) == 256 && Capacity(2) == 0x1_0000;
    assert Capacity(5) == 0x100_0000_0000 && Capacity(6) == 0x1_0000_0000_0000 && Capacity(7) == 0x100_0000_0000_0000;
  }

  function BitList(s: set<nat>): Crc32.Bits { seq(24, (k: nat) => k in s) }

  lemma Halved(bit: bool, rest: nat)
    ensures var number := (if bit then 1 else 0) + 2 * rest; (number % 2 == 1 <==> bit) && number / 2 == rest
  {
  }

  lemma LowBitsStep(bit: bool, rest: nat, k: nat)
    ensures Crc32.LowBits((if bit then 1 else 0) + 2 * rest, k + 1) == [bit] + Crc32.LowBits(rest, k)
  {
    Halved(bit, rest);
  }

  lemma {:induction false} BitOfNumber(bits: Crc32.Bits, k: nat)
    requires k < |bits|
    ensures Crc32.LowBits(Crc32.Number(bits), k + 1)[k] == bits[k]
    decreases k
  {
    var rest := Crc32.Number(bits[1..]);
    LowBitsStep(bits[0], rest, k);
    if k > 0 {
      BitOfNumber(bits[1..], k - 1);
    }
  }

  lemma {:induction false} NumberBelow(bits: Crc32.Bits)
    ensures Crc32.Number(bits) < Crc32.Power(|bits|)
    decreases |bits|
  {
    if bits != [] {
      NumberBelow(bits[1..]);
    }
  }

  /** The writers that go with the readers of a Node Buffer. */
  function BufferWriter(): Writer {
    Writer(BUFFER, (v: nat) => Digits(v, 3), (v: nat) => Digits(v, 4), (v: nat) => Digits(v, 8),
           (v: int) => Digits(if v < 0 && v >= -0x1_0000_0000 then v + 0x1_0000_0000 else if v < 0 then 0 else v, 4),
           (s: set<nat>) => Crc32.Number(BitList(s)))
  }

  /** What is asked of writers can be met: by big-endian numbers. */
  lemma BufferWrites()
    ensures BufferWriter().Sound()
  {
    var w := BufferWriter();
    Capacities();
    forall v: nat | v < 0x100_0000 ensures |w.w24(v)| == 3 && w.n.u24(w.w24(v)) == v { DigitsRead(v, 3); }
    forall v: nat | v < 0x1_0000_0000 ensures |w.w32(v)| == 4 && w.n.u32(w.w32(v)) == v { DigitsRead(v, 4); }
    forall v: nat | v < 0x1_0000_0000_0000_0000 ensures |w.w64(v)| == 8 && w.n.u64(w.w64(v)) == v { DigitsRead(v, 8); }
    forall v: int | -0x8000_0000 <= v < 0x8000_0000 ensures |w.s32(v)| == 4 && w.n.s32(w.s32(v)) == v {
      DigitsRead(if v < 0 then v + 0x1_0000_0000 else v, 4);
    }
    forall s: set<nat> | Below24(s) ensures w.bits(s) < 0x100_0000 && forall k: nat :: k < 24 ==> (w.n.flag(w.bits(s), k) <==> k in s) {
      FlagsWritten(s);
    }
  }

  lemma FlagsWritten(s: set<nat>)
    ensures Crc32.Number(BitList(s)) < 0x100_0000
    ensures forall k: nat :: k < 24 ==> (Flag(Crc32.Number(BitList(s)), k) <==> k in s)
  {
    NumberBelow(BitList(s));
    PowerOf24();
    forall k: nat | k < 24 ensures Flag(Crc32.Number(BitList(s)), k) <==> k in s { BitOfNumber(BitList(s), k); }
  }

  lemma PowerOf24()
    ensures Crc32.Power(24) == 0x100_0000
  {
    assert Crc32.Power(8) == 0x100;
    assert Crc32.Power(16) == 0x1_0000 by { assert Crc32.Power(12) == 0x1000; }
    assert Crc32.Power(20) == 0x10_0000;
  }

  // ---------------------------------------------------------------- what a box holds

  /** The contents of a box are these bytes. */
  predicate Holds(d: Bytes, a: Atom, contents: Bytes) { Within(a, d) && d[a.body..a.end] == contents }

  /** Reading inside a box is reading inside its contents. */
  lemma HeldSlice(d: Bytes, a: Atom, contents: Bytes, i: nat, j: nat)
    requires Holds(d, a, contents) && i <= j <= |contents|
    ensures a.body + j <= |d| && d[a.body + i..a.body + j] == contents[i..j] && Content(a) == |contents|
  {
    var part := d[a.body..a.end];
    assert forall k :: 0 <= k < j - i ==> part[i..j][k] == d[a.body + i + k];
  }

  /** A piece between what is before it and what is behind it. */
  lemma Piece(front: Bytes, piece: Bytes, back: Bytes)
    ensures |front + piece + back| == |front| + |piece| + |back|
    ensures (front + piece + back)[|front|..|front| + |piece|] == piece
  {
  }

  lemma HeldPiece(d: Bytes, a: Atom, contents: Bytes, front: Bytes, piece: Bytes, back: Bytes)
    requires Holds(d, a, contents) && contents == front + piece + back
    ensures a.body + |front| + |piece| <= |d|
    ensures d[a.body + |front|..a.body + |front| + |piece|] == piece && Content(a) == |contents|
  {
    Piece(front, piece, back);
    HeldSlice(d, a, contents, |front|, |front| + |piece|);
  }

  // ---------------------------------------------------------------- rows of boxes

  /** How a box says its size: in a word, in a long word, or not at all when it is the last one. */
  datatype Form = Short | Long | Open

  datatype Box = Box(kind: FourCC, form: Form, contents: Bytes)

  predicate WritableBox(b: Box) {
    && |b.kind| == 4 && (b.form.Short? ==> 8 + |b.contents| < 0x1_0000_0000)
    && (b.form.Long? ==> 16 + |b.contents| <= 9007199254740991)
  }

  function SizeWord(b: Box): nat { match b.form case Short => 8 + |b.contents| case Long => 1 case Open => 0 }

  function LongSize(w: Writer, b: Box): Bytes { if b.form.Long? then w.w64(16 + |b.contents|) else [] }

  function HeadSize(b: Box): nat { if b.form.Long? then 16 else 8 }

  function BoxBytes(w: Writer, b: Box): Bytes { w.w32(SizeWord(b)) + b.kind + LongSize(w, b) + b.contents }

  function RowBytes(w: Writer, bs: seq<Box>): Bytes { if bs == [] then [] else BoxBytes(w, bs[0]) + RowBytes(w, bs[1..]) }

  predicate WritableBoxes(bs: seq<Box>) { forall i :: 0 <= i < |bs| ==> WritableBox(bs[i]) }

  /** Only the last box may go on to the end. */
  predicate LastOpen(bs: seq<Box>) { forall i :: 0 <= i < |bs| - 1 ==> !bs[i].form.Open? }

  predicate WritableRow(bs: seq<Box>) { WritableBoxes(bs) && LastOpen(bs) }

  /** The boxes found are the ones written. */
  predicate Finds(d: Bytes, found: seq<Atom>, bs: seq<Box>) {
    |found| == |bs| && forall i :: 0 <= i < |bs| ==> found[i].kind == bs[i].kind && Holds(d, found[i], bs[i].contents)
  }

  lemma BoxParts(w: Writer, b: Box, rest: Bytes)
    requires w.Writes32() && w.Writes64() && WritableBox(b)
    ensures |w.w32(SizeWord(b))| == 4 && |LongSize(w, b)| == HeadSize(b) - 8
    ensures |BoxBytes(w, b)| == HeadSize(b) + |b.contents|
    ensures var all, size, long := BoxBytes(w, b) + rest, w.w32(SizeWord(b)), LongSize(w, b);
            && all == [] + size + (b.kind + long + b.contents + rest) && all == size + b.kind + (long + b.contents + rest)
            && all == (size + b.kind) + long + (b.contents + rest) && all == (size + b.kind + long) + b.contents + rest
  {
  }

  lemma FirstBox(w: Writer, d: Bytes, p: nat, end: nat, b: Box, rest: Bytes)
    requires w.Writes32() && w.Writes64() && WritableBox(b) && p <= end <= |d| && d[p..end] == BoxBytes(w, b) + rest
    requires b.form.Open? ==> rest == []
    ensures var a := Atom(b.kind, p, p + HeadSize(b) + |b.contents|, p + HeadSize(b));
            BoxAt(w.n, d, p, end) == Ok(a) && Holds(d, a, b.contents) && a.end <= end && d[a.end..end] == rest
  {
    var size, long, whole, bytes := w.w32(SizeWord(b)), LongSize(w, b), Atom([], p, end, p), d[p..end];
    assert Holds(d, whole, bytes);
    BoxParts(w, b, rest);
    HeldPiece(d, whole, bytes, [], size, b.kind + long + b.contents + rest);
    HeldPiece(d, whole, bytes, size, b.kind, long + b.contents + rest);
    HeldPiece(d, whole, bytes, size + b.kind, long, b.contents + rest);
    HeldPiece(d, whole, bytes, size + b.kind + long, b.contents, rest);
    assert bytes == BoxBytes(w, b) + rest + [];
    HeldPiece(d, whole, bytes, BoxBytes(w, b), rest, []);
  }

  /** The walk finds a row of boxes as it was written, as long as there are not too many of them. */
  lemma {:induction false} RowRead(w: Writer, d: Bytes, p: nat, end: nat, count: nat, bs: seq<Box>)
    requires w.Writes32() && w.Writes64() && WritableRow(bs) && p <= end <= |d| && d[p..end] == RowBytes(w, bs)
    ensures var r := AtomsFrom(w.n, d, p, end, count);
            if bs == [] || count + |bs| <= 10001 then r.Ok? && Finds(d, r.value, bs) else r == Err(LimitExceeded)
    decreases |bs|
  {
    if bs != [] {
      FirstBox(w, d, p, end, bs[0], RowBytes(w, bs[1..]));
      var a := BoxAt(w.n, d, p, end).value;
      RowRead(w, d, a.end, end, count + 1, bs[1..]);
    }
  }

  /** The boxes inside a box. */
  lemma ChildrenRead(w: Writer, d: Bytes, a: Atom, bs: seq<Box>)
    requires w.Writes32() && w.Writes64() && WritableRow(bs) && Holds(d, a, RowBytes(w, bs))
    ensures Children(w.n, d, a).Ok? <==> |bs| <= 10001
    ensures Children(w.n, d, a).Ok? ==> Finds(d, Children(w.n, d, a).value, bs)
  {
    RowRead(w, d, a.body, a.end, 0, bs);
  }

  // ---------------------------------------------------------------- finding by kind

  /** The first box of a kind, by what was written. */
  function FirstWritten(bs: seq<Box>, kind: FourCC): Option<Bytes> {
    if bs == [] then None else if bs[0].kind == kind then Some(bs[0].contents) else FirstWritten(bs[1..], kind)
  }

  /** All boxes of a kind, in order. */
  function AllWritten(bs: seq<Box>, kind: FourCC): seq<Bytes> {
    if bs == [] then [] else (if bs[0].kind == kind then [bs[0].contents] else []) + AllWritten(bs[1..], kind)
  }

  lemma {:induction false} FirstFound(d: Bytes, found: seq<Atom>, bs: seq<Box>, kind: FourCC)
    requires Finds(d, found, bs)
    ensures FirstOf(found, kind).Some? <==> FirstWritten(bs, kind).Some?
    ensures FirstOf(found, kind).Some? ==> Holds(d, FirstOf(found, kind).value, FirstWritten(bs, kind).value)
    decreases |bs|
  {
    if bs != [] && bs[0].kind != kind {
      FirstFound(d, found[1..], bs[1..], kind);
    }
  }

  predicate HoldsEach(d: Bytes, found: seq<Atom>, contents: seq<Bytes>) {
    |found| == |contents| && forall i :: 0 <= i < |found| ==> Holds(d, found[i], contents[i])
  }

  lemma {:induction false} AllFound(d: Bytes, found: seq<Atom>, bs: seq<Box>, kind: FourCC)
    requires Finds(d, found, bs)
    ensures HoldsEach(d, OfKind(found, kind), AllWritten(bs, kind))
    decreases |bs|
  {
    if bs != [] {
      AllFound(d, found[1..], bs[1..], kind);
    }
  }
}
