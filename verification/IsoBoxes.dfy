/** The box walk of `atoms` and `child` (src/media/content.ts; section 4.2 of ISO/IEC 14496-12). */
module IsoBoxes {
  import opened Prelude
  import opened PngChunks
  import Crc32

  const MAX_SAFE_INTEGER: nat := 0x20_0000_0000_0000 - 1
  const MAX_ATOMS := 10000

  type FourCC = Bytes

  /** Offsets of a box, of its contents, and of what follows it. */
  datatype Atom = Atom(kind: FourCC, start: nat, end: nat, body: nat)

  /** How numbers are read, all of them big-endian; `flag` tests one bit. */
  datatype Numbers = Numbers(u24: Bytes -> nat, u32: Bytes -> nat, u64: Bytes -> nat, s32: Bytes -> int,
                             flag: (nat, nat) -> bool)

  function BigEndian(b: Bytes): nat {
    if b == [] then 0
    else
      var last: int := b[|b| - 1];
      256 * BigEndian(b[..|b| - 1]) + last
  }

  function Signed32(b: Bytes): int {
    var u := BigEndian(b);
    if u < 0x8000_0000 then u else u - 0x1_0000_0000
  }

  function Flag(flags: nat, k: nat): bool { Crc32.LowBits(flags, k + 1)[k] }

  /** The readers of a Node Buffer. */
  const BUFFER: Numbers := Numbers(BigEndian, BigEndian, BigEndian, Signed32, Flag)

  /** The box that starts at p: a 32-bit size, a 64-bit one behind the marker 1, or, for 0, everything up to `end`. */
  function BoxAt(n: Numbers, data: Bytes, p: nat, end: nat): Result<Atom, Rejection>
    requires end <= |data|
  {
    if p + 8 > end then Err(Invalid)
    else
      var size := n.u32(data[p..p + 4]);
      var kind := data[p + 4..p + 8];
      if size == 1 then
        if p + 16 > end then Err(Invalid)
        else
          var wide := n.u64(data[p + 8..p + 16]);
          if wide > MAX_SAFE_INTEGER || wide < 16 || p + wide > end then Err(Invalid) else Ok(Atom(kind, p, p + wide, p + 16))
      else if size == 0 then Ok(Atom(kind, p, end, p + 8))
      else if size < 8 || p + size > end then Err(Invalid)
      else Ok(Atom(kind, p, p + size, p + 8))
  }

  /** The boxes from p to end, given how many came before. */
  function AtomsFrom(n: Numbers, data: Bytes, p: nat, end: nat, count: nat): Result<seq<Atom>, Rejection>
    requires end <= |data|
    decreases end - p
  {
    if p >= end then Ok([])
    else if count > MAX_ATOMS then Err(LimitExceeded)
    else match BoxAt(n, data, p, end)
      case Err(e) => Err(e)
      case Ok(a) =>
        match AtomsFrom(n, data, a.end, end, count + 1)
        case Err(e) => Err(e)
        case Ok(rest) => Ok([a] + rest)
  }

  // ---------------------------------------------------------------- reads

  /** `width` bytes at `at`, meant to lie in the contents of `box`. */
  datatype Read = Read(box: Atom, at: nat, width: nat)

  method ReadByte(d: Bytes, ghost box: Atom, at: nat) returns (v: nat, ghost trace: set<Read>)
    requires at < |d|
    ensures v == d[at] && trace == {Read(box, at, 1)}
  {
    v, trace := d[at], {Read(box, at, 1)};
  }

  method ReadU24(n: Numbers, d: Bytes, ghost box: Atom, at: nat) returns (v: nat, ghost trace: set<Read>)
    requires at + 3 <= |d|
    ensures v == n.u24(d[at..at + 3]) && trace == {Read(box, at, 3)}
  {
    v, trace := n.u24(d[at..at + 3]), {Read(box, at, 3)};
  }

  method ReadU32(n: Numbers, d: Bytes, ghost box: Atom, at: nat) returns (v: nat, ghost trace: set<Read>)
    requires at + 4 <= |d|
    ensures v == n.u32(d[at..at + 4]) && trace == {Read(box, at, 4)}
  {
    v, trace := n.u32(d[at..at + 4]), {Read(box, at, 4)};
  }

  method ReadS32(n: Numbers, d: Bytes, ghost box: Atom, at: nat) returns (v: int, ghost trace: set<Read>)
    requires at + 4 <= |d|
    ensures v == n.s32(d[at..at + 4]) && trace == {Read(box, at, 4)}
  {
    v, trace := n.s32(d[at..at + 4]), {Read(box, at, 4)};
  }

  method ReadU64(n: Numbers, d: Bytes, ghost box: Atom, at: nat) returns (v: nat, ghost trace: set<Read>)
    requires at + 8 <= |d|
    ensures v == n.u64(d[at..at + 8]) && trace == {Read(box, at, 8)}
  {
    v, trace := n.u64(d[at..at + 8]), {Read(box, at, 8)};
  }

  method ReadKind(d: Bytes, ghost box: Atom, at: nat) returns (v: FourCC, ghost trace: set<Read>)
    requires at + 4 <= |d|
    ensures v == d[at..at + 4] && trace == {Read(box, at, 4)}
  {
    v, trace := d[at..at + 4], {Read(box, at, 4)};
  }

  /** The size of the box at p, and the long size behind it. */
  function SizeReads(n: Numbers, d: Bytes, p: nat, region: Atom): set<Read>
    requires p + 8 <= region.end <= |d|
  {
    {Read(region, p, 4)} + if n.u32(d[p..p + 4]) == 1 && p + 16 <= region.end then {Read(region, p + 8, 8)} else {}
  }

  /** The size of the box at p, and the type of a usable one. */
  function BoxReads(n: Numbers, d: Bytes, p: nat, region: Atom): set<Read>
    requires p + 8 <= region.end <= |d|
  {
    SizeReads(n, d, p, region) + if BoxAt(n, d, p, region.end).Ok? then {Read(region, p + 4, 4)} else {}
  }

  /** The walk over the boxes of a region, from p on, behind the reads before. */
  function AtomReads(n: Numbers, d: Bytes, p: nat, region: Atom, count: nat, before: set<Read>): set<Read>
    requires region.end <= |d|
    decreases region.end - p
  {
    if p >= region.end || count > MAX_ATOMS || p + 8 > region.end then before
    else
      var trace := before + BoxReads(n, d, p, region);
      match BoxAt(n, d, p, region.end) case Err(_) => trace case Ok(a) => AtomReads(n, d, a.end, region, count + 1, trace)
  }

  /** The body of the loop: the box at p. */
  method ReadBox(n: Numbers, data: Bytes, p: nat, end: nat, ghost region: Atom)
      returns (r: Result<Atom, Rejection>, ghost trace: set<Read>)
    requires p + 8 <= end == region.end <= |data|
    ensures r == BoxAt(n, data, p, end)
    ensures trace == BoxReads(n, data, p, region)
  {
    var length, first := ReadU32(n, data, region, p);
    var header := 8;
    trace := first;
    if length == 1 {
      if p + 16 > end {
        return Err(Invalid), trace;
      }
      var wide, second := ReadU64(n, data, region, p + 8);
      length, header, trace := wide, 16, trace + second;
      if length > MAX_SAFE_INTEGER {
        return Err(Invalid), trace;
      }
    } else if length == 0 {
      length := end - p;
    }
    if length < header || p + length > end {
      return Err(Invalid), trace;
    }
    var kind, third := ReadKind(data, region, p + 4);
    trace := trace + third;
    r := Ok(Atom(kind, p, p + length, p + header));
  }

  method Atoms(n: Numbers, data: Bytes, start: nat, end: nat, ghost region: Atom)
      returns (r: Result<seq<Atom>, Rejection>, ghost trace: set<Read>)
    requires end == region.end <= |data|
    ensures r == AtomsFrom(n, data, start, end, 0)
    ensures trace == AtomReads(n, data, start, region, 0, {})
  {
    var result: seq<Atom>, p := [], start;
    trace := {};
    while p < end
      invariant AtomsFrom(n, data, start, end, 0) == Prefixed(result, AtomsFrom(n, data, p, end, |result|))
      invariant AtomReads(n, data, start, region, 0, {}) == AtomReads(n, data, p, region, |result|, trace)
      decreases end - p
    {
      if |result| > MAX_ATOMS {
        return Err(LimitExceeded), trace;
      }
      if p + 8 > end {
        return Err(Invalid), trace;
      }
      var a, more := ReadBox(n, data, p, end, region);
      trace := trace + more;
      if a.Err? {
        return Err(a.error), trace;
      }
      PrefixedTurn(result, a.value, AtomsFrom(n, data, a.value.end, end, |result| + 1));
      result := result + [a.value];
      p := a.value.end;
    }
    r := Ok(result);
  }

  function Prefixed(front: seq<Atom>, rest: Result<seq<Atom>, Rejection>): (r: Result<seq<Atom>, Rejection>)
    ensures front == [] ==> r == rest
    ensures rest == Ok([]) ==> r == Ok(front)
  {
    if rest.Ok? then
      assert [] + rest.value == rest.value && front + [] == front;
      Ok(front + rest.value)
    else rest
  }

  lemma PrefixedTurn(front: seq<Atom>, a: Atom, rest: Result<seq<Atom>, Rejection>)
    ensures Prefixed(front, Prefixed([a], rest)) == Prefixed(front + [a], rest)
  {
    if rest.Ok? {
      Regroup(front, [a], rest.value, []);
    }
  }

  /** Boxes laid end to end from p to end, each of them what its own size field says. */
  predicate Tiles(n: Numbers, data: Bytes, p: nat, end: nat, atoms: seq<Atom>)
    requires end <= |data|
    decreases |atoms|
  {
    if atoms == [] then p >= end
    else p < end && BoxAt(n, data, p, end) == Ok(atoms[0]) && Tiles(n, data, atoms[0].end, end, atoms[1..])
  }

  /** The walk succeeds exactly on such a row of at most 10001 boxes. */
  lemma {:induction false} AtomsExact(n: Numbers, data: Bytes, p: nat, end: nat, count: nat, atoms: seq<Atom>)
    requires end <= |data|
    ensures AtomsFrom(n, data, p, end, count) == Ok(atoms) <==>
            Tiles(n, data, p, end, atoms) && (atoms == [] || count + |atoms| <= MAX_ATOMS + 1)
    decreases |atoms|
  {
    if p < end && count <= MAX_ATOMS && BoxAt(n, data, p, end).Ok? {
      var a := BoxAt(n, data, p, end).value;
      if atoms != [] {
        AtomsExact(n, data, a.end, end, count + 1, atoms[1..]);
        assert atoms == [atoms[0]] + atoms[1..];
        if AtomsFrom(n, data, a.end, end, count + 1).Ok? {
          assert ([a] + AtomsFrom(n, data, a.end, end, count + 1).value)[1..] == AtomsFrom(n, data, a.end, end, count + 1).value;
        }
      }
    }
  }

  /** Inside `p..end`, its contents inside the box. */
  predicate Inside(a: Atom, p: nat, end: nat) { p <= a.start && a.start + 8 <= a.body <= a.end <= end && a.body <= a.start + 16 }

  /** Every box lies inside the region walked, and no two overlap. */
  lemma {:induction false} AtomsInside(n: Numbers, data: Bytes, p: nat, end: nat, count: nat)
    requires end <= |data| && AtomsFrom(n, data, p, end, count).Ok?
    ensures var atoms := AtomsFrom(n, data, p, end, count).value;
            && (forall i :: 0 <= i < |atoms| ==> Inside(atoms[i], p, end))
            && (forall i, j :: 0 <= i < j < |atoms| ==> atoms[i].end <= atoms[j].start)
    decreases end - p
  {
    if p < end {
      var a := BoxAt(n, data, p, end).value;
      AtomsInside(n, data, a.end, end, count + 1);
    }
  }

  /** `child`: the first box of that type. */
  function FirstOf(atoms: seq<Atom>, kind: FourCC): (r: Option<Atom>)
    ensures r.Some? ==> r.value in atoms && r.value.kind == kind
    ensures r.None? ==> forall a :: a in atoms ==> a.kind != kind
  {
    if atoms == [] then None else if atoms[0].kind == kind then Some(atoms[0]) else FirstOf(atoms[1..], kind)
  }

  function OfKind(atoms: seq<Atom>, kind: FourCC): (r: seq<Atom>)
    ensures forall a :: a in r <==> a in atoms && a.kind == kind
  {
    if atoms == [] then [] else (if atoms[0].kind == kind then [atoms[0]] else []) + OfKind(atoms[1..], kind)
  }
}
