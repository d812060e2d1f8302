/** Movie fragments (`inspectFragments`, src/media/content.ts; sections 8.8.3 to 8.8.8 of ISO/IEC 14496-12). The
    functions say by position what an accepted box holds; the methods read it word by word with a cursor. */
module IsoFragments {
  import opened Prelude
  import opened PngChunks
  import opened IsoBoxes

  const MAX_SAMPLES := 100000

  const MVEX: FourCC := [0x6D, 0x76, 0x65, 0x78]
  const TREX: FourCC := [0x74, 0x72, 0x65, 0x78]
  const MFHD: FourCC := [0x6D, 0x66, 0x68, 0x64]
  const TRAF: FourCC := [0x74, 0x72, 0x61, 0x66]
  const TFHD: FourCC := [0x74, 0x66, 0x68, 0x64]
  const TFDT: FourCC := [0x74, 0x66, 0x64, 0x74]
  const TRUN: FourCC := [0x74, 0x72, 0x75, 0x6E]

  datatype Range = Range(start: nat, end: nat)

  /** A box whose contents lie inside `d`. */
  predicate Within(a: Atom, d: Bytes) { a.body <= a.end <= |d| }

  function Content(a: Atom): int { a.end - a.body }

  /** The byte at offset k of a box's contents. */
  function ByteOf(d: Bytes, box: Atom, k: nat): nat
    requires Within(box, d) && k < Content(box)
  {
    d[box.body + k]
  }

  /** The 32-bit word at offset k of a box's contents: never a read outside the box. */
  function WordOf(n: Numbers, d: Bytes, box: Atom, k: nat): nat
    requires Within(box, d) && k + 4 <= Content(box)
  {
    n.u32(d[box.body + k..box.body + k + 4])
  }

  function Children(n: Numbers, d: Bytes, a: Atom): (r: Result<seq<Atom>, Rejection>)
    requires Within(a, d)
    ensures r.Ok? ==> forall c :: c in r.value ==> Inside(c, a.body, a.end) && Within(c, d)
  {
    if AtomsFrom(n, d, a.body, a.end, 0).Ok? then
      AtomsInside(n, d, a.body, a.end, 0);
      AtomsFrom(n, d, a.body, a.end, 0)
    else AtomsFrom(n, d, a.body, a.end, 0)
  }

  function Count(b: bool, size: nat): nat { if b then size else 0 }

  predicate OnlyFlags(n: Numbers, flags: nat, allowed: set<nat>) {
    forall k :: 0 <= k < 24 && n.flag(flags, k) ==> k in allowed
  }

  // ---------------------------------------------------------------- track fragment header

  datatype Track = Track(id: nat, base: nat, sampleSize: nat)

  const TFHD_FLAGS: set<nat> := {0, 1, 3, 4, 5, 16, 17}

  /** Bytes of the optional fields before bit `k`: base offset, description index, duration, size, flags. */
  function TfhdFields(n: Numbers, flags: nat, k: nat): nat {
    Count(k > 0 && n.flag(flags, 0), 8) + Count(k > 1 && n.flag(flags, 1), 4) + Count(k > 3 && n.flag(flags, 3), 4)
    + Count(k > 4 && n.flag(flags, 4), 4) + Count(k > 5 && n.flag(flags, 5), 4)
  }

  /** Base offset and sample size of a header whose flags are allowed. */
  function OffsetsOf(n: Numbers, d: Bytes, box: Atom, flags: nat, offset: nat, sampleSize: nat): Result<(nat, nat),
                     Rejection>
    requires Within(box, d) && Content(box) >= 8
  {
    if Content(box) != 8 + TfhdFields(n, flags, 24) then Err(Invalid)
    else
      var base := if n.flag(flags, 0) then n.u64(d[box.body + 8..box.body + 16]) else offset;
      if n.flag(flags, 0) && base > MAX_SAFE_INTEGER then Err(Invalid)
      else Ok((base, if n.flag(flags, 4) then WordOf(n, d, box, 8 + TfhdFields(n, flags, 4)) else sampleSize))
  }

  /** The header of a track fragment; `offset` is where its movie fragment starts in the file. */
  function TrackOf(n: Numbers, d: Bytes, box: Atom, defaults: map<nat, nat>, offset: nat): Result<Track, Rejection>
    requires Within(box, d)
  {
    if Content(box) < 8 || ByteOf(d, box, 0) != 0 then Err(Invalid)
    else
      var flags, id := n.u24(d[box.body + 1..box.body + 4]), WordOf(n, d, box, 4);
      if id !in defaults then Err(Invalid)
      else if !OnlyFlags(n, flags, TFHD_FLAGS) || (!n.flag(flags, 0) && !n.flag(flags, 17)) then Err(Unsupported)
      else match OffsetsOf(n, d, box, flags, offset, defaults[id])
        case Err(e) => Err(e)
        case Ok((base, size)) => Ok(Track(id, base, size))
  }

  /** A field at p, read when it is announced and still fits into the box. */
  function FieldRead(box: Atom, p: nat, present: bool, width: nat): set<Read> {
    if present && p + width <= box.end then {Read(box, p, width)} else {}
  }

  /** Two fields, one behind the other. */
  function PairRead(box: Atom, p: nat, first: bool, second: bool): set<Read> {
    FieldRead(box, p, first, 4) + FieldRead(box, p + Count(first, 4), second, 4)
  }

  /** The four optional words of a header from p on: description index, duration, size, flags. */
  function WordReads(n: Numbers, box: Atom, flags: nat, p: nat): set<Read> {
    PairRead(box, p, n.flag(flags, 1), n.flag(flags, 3)) +
    PairRead(box, p + Count(n.flag(flags, 1), 4) + Count(n.flag(flags, 3), 4), n.flag(flags, 4), n.flag(flags, 5))
  }

  /** Version, flags and the word behind them: the track of a header, the sample count of a run. */
  function FrontReads(box: Atom): set<Read> { {Read(box, box.body, 1), Read(box, box.body + 1, 3), Read(box,
                      box.body + 4, 4)} }

  /** Behind the front of a header that goes on: the base offset when there is one, then the optional words. */
  function OffsetReads(n: Numbers, d: Bytes, box: Atom, flags: nat): set<Read>
    requires Within(box, d) && Content(box) >= 8
  {
    if n.flag(flags, 0) && Content(box) >= 16 && n.u64(d[box.body + 8..box.body + 16]) > MAX_SAFE_INTEGER then
      {Read(box, box.body + 8, 8)}
    else FieldRead(box, box.body + 8, n.flag(flags, 0), 8) + WordReads(n, box, flags, box.body + 8 + Count(n.flag(flags, 0), 8))
  }

  /** What its flags announce, when track and flags are allowed. */
  function AnnouncedReads(n: Numbers, d: Bytes, box: Atom, defaults: map<nat, nat>): set<Read>
    requires Within(box, d) && Content(box) >= 8
  {
    var flags, id := n.u24(d[box.body + 1..box.body + 4]), WordOf(n, d, box, 4);
    if id !in defaults || !OnlyFlags(n, flags, TFHD_FLAGS) || (!n.flag(flags, 0) && !n.flag(flags, 17)) then {}
    else OffsetReads(n, d, box, flags)
  }

  /** The header of a track fragment: version, flags, track, then what its flags announce. */
  function HeaderReads(n: Numbers, d: Bytes, box: Atom, defaults: map<nat, nat>): set<Read>
    requires Within(box, d)
  {
    if Content(box) < 8 then {}
    else if ByteOf(d, box, 0) != 0 then {Read(box, box.body, 1)}
    else FrontReads(box) + AnnouncedReads(n, d, box, defaults)
  }

  /** `field(4)`: the next word, when the box still holds one. */
  method Field(n: Numbers, d: Bytes, box: Atom, p: nat, present: bool) returns (r: Option<(nat, nat)>,
               ghost trace: set<Read>)
    requires Within(box, d) && box.body <= p <= box.end
    ensures r.None? <==> present && p + 4 > box.end
    ensures r.Some? ==> r.value.0 == p + Count(present, 4) <= box.end
    ensures r.Some? && present ==> r.value.1 == WordOf(n, d, box, p - box.body)
    ensures trace == FieldRead(box, p, present, 4)
  {
    trace := {};
    if !present {
      return Some((p, 0)), trace;
    }
    if p + 4 > box.end {
      return None, trace;
    }
    var word, read := ReadU32(n, d, box, p);
    r, trace := Some((p + 4, word)), read;
  }

  /** The cursor behind two fields, and their words. */
  method FieldPair(n: Numbers, d: Bytes, box: Atom, p: nat, first: bool, second: bool)
      returns (r: Option<(nat, nat, nat)>, ghost trace: set<Read>)
    requires Within(box, d) && box.body <= p <= box.end
    ensures r.None? <==> p + Count(first, 4) + Count(second, 4) > box.end
    ensures r.Some? ==> r.value.0 == p + Count(first, 4) + Count(second, 4) <= box.end
    ensures r.Some? && first ==> r.value.1 == WordOf(n, d, box, p - box.body)
    ensures r.Some? && second ==> r.value.2 == WordOf(n, d, box, p + Count(first, 4) - box.body)
    ensures trace == PairRead(box, p, first, second)
  {
    var a, before := Field(n, d, box, p, first);
    if a.None? {
      return None, before;
    }
    var b, behind := Field(n, d, box, a.value.0, second);
    trace := before + behind;
    r := if b.None? then None else Some((b.value.0, a.value.1, b.value.1));
  }

  /** The optional words: the cursor behind them and the size among them. */
  method Words(n: Numbers, d: Bytes, box: Atom, flags: nat, p: nat) returns (r: Option<(nat, nat)>, ghost trace: set<Read>)
    requires Within(box, d) && box.body <= p <= box.end
    ensures var size := p + Count(n.flag(flags, 1), 4) + Count(n.flag(flags, 3), 4);
            var end := size + Count(n.flag(flags, 4), 4) + Count(n.flag(flags, 5), 4);
            && (r.None? <==> end > box.end) && (r.Some? ==> r.value.0 == end <= box.end)
            && (r.Some? && n.flag(flags, 4) ==> r.value.1 == WordOf(n, d, box, size - box.body))
    ensures trace == WordReads(n, box, flags, p)
  {
    var front, first := FieldPair(n, d, box, p, n.flag(flags, 1), n.flag(flags, 3));
    if front.None? {
      return None, first;
    }
    var back, second := FieldPair(n, d, box, front.value.0, n.flag(flags, 4), n.flag(flags, 5));
    trace := first + second;
    r := if back.None? then None else Some((back.value.0, back.value.1));
  }

  /** Behind the front of a header: base offset and sample size. */
  method ReadOffsets(n: Numbers, d: Bytes, box: Atom, flags: nat, offset: nat, sampleSize: nat)
      returns (r: Result<(nat, nat), Rejection>, ghost trace: set<Read>)
    requires Within(box, d) && Content(box) >= 8 && (n.flag(flags, 0) || n.flag(flags, 17))
    ensures r == OffsetsOf(n, d, box, flags, offset, sampleSize) && trace == OffsetReads(n, d, box, flags)
  {
    var p, base := box.body + 8, offset;
    trace := {};
    if n.flag(flags, 0) {
      if p + 8 > box.end {
        return Err(Invalid), trace;
      }
      var wide, read := ReadU64(n, d, box, p);
      base, p, trace := wide, p + 8, read;
      if base > MAX_SAFE_INTEGER {
        return Err(Invalid), trace;
      }
    }
    var words, more := Words(n, d, box, flags, p);
    trace := trace + more;
    if words.None? || words.value.0 != box.end {
      return Err(Invalid), trace;
    }
    r := Ok((base, if n.flag(flags, 4) then words.value.1 else sampleSize));
  }

  method ReadTrack(n: Numbers, d: Bytes, box: Atom, defaults: map<nat, nat>, offset: nat)
      returns (r: Result<Track, Rejection>, ghost trace: set<Read>)
    requires Within(box, d)
    ensures r == TrackOf(n, d, box, defaults, offset) && trace == HeaderReads(n, d, box, defaults)
  {
    trace := {};
    if Content(box) < 8 {
      return Err(Invalid), trace;
    }
    var version, first := ReadByte(d, box, box.body);
    if version != 0 {
      return Err(Invalid), first;
    }
    var flags, second := ReadU24(n, d, box, box.body + 1);
    var id, third := ReadU32(n, d, box, box.body + 4);
    trace := first + second + third;
    assert trace == FrontReads(box);
    if id !in defaults {
      return Err(Invalid), trace;
    }
    if !OnlyFlags(n, flags, TFHD_FLAGS) {
      return Err(Unsupported), trace;
    }
    if !n.flag(flags, 0) && !n.flag(flags, 17) {
      return Err(Unsupported), trace;
    }
    var offsets, more := ReadOffsets(n, d, box, flags, offset, defaults[id]);
    trace := trace + more;
    r := if offsets.Err? then Err(offsets.error) else Ok(Track(id, offsets.value.0, offsets.value.1));
  }

  // ---------------------------------------------------------------- track runs

  const TRUN_FLAGS: set<nat> := {0, 2, 8, 9, 10, 11}

  /** What an accepted run claims of the file: consecutive samples from `start`. */
  datatype Span = Span(track: nat, start: int, sizes: seq<nat>)

  function Sum(sizes: seq<nat>): nat { if sizes == [] then 0 else Sum(sizes[..|sizes| - 1]) + sizes[|sizes| - 1] }

  function End(s: Span): int { s.start + Sum(s.sizes) }

  predicate InMedia(s: Span, media: seq<Range>) {
    exists i :: 0 <= i < |media| && media[i].start <= s.start && End(s) <= media[i].end
  }

  /** Words before the samples, words per sample, and the place of the size among them. */
  function HeadBytes(n: Numbers, flags: nat): nat { 8 + Count(n.flag(flags, 0), 4) + Count(n.flag(flags, 2), 4) }

  function SampleBytes(n: Numbers, flags: nat): nat {
    Count(n.flag(flags, 8), 4) + Count(n.flag(flags, 9), 4) + Count(n.flag(flags, 10), 4) + Count(n.flag(flags, 11), 4)
  }

  function SizeAt(n: Numbers, flags: nat, i: nat): nat {
    HeadBytes(n, flags) + i * SampleBytes(n, flags) + Count(n.flag(flags, 8), 4)
  }

  /** Size of sample i: its own word, or the default of the track. */
  function SampleSize(n: Numbers, d: Bytes, run: Atom, flags: nat, sampleSize: nat, i: nat): nat
    requires Within(run, d) && (n.flag(flags, 9) ==> SizeAt(n, flags, i) + 4 <= Content(run))
  {
    if n.flag(flags, 9) then WordOf(n, d, run, SizeAt(n, flags, i)) else sampleSize
  }

  lemma SampleFits(n: Numbers, flags: nat, count: nat, i: nat)
    requires i < count
    ensures HeadBytes(n, flags) + (i + 1) * SampleBytes(n, flags) <= HeadBytes(n, flags) + count * SampleBytes(n, flags)
    ensures n.flag(flags, 9) ==> SizeAt(n, flags, i) + 4 <= HeadBytes(n, flags) + (i + 1) * SampleBytes(n, flags)
  {
    var w := SampleBytes(n, flags);
    assert (i + 1) * w == i * w + w;
    assert count * w == (i + 1) * w + (count - i - 1) * w;
  }

  /** All the samples of a run that fills its box. */
  function SampleSizes(n: Numbers, d: Bytes, run: Atom, flags: nat, sampleSize: nat, count: nat): (sizes: seq<nat>)
    requires Within(run, d) && HeadBytes(n, flags) + count * SampleBytes(n, flags) <= Content(run)
    ensures |sizes| == count
  {
    seq(count, i requires 0 <= i < count => SampleFits(n, flags, count, i); SampleSize(n, d, run, flags, sampleSize, i))
  }

  /** Where a run starts: an offset from the base, or the end of the run before it. */
  function StartOf(n: Numbers, d: Bytes, run: Atom, flags: nat, base: nat, next: Option<int>): Result<int, Rejection>
    requires Within(run, d) && Content(run) >= 8
  {
    if n.flag(flags, 0) then
      if Content(run) < 12 then Err(Invalid) else Ok(base + n.s32(d[run.body + 8..run.body + 12]))
    else if next.Some? then Ok(next.value)
    else Err(Unsupported)
  }

  /** The samples fill the box and none is empty. */
  predicate Whole(n: Numbers, d: Bytes, run: Atom, flags: nat, sampleSize: nat, count: nat)
    requires Within(run, d)
  {
    Content(run) == HeadBytes(n, flags) + count * SampleBytes(n, flags) && 0 !in SampleSizes(n, d, run, flags, sampleSize, count)
  }

  /** The span of a run whose counters are allowed. */
  function BodyOf(n: Numbers, d: Bytes, run: Atom, flags: nat, count: nat, track: Track, next: Option<int>,
                  media: seq<Range>):
      Result<Span, Rejection>
    requires Within(run, d) && Content(run) >= 8
  {
    match StartOf(n, d, run, flags, track.base, next)
    case Err(e) => Err(e)
    case Ok(start) =>
      if !Whole(n, d, run, flags, track.sampleSize, count) then Err(Invalid)
      else
        var span := Span(track.id, start, SampleSizes(n, d, run, flags, track.sampleSize, count));
        if InMedia(span, media) then Ok(span) else Err(Invalid)
  }

  function SpanOf(n: Numbers, d: Bytes, run: Atom, track: Track, next: Option<int>, samples: nat, media: seq<Range>):
      Result<Span, Rejection>
    requires Within(run, d)
  {
    if Content(run) < 8 || ByteOf(d, run, 0) > 1 then Err(Invalid)
    else
      var flags, count := n.u24(d[run.body + 1..run.body + 4]), WordOf(n, d, run, 4);
      if !OnlyFlags(n, flags, TRUN_FLAGS) then Err(Unsupported)
      else if count == 0 then Err(Invalid)
      else if samples + count > MAX_SAMPLES then Err(LimitExceeded)
      else BodyOf(n, d, run, flags, count, track, next, media)
  }

  /** The size of the sample at q, once the words up to it fit. */
  function SizeOf(n: Numbers, d: Bytes, run: Atom, flags: nat, sampleSize: nat, q: nat): nat
    requires Within(run, d) && run.body <= q && q + Count(n.flag(flags, 8), 4) + Count(n.flag(flags, 9), 4) <= run.end
  {
    if n.flag(flags, 9) then WordOf(n, d, run, q - run.body + Count(n.flag(flags, 8), 4)) else sampleSize
  }

  /** The sample at q is whole and has a size. */
  predicate SampleWhole(n: Numbers, d: Bytes, run: Atom, flags: nat, sampleSize: nat, q: nat)
    requires Within(run, d) && run.body <= q
  {
    q + SampleBytes(n, flags) <= run.end && SizeOf(n, d, run, flags, sampleSize, q) != 0
  }

  /** The words of the sample at q: duration, size, flags, composition offset; after a size of zero no more. */
  function SampleTurn(n: Numbers, d: Bytes, run: Atom, flags: nat, sampleSize: nat, q: nat): set<Read>
    requires Within(run, d) && run.body <= q
  {
    var rest := q + Count(n.flag(flags, 8), 4) + Count(n.flag(flags, 9), 4);
    PairRead(run, q, n.flag(flags, 8), n.flag(flags, 9)) +
    if rest > run.end || SizeOf(n, d, run, flags, sampleSize, q) == 0 then {}
    else PairRead(run, rest, n.flag(flags, 10), n.flag(flags, 11))
  }

  /** At most `count` samples from q on, as long as they are whole, behind the reads before. */
  function SampleReads(n: Numbers, d: Bytes, run: Atom, flags: nat, sampleSize: nat, q: nat, count: nat,
                       before: set<Read>): set<Read>
    requires Within(run, d) && run.body <= q
    decreases count
  {
    if count == 0 then before
    else
      var trace := before + SampleTurn(n, d, run, flags, sampleSize, q);
      if SampleWhole(n, d, run, flags, sampleSize, q) then
        SampleReads(n, d, run, flags, sampleSize, q + SampleBytes(n, flags), count - 1, trace)
      else trace
  }

  /** One sample record: duration, size, flags and composition offset, each when its flag is set; None when it does not fit
      or has no size. */
  method ReadSample(n: Numbers, d: Bytes, run: Atom, flags: nat, sampleSize: nat, q0: nat)
      returns (r: Option<(nat, nat)>, ghost trace: set<Read>)
    requires Within(run, d) && run.body <= q0 <= run.end
    ensures r.Some? <==> SampleWhole(n, d, run, flags, sampleSize, q0)
    ensures r.Some? ==> r.value == (q0 + SampleBytes(n, flags), SizeOf(n, d, run, flags, sampleSize, q0))
    ensures trace == SampleTurn(n, d, run, flags, sampleSize, q0)
  {
    var front, first := FieldPair(n, d, run, q0, n.flag(flags, 8), n.flag(flags, 9));
    if front.None? {
      return None, first;
    }
    var length := if n.flag(flags, 9) then front.value.2 else sampleSize;
    assert length == SizeOf(n, d, run, flags, sampleSize, q0);
    if length == 0 {
      return None, first;
    }
    var back, second := FieldPair(n, d, run, front.value.0, n.flag(flags, 10), n.flag(flags, 11));
    trace := first + second;
    r := if back.None? then None else Some((back.value.0, length));
  }

  /** What is known after i samples: the cursor stands behind them and their sizes are the ones at their places. */
  ghost predicate SamplesRead(n: Numbers, d: Bytes, run: Atom, flags: nat, sampleSize: nat, i: nat, q: nat, sizes: seq<nat>)
    requires Within(run, d)
  {
    && q == run.body + HeadBytes(n, flags) + i * SampleBytes(n, flags) <= run.end && |sizes| == i
    && sizes == SampleSizes(n, d, run, flags, sampleSize, i)
  }

  lemma SamplesTurn(n: Numbers, d: Bytes, run: Atom, flags: nat, sampleSize: nat, i: nat, q: nat, sizes: seq<nat>, size: nat)
    requires Within(run, d) && SamplesRead(n, d, run, flags, sampleSize, i, q, sizes) && q + SampleBytes(n, flags) <= run.end
    requires size == if n.flag(flags, 9) then WordOf(n, d, run, q - run.body + Count(n.flag(flags, 8), 4)) else sampleSize
    ensures SamplesRead(n, d, run, flags, sampleSize, i + 1, q + SampleBytes(n, flags), sizes + [size])
  {
    var w := SampleBytes(n, flags);
    assert (i + 1) * w == i * w + w;
    SampleFits(n, flags, i + 1, i);
    var more := SampleSizes(n, d, run, flags, sampleSize, i + 1);
    forall k | 0 <= k < i + 1 ensures more[k] == (sizes + [size])[k] {
    }
  }

  lemma ZeroSizeStays(n: Numbers, d: Bytes, run: Atom, flags: nat, sampleSize: nat, i: nat, count: nat)
    requires Within(run, d) && i < count && HeadBytes(n, flags) + count * SampleBytes(n, flags) <= Content(run)
    ensures HeadBytes(n, flags) + (i + 1) * SampleBytes(n, flags) <= Content(run)
    ensures SampleSizes(n, d, run, flags, sampleSize, i + 1)[i] in SampleSizes(n, d, run, flags, sampleSize, count)
  {
    SampleFits(n, flags, count, i);
    assert SampleSizes(n, d, run, flags, sampleSize, count)[i] == SampleSizes(n, d, run, flags, sampleSize, i + 1)[i];
  }

  /** What the loop stops at: a sample that does not fit makes the content too small, one without a size is among the sizes. */
  lemma BrokenSample(n: Numbers, d: Bytes, run: Atom, flags: nat, sampleSize: nat, i: nat, count: nat, q: nat,
                     sizes: seq<nat>)
    requires Within(run, d) && i < count && SamplesRead(n, d, run, flags, sampleSize, i, q, sizes)
    requires !SampleWhole(n, d, run, flags, sampleSize, q)
    ensures !Whole(n, d, run, flags, sampleSize, count)
  {
    if Content(run) == HeadBytes(n, flags) + count * SampleBytes(n, flags) {
      SampleFits(n, flags, count, i);
      NextMultipleOf(i, SampleBytes(n, flags));
      assert q + SampleBytes(n, flags) <= run.end;
      var size := SizeOf(n, d, run, flags, sampleSize, q);
      SamplesTurn(n, d, run, flags, sampleSize, i, q, sizes, size);
      ZeroSizeStays(n, d, run, flags, sampleSize, i, count);
      assert (sizes + [size])[i] == 0;
    }
  }

  lemma SumNext(sizes: seq<nat>, size: nat)
    ensures Sum(sizes + [size]) == Sum(sizes) + size
    ensures size != 0 && 0 !in sizes ==> 0 !in sizes + [size]
  {
    assert (sizes + [size])[..|sizes|] == sizes;
  }

  /** All reads of the loop are the ones so far with the ones to come. */
  ghost predicate Coming(n: Numbers, d: Bytes, run: Atom, flags: nat, sampleSize: nat, q: nat, left: int,
                         trace: set<Read>, all: set<Read>)
    requires Within(run, d) && run.body <= q && left >= 0
  {
    all == SampleReads(n, d, run, flags, sampleSize, q, left, trace)
  }

  /** One turn of the loop: a whole sample moves it on, any other ends it. */
  lemma SamplesNext(n: Numbers, d: Bytes, run: Atom, flags: nat, sampleSize: nat, i: nat, q: nat, count: nat,
                    sizes: seq<nat>,
                    all: set<Read>, before: set<Read>, trace: set<Read>, sample: Option<(nat, nat)>)
    requires Within(run, d) && i < count && run.body <= q && SamplesRead(n, d, run, flags, sampleSize, i, q, sizes)
    requires Coming(n, d, run, flags, sampleSize, q, count - i, before, all)
    requires trace == before + SampleTurn(n, d, run, flags, sampleSize, q)
    requires sample.Some? <==> SampleWhole(n, d, run, flags, sampleSize, q)
    requires sample.Some? ==> sample.value == (q + SampleBytes(n, flags), SizeOf(n, d, run, flags, sampleSize, q))
    ensures sample.Some? ==>
              && run.body <= sample.value.0 <= run.end
              && SamplesRead(n, d, run, flags, sampleSize, i + 1, sample.value.0, sizes + [sample.value.1])
              && Coming(n, d, run, flags, sampleSize, sample.value.0, count - (i + 1), trace, all)
    ensures sample.None? ==> !Whole(n, d, run, flags, sampleSize, count) && trace == all
  {
    if sample.Some? {
      SamplesTurn(n, d, run, flags, sampleSize, i, q, sizes, sample.value.1);
    } else {
      BrokenSample(n, d, run, flags, sampleSize, i, count, q, sizes);
    }
  }

  lemma WholeAtEnd(n: Numbers, d: Bytes, run: Atom, flags: nat, sampleSize: nat, count: nat, q: nat, sizes: seq<nat>)
    requires Within(run, d) && SamplesRead(n, d, run, flags, sampleSize, count, q, sizes) && 0 !in sizes
    ensures q == run.end <==> Whole(n, d, run, flags, sampleSize, count)
    ensures q == run.end ==> sizes == SampleSizes(n, d, run, flags, sampleSize, count)
  {
  }

  method ReadSamples(n: Numbers, d: Bytes, run: Atom, flags: nat, sampleSize: nat, count: nat)
      returns (r: Option<seq<nat>>, length: nat, ghost trace: set<Read>)
    requires Within(run, d) && HeadBytes(n, flags) <= Content(run)
    ensures r.Some? <==> Whole(n, d, run, flags, sampleSize, count)
    ensures r.Some? ==> r.value == SampleSizes(n, d, run, flags, sampleSize, count) && length == Sum(r.value)
    ensures trace == SampleReads(n, d, run, flags, sampleSize, run.body + HeadBytes(n, flags), count, {})
  {
    var q: nat, i := run.body + HeadBytes(n, flags), 0;
    var sizes: seq<nat> := [];
    ghost var all := SampleReads(n, d, run, flags, sampleSize, q, count, {});
    length, trace := 0, {};
    while i < count
      invariant 0 <= i <= count && run.body <= q <= run.end && SamplesRead(n, d, run, flags, sampleSize, i, q, sizes)
      invariant 0 !in sizes && length == Sum(sizes)
      invariant Coming(n, d, run, flags, sampleSize, q, count - i, trace, all)
    {
      var sample, read := ReadSample(n, d, run, flags, sampleSize, q);
      SamplesNext(n, d, run, flags, sampleSize, i, q, count, sizes, all, trace, trace + read, sample);
      trace := trace + read;
      if sample.None? {
        return None, length, trace;
      }
      var size := sample.value.1;
      SumNext(sizes, size);
      q, sizes, length, i := sample.value.0, sizes + [size], length + size, i + 1;
    }
    WholeAtEnd(n, d, run, flags, sampleSize, count, q, sizes);
    r := if q == run.end then Some(sizes) else None;
  }

  lemma NextMultipleOf(i: nat, w: nat)
    ensures (i + 1) * w == i * w + w
  {
  }

  // ---------------------------------------------------------------- whole runs

  /** The samples of a run, when what stands before them fits. */
  function RunSampleReads(n: Numbers, d: Bytes, run: Atom, flags: nat, count: nat, sampleSize: nat): set<Read>
    requires Within(run, d)
  {
    if run.body + HeadBytes(n, flags) > run.end then {}
    else SampleReads(n, d, run, flags, sampleSize, run.body + HeadBytes(n, flags), count, {})
  }

  /** Behind the counters: data offset, first flags, samples. */
  function RunBodyReads(n: Numbers, d: Bytes, run: Atom, flags: nat, count: nat, sampleSize: nat,
                        next: Option<int>): set<Read>
    requires Within(run, d)
  {
    if !n.flag(flags, 0) && next.None? then {}
    else
      PairRead(run, run.body + 8, n.flag(flags, 0), n.flag(flags, 2)) + RunSampleReads(n, d, run, flags, count, sampleSize)
  }

  function RunReads(n: Numbers, d: Bytes, run: Atom, track: Track, next: Option<int>, samples: nat): set<Read>
    requires Within(run, d)
  {
    if Content(run) < 8 then {}
    else if ByteOf(d, run, 0) > 1 then {Read(run, run.body, 1)}
    else
      var flags, count := n.u24(d[run.body + 1..run.body + 4]), WordOf(n, d, run, 4);
      FrontReads(run) +
      if !OnlyFlags(n, flags, TRUN_FLAGS) || count == 0 || samples + count > MAX_SAMPLES then {}
      else RunBodyReads(n, d, run, flags, count, track.sampleSize, next)
  }

  method ReadStart(n: Numbers, d: Bytes, run: Atom, flags: nat, base: nat, next: Option<int>)
      returns (r: Result<int, Rejection>, ghost trace: set<Read>)
    requires Within(run, d) && Content(run) >= 8
    ensures r == StartOf(n, d, run, flags, base, next)
    ensures trace == FieldRead(run, run.body + 8, n.flag(flags, 0), 4)
  {
    var q := run.body + 8;
    trace := {};
    if n.flag(flags, 0) {
      if q + 4 > run.end {
        return Err(Invalid), trace;
      }
      var shift, read := ReadS32(n, d, run, q);
      r, trace := Ok(base + shift), read;
    } else if next.Some? {
      r := Ok(next.value);
    } else {
      r := Err(Unsupported);
    }
  }

  /** Behind the counters: where the run starts, and its samples. */
  method ReadRunBody(n: Numbers, d: Bytes, run: Atom, flags: nat, count: nat, track: Track, next: Option<int>,
                     media: seq<Range>)
      returns (r: Result<Span, Rejection>, ghost trace: set<Read>)
    requires Within(run, d) && Content(run) >= 8
    ensures r == BodyOf(n, d, run, flags, count, track, next, media)
    ensures trace == RunBodyReads(n, d, run, flags, count, track.sampleSize, next)
  {
    var start, first := ReadStart(n, d, run, flags, track.base, next);
    if start.Err? {
      return Err(start.error), first;
    }
    var behind, second := Field(n, d, run, run.body + 8 + Count(n.flag(flags, 0), 4), n.flag(flags, 2));
    trace := first + second;
    if behind.None? {
      return Err(Invalid), trace;
    }
    var sizes, length, third := ReadSamples(n, d, run, flags, track.sampleSize, count);
    trace := trace + third;
    if sizes.None? || !(exists i :: 0 <= i < |media| && media[i].start <= start.value && start.value + length <= media[i].end) {
      return Err(Invalid), trace;
    }
    r := Ok(Span(track.id, start.value, sizes.value));
  }

  method ReadRun(n: Numbers, d: Bytes, run: Atom, track: Track, next: Option<int>, samples: nat, media: seq<Range>)
      returns (r: Result<Span, Rejection>, ghost trace: set<Read>)
    requires Within(run, d)
    ensures r == SpanOf(n, d, run, track, next, samples, media) && trace == RunReads(n, d, run, track, next, samples)
  {
    trace := {};
    if Content(run) < 8 {
      return Err(Invalid), trace;
    }
    var version, first := ReadByte(d, run, run.body);
    if version > 1 {
      return Err(Invalid), first;
    }
    var flags, second := ReadU24(n, d, run, run.body + 1);
    var count, third := ReadU32(n, d, run, run.body + 4);
    trace := first + second + third;
    assert trace == FrontReads(run);
    if !OnlyFlags(n, flags, TRUN_FLAGS) {
      return Err(Unsupported), trace;
    }
    if count == 0 {
      return Err(Invalid), trace;
    }
    if samples + count > MAX_SAMPLES {
      return Err(LimitExceeded), trace;
    }
    var span, more := ReadRunBody(n, d, run, flags, count, track, next, media);
    r, trace := span, trace + more;
  }
}
