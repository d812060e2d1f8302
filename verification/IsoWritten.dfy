/** Movie fragments as data and as bytes (`inspectFragments`, src/media/content.ts:472-549; sections 8.8.3 to 8.8.8 of
    ISO/IEC 14496-12): what headers, runs and whole fragments mean, and that the inspection reads exactly that from the bytes
    written for them. */
module IsoWritten {
  import opened Prelude
  import opened UnicodeText
  import opened PngChunks
  import opened IsoBoxes
  import opened IsoFragments
  import opened IsoMovie
  import opened IsoWriter

  predicate Word(v: nat) { v < 0x1_0000_0000 }

  predicate OptionalWord(v: Option<nat>) { v.Some? ==> Word(v.value) }

  function Optional(w: Writer, v: Option<nat>): Bytes { if v.Some? then w.w32(v.value) else [] }

  function Bit(present: bool, k: nat): set<nat> { if present then {k} else {} }

  // ---------------------------------------------------------------- headers

  /** A track fragment header: track, base offset, description index, default duration, size and flags, each when it is
      announced; whether the duration is empty, whether the fragment is its own base; flags without a meaning here. */
  datatype Header = Header(version: Byte, track: nat, base: Option<nat>, description: Option<nat>, duration: Option<nat>,
                           size: Option<nat>, sampleFlags: Option<nat>, empty: bool, own: bool, extra: set<nat>)

  function HeaderBits(h: Header): set<nat> {
    Bit(h.base.Some?, 0) + Bit(h.description.Some?, 1) + Bit(h.duration.Some?, 3) + Bit(h.size.Some?, 4)
    + Bit(h.sampleFlags.Some?, 5) + Bit(h.empty, 16) + Bit(h.own, 17) + h.extra
  }

  predicate WritableHeader(h: Header) {
    && Word(h.track) && (h.base.Some? ==> h.base.value < 0x1_0000_0000_0000_0000)
    && OptionalWord(h.description) && OptionalWord(h.duration) && OptionalWord(h.size) && OptionalWord(h.sampleFlags)
    && Below24(h.extra) && forall k :: k in h.extra ==> k !in {0, 1, 3, 4, 5, 16, 17}
  }

  function FrontBytes(w: Writer, version: Byte, bits: set<nat>, word: nat): Bytes { [version] + w.w24(w.bits(bits)) + w.w32(word) }

  function BaseBytes(w: Writer, h: Header): Bytes { if h.base.Some? then w.w64(h.base.value) else [] }

  function HeaderBytes(w: Writer, h: Header): Bytes {
    FrontBytes(w, h.version, HeaderBits(h), h.track) + BaseBytes(w, h) + Optional(w, h.description) + Optional(w, h.duration)
    + Optional(w, h.size) + Optional(w, h.sampleFlags)
  }

  /** The track a header describes for a fragment that starts at `offset`: samples lie behind the base written in it, or
      else behind the start of the fragment if it says so; their size is the one written in it, or else the default of the
      track. A header that cannot be used is invalid, or unsupported for its flags alone. */
  function HeaderMeaning(h: Header, defaults: map<nat, nat>, offset: nat): Result<Track, Rejection> {
    if h.version != 0 || h.track !in defaults then Err(Invalid)
    else if h.extra != {} || (h.base.None? && !h.own) then Err(Unsupported)
    else if h.base.Some? && h.base.value > 9007199254740991 then Err(Invalid)
    else Ok(Track(h.track, if h.base.Some? then h.base.value else offset, if h.size.Some? then h.size.value else defaults[h.track]))
  }

  /** The front of a box: version, flags and a word. */
  lemma FrontRead(w: Writer, d: Bytes, box: Atom, version: Byte, bits: set<nat>, word: nat, rest: Bytes)
    requires w.Sound() && Below24(bits) && Word(word) && Holds(d, box, FrontBytes(w, version, bits, word) + rest)
    ensures |FrontBytes(w, version, bits, word)| == 8 && Content(box) == 8 + |rest|
    ensures ByteOf(d, box, 0) == version && WordOf(w.n, d, box, 4) == word
    ensures w.n.u24(d[box.body + 1..box.body + 4]) == w.bits(bits)
    ensures forall k: nat :: k < 24 ==> (w.n.flag(w.bits(bits), k) <==> k in bits)
  {
    var flags, last := w.w24(w.bits(bits)), w.w32(word);
    var all := FrontBytes(w, version, bits, word) + rest;
    assert all == [] + [version] + (flags + last + rest);
    HeldPiece(d, box, all, [], [version], flags + last + rest);
    assert d[box.body..box.body + 1][0] == version;
    assert all == [version] + flags + (last + rest);
    HeldPiece(d, box, all, [version], flags, last + rest);
    assert all == ([version] + flags) + last + rest;
    HeldPiece(d, box, all, [version] + flags, last, rest);
  }

  lemma HeaderFlags(w: Writer, h: Header)
    requires w.Sound() && WritableHeader(h)
    ensures Below24(HeaderBits(h))
    ensures 0 in HeaderBits(h) <==> h.base.Some?
    ensures 1 in HeaderBits(h) <==> h.description.Some?
    ensures 3 in HeaderBits(h) <==> h.duration.Some?
    ensures 4 in HeaderBits(h) <==> h.size.Some?
    ensures 5 in HeaderBits(h) <==> h.sampleFlags.Some?
    ensures 17 in HeaderBits(h) <==> h.own
  {
  }

  lemma OnlyKnown(w: Writer, bits: set<nat>, known: set<nat>, extra: set<nat>)
    requires w.Sound() && Below24(bits) && extra <= bits <= known + extra && known !! extra
    ensures OnlyFlags(w.n, w.bits(bits), known) <==> extra == {}
  {
    assert forall k: nat :: k < 24 ==> (w.n.flag(w.bits(bits), k) <==> k in bits);
    if extra != {} {
      var k :| k in extra;
      assert k < 24 && w.n.flag(w.bits(bits), k) && k !in known;
    }
  }

  lemma HeaderOnlyKnown(w: Writer, h: Header)
    requires w.Sound() && WritableHeader(h)
    ensures OnlyFlags(w.n, w.bits(HeaderBits(h)), TFHD_FLAGS) <==> h.extra == {}
  {
    HeaderFlags(w, h);
    var bits := HeaderBits(h);
    forall k | k in h.extra ensures k !in TFHD_FLAGS {
    }
    forall k | k in bits ensures k in TFHD_FLAGS || k in h.extra {
    }
    OnlyKnown(w, bits, TFHD_FLAGS, h.extra);
  }

  function OptionalSize(v: Option<nat>): nat { if v.Some? then 4 else 0 }

  lemma OptionalLength(w: Writer, v: Option<nat>)
    requires w.Sound() && OptionalWord(v)
    ensures |Optional(w, v)| == OptionalSize(v)
  {
  }

  lemma Rows(a: Bytes, b: Bytes, c: Bytes, d: Bytes, e: Bytes, f: Bytes)
    ensures a + b + c + d + e + f == a + (b + c + d + e + f)
    ensures a + b + c + d + e + f == a + b + (c + d + e + f)
  {
  }

  /** Where the fields of a header lie. */
  lemma HeaderFields(w: Writer, d: Bytes, box: Atom, h: Header)
    requires w.Sound() && WritableHeader(h) && Holds(d, box, HeaderBytes(w, h))
    ensures var base := if h.base.Some? then 8 else 0;
            var size := 8 + base + OptionalSize(h.description) + OptionalSize(h.duration);
            && Content(box) == size + OptionalSize(h.size) + OptionalSize(h.sampleFlags)
            && (h.base.Some? ==> w.n.u64(d[box.body + 8..box.body + 16]) == h.base.value)
            && (h.size.Some? ==> WordOf(w.n, d, box, size) == h.size.value)
  {
    var all, front, base := HeaderBytes(w, h), FrontBytes(w, h.version, HeaderBits(h), h.track), BaseBytes(w, h);
    var description, duration := Optional(w, h.description), Optional(w, h.duration);
    var size, flags := Optional(w, h.size), Optional(w, h.sampleFlags);
    HeaderFlags(w, h);
    assert |front| == 8;
    OptionalLength(w, h.description);
    OptionalLength(w, h.duration);
    OptionalLength(w, h.size);
    OptionalLength(w, h.sampleFlags);
    Rows(front, base, description, duration, size, flags);
    HeldPiece(d, box, all, front, base, description + duration + size + flags);
    HeldPiece(d, box, all, front + base + description + duration, size, flags);
  }

  lemma HeaderExtent(w: Writer, h: Header)
    requires w.Sound() && WritableHeader(h)
    ensures var bits, base := w.bits(HeaderBits(h)), if h.base.Some? then 8 else 0;
            && TfhdFields(w.n, bits, 4) == base + OptionalSize(h.description) + OptionalSize(h.duration)
            && TfhdFields(w.n, bits, 24) == TfhdFields(w.n, bits, 4) + OptionalSize(h.size) + OptionalSize(h.sampleFlags)
            && (w.n.flag(bits, 0) <==> h.base.Some?) && (w.n.flag(bits, 4) <==> h.size.Some?) && (w.n.flag(bits, 17) <==> h.own)
  {
    HeaderFlags(w, h);
    assert forall k: nat :: k < 24 ==> (w.n.flag(w.bits(HeaderBits(h)), k) <==> k in HeaderBits(h));
  }

  lemma OffsetsRead(w: Writer, d: Bytes, box: Atom, h: Header, offset: nat, size: nat)
    requires w.Sound() && WritableHeader(h) && Holds(d, box, HeaderBytes(w, h)) && Content(box) >= 8
    ensures OffsetsOf(w.n, d, box, w.bits(HeaderBits(h)), offset, size) ==
            if h.base.Some? && h.base.value > 9007199254740991 then Err(Invalid)
            else Ok((if h.base.Some? then h.base.value else offset, if h.size.Some? then h.size.value else size))
  {
    HeaderExtent(w, h);
    HeaderFields(w, d, box, h);
  }

  /** The header is read as what it means. */
  lemma HeaderRead(w: Writer, d: Bytes, box: Atom, h: Header, defaults: map<nat, nat>, offset: nat)
    requires w.Sound() && WritableHeader(h) && Holds(d, box, HeaderBytes(w, h))
    ensures TrackOf(w.n, d, box, defaults, offset) == HeaderMeaning(h, defaults, offset)
  {
    HeaderFrontRead(w, d, box, h);
    HeaderOnlyKnown(w, h);
    HeaderExtent(w, h);
    if h.track in defaults {
      OffsetsRead(w, d, box, h, offset, defaults[h.track]);
    }
  }

  lemma HeaderFrontRead(w: Writer, d: Bytes, box: Atom, h: Header)
    requires w.Sound() && WritableHeader(h) && Holds(d, box, HeaderBytes(w, h))
    ensures Content(box) >= 8 && ByteOf(d, box, 0) == h.version && WordOf(w.n, d, box, 4) == h.track
    ensures w.n.u24(d[box.body + 1..box.body + 4]) == w.bits(HeaderBits(h))
  {
    var rest := BaseBytes(w, h) + Optional(w, h.description) + Optional(w, h.duration) + Optional(w, h.size) + Optional(w, h.sampleFlags);
    HeaderFlags(w, h);
    Rows(FrontBytes(w, h.version, HeaderBits(h), h.track), BaseBytes(w, h), Optional(w, h.description), Optional(w, h.duration),
         Optional(w, h.size), Optional(w, h.sampleFlags));
    FrontRead(w, d, box, h.version, HeaderBits(h), h.track, rest);
  }

  // ---------------------------------------------------------------- runs

  /** A sample record; of its words those are written that the run announces. */
  datatype Sample = Sample(duration: nat, size: nat, flags: nat, composition: nat)

  datatype Announced = Announced(durations: bool, sizes: bool, flags: bool, compositions: bool)

  datatype Run = Run(version: Byte, offset: Option<int>, first: Option<nat>, has: Announced, samples: seq<Sample>, extra: set<nat>)

  function RunBits(r: Run): set<nat> {
    Bit(r.offset.Some?, 0) + Bit(r.first.Some?, 2) + Bit(r.has.durations, 8) + Bit(r.has.sizes, 9) + Bit(r.has.flags, 10)
    + Bit(r.has.compositions, 11) + r.extra
  }

  predicate WritableSample(s: Sample) { Word(s.duration) && Word(s.size) && Word(s.flags) && Word(s.composition) }

  predicate WritableRun(r: Run) {
    && (r.offset.Some? ==> -0x8000_0000 <= r.offset.value < 0x8000_0000) && OptionalWord(r.first) && Word(|r.samples|)
    && (forall i :: 0 <= i < |r.samples| ==> WritableSample(r.samples[i]))
    && Below24(r.extra) && forall k :: k in r.extra ==> k !in {0, 2, 8, 9, 10, 11}
  }

  function If(w: Writer, present: bool, v: nat): Bytes { if present then w.w32(v) else [] }

  function SampleRecord(w: Writer, has: Announced, s: Sample): Bytes {
    If(w, has.durations, s.duration) + If(w, has.sizes, s.size) + If(w, has.flags, s.flags) + If(w, has.compositions, s.composition)
  }

  function SampleRecords(w: Writer, has: Announced, samples: seq<Sample>): Bytes {
    if samples == [] then [] else SampleRecord(w, has, samples[0]) + SampleRecords(w, has, samples[1..])
  }

  function OffsetBytes(w: Writer, r: Run): Bytes { if r.offset.Some? then w.s32(r.offset.value) else [] }

  function RunBytes(w: Writer, r: Run): Bytes {
    FrontBytes(w, r.version, RunBits(r), |r.samples|) + OffsetBytes(w, r) + Optional(w, r.first) + SampleRecords(w, r.has, r.samples)
  }

  /** The sizes a run gives its samples: the ones written in it, or else the one of the track. */
  function SizesOf(r: Run, trackSize: nat): (sizes: seq<nat>)
    ensures |sizes| == |r.samples|
  {
    seq(|r.samples|, i requires 0 <= i < |r.samples| => if r.has.sizes then r.samples[i].size else trackSize)
  }

  /** Where a run lies: behind the base by the offset written in it, or else where the run before it ended. None when it
      cannot be used. */
  function RunMeaning(r: Run, track: Track, next: Option<int>): Option<Span> {
    var sizes := SizesOf(r, track.sampleSize);
    if r.version > 1 || r.extra != {} || r.samples == [] || 0 in sizes then None
    else if r.offset.Some? then Some(Span(track.id, track.base + r.offset.value, sizes))
    else if next.Some? then Some(Span(track.id, next.value, sizes))
    else None
  }

  /** Why a run is refused: invalid, but unsupported for flags without a meaning or for a start that is not given, and
      over the limit when it would count too many samples. */
  function RunRefusal(r: Run, next: Option<int>, samples: nat): Rejection {
    if r.version > 1 then Invalid
    else if r.extra != {} then Unsupported
    else if r.samples == [] then Invalid
    else if samples + |r.samples| > 100000 then LimitExceeded
    else if r.offset.None? && next.None? then Unsupported
    else Invalid
  }

  lemma RunFlags(w: Writer, r: Run)
    requires w.Sound() && WritableRun(r)
    ensures Below24(RunBits(r))
    ensures 0 in RunBits(r) <==> r.offset.Some?
    ensures 2 in RunBits(r) <==> r.first.Some?
    ensures 8 in RunBits(r) <==> r.has.durations
    ensures 9 in RunBits(r) <==> r.has.sizes
    ensures 10 in RunBits(r) <==> r.has.flags
    ensures 11 in RunBits(r) <==> r.has.compositions
    ensures OnlyFlags(w.n, w.bits(RunBits(r)), TRUN_FLAGS) <==> r.extra == {}
  {
    var bits := RunBits(r);
    forall k | k in r.extra ensures k !in TRUN_FLAGS {
    }
    forall k | k in bits ensures k in TRUN_FLAGS || k in r.extra {
    }
    OnlyKnown(w, bits, TRUN_FLAGS, r.extra);
  }

  function RecordSize(has: Announced): nat {
    Count(has.durations, 4) + Count(has.sizes, 4) + Count(has.flags, 4) + Count(has.compositions, 4)
  }

  lemma RecordLength(w: Writer, has: Announced, s: Sample)
    requires w.Sound() && WritableSample(s)
    ensures |SampleRecord(w, has, s)| == RecordSize(has) && |If(w, has.durations, s.duration)| == Count(has.durations, 4)
    ensures has.sizes ==>
            var p := Count(has.durations, 4); p + 4 <= RecordSize(has) && SampleRecord(w, has, s)[p..p + 4] == w.w32(s.size)
  {
    var back := If(w, has.flags, s.flags) + If(w, has.compositions, s.composition);
    assert SampleRecord(w, has, s) == If(w, has.durations, s.duration) + If(w, has.sizes, s.size) + back;
    Piece(If(w, has.durations, s.duration), If(w, has.sizes, s.size), back);
  }

  /** The records lie one behind the other. */
  lemma {:induction false} RecordsLie(w: Writer, has: Announced, samples: seq<Sample>)
    requires w.Sound() && forall i :: 0 <= i < |samples| ==> WritableSample(samples[i])
    ensures |SampleRecords(w, has, samples)| == |samples| * RecordSize(has)
    decreases |samples|
  {
    if samples != [] {
      RecordLength(w, has, samples[0]);
      RecordsLie(w, has, samples[1..]);
      assert |samples| * RecordSize(has) == RecordSize(has) + |samples[1..]| * RecordSize(has);
    }
  }

  lemma {:induction false} RecordAt(w: Writer, has: Announced, samples: seq<Sample>, i: nat) returns (front: Bytes, back: Bytes)
    requires w.Sound() && i < |samples| && forall k :: 0 <= k < |samples| ==> WritableSample(samples[k])
    ensures SampleRecords(w, has, samples) == front + SampleRecord(w, has, samples[i]) + back && |front| == i * RecordSize(has)
    decreases i
  {
    if i == 0 {
      front, back := [], SampleRecords(w, has, samples[1..]);
    } else {
      var f, b := RecordAt(w, has, samples[1..], i - 1);
      RecordLength(w, has, samples[0]);
      front, back := SampleRecord(w, has, samples[0]) + f, b;
      Regroup(SampleRecord(w, has, samples[0]), f, SampleRecord(w, has, samples[i]), b);
      assert i * RecordSize(has) == RecordSize(has) + (i - 1) * RecordSize(has);
    }
  }

  lemma RunSizes(w: Writer, r: Run)
    requires w.Sound() && WritableRun(r)
    ensures HeadBytes(w.n, w.bits(RunBits(r))) == 8 + OptionalSizeOf(r.offset) + OptionalSize(r.first)
    ensures SampleBytes(w.n, w.bits(RunBits(r))) == RecordSize(r.has)
    ensures |OffsetBytes(w, r)| == OptionalSizeOf(r.offset) && |Optional(w, r.first)| == OptionalSize(r.first)
  {
    RunFlags(w, r);
    OptionalLength(w, r.first);
  }

  function OptionalSizeOf(v: Option<int>): nat { if v.Some? then 4 else 0 }

  /** What stands before and behind the size of sample i. */
  lemma SizePlace(w: Writer, r: Run, i: nat) returns (front: Bytes, back: Bytes)
    requires w.Sound() && WritableRun(r) && i < |r.samples| && r.has.sizes
    ensures RunBytes(w, r) == front + w.w32(r.samples[i].size) + back
    ensures |front| == 8 + OptionalSizeOf(r.offset) + OptionalSize(r.first) + i * RecordSize(r.has) + Count(r.has.durations, 4)
  {
    var s, first := r.samples[i], FrontBytes(w, r.version, RunBits(r), |r.samples|);
    var head := first + OffsetBytes(w, r) + Optional(w, r.first);
    var f, b := RecordAt(w, r.has, r.samples, i);
    var before, behind := If(w, r.has.durations, s.duration), If(w, r.has.flags, s.flags) + If(w, r.has.compositions, s.composition);
    RunFlags(w, r);
    RunSizes(w, r);
    RecordLength(w, r.has, s);
    front, back := head + f + before, behind + b;
    Around(head, f, before, w.w32(s.size), behind, b);
    assert SampleRecord(w, r.has, s) == before + w.w32(s.size) + behind;
  }

  lemma Around(head: Bytes, f: Bytes, before: Bytes, piece: Bytes, behind: Bytes, b: Bytes)
    ensures head + (f + (before + piece + behind) + b) == (head + f + before) + piece + (behind + b)
  {
  }

  /** The size of sample i, read where it is written. */
  lemma SizeRead(w: Writer, d: Bytes, box: Atom, r: Run, i: nat)
    requires w.Sound() && WritableRun(r) && Holds(d, box, RunBytes(w, r)) && i < |r.samples| && r.has.sizes
    ensures var k := SizeAt(w.n, w.bits(RunBits(r)), i); k + 4 <= Content(box) && WordOf(w.n, d, box, k) == r.samples[i].size
  {
    RunFlags(w, r);
    RunSizes(w, r);
    var front, back := SizePlace(w, r, i);
    HeldPiece(d, box, RunBytes(w, r), front, w.w32(r.samples[i].size), back);
    assert SizeAt(w.n, w.bits(RunBits(r)), i) == |front|;
  }

  lemma RunFields(w: Writer, d: Bytes, box: Atom, r: Run)
    requires w.Sound() && WritableRun(r) && Holds(d, box, RunBytes(w, r))
    ensures Content(box) == HeadBytes(w.n, w.bits(RunBits(r))) + |r.samples| * RecordSize(r.has)
    ensures r.offset.Some? ==> Content(box) >= 12 && w.n.s32(d[box.body + 8..box.body + 12]) == r.offset.value
  {
    var front, records := FrontBytes(w, r.version, RunBits(r), |r.samples|), SampleRecords(w, r.has, r.samples);
    RunFlags(w, r);
    RunSizes(w, r);
    RecordsLie(w, r.has, r.samples);
    assert |front| == 8;
    assert RunBytes(w, r) == front + OffsetBytes(w, r) + (Optional(w, r.first) + records);
    HeldPiece(d, box, RunBytes(w, r), front, OffsetBytes(w, r), Optional(w, r.first) + records);
  }

  lemma SizesRead(w: Writer, d: Bytes, box: Atom, r: Run, trackSize: nat)
    requires w.Sound() && WritableRun(r) && Holds(d, box, RunBytes(w, r))
    ensures var flags := w.bits(RunBits(r));
            && HeadBytes(w.n, flags) + |r.samples| * SampleBytes(w.n, flags) == Content(box)
            && SampleSizes(w.n, d, box, flags, trackSize, |r.samples|) == SizesOf(r, trackSize)
  {
    var flags := w.bits(RunBits(r));
    RunFlags(w, r);
    RunSizes(w, r);
    RunFields(w, d, box, r);
    forall i | 0 <= i < |r.samples|
      ensures SampleSizes(w.n, d, box, flags, trackSize, |r.samples|)[i] == SizesOf(r, trackSize)[i]
    {
      if r.has.sizes {
        SizeRead(w, d, box, r, i);
      }
    }
  }

  /** The run is read as what it means, if that lies in media data and within the sample limit. */
  lemma RunRead(w: Writer, d: Bytes, box: Atom, r: Run, track: Track, next: Option<int>, samples: nat, media: seq<Range>)
    requires w.Sound() && WritableRun(r) && Holds(d, box, RunBytes(w, r))
    ensures var s, m := SpanOf(w.n, d, box, track, next, samples, media), RunMeaning(r, track, next);
            && (s.Ok? <==> m.Some? && samples + |r.samples| <= 100000 && InMedia(m.value, media))
            && (s.Ok? ==> s.value == m.value) && (s.Err? ==> s.error == RunRefusal(r, next, samples))
  {
    var rest := OffsetBytes(w, r) + Optional(w, r.first) + SampleRecords(w, r.has, r.samples);
    assert RunBytes(w, r) == FrontBytes(w, r.version, RunBits(r), |r.samples|) + rest;
    RunFlags(w, r);
    FrontRead(w, d, box, r.version, RunBits(r), |r.samples|, rest);
    RunFields(w, d, box, r);
    SizesRead(w, d, box, r, track.sampleSize);
  }
}
