/** Where `inspectFragments` and `atoms` read (src/media/content.ts:349-371, 472-549): every read of the methods stays inside
    its box but one, and a file on which that one goes astray is refused. */
module IsoReads {
  import opened Prelude
  import opened PngChunks
  import opened IsoBoxes
  import opened IsoFragments
  import opened IsoMovie
  import Crc32

  predicate InBox(r: Read) { r.box.body <= r.at && r.at + r.width <= r.box.end }

  predicate AllInBox(rs: set<Read>) { forall r :: r in rs ==> InBox(r) }

  lemma InBoxUnion(a: set<Read>, b: set<Read>)
    ensures AllInBox(a + b) <==> AllInBox(a) && AllInBox(b)
  {
    assert forall r :: r in a || r in b ==> r in a + b;
  }

  // ---------------------------------------------------------------- boxes and headers

  lemma {:induction false} AtomsInBox(n: Numbers, d: Bytes, p: nat, region: Atom, count: nat, before: set<Read>)
    requires region.body <= p && region.end <= |d| && AllInBox(before)
    ensures AllInBox(AtomReads(n, d, p, region, count, before))
    decreases region.end - p
  {
    if p < region.end && count <= MAX_ATOMS && p + 8 <= region.end {
      var box := BoxAt(n, d, p, region.end);
      if box.Ok? {
        AtomsInBox(n, d, box.value.end, region, count + 1, before + BoxReads(n, d, p, region));
      }
    }
  }

  lemma PairInBox(box: Atom, p: nat, first: bool, second: bool)
    requires box.body <= p
    ensures AllInBox(PairRead(box, p, first, second))
  {
  }

  lemma HeaderInBox(n: Numbers, d: Bytes, box: Atom, defaults: map<nat, nat>)
    requires Within(box, d)
    ensures AllInBox(HeaderReads(n, d, box, defaults))
  {
    if Content(box) >= 8 && ByteOf(d, box, 0) == 0 {
      AnnouncedInBox(n, d, box, defaults);
      FrontInBox(box, AnnouncedReads(n, d, box, defaults));
    }
  }

  lemma AnnouncedInBox(n: Numbers, d: Bytes, box: Atom, defaults: map<nat, nat>)
    requires Within(box, d) && Content(box) >= 8
    ensures AllInBox(AnnouncedReads(n, d, box, defaults))
  {
    OffsetInBox(n, d, box, n.u24(d[box.body + 1..box.body + 4]));
  }

  lemma FrontInBox(box: Atom, behind: set<Read>)
    requires Content(box) >= 8 && AllInBox(behind)
    ensures AllInBox(FrontReads(box)) && AllInBox(FrontReads(box) + behind) && AllInBox(FrontReads(box) + {})
  {
    InBoxUnion(FrontReads(box), behind);
  }

  lemma OffsetInBox(n: Numbers, d: Bytes, box: Atom, flags: nat)
    requires Within(box, d) && Content(box) >= 8
    ensures AllInBox(OffsetReads(n, d, box, flags))
  {
    var p := box.body + 8 + Count(n.flag(flags, 0), 8);
    var words, base := WordReads(n, box, flags, p), FieldRead(box, box.body + 8, n.flag(flags, 0), 8);
    WordsInBox(n, box, flags, p);
    InBoxUnion(base, words);
    if OffsetReads(n, d, box, flags) != base + words {
      assert OffsetReads(n, d, box, flags) == {Read(box, box.body + 8, 8)};
    }
  }

  lemma WordsInBox(n: Numbers, box: Atom, flags: nat, p: nat)
    requires box.body <= p
    ensures AllInBox(WordReads(n, box, flags, p))
  {
    var behind := p + Count(n.flag(flags, 1), 4) + Count(n.flag(flags, 3), 4);
    PairInBox(box, p, n.flag(flags, 1), n.flag(flags, 3));
    PairInBox(box, behind, n.flag(flags, 4), n.flag(flags, 5));
  }

  // ---------------------------------------------------------------- runs

  lemma SampleInBox(n: Numbers, d: Bytes, run: Atom, flags: nat, sampleSize: nat, q: nat)
    requires Within(run, d) && run.body <= q
    ensures AllInBox(SampleTurn(n, d, run, flags, sampleSize, q))
  {
    var rest := q + Count(n.flag(flags, 8), 4) + Count(n.flag(flags, 9), 4);
    PairInBox(run, q, n.flag(flags, 8), n.flag(flags, 9));
    PairInBox(run, rest, n.flag(flags, 10), n.flag(flags, 11));
  }

  lemma {:induction false} SamplesInBox(n: Numbers, d: Bytes, run: Atom, flags: nat, sampleSize: nat, q: nat,
                                        count: nat, before: set<Read>)
    requires Within(run, d) && run.body <= q && AllInBox(before)
    ensures AllInBox(SampleReads(n, d, run, flags, sampleSize, q, count, before))
    decreases count
  {
    if count > 0 {
      var turn := SampleTurn(n, d, run, flags, sampleSize, q);
      SampleInBox(n, d, run, flags, sampleSize, q);
      InBoxUnion(before, turn);
      SamplesInBox(n, d, run, flags, sampleSize, q + SampleBytes(n, flags), count - 1, before + turn);
    }
  }

  lemma RunBodyInBox(n: Numbers, d: Bytes, run: Atom, flags: nat, count: nat, sampleSize: nat, next: Option<int>)
    requires Within(run, d)
    ensures AllInBox(RunBodyReads(n, d, run, flags, count, sampleSize, next))
  {
    PairInBox(run, run.body + 8, n.flag(flags, 0), n.flag(flags, 2));
    SamplesInBox(n, d, run, flags, sampleSize, run.body + HeadBytes(n, flags), count, {});
    InBoxUnion(PairRead(run, run.body + 8, n.flag(flags, 0), n.flag(flags, 2)), RunSampleReads(n, d, run, flags, count, sampleSize));
  }

  lemma RunInBox(n: Numbers, d: Bytes, run: Atom, track: Track, next: Option<int>, samples: nat)
    requires Within(run, d)
    ensures AllInBox(RunReads(n, d, run, track, next, samples))
  {
    if Content(run) >= 8 && ByteOf(d, run, 0) <= 1 {
      var flags, count := n.u24(d[run.body + 1..run.body + 4]), WordOf(n, d, run, 4);
      RunBodyInBox(n, d, run, flags, count, track.sampleSize, next);
      FrontInBox(run, RunBodyReads(n, d, run, flags, count, track.sampleSize, next));
    }
  }

  lemma {:induction false} RunsInBox(n: Numbers, d: Bytes, m: Movie, runs: seq<Atom>, track: Track,
                                     next: Option<int>, t: Tally, before: set<Read>)
    requires AllWithin(runs, d) && AllInBox(before)
    ensures AllInBox(RunsReads(n, d, m, runs, track, next, t, before))
    decreases |runs|
  {
    if runs != [] {
      var read := RunReads(n, d, runs[0], track, next, t.samples);
      RunInBox(n, d, runs[0], track, next, t.samples);
      InBoxUnion(before, read);
      var turn := RunFrom(n, d, m, runs[0], track, next, t);
      if turn.Ok? {
        RunsInBox(n, d, m, runs[1..], track, Some(turn.value.0), turn.value.1, before + read);
      }
    }
  }

  // ---------------------------------------------------------------- track fragments

  /** The header is accepted and the first decode time box is empty. */
  predicate EmptyTime(n: Numbers, d: Bytes, m: Movie, traf: Atom, offset: nat)
    requires Within(traf, d)
  {
    var headed := Headed(n, d, m, traf, offset);
    headed.Some? && FirstOf(headed.value.0, TFDT).Some? && Content(FirstOf(headed.value.0, TFDT).value) == 0
  }

  lemma HeadInBox(n: Numbers, d: Bytes, m: Movie, traf: Atom)
    requires Within(traf, d)
    ensures AllInBox(HeadReads(n, d, m, traf))
  {
    AtomsInBox(n, d, traf.body, traf, 0, {});
    var kids := Children(n, d, traf);
    if kids.Ok? && FirstOf(kids.value, TFHD).Some? {
      HeaderInBox(n, d, FirstOf(kids.value, TFHD).value, m.defaults);
    }
  }

  /** A track fragment is read inside its boxes exactly when no empty decode time box is met. */
  lemma TrafInBox(n: Numbers, d: Bytes, m: Movie, traf: Atom, offset: nat, t: Tally)
    requires Within(traf, d)
    ensures AllInBox(TrafReads(n, d, m, traf, offset, t)) <==> !EmptyTime(n, d, m, traf, offset)
  {
    HeadInBox(n, d, m, traf);
    var headed := Headed(n, d, m, traf, offset);
    if headed.Some? {
      var (kids, track) := headed.value;
      var runs := if DecodeTimeAllowed(d, kids) then RunsReads(n, d, m, OfKind(kids, TRUN), track, None, t, {}) else {};
      RunsInBox(n, d, m, OfKind(kids, TRUN), track, None, t, {});
      assert AllInBox(runs);
      InBoxUnion(TimeReads(kids), runs);
      InBoxUnion(HeadReads(n, d, m, traf), TimeReads(kids) + runs);
      TimeInBox(d, kids);
    } else {
      InBoxUnion(HeadReads(n, d, m, traf), {});
    }
  }

  lemma TimeInBox(d: Bytes, kids: seq<Atom>)
    requires AllWithin(kids, d)
    ensures AllInBox(TimeReads(kids)) <==> !(FirstOf(kids, TFDT).Some? && Content(FirstOf(kids, TFDT).value) == 0)
  {
    var box := FirstOf(kids, TFDT);
    if box.Some? {
      assert Read(box.value, box.value.body, 1) in TimeReads(kids);
    }
  }

  /** An empty decode time box is refused whatever its version byte is read as. */
  lemma EmptyTimeRefused(n: Numbers, d: Bytes, m: Movie, traf: Atom, offset: nat, t: Tally)
    requires Within(traf, d) && EmptyTime(n, d, m, traf, offset)
    ensures TrackFrom(n, d, m, traf, offset, t) == Err(Invalid)
    ensures forall version :: !TimeAllowed(version, 0)
  {
  }

  // ---------------------------------------------------------------- fragments

  /** One of the track fragments gone through has an empty decode time box. */
  predicate TracksMeetEmpty(n: Numbers, d: Bytes, m: Movie, trafs: seq<Atom>, offset: nat, t: Tally)
    requires AllWithin(trafs, d)
    decreases |trafs|
  {
    trafs != [] &&
    (EmptyTime(n, d, m, trafs[0], offset) ||
     match TrackFrom(n, d, m, trafs[0], offset, t)
     case Err(_) => false
     case Ok(next) => TracksMeetEmpty(n, d, m, trafs[1..], offset, next))
  }

  lemma {:induction false} TracksInBox(n: Numbers, d: Bytes, m: Movie, trafs: seq<Atom>, offset: nat, t: Tally,
                                       before: set<Read>)
    requires AllWithin(trafs, d)
    ensures AllInBox(TracksReads(n, d, m, trafs, offset, t, before)) <==>
            AllInBox(before) && !TracksMeetEmpty(n, d, m, trafs, offset, t)
    ensures TracksMeetEmpty(n, d, m, trafs, offset, t) ==> TracksFrom(n, d, m, trafs, offset, t) == Err(Invalid)
    decreases |trafs|
  {
    if trafs != [] {
      TrafInBox(n, d, m, trafs[0], offset, t);
      if EmptyTime(n, d, m, trafs[0], offset) {
        EmptyTimeRefused(n, d, m, trafs[0], offset, t);
      }
      var read := TrafReads(n, d, m, trafs[0], offset, t);
      InBoxUnion(before, read);
      var next := TrackFrom(n, d, m, trafs[0], offset, t);
      if next.Ok? {
        TracksInBox(n, d, m, trafs[1..], offset, next.value, before + read);
      }
    }
  }

  lemma ContentsInBox(n: Numbers, d: Bytes)
    ensures AllInBox(ContentsReads(n, d))
  {
    AtomsInBox(n, d, 0, WholeOf(d), 0, {});
    var top := Children(n, d, WholeOf(d));
    if top.Ok? && top.value != [] {
      AtomsInBox(n, d, top.value[0].body, top.value[0], 0, {});
    }
  }

  predicate FragmentMeetsEmpty(n: Numbers, m: Movie, f: Fragment, t: Tally) {
    var entered := Entered(n, f, t);
    entered.Some? && TracksMeetEmpty(n, f.bytes, m, entered.value.0, f.offset, entered.value.1)
  }

  predicate FragmentsMeetEmpty(n: Numbers, m: Movie, fs: seq<Fragment>, t: Tally)
    decreases |fs|
  {
    fs != [] &&
    (FragmentMeetsEmpty(n, m, fs[0], t) ||
     match FragmentFrom(n, m, fs[0], t)
     case Err(_) => false
     case Ok(next) => FragmentsMeetEmpty(n, m, fs[1..], next))
  }

  lemma FragmentInBox(n: Numbers, m: Movie, f: Fragment, t: Tally, before: set<Read>)
    ensures AllInBox(FragmentReads(n, m, f, t, before)) <==> AllInBox(before) && !FragmentMeetsEmpty(n, m, f, t)
    ensures FragmentMeetsEmpty(n, m, f, t) ==> FragmentFrom(n, m, f, t) == Err(Invalid)
  {
    var entered := Entered(n, f, t);
    ContentsInBox(n, f.bytes);
    InBoxUnion(before, ContentsReads(n, f.bytes));
    if entered.Some? {
      TracksInBox(n, f.bytes, m, entered.value.0, f.offset, entered.value.1, before + ContentsReads(n, f.bytes));
    }
  }

  lemma {:induction false} FragmentsInBox(n: Numbers, m: Movie, fs: seq<Fragment>, t: Tally, before: set<Read>)
    ensures AllInBox(FragmentsReads(n, m, fs, t, before)) <==> AllInBox(before) && !FragmentsMeetEmpty(n, m, fs, t)
    ensures FragmentsMeetEmpty(n, m, fs, t) ==> FragmentsFrom(n, m, fs, t) == Err(Invalid)
    decreases |fs|
  {
    if fs != [] {
      FragmentInBox(n, m, fs[0], t, before);
      var next := FragmentFrom(n, m, fs[0], t);
      if next.Ok? {
        FragmentsInBox(n, m, fs[1..], next.value, FragmentReads(n, m, fs[0], t, before));
      }
    }
  }

  // ---------------------------------------------------------------- the whole inspection

  lemma DefaultInBox(n: Numbers, moov: Bytes, box: Atom, defaults: map<nat, nat>)
    requires Within(box, moov)
    ensures AllInBox(DefaultReads(n, moov, box, defaults))
  {
  }

  lemma {:induction false} DefaultsInBox(n: Numbers, moov: Bytes, boxes: seq<Atom>, defaults: map<nat, nat>,
                                         before: set<Read>)
    requires AllWithin(boxes, moov) && AllInBox(before)
    ensures AllInBox(DefaultsReads(n, moov, boxes, defaults, before))
    decreases |boxes|
  {
    if boxes != [] {
      var read, pair := DefaultReads(n, moov, boxes[0], defaults), DefaultOf(n, moov, boxes[0]);
      DefaultInBox(n, moov, boxes[0], defaults);
      InBoxUnion(before, read);
      if pair.Some? {
        DefaultsInBox(n, moov, boxes[1..], defaults[pair.value.0 := pair.value.1], before + read);
      }
    }
  }

  lemma MovieInBox(n: Numbers, moov: Bytes, root: Atom)
    requires Within(root, moov)
    ensures AllInBox(MovieReads(n, moov, root))
  {
    AtomsInBox(n, moov, root.body, root, 0, {});
    var kids := Children(n, moov, root);
    if kids.Ok? && FirstOf(kids.value, MVEX).Some? {
      var mvex := FirstOf(kids.value, MVEX).value;
      AtomsInBox(n, moov, mvex.body, mvex, 0, {});
      var boxes := DefaultBoxes(n, moov, root);
      if boxes.Ok? {
        DefaultsInBox(n, moov, boxes.value, map[], {});
      }
    }
  }

  /** A track fragment gone through has an empty decode time box. */
  predicate MeetsEmptyTime(n: Numbers, moov: Bytes, root: Atom, fs: seq<Fragment>, media: seq<Range>, video: set<nat>)
    requires Within(root, moov)
  {
    var defaults := Defaults(n, moov, root);
    defaults.Some? && FragmentsMeetEmpty(n, Movie(defaults.value, video, media), fs, EMPTY)
  }

  /** All reads stay inside their box exactly when no track fragment gone through has an empty decode time box; when one
      has, the file is invalid. */
  lemma ReadsInBox(n: Numbers, moov: Bytes, root: Atom, fs: seq<Fragment>, media: seq<Range>, video: set<nat>)
    requires Within(root, moov)
    ensures AllInBox(Reads(n, moov, root, fs, media, video)) <==> !MeetsEmptyTime(n, moov, root, fs, media, video)
    ensures MeetsEmptyTime(n, moov, root, fs, media, video) ==> Inspection(n, moov, root, fs, media, video) == Err(Invalid)
  {
    MovieInBox(n, moov, root);
    var defaults := Defaults(n, moov, root);
    if defaults.Some? {
      var m := Movie(defaults.value, video, media);
      FragmentsInBox(n, m, fs, EMPTY, {});
      InBoxUnion(MovieReads(n, moov, root), FragmentsReads(n, m, fs, EMPTY, {}));
    } else {
      InBoxUnion(MovieReads(n, moov, root), {});
    }
  }

  /** An accepted movie: track defaults as the movie box gives them, no track twice; fragment numbers strictly increase;
      every run belongs to a track with a default and lies inside one media data box with no empty sample; at most 100000
      samples in all; every video track has a run; and every read stayed inside its box. */
  lemma AcceptedMovie(n: Numbers, moov: Bytes, root: Atom, fs: seq<Fragment>, media: seq<Range>, video: set<nat>)
    requires Within(root, moov) && Inspection(n, moov, root, fs, media, video).Ok?
    ensures DefaultBoxes(n, moov, root).Ok? && Defaults(n, moov, root).Some?
    ensures var boxes, defaults := DefaultBoxes(n, moov, root).value, Defaults(n, moov, root).value;
            exists pairs :: ReadAs(n, moov, boxes, pairs) && DistinctTracks(pairs) && Tabulates(defaults, pairs)
    ensures var t, defaults := Inspection(n, moov, root, fs, media, video).value, Defaults(n, moov, root).value;
            && |t.sequences| == |fs| && Increasing(t.sequences)
            && (forall i :: 0 <= i < |t.spans| ==> SpanAllowed(t.spans[i], media) && t.spans[i].track in defaults)
            && SampleTotal(t.spans) <= MAX_SAMPLES
            && forall id :: id in video ==> HasSpan(t.spans, id)
    ensures AllInBox(Reads(n, moov, root, fs, media, video))
  {
    DefaultsExact(n, moov, DefaultBoxes(n, moov, root).value);
    FragmentsSound(n, Movie(Defaults(n, moov, root).value, video, media), fs);
    ReadsInBox(n, moov, root, fs, media, video);
  }

  // ---------------------------------------------------------------- a read that leaves its box

  /** A small box. */
  function BoxBytes(kind: FourCC, contents: Bytes): Bytes
    requires |contents| < 240
  {
    var size: int := 8 + |contents|;
    [0, 0, 0, size] + kind + contents
  }

  const MOOF: FourCC := [0x6D, 0x6F, 0x6F, 0x66]
  const NUMBER: Bytes := [0, 0, 0, 0, 0, 0, 0, 1]
  const HEADER: Bytes := [0, 0, 0, 1, 0, 0, 0, 1, 0, 0, 0, 0, 0, 0, 0, 0]

  /** Fragment number 1; a header with a base offset and track 1; an empty decode time box. */
  function NumberBox(): Bytes { BoxBytes(MFHD, NUMBER) }

  function HeaderBox(): Bytes { BoxBytes(TFHD, HEADER) }

  function TimeBox(): Bytes { BoxBytes(TFDT, []) }

  function TrafBox(): Bytes { BoxBytes(TRAF, HeaderBox() + TimeBox()) }

  /** A fragment whose last box is an empty decode time box. */
  function Stray(): Bytes { BoxBytes(MOOF, NumberBox() + TrafBox()) }

  const STRAY_MOOF: Atom := Atom(MOOF, 0, 64, 8)
  const STRAY_MFHD: Atom := Atom(MFHD, 8, 24, 16)
  const STRAY_TRAF: Atom := Atom(TRAF, 24, 64, 32)
  const STRAY_TFHD: Atom := Atom(TFHD, 32, 56, 40)
  const STRAY_TFDT: Atom := Atom(TFDT, 56, 64, 64)

  lemma {:induction false} SmallNumber(b: Bytes)
    requires b != [] && forall i :: 0 <= i < |b| - 1 ==> b[i] == 0
    ensures BigEndian(b) == b[|b| - 1]
  {
    if |b| > 1 {
      SmallNumber(b[..|b| - 1]);
    }
  }

  /** Only the lowest flag of 1 is set. */
  lemma {:induction false} LowestFlag(number: nat, k: nat)
    requires number <= 1
    ensures Flag(number, k) <==> number == 1 && k == 0
    decreases k, number
  {
    var rest := Crc32.LowBits(number / 2, k);
    if k > 0 {
      LowestFlag(number / 2, k - 1);
      assert Crc32.LowBits(number, k + 1)[k] == rest[k - 1];
    }
  }

  lemma SubSlice<T>(d: seq<T>, p: nat, q: nat, i: nat, j: nat)
    requires p <= q <= |d| && i <= j <= q - p
    ensures d[p..q][i..j] == d[p + i..p + j]
  {
    var part := d[p..q];
    assert |part| == q - p && forall k :: 0 <= k < |part| ==> part[k] == d[p + k];
    assert |part[i..j]| == |d[p + i..p + j]| == j - i;
    forall k | 0 <= k < j - i ensures part[i..j][k] == d[p + i..p + j][k] {
    }
  }

  lemma BoxParts(kind: FourCC, contents: Bytes)
    requires |kind| == 4 && |contents| < 240
    ensures var b, size: int := BoxBytes(kind, contents), 8 + |contents|;
            |b| == size && b[0..4] == [0, 0, 0, size] && b[4..8] == kind && b[8..size] == contents
  {
  }

  /** What stands at p is a small box: it is read, and its contents are found. */
  lemma BoxRead(d: Bytes, p: nat, q: nat, kind: FourCC, contents: Bytes, end: nat)
    requires p <= q <= end <= |d| && |kind| == 4 && |contents| < 240 && d[p..q] == BoxBytes(kind, contents)
    ensures BoxAt(BUFFER, d, p, end) == Ok(Atom(kind, p, q, p + 8)) && d[p + 8..q] == contents
  {
    var size: int := 8 + |contents|;
    assert |d[p..q]| == size;
    BoxParts(kind, contents);
    SubSlice(d, p, q, 0, 4);
    SubSlice(d, p, q, 4, 8);
    SubSlice(d, p, q, 8, size);
    SmallNumber(d[p..p + 4]);
  }

  lemma TwoParts(d: Bytes, p: nat, q: nat, a: Bytes, b: Bytes)
    requires p <= q <= |d| && d[p..q] == a + b
    ensures p + |a| + |b| == q && d[p..p + |a|] == a && d[p + |a|..q] == b
  {
    assert |d[p..q]| == |a| + |b|;
    SubSlice(d, p, q, 0, |a|);
    SubSlice(d, p, q, |a|, |a| + |b|);
  }

  lemma LastBox(d: Bytes, p: nat, end: nat, count: nat, a: Atom)
    requires p < end <= |d| && count <= MAX_ATOMS && BoxAt(BUFFER, d, p, end) == Ok(a) && a.end == end
    ensures AtomsFrom(BUFFER, d, p, end, count) == Ok([a])
  {
    assert AtomsFrom(BUFFER, d, a.end, end, count + 1) == Ok([]);
    assert [a] + [] == [a];
  }

  lemma TwoBoxes(d: Bytes, p: nat, end: nat, a: Atom, b: Atom)
    requires p < a.end < end <= |d|
    requires BoxAt(BUFFER, d, p, end) == Ok(a) && BoxAt(BUFFER, d, a.end, end) == Ok(b) && b.end == end
    ensures AtomsFrom(BUFFER, d, p, end, 0) == Ok([a, b])
  {
    LastBox(d, a.end, end, 1, b);
    assert [a] + [b] == [a, b];
  }

  lemma StrayOuter()
    ensures |Stray()| == 64 && AtomsFrom(BUFFER, Stray(), 0, 64, 0) == Ok([STRAY_MOOF])
    ensures Stray()[8..24] == NumberBox() && Stray()[24..64] == TrafBox()
  {
    var d := Stray();
    assert d[0..64] == d;
    BoxRead(d, 0, 64, MOOF, NumberBox() + TrafBox(), 64);
    LastBox(d, 0, 64, 0, STRAY_MOOF);
    TwoParts(d, 8, 64, NumberBox(), TrafBox());
  }

  lemma StrayMiddle()
    ensures |Stray()| == 64 && AtomsFrom(BUFFER, Stray(), 8, 64, 0) == Ok([STRAY_MFHD, STRAY_TRAF])
    ensures Stray()[16..24] == NUMBER && Stray()[32..56] == HeaderBox() && Stray()[56..64] == TimeBox()
  {
    var d := Stray();
    StrayOuter();
    BoxRead(d, 8, 24, MFHD, NUMBER, 64);
    BoxRead(d, 24, 64, TRAF, HeaderBox() + TimeBox(), 64);
    TwoBoxes(d, 8, 64, STRAY_MFHD, STRAY_TRAF);
    TwoParts(d, 32, 64, HeaderBox(), TimeBox());
  }

  lemma StrayInner()
    ensures |Stray()| == 64 && AtomsFrom(BUFFER, Stray(), 32, 64, 0) == Ok([STRAY_TFHD, STRAY_TFDT])
    ensures Stray()[40..56] == HEADER
  {
    var d := Stray();
    StrayMiddle();
    BoxRead(d, 32, 56, TFHD, HEADER, 64);
    BoxRead(d, 56, 64, TFDT, [], 64);
    TwoBoxes(d, 32, 64, STRAY_TFHD, STRAY_TFDT);
  }

  lemma StrayKids()
    ensures var kids := [STRAY_MFHD, STRAY_TRAF]; FirstOf(kids, MFHD) == Some(STRAY_MFHD) && OfKind(kids, TRAF) == [STRAY_TRAF]
  {
    var kids := [STRAY_MFHD, STRAY_TRAF];
    assert MFHD[0] != TRAF[0];
    assert kids[1..] == [STRAY_TRAF] && [STRAY_TRAF][1..] == [];
    assert OfKind([STRAY_TRAF], TRAF) == [STRAY_TRAF];
  }

  lemma StrayNumber()
    ensures var d := Stray(); |d| == 64 && d[16] == 0 && BUFFER.u32(d[20..24]) == 1
  {
    var d := Stray();
    StrayMiddle();
    assert d[16] == d[16..24][0];
    SubSlice(d, 16, 24, 4, 8);
    SmallNumber(d[20..24]);
  }

  lemma StrayContents()
    ensures Contents(BUFFER, Stray()) == Ok((1, [STRAY_TRAF]))
  {
    StrayOuter();
    StrayMiddle();
    StrayNumber();
    StrayKids();
  }

  lemma BaseFlag()
    ensures BUFFER.flag(1, 0) && !BUFFER.flag(1, 4)
    ensures OnlyFlags(BUFFER, 1, TFHD_FLAGS) && TfhdFields(BUFFER, 1, 24) == 8
  {
    forall k: nat ensures BUFFER.flag(1, k) <==> k == 0 {
      LowestFlag(1, k);
    }
  }

  lemma StrayWords()
    ensures var d := Stray();
            |d| == 64 && d[40] == 0 && BUFFER.u24(d[41..44]) == 1 && BUFFER.u32(d[44..48]) == 1 && BUFFER.u64(d[48..56]) == 0
  {
    var d := Stray();
    StrayInner();
    assert d[40] == d[40..56][0];
    SubSlice(d, 40, 56, 1, 4);
    SubSlice(d, 40, 56, 4, 8);
    SubSlice(d, 40, 56, 8, 16);
    SmallNumber(d[41..44]);
    SmallNumber(d[44..48]);
    SmallNumber(d[48..56]);
  }

  lemma StrayHeader(defaults: map<nat, nat>)
    requires 1 in defaults
    ensures |Stray()| == 64 && TrackOf(BUFFER, Stray(), STRAY_TFHD, defaults, 0) == Ok(Track(1, 0, defaults[1]))
  {
    StrayWords();
    BaseFlag();
  }

  lemma StrayTraf(m: Movie)
    requires 1 in m.defaults
    ensures |Stray()| == 64
    ensures Headed(BUFFER, Stray(), m, STRAY_TRAF, 0) == Some(([STRAY_TFHD, STRAY_TFDT], Track(1, 0, m.defaults[1])))
    ensures TimeReads([STRAY_TFHD, STRAY_TFDT]) == {Read(STRAY_TFDT, 64, 1)}
    ensures EmptyTime(BUFFER, Stray(), m, STRAY_TRAF, 0)
  {
    StrayInner();
    StrayHeader(m.defaults);
    var kids := [STRAY_TFHD, STRAY_TFDT];
    assert kids[1..] == [STRAY_TFDT];
    assert TFHD[2] != TFDT[2];
    assert FirstOf(kids, TFHD) == Some(STRAY_TFHD);
    assert FirstOf(kids, TFDT) == Some(STRAY_TFDT);
  }

  lemma StrayTrafReads(m: Movie)
    requires m.defaults == map[1 := 0]
    ensures var t := EMPTY.(sequences := [1]);
            Entered(BUFFER, Fragment(0, Stray()), EMPTY) == Some(([STRAY_TRAF], t)) &&
            Read(STRAY_TFDT, 64, 1) in TrafReads(BUFFER, Stray(), m, STRAY_TRAF, 0, t)
  {
    StrayContents();
    StrayTraf(m);
    assert EMPTY.sequences + [1] == [1];
  }

  lemma StrayFragment(m: Movie, f: Fragment, t: Tally, before: set<Read>)
    requires Entered(BUFFER, f, EMPTY) == Some(([STRAY_TRAF], t)) && f.offset == 0
    requires AllWithin([STRAY_TRAF], f.bytes) && EmptyTime(BUFFER, f.bytes, m, STRAY_TRAF, 0)
    requires Read(STRAY_TFDT, 64, 1) in TrafReads(BUFFER, f.bytes, m, STRAY_TRAF, 0, t)
    ensures FragmentMeetsEmpty(BUFFER, m, f, EMPTY) && Read(STRAY_TFDT, 64, 1) in FragmentReads(BUFFER, m, f, EMPTY, before)
  {
    EmptyTimeRefused(BUFFER, f.bytes, m, STRAY_TRAF, 0, t);
  }

  /** The version byte of the last box is read behind the end of the fragment, and the file is refused: a file whose other
      boxes may be in order, with media data and one video track. */
  lemma StrayRead()
    ensures var m, fs := Movie(map[1 := 0], {1}, [Range(100, 200)]), [Fragment(0, Stray())];
            && Read(STRAY_TFDT, |Stray()|, 1) in FragmentsReads(BUFFER, m, fs, EMPTY, {}) && !InBox(Read(STRAY_TFDT, |Stray()|, 1))
            && FragmentsMeetEmpty(BUFFER, m, fs, EMPTY) && Verdict(BUFFER, m, fs) == Err(Invalid)
  {
    var m := Movie(map[1 := 0], {1}, [Range(100, 200)]);
    var f, fs := Fragment(0, Stray()), [Fragment(0, Stray())];
    StrayContents();
    StrayTraf(m);
    StrayTrafReads(m);
    StrayFragment(m, f, EMPTY.(sequences := [1]), {});
    FragmentInBox(BUFFER, m, f, EMPTY, {});
    FragmentsInBox(BUFFER, m, fs, EMPTY, {});
  }
}
