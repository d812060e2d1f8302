/** The accounting of `inspectFragments` (src/media/content.ts) over all movie fragments of a file. */
module IsoMovie {
  import opened Prelude
  import opened PngChunks
  import opened IsoBoxes
  import opened IsoFragments

  /** A movie fragment: its place in the file and its bytes, box header included. */
  datatype Fragment = Fragment(offset: nat, bytes: Bytes)

  /** Facts about the file that stay fixed: track defaults, video tracks, media data ranges. */
  datatype Movie = Movie(defaults: map<nat, nat>, video: set<nat>, media: seq<Range>)

  /** Running totals, and the runs accepted so far. */
  datatype Tally = Tally(samples: nat, seen: set<nat>, spans: seq<Span>, sequences: seq<nat>)

  const EMPTY: Tally := Tally(0, {}, [], [])

  function Record(m: Movie, t: Tally, span: Span): Tally {
    t.(samples := t.samples + |span.sizes|, spans := t.spans + [span],
       seen := if span.track in m.video then t.seen + {span.track} else t.seen)
  }

  function Prior(t: Tally): int { if t.sequences == [] then -1 else t.sequences[|t.sequences| - 1] }

  // ---------------------------------------------------------------- what is accepted

  predicate AllWithin(boxes: seq<Atom>, d: Bytes) { forall i :: 0 <= i < |boxes| ==> Within(boxes[i], d) }

  /** One run: where the next one may go on, and the tally with its span. */
  function RunFrom(n: Numbers, d: Bytes, m: Movie, run: Atom, track: Track, next: Option<int>,
                   t: Tally): Result<(int, Tally), Rejection>
    requires Within(run, d)
  {
    match SpanOf(n, d, run, track, next, t.samples, m.media)
    case Err(e) => Err(e)
    case Ok(span) => Ok((End(span), Record(m, t, span)))
  }

  function RunsFrom(n: Numbers, d: Bytes, m: Movie, runs: seq<Atom>, track: Track, next: Option<int>, t: Tally):
      Result<Tally, Rejection>
    requires AllWithin(runs, d)
    decreases |runs|
  {
    if runs == [] then Ok(t)
    else match RunFrom(n, d, m, runs[0], track, next, t)
      case Err(e) => Err(e)
      case Ok(turn) => RunsFrom(n, d, m, runs[1..], track, Some(turn.0), turn.1)
  }

  /** The version byte, None when the buffer ends before it. Not checked against the box: the size is looked at later. */
  function VersionOf(d: Bytes, box: Atom): Option<nat> { if box.body < |d| then Some(d[box.body]) else None }

  /** Version 0 or 1 and the size of that version; a byte that is not there compares like version 0. */
  predicate TimeAllowed(version: Option<nat>, size: int) {
    !(version.Some? && version.value > 1) && size == if version == Some(1) then 12 else 8
  }

  /** A decode time box, when there is one, has an allowed version and size. */
  predicate DecodeTimeAllowed(d: Bytes, kids: seq<Atom>) {
    var box := FirstOf(kids, TFDT);
    box.None? || TimeAllowed(VersionOf(d, box.value), Content(box.value))
  }

  function TrackFrom(n: Numbers, d: Bytes, m: Movie, traf: Atom, offset: nat, t: Tally): Result<Tally, Rejection>
    requires Within(traf, d)
  {
    match Children(n, d, traf)
    case Err(e) => Err(e)
    case Ok(kids) =>
      var tfhd := FirstOf(kids, TFHD);
      if tfhd.None? then Err(Invalid)
      else match TrackOf(n, d, tfhd.value, m.defaults, offset)
        case Err(e) => Err(e)
        case Ok(track) =>
          var runs := OfKind(kids, TRUN);
          if !DecodeTimeAllowed(d, kids) || runs == [] then Err(Invalid)
          else RunsFrom(n, d, m, runs, track, None, t)
  }

  function TracksFrom(n: Numbers, d: Bytes, m: Movie, trafs: seq<Atom>, offset: nat, t: Tally): Result<Tally, Rejection>
    requires AllWithin(trafs, d)
    decreases |trafs|
  {
    if trafs == [] then Ok(t)
    else match TrackFrom(n, d, m, trafs[0], offset, t)
      case Err(e) => Err(e)
      case Ok(next) => TracksFrom(n, d, m, trafs[1..], offset, next)
  }

  /** All the bytes of a fragment, as a box. */
  function WholeOf(d: Bytes): Atom { Atom([], 0, |d|, 0) }

  /** The fragment's own boxes: its number and its track fragments. */
  function Contents(n: Numbers, d: Bytes): (r: Result<(nat, seq<Atom>), Rejection>)
    ensures r.Ok? ==> AllWithin(r.value.1, d)
  {
    match Children(n, d, WholeOf(d))
    case Err(e) => Err(e)
    case Ok(top) =>
      if top == [] then Err(Invalid)
      else match Children(n, d, top[0])
        case Err(e) => Err(e)
        case Ok(kids) =>
          var mfhd := FirstOf(kids, MFHD);
          if mfhd.None? || Content(mfhd.value) != 8 || ByteOf(d, mfhd.value, 0) != 0 then Err(Invalid)
          else Ok((WordOf(n, d, mfhd.value, 4), OfKind(kids, TRAF)))
  }

  function FragmentFrom(n: Numbers, m: Movie, f: Fragment, t: Tally): Result<Tally, Rejection> {
    match Contents(n, f.bytes)
    case Err(e) => Err(e)
    case Ok((sequence, trafs)) =>
      if sequence <= Prior(t) || trafs == [] then Err(Invalid)
      else TracksFrom(n, f.bytes, m, trafs, f.offset, t.(sequences := t.sequences + [sequence]))
  }

  function FragmentsFrom(n: Numbers, m: Movie, fs: seq<Fragment>, t: Tally): Result<Tally, Rejection>
    decreases |fs|
  {
    if fs == [] then Ok(t)
    else match FragmentFrom(n, m, fs[0], t)
      case Err(e) => Err(e)
      case Ok(next) => FragmentsFrom(n, m, fs[1..], next)
  }

  /** Every video track must have had a run. */
  function Verdict(n: Numbers, m: Movie, fs: seq<Fragment>): Result<Tally, Rejection> {
    match FragmentsFrom(n, m, fs, EMPTY)
    case Err(e) => Err(e)
    case Ok(t) => if m.video <= t.seen then Ok(t) else Err(Invalid)
  }

  /** A usable track default: track number and sample size. */
  function DefaultOf(n: Numbers, moov: Bytes, box: Atom): Option<(nat, nat)>
    requires Within(box, moov)
  {
    if Content(box) != 24 || ByteOf(moov, box, 0) != 0 || WordOf(n, moov, box, 4) == 0 then None
    else Some((WordOf(n, moov, box, 4), WordOf(n, moov, box, 16)))
  }

  /** The default sample size of every track, as the boxes are met; no track has two. */
  function DefaultsFrom(n: Numbers, moov: Bytes, boxes: seq<Atom>, defaults: map<nat, nat>): Result<map<nat, nat>, Rejection>
    requires AllWithin(boxes, moov)
    decreases |boxes|
  {
    if boxes == [] then Ok(defaults)
    else match DefaultOf(n, moov, boxes[0])
      case None => Err(Invalid)
      case Some((id, size)) => if id in defaults then Err(Invalid) else DefaultsFrom(n, moov, boxes[1..], defaults[id := size])
  }

  /** The `trex` boxes behind the movie box. */
  function DefaultBoxes(n: Numbers, moov: Bytes, root: Atom): (r: Result<seq<Atom>, Rejection>)
    requires Within(root, moov)
    ensures r.Ok? ==> AllWithin(r.value, moov)
  {
    match Children(n, moov, root)
    case Err(e) => Err(e)
    case Ok(kids) =>
      var mvex := FirstOf(kids, MVEX);
      if mvex.None? then Err(Invalid)
      else match Children(n, moov, mvex.value)
        case Err(e) => Err(e)
        case Ok(boxes) => Ok(OfKind(boxes, TREX))
  }

  /** `inspectFragments`: defaults from the movie box, then all fragments. */
  function Inspection(n: Numbers, moov: Bytes, root: Atom, fs: seq<Fragment>, media: seq<Range>,
                      video: set<nat>): Result<Tally, Rejection>
    requires Within(root, moov)
  {
    match DefaultBoxes(n, moov, root)
    case Err(e) => Err(e)
    case Ok(boxes) =>
      match DefaultsFrom(n, moov, boxes, map[])
      case Err(e) => Err(e)
      case Ok(defaults) => Verdict(n, Movie(defaults, video, media), fs)
  }

  // ---------------------------------------------------------------- where it reads

  /** The walk over the boxes inside a box. */
  function ChildrenReads(n: Numbers, d: Bytes, a: Atom): set<Read>
    requires Within(a, d)
  {
    AtomReads(n, d, a.body, a, 0, {})
  }

  /** The runs gone through, behind the reads before. */
  function RunsReads(n: Numbers, d: Bytes, m: Movie, runs: seq<Atom>, track: Track, next: Option<int>, t: Tally,
                     before: set<Read>): set<Read>
    requires AllWithin(runs, d)
    decreases |runs|
  {
    if runs == [] then before
    else
      var trace := before + RunReads(n, d, runs[0], track, next, t.samples);
      match RunFrom(n, d, m, runs[0], track, next, t)
      case Err(_) => trace
      case Ok(turn) => RunsReads(n, d, m, runs[1..], track, Some(turn.0), turn.1, trace)
  }

  /** The version of the decode time box, read before its size is looked at. */
  function TimeReads(kids: seq<Atom>): set<Read> {
    var box := FirstOf(kids, TFDT);
    if box.None? then {} else {Read(box.value, box.value.body, 1)}
  }

  /** The boxes of a track fragment whose header was accepted; None when it was not. */
  function Headed(n: Numbers, d: Bytes, m: Movie, traf: Atom, offset: nat): (r: Option<(seq<Atom>, Track)>)
    requires Within(traf, d)
    ensures r.Some? ==> AllWithin(r.value.0, d)
  {
    match Children(n, d, traf)
    case Err(_) => None
    case Ok(kids) =>
      var tfhd := FirstOf(kids, TFHD);
      if tfhd.None? then None
      else match TrackOf(n, d, tfhd.value, m.defaults, offset) case Err(_) => None case Ok(track) => Some((kids, track))
  }

  /** Up to the header of a track fragment. */
  function HeadReads(n: Numbers, d: Bytes, m: Movie, traf: Atom): set<Read>
    requires Within(traf, d)
  {
    ChildrenReads(n, d, traf) +
    match Children(n, d, traf)
    case Err(_) => {}
    case Ok(kids) =>
      var tfhd := FirstOf(kids, TFHD);
      if tfhd.None? then {} else HeaderReads(n, d, tfhd.value, m.defaults)
  }

  function TrafReads(n: Numbers, d: Bytes, m: Movie, traf: Atom, offset: nat, t: Tally): set<Read>
    requires Within(traf, d)
  {
    HeadReads(n, d, m, traf) +
    match Headed(n, d, m, traf, offset)
    case None => {}
    case Some((kids, track)) =>
      TimeReads(kids) + if DecodeTimeAllowed(d, kids) then RunsReads(n, d, m, OfKind(kids, TRUN), track, None, t, {}) else {}
  }

  /** The track fragments gone through, behind the reads before. */
  function TracksReads(n: Numbers, d: Bytes, m: Movie, trafs: seq<Atom>, offset: nat, t: Tally, before: set<Read>): set<Read>
    requires AllWithin(trafs, d)
    decreases |trafs|
  {
    if trafs == [] then before
    else
      var trace := before + TrafReads(n, d, m, trafs[0], offset, t);
      match TrackFrom(n, d, m, trafs[0], offset, t)
      case Err(_) => trace
      case Ok(next) => TracksReads(n, d, m, trafs[1..], offset, next, trace)
  }

  /** The fragment number: version and word. */
  function NumberReads(d: Bytes, mfhd: Option<Atom>): set<Read>
    requires mfhd.Some? ==> Within(mfhd.value, d)
  {
    if mfhd.None? || Content(mfhd.value) != 8 then {}
    else
      var box := mfhd.value;
      {Read(box, box.body, 1)} + if ByteOf(d, box, 0) == 0 then {Read(box, box.body + 4, 4)} else {}
  }

  /** The fragment up to its number: the walk over its bytes, the walk over its box, the number. */
  function ContentsReads(n: Numbers, d: Bytes): set<Read> {
    ChildrenReads(n, d, WholeOf(d)) +
    match Children(n, d, WholeOf(d))
    case Err(_) => {}
    case Ok(top) => if top == [] then {} else InsideReads(n, d, top[0])
  }

  function InsideReads(n: Numbers, d: Bytes, top: Atom): set<Read>
    requires Within(top, d)
  {
    ChildrenReads(n, d, top) + match Children(n, d, top) case Err(_) => {} case Ok(kids) => NumberReads(d, FirstOf(kids, MFHD))
  }

  /** The track fragments that are gone through, and with what tally; None when the fragment is refused before. */
  function Entered(n: Numbers, f: Fragment, t: Tally): (r: Option<(seq<Atom>, Tally)>)
    ensures r.Some? ==> AllWithin(r.value.0, f.bytes)
  {
    match Contents(n, f.bytes)
    case Err(_) => None
    case Ok((sequence, trafs)) =>
      if sequence <= Prior(t) || trafs == [] then None else Some((trafs, t.(sequences := t.sequences + [sequence])))
  }

  function FragmentReads(n: Numbers, m: Movie, f: Fragment, t: Tally, before: set<Read>): set<Read> {
    var trace := before + ContentsReads(n, f.bytes);
    match Entered(n, f, t) case None => trace case Some((trafs, u)) => TracksReads(n, f.bytes, m, trafs, f.offset, u, trace)
  }

  /** The fragments gone through, behind the reads before. */
  function FragmentsReads(n: Numbers, m: Movie, fs: seq<Fragment>, t: Tally, before: set<Read>): set<Read>
    decreases |fs|
  {
    if fs == [] then before
    else
      var trace := FragmentReads(n, m, fs[0], t, before);
      match FragmentFrom(n, m, fs[0], t) case Err(_) => trace case Ok(next) => FragmentsReads(n, m, fs[1..], next, trace)
  }

  /** A track default, up to what it is refused for. */
  function DefaultReads(n: Numbers, moov: Bytes, box: Atom, defaults: map<nat, nat>): set<Read>
    requires Within(box, moov)
  {
    if Content(box) != 24 then {}
    else if ByteOf(moov, box, 0) != 0 then {Read(box, box.body, 1)}
    else
      {Read(box, box.body, 1), Read(box, box.body + 4, 4)} +
      if WordOf(n, moov, box, 4) == 0 || WordOf(n, moov, box, 4) in defaults then {} else {Read(box, box.body + 16, 4)}
  }

  /** The `trex` boxes, up to the first that is refused, behind the reads before. */
  function DefaultsReads(n: Numbers, moov: Bytes, boxes: seq<Atom>, defaults: map<nat, nat>, before: set<Read>): set<Read>
    requires AllWithin(boxes, moov)
    decreases |boxes|
  {
    if boxes == [] then before
    else
      var trace := before + DefaultReads(n, moov, boxes[0], defaults);
      match DefaultOf(n, moov, boxes[0])
      case None => trace
      case Some((id, size)) => if id in defaults then trace else DefaultsReads(n, moov, boxes[1..], defaults[id := size], trace)
  }

  /** The walks down to the track defaults. */
  function DefaultBoxesReads(n: Numbers, moov: Bytes, root: Atom): set<Read>
    requires Within(root, moov)
  {
    ChildrenReads(n, moov, root) +
    match Children(n, moov, root)
    case Err(_) => {}
    case Ok(kids) => var mvex := FirstOf(kids, MVEX); if mvex.None? then {} else ChildrenReads(n, moov, mvex.value)
  }

  /** In the movie box: the walks, and the defaults. */
  function MovieReads(n: Numbers, moov: Bytes, root: Atom): set<Read>
    requires Within(root, moov)
  {
    DefaultBoxesReads(n, moov, root) +
    match DefaultBoxes(n, moov, root) case Err(_) => {} case Ok(boxes) => DefaultsReads(n, moov, boxes, map[], {})
  }

  /** The track defaults the fragments are judged with; None when the movie box is refused. */
  function Defaults(n: Numbers, moov: Bytes, root: Atom): Option<map<nat, nat>>
    requires Within(root, moov)
  {
    match DefaultBoxes(n, moov, root)
    case Err(_) => None
    case Ok(boxes) => match DefaultsFrom(n, moov, boxes, map[]) case Err(_) => None case Ok(defaults) => Some(defaults)
  }

  /** Every read of the inspection. */
  function Reads(n: Numbers, moov: Bytes, root: Atom, fs: seq<Fragment>, media: seq<Range>, video: set<nat>): set<Read>
    requires Within(root, moov)
  {
    MovieReads(n, moov, root) +
    match Defaults(n, moov, root) case None => {} case Some(defaults) => FragmentsReads(n, Movie(defaults, video, media), fs, EMPTY, {})
  }

  // ---------------------------------------------------------------- the loops

  method ReadChildren(n: Numbers, d: Bytes, a: Atom) returns (r: Result<seq<Atom>, Rejection>, ghost trace: set<Read>)
    requires Within(a, d)
    ensures r == Children(n, d, a) && trace == ChildrenReads(n, d, a)
  {
    r, trace := Atoms(n, d, a.body, a.end, a);
  }

  method InspectRun(n: Numbers, d: Bytes, m: Movie, run: Atom, track: Track, next: Option<int>, t: Tally)
      returns (r: Result<(int, Tally), Rejection>, ghost trace: set<Read>)
    requires Within(run, d)
    ensures r == RunFrom(n, d, m, run, track, next, t) && trace == RunReads(n, d, run, track, next, t.samples)
  {
    var span, read := ReadRun(n, d, run, track, next, t.samples, m.media);
    trace := read;
    if span.Err? {
      return Err(span.error), trace;
    }
    r := Ok((span.value.start + Sum(span.value.sizes), Record(m, t, span.value)));
  }

  lemma RunsTurn(n: Numbers, d: Bytes, m: Movie, runs: seq<Atom>, i: nat, track: Track, next: Option<int>, t: Tally,
                 turn: Result<(int, Tally), Rejection>, before: set<Read>)
    requires AllWithin(runs, d) && i < |runs| && turn == RunFrom(n, d, m, runs[i], track, next, t)
    ensures AllWithin(runs[i..], d) && AllWithin(runs[i + 1..], d)
    ensures RunsFrom(n, d, m, runs[i..], track, next, t) ==
            if turn.Err? then Err(turn.error) else RunsFrom(n, d, m, runs[i + 1..], track, Some(turn.value.0), turn.value.1)
    ensures var trace := before + RunReads(n, d, runs[i], track, next, t.samples);
            RunsReads(n, d, m, runs[i..], track, next, t, before) ==
            if turn.Err? then trace else RunsReads(n, d, m, runs[i + 1..], track, Some(turn.value.0), turn.value.1, trace)
  {
    var rest := runs[i..];
    assert rest[0] == runs[i] && rest[1..] == runs[i + 1..];
  }

  method InspectRuns(n: Numbers, d: Bytes, m: Movie, runs: seq<Atom>, track: Track, start: Tally)
      returns (r: Result<Tally, Rejection>, ghost trace: set<Read>)
    requires AllWithin(runs, d)
    ensures r == RunsFrom(n, d, m, runs, track, None, start) && trace == RunsReads(n, d, m, runs, track, None, start, {})
  {
    var t, next: Option<int>, i := start, None, 0;
    trace := {};
    assert runs[i..] == runs;
    while i < |runs|
      invariant 0 <= i <= |runs| && AllWithin(runs[i..], d)
      invariant RunsFrom(n, d, m, runs, track, None, start) == RunsFrom(n, d, m, runs[i..], track, next, t)
      invariant RunsReads(n, d, m, runs, track, None, start, {}) == RunsReads(n, d, m, runs[i..], track, next, t, trace)
    {
      var turn, read := InspectRun(n, d, m, runs[i], track, next, t);
      RunsTurn(n, d, m, runs, i, track, next, t, turn, trace);
      trace := trace + read;
      if turn.Err? {
        return Err(turn.error), trace;
      }
      next, t, i := Some(turn.value.0), turn.value.1, i + 1;
    }
    r := Ok(t);
  }

  /** The version byte, read wherever the box says it begins. */
  method ReadVersion(d: Bytes, box: Atom) returns (v: Option<nat>, ghost trace: set<Read>)
    ensures v == VersionOf(d, box) && trace == {Read(box, box.body, 1)}
  {
    v, trace := if box.body < |d| then Some(d[box.body]) else None, {Read(box, box.body, 1)};
  }

  /** The decode time box, when there is one. */
  method InspectTime(d: Bytes, kids: seq<Atom>) returns (ok: bool, ghost trace: set<Read>)
    ensures ok == DecodeTimeAllowed(d, kids) && trace == TimeReads(kids)
  {
    var tfdt := FirstOf(kids, TFDT);
    if tfdt.None? {
      return true, {};
    }
    var version, read := ReadVersion(d, tfdt.value);
    trace := read;
    ok := !(version.Some? && version.value > 1) && Content(tfdt.value) == if version == Some(1) then 12 else 8;
  }

  /** A track fragment up to its header. */
  method InspectHead(n: Numbers, d: Bytes, m: Movie, traf: Atom, offset: nat)
      returns (r: Result<(seq<Atom>, Track), Rejection>, ghost trace: set<Read>)
    requires Within(traf, d)
    ensures r.Ok? <==> Headed(n, d, m, traf, offset).Some?
    ensures r.Ok? ==> Some(r.value) == Headed(n, d, m, traf, offset)
    ensures r.Err? ==> forall t :: TrackFrom(n, d, m, traf, offset, t) == Err(r.error)
    ensures trace == HeadReads(n, d, m, traf)
  {
    var kids, walked := ReadChildren(n, d, traf);
    if kids.Err? {
      return Err(kids.error), walked;
    }
    var tfhd := FirstOf(kids.value, TFHD);
    if tfhd.None? {
      return Err(Invalid), walked;
    }
    var track, read := ReadTrack(n, d, tfhd.value, m.defaults, offset);
    trace := walked + read;
    r := if track.Err? then Err(track.error) else Ok((kids.value, track.value));
  }

  method InspectTrack(n: Numbers, d: Bytes, m: Movie, traf: Atom, offset: nat, t: Tally)
      returns (r: Result<Tally, Rejection>, ghost trace: set<Read>)
    requires Within(traf, d)
    ensures r == TrackFrom(n, d, m, traf, offset, t) && trace == TrafReads(n, d, m, traf, offset, t)
  {
    var head, first := InspectHead(n, d, m, traf, offset);
    if head.Err? {
      return Err(head.error), first;
    }
    var (kids, track) := head.value;
    var allowed, second := InspectTime(d, kids);
    trace := first + second;
    if !allowed {
      return Err(Invalid), trace;
    }
    var runs := OfKind(kids, TRUN);
    if runs == [] {
      return Err(Invalid), trace;
    }
    var tally, third := InspectRuns(n, d, m, runs, track, t);
    r, trace := tally, trace + third;
  }

  lemma TracksTurn(n: Numbers, d: Bytes, m: Movie, trafs: seq<Atom>, i: nat, offset: nat, t: Tally, before: set<Read>)
    requires AllWithin(trafs, d) && i < |trafs|
    ensures AllWithin(trafs[i..], d) && AllWithin(trafs[i + 1..], d)
    ensures var next := TrackFrom(n, d, m, trafs[i], offset, t);
            && TracksFrom(n, d, m, trafs[i..], offset, t) ==
               (if next.Err? then next else TracksFrom(n, d, m, trafs[i + 1..], offset, next.value))
            && var trace := before + TrafReads(n, d, m, trafs[i], offset, t);
               TracksReads(n, d, m, trafs[i..], offset, t, before) ==
               if next.Err? then trace else TracksReads(n, d, m, trafs[i + 1..], offset, next.value, trace)
  {
    var rest := trafs[i..];
    assert rest[0] == trafs[i] && rest[1..] == trafs[i + 1..];
  }

  method InspectTracks(n: Numbers, d: Bytes, m: Movie, trafs: seq<Atom>, offset: nat, start: Tally, ghost before: set<Read>)
      returns (r: Result<Tally, Rejection>, ghost trace: set<Read>)
    requires AllWithin(trafs, d)
    ensures r == TracksFrom(n, d, m, trafs, offset, start) && trace == TracksReads(n, d, m, trafs, offset, start, before)
  {
    var t, i := start, 0;
    trace := before;
    assert trafs[i..] == trafs;
    while i < |trafs|
      invariant 0 <= i <= |trafs| && AllWithin(trafs[i..], d)
      invariant TracksFrom(n, d, m, trafs, offset, start) == TracksFrom(n, d, m, trafs[i..], offset, t)
      invariant TracksReads(n, d, m, trafs, offset, start, before) == TracksReads(n, d, m, trafs[i..], offset, t, trace)
    {
      TracksTurn(n, d, m, trafs, i, offset, t, trace);
      var next, read := InspectTrack(n, d, m, trafs[i], offset, t);
      trace := trace + read;
      if next.Err? {
        return next, trace;
      }
      t, i := next.value, i + 1;
    }
    r := Ok(t);
  }

  /** The number box. */
  method ReadNumber(n: Numbers, d: Bytes, mfhd: Option<Atom>) returns (r: Option<nat>, ghost trace: set<Read>)
    requires mfhd.Some? ==> Within(mfhd.value, d)
    ensures r.None? <==> mfhd.None? || Content(mfhd.value) != 8 || ByteOf(d, mfhd.value, 0) != 0
    ensures r.Some? ==> r.value == WordOf(n, d, mfhd.value, 4)
    ensures trace == NumberReads(d, mfhd)
  {
    trace := {};
    if mfhd.None? || Content(mfhd.value) != 8 {
      return None, trace;
    }
    var version, first := ReadByte(d, mfhd.value, mfhd.value.body);
    if version != 0 {
      return None, first;
    }
    var number, second := ReadU32(n, d, mfhd.value, mfhd.value.body + 4);
    r, trace := Some(number), first + second;
  }

  method ReadContents(n: Numbers, d: Bytes) returns (r: Result<(nat, seq<Atom>), Rejection>, ghost trace: set<Read>)
    ensures r == Contents(n, d) && trace == ContentsReads(n, d)
  {
    var top, first := ReadChildren(n, d, WholeOf(d));
    if top.Err? {
      return Err(top.error), first;
    }
    if top.value == [] {
      return Err(Invalid), first;
    }
    var kids, second := ReadChildren(n, d, top.value[0]);
    trace := first + second;
    if kids.Err? {
      return Err(kids.error), trace;
    }
    var sequence, third := ReadNumber(n, d, FirstOf(kids.value, MFHD));
    trace := trace + third;
    r := if sequence.None? then Err(Invalid) else Ok((sequence.value, OfKind(kids.value, TRAF)));
  }

  method InspectFragment(n: Numbers, m: Movie, f: Fragment, t: Tally, ghost before: set<Read>)
      returns (r: Result<Tally, Rejection>, ghost trace: set<Read>)
    ensures r == FragmentFrom(n, m, f, t) && trace == FragmentReads(n, m, f, t, before)
  {
    var contents, read := ReadContents(n, f.bytes);
    trace := before + read;
    if contents.Err? {
      return Err(contents.error), trace;
    }
    var (sequence, trafs) := contents.value;
    if sequence <= Prior(t) || trafs == [] {
      return Err(Invalid), trace;
    }
    r, trace := InspectTracks(n, f.bytes, m, trafs, f.offset, t.(sequences := t.sequences + [sequence]), trace);
  }

  method FragmentLoop(n: Numbers, m: Movie, fs: seq<Fragment>) returns (r: Result<Tally, Rejection>, ghost trace: set<Read>)
    ensures r == Verdict(n, m, fs) && trace == FragmentsReads(n, m, fs, EMPTY, {})
  {
    var t, k := EMPTY, 0;
    trace := {};
    while k < |fs|
      invariant 0 <= k <= |fs| && FragmentsFrom(n, m, fs, EMPTY) == FragmentsFrom(n, m, fs[k..], t)
      invariant FragmentsReads(n, m, fs, EMPTY, {}) == FragmentsReads(n, m, fs[k..], t, trace)
    {
      assert fs[k..][0] == fs[k] && fs[k..][1..] == fs[k + 1..];
      var next, read := InspectFragment(n, m, fs[k], t, trace);
      trace := read;
      if next.Err? {
        return next, trace;
      }
      t, k := next.value, k + 1;
    }
    r := if m.video <= t.seen then Ok(t) else Err(Invalid);
  }

  /** One `trex` box. */
  method ReadDefault(n: Numbers, moov: Bytes, box: Atom, defaults: map<nat, nat>)
      returns (r: Option<(nat, nat)>, ghost trace: set<Read>)
    requires Within(box, moov)
    ensures r == (match DefaultOf(n, moov, box) case None => None case Some(x) => if x.0 in defaults then None else Some(x))
    ensures trace == DefaultReads(n, moov, box, defaults)
  {
    trace := {};
    if Content(box) != 24 {
      return None, trace;
    }
    var version, first := ReadByte(moov, box, box.body);
    if version != 0 {
      return None, first;
    }
    var id, second := ReadU32(n, moov, box, box.body + 4);
    trace := first + second;
    if id == 0 || id in defaults {
      return None, trace;
    }
    var size, third := ReadU32(n, moov, box, box.body + 16);
    r, trace := Some((id, size)), trace + third;
  }

  /** The `trex` loop. */
  method ReadDefaults(n: Numbers, moov: Bytes, boxes: seq<Atom>) returns (r: Result<map<nat, nat>, Rejection>,
                      ghost trace: set<Read>)
    requires AllWithin(boxes, moov)
    ensures r == DefaultsFrom(n, moov, boxes, map[]) && trace == DefaultsReads(n, moov, boxes, map[], {})
  {
    var defaults: map<nat, nat>, i := map[], 0;
    trace := {};
    assert boxes[i..] == boxes;
    while i < |boxes|
      invariant 0 <= i <= |boxes| && AllWithin(boxes[i..], moov)
      invariant DefaultsFrom(n, moov, boxes, map[]) == DefaultsFrom(n, moov, boxes[i..], defaults)
      invariant DefaultsReads(n, moov, boxes, map[], {}) == DefaultsReads(n, moov, boxes[i..], defaults, trace)
    {
      ghost var rest := boxes[i..];
      assert rest[0] == boxes[i] && rest[1..] == boxes[i + 1..];
      var pair, read := ReadDefault(n, moov, boxes[i], defaults);
      trace := trace + read;
      if pair.None? {
        return Err(Invalid), trace;
      }
      defaults, i := defaults[pair.value.0 := pair.value.1], i + 1;
    }
    r := Ok(defaults);
  }

  method ReadDefaultBoxes(n: Numbers, moov: Bytes, root: Atom) returns (r: Result<seq<Atom>, Rejection>,
                          ghost trace: set<Read>)
    requires Within(root, moov)
    ensures r == DefaultBoxes(n, moov, root) && trace == DefaultBoxesReads(n, moov, root)
  {
    var kids, first := ReadChildren(n, moov, root);
    if kids.Err? {
      return kids, first;
    }
    var mvex := FirstOf(kids.value, MVEX);
    if mvex.None? {
      return Err(Invalid), first;
    }
    var boxes, second := ReadChildren(n, moov, mvex.value);
    trace := first + second;
    r := if boxes.Err? then boxes else Ok(OfKind(boxes.value, TREX));
  }

  method InspectFragments(n: Numbers, moov: Bytes, root: Atom, fs: seq<Fragment>, media: seq<Range>, video: set<nat>)
      returns (r: Result<Tally, Rejection>, ghost trace: set<Read>)
    requires Within(root, moov)
    ensures r == Inspection(n, moov, root, fs, media, video) && trace == Reads(n, moov, root, fs, media, video)
  {
    var boxes, first := ReadDefaultBoxes(n, moov, root);
    if boxes.Err? {
      return Err(boxes.error), first;
    }
    var defaults, second := ReadDefaults(n, moov, boxes.value);
    trace := first + second;
    if defaults.Err? {
      return Err(defaults.error), trace;
    }
    var tally, third := FragmentLoop(n, Movie(defaults.value, video, media), fs);
    r, trace := tally, trace + third;
  }

  // ---------------------------------------------------------------- the track defaults

  /** The boxes read as these pairs. */
  predicate ReadAs(n: Numbers, moov: Bytes, boxes: seq<Atom>, pairs: seq<(nat, nat)>)
    requires AllWithin(boxes, moov)
  {
    |pairs| == |boxes| && forall i :: 0 <= i < |boxes| ==> DefaultOf(n, moov, boxes[i]) == Some(pairs[i])
  }

  predicate DistinctTracks(pairs: seq<(nat, nat)>) { forall i, j :: 0 <= i < j < |pairs| ==> pairs[i].0 != pairs[j].0 }

  /** The map that holds exactly these pairs. */
  predicate Tabulates(defaults: map<nat, nat>, pairs: seq<(nat, nat)>) {
    && (forall i :: 0 <= i < |pairs| ==> pairs[i].0 in defaults && defaults[pairs[i].0] == pairs[i].1)
    && (forall id :: id in defaults ==> exists i :: 0 <= i < |pairs| && pairs[i].0 == id)
  }

  lemma TabulatesNext(defaults: map<nat, nat>, pairs: seq<(nat, nat)>, id: nat, size: nat)
    requires Tabulates(defaults, pairs) && DistinctTracks(pairs) && id !in defaults
    ensures Tabulates(defaults[id := size], pairs + [(id, size)]) && DistinctTracks(pairs + [(id, size)])
  {
    var more := pairs + [(id, size)];
    assert more[|pairs|] == (id, size);
    var next := defaults[id := size];
    forall other | other in next ensures exists i :: 0 <= i < |more| && more[i].0 == other {
      if other != id {
        assert other in defaults;
        var i :| 0 <= i < |pairs| && pairs[i].0 == other;
        assert more[i].0 == other;
      }
    }
  }

  lemma RepeatedTrack(n: Numbers, moov: Bytes, boxes: seq<Atom>, pairs: seq<(nat, nat)>, defaults: map<nat, nat>, i: nat)
    requires AllWithin(boxes, moov) && i < |boxes| && |pairs| == i && Tabulates(defaults, pairs)
    requires forall k :: 0 <= k < i ==> DefaultOf(n, moov, boxes[k]) == Some(pairs[k])
    requires DefaultOf(n, moov, boxes[i]).Some? ==> DefaultOf(n, moov, boxes[i]).value.0 in defaults
    ensures forall others :: ReadAs(n, moov, boxes, others) ==> !DistinctTracks(others)
  {
    forall others: seq<(nat, nat)> | ReadAs(n, moov, boxes, others) ensures !DistinctTracks(others) {
      var id := others[i].0;
      assert DefaultOf(n, moov, boxes[i]) == Some(others[i]);
      var k :| 0 <= k < |pairs| && pairs[k].0 == id;
      assert others[k].0 == others[i].0;
    }
  }

  /** The defaults are those of the boxes, exactly when every box is usable and no track has two. */
  lemma {:induction false} DefaultsFold(n: Numbers, moov: Bytes, boxes: seq<Atom>, i: nat, pairs: seq<(nat, nat)>,
                                        defaults: map<nat, nat>)
      returns (all: seq<(nat, nat)>)
    requires AllWithin(boxes, moov) && i <= |boxes| && |pairs| == i
    requires forall k :: 0 <= k < i ==> DefaultOf(n, moov, boxes[k]) == Some(pairs[k])
    requires Tabulates(defaults, pairs) && DistinctTracks(pairs)
    ensures AllWithin(boxes[i..], moov)
    ensures match DefaultsFrom(n, moov, boxes[i..], defaults)
            case Ok(table) => ReadAs(n, moov, boxes, all) && DistinctTracks(all) && Tabulates(table, all)
            case Err(e) => e == Invalid && forall others :: ReadAs(n, moov, boxes, others) ==> !DistinctTracks(others)
    decreases |boxes| - i
  {
    var rest := boxes[i..];
    if i == |boxes| {
      all := pairs;
    } else {
      assert rest[0] == boxes[i] && rest[1..] == boxes[i + 1..];
      var pair := DefaultOf(n, moov, boxes[i]);
      if pair.None? || pair.value.0 in defaults {
        RepeatedTrack(n, moov, boxes, pairs, defaults, i);
        all := [];
      } else {
        TabulatesNext(defaults, pairs, pair.value.0, pair.value.1);
        all := DefaultsFold(n, moov, boxes, i + 1, pairs + [pair.value], defaults[pair.value.0 := pair.value.1]);
      }
    }
  }

  lemma DefaultsExact(n: Numbers, moov: Bytes, boxes: seq<Atom>)
    requires AllWithin(boxes, moov)
    ensures match DefaultsFrom(n, moov, boxes, map[])
            case Ok(table) => exists pairs :: ReadAs(n, moov, boxes, pairs) && DistinctTracks(pairs) && Tabulates(table, pairs)
            case Err(e) => e == Invalid && forall pairs :: ReadAs(n, moov, boxes, pairs) ==> !DistinctTracks(pairs)
  {
    var pairs := DefaultsFold(n, moov, boxes, 0, [], map[]);
    assert boxes[0..] == boxes;
  }

  // ---------------------------------------------------------------- what acceptance means

  function SampleTotal(spans: seq<Span>): nat {
    if spans == [] then 0 else SampleTotal(spans[..|spans| - 1]) + |spans[|spans| - 1].sizes|
  }

  /** A run of samples, none of them empty, inside one media data box. */
  predicate SpanAllowed(span: Span, media: seq<Range>) {
    span.sizes != [] && 0 !in span.sizes && InMedia(span, media)
  }

  predicate Increasing(xs: seq<nat>) { forall i, j :: 0 <= i < j < |xs| ==> xs[i] < xs[j] }

  predicate HasSpan(spans: seq<Span>, track: nat) { exists i :: 0 <= i < |spans| && spans[i].track == track }

  /** What holds of the totals throughout. */
  ghost predicate Sound(m: Movie, t: Tally) {
    && (forall i :: 0 <= i < |t.spans| ==> SpanAllowed(t.spans[i], m.media) && t.spans[i].track in m.defaults)
    && t.samples == SampleTotal(t.spans) <= MAX_SAMPLES
    && (forall id :: id in t.seen <==> id in m.video && HasSpan(t.spans, id))
    && Increasing(t.sequences)
  }

  /** Nothing recorded is ever lost. */
  predicate Grows(t: Tally, u: Tally) {
    |t.spans| <= |u.spans| && u.spans[..|t.spans|] == t.spans
  }

  lemma RecordKeeps(m: Movie, t: Tally, span: Span)
    requires Sound(m, t) && SpanAllowed(span, m.media) && span.track in m.defaults && t.samples + |span.sizes| <= MAX_SAMPLES
    ensures Sound(m, Record(m, t, span)) && Grows(t, Record(m, t, span))
  {
    var u := Record(m, t, span);
    assert u.spans[..|t.spans|] == t.spans && u.spans[|t.spans|] == span;
    forall id ensures HasSpan(u.spans, id) <==> HasSpan(t.spans, id) || id == span.track {
      if HasSpan(t.spans, id) {
        var i :| 0 <= i < |t.spans| && t.spans[i].track == id;
        assert u.spans[i].track == id;
      }
    }
  }

  lemma {:induction false} RunsKeep(n: Numbers, d: Bytes, m: Movie, runs: seq<Atom>, track: Track, next: Option<int>,
                                    t: Tally)
    requires AllWithin(runs, d) && Sound(m, t) && track.id in m.defaults && RunsFrom(n, d, m, runs, track, next, t).Ok?
    ensures var u := RunsFrom(n, d, m, runs, track, next, t).value;
            Sound(m, u) && Grows(t, u) && u.sequences == t.sequences
    ensures runs != [] ==> HasSpan(RunsFrom(n, d, m, runs, track, next, t).value.spans, track.id)
    decreases |runs|
  {
    if runs != [] {
      var span := SpanOf(n, d, runs[0], track, next, t.samples, m.media).value;
      var v := Record(m, t, span);
      RecordKeeps(m, t, span);
      RunsKeep(n, d, m, runs[1..], track, Some(End(span)), v);
      var u := RunsFrom(n, d, m, runs[1..], track, Some(End(span)), v).value;
      assert u.spans[|t.spans|] == v.spans[|t.spans|] == span;
      assert u.spans[..|t.spans|] == v.spans[..|t.spans|];
    }
  }

  lemma TrackKeeps(n: Numbers, d: Bytes, m: Movie, traf: Atom, offset: nat, t: Tally)
    requires Within(traf, d) && Sound(m, t) && TrackFrom(n, d, m, traf, offset, t).Ok?
    ensures var u := TrackFrom(n, d, m, traf, offset, t).value;
            Sound(m, u) && Grows(t, u) && u.sequences == t.sequences
  {
    var kids := Children(n, d, traf).value;
    var track := TrackOf(n, d, FirstOf(kids, TFHD).value, m.defaults, offset).value;
    RunsKeep(n, d, m, OfKind(kids, TRUN), track, None, t);
  }

  lemma {:induction false} TracksKeep(n: Numbers, d: Bytes, m: Movie, trafs: seq<Atom>, offset: nat, t: Tally)
    requires AllWithin(trafs, d) && Sound(m, t) && TracksFrom(n, d, m, trafs, offset, t).Ok?
    ensures var u := TracksFrom(n, d, m, trafs, offset, t).value;
            Sound(m, u) && Grows(t, u) && u.sequences == t.sequences
    decreases |trafs|
  {
    if trafs != [] {
      TrackKeeps(n, d, m, trafs[0], offset, t);
      var v := TrackFrom(n, d, m, trafs[0], offset, t).value;
      TracksKeep(n, d, m, trafs[1..], offset, v);
      GrowsOn(t, v, TracksFrom(n, d, m, trafs[1..], offset, v).value);
    }
  }

  lemma GrowsOn(t: Tally, v: Tally, u: Tally)
    requires Grows(t, v) && Grows(v, u)
    ensures Grows(t, u)
  {
    assert u.spans[..|t.spans|] == v.spans[..|t.spans|];
  }

  lemma NumberedKeeps(m: Movie, t: Tally, sequence: nat)
    requires Sound(m, t) && sequence > Prior(t)
    ensures Sound(m, t.(sequences := t.sequences + [sequence]))
  {
    IncreasingNext(t.sequences, sequence);
  }

  lemma FragmentKeeps(n: Numbers, m: Movie, f: Fragment, t: Tally)
    requires Sound(m, t) && FragmentFrom(n, m, f, t).Ok?
    ensures Sound(m, FragmentFrom(n, m, f, t).value)
    ensures |FragmentFrom(n, m, f, t).value.sequences| == |t.sequences| + 1
  {
    var (sequence, trafs) := Contents(n, f.bytes).value;
    NumberedKeeps(m, t, sequence);
    TracksKeep(n, f.bytes, m, trafs, f.offset, t.(sequences := t.sequences + [sequence]));
  }

  lemma IncreasingNext(xs: seq<nat>, x: nat)
    requires Increasing(xs) && (xs != [] ==> xs[|xs| - 1] < x)
    ensures Increasing(xs + [x])
  {
  }

  lemma {:induction false} FragmentsKeep(n: Numbers, m: Movie, fs: seq<Fragment>, t: Tally)
    requires Sound(m, t) && FragmentsFrom(n, m, fs, t).Ok?
    ensures Sound(m, FragmentsFrom(n, m, fs, t).value)
    ensures |FragmentsFrom(n, m, fs, t).value.sequences| == |t.sequences| + |fs|
    decreases |fs|
  {
    if fs != [] {
      FragmentKeeps(n, m, fs[0], t);
      FragmentsKeep(n, m, fs[1..], FragmentFrom(n, m, fs[0], t).value);
    }
  }

  /** Accepted fragments: numbers strictly increase, every run belongs to a track with a default and lies inside one media
      data box with no empty sample, at most 100000 samples in all, and every video track has a run. */
  lemma FragmentsSound(n: Numbers, m: Movie, fs: seq<Fragment>)
    requires Verdict(n, m, fs).Ok?
    ensures var t := Verdict(n, m, fs).value;
            && |t.sequences| == |fs| && Increasing(t.sequences)
            && (forall i :: 0 <= i < |t.spans| ==> SpanAllowed(t.spans[i], m.media) && t.spans[i].track in m.defaults)
            && SampleTotal(t.spans) <= MAX_SAMPLES
            && forall id :: id in m.video ==> HasSpan(t.spans, id)
  {
    FragmentsKeep(n, m, fs, EMPTY);
  }
}
