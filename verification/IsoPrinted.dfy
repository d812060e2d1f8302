/** Whole movies as data (`inspectFragments`, src/media/content.ts:472-549): what their fragments claim of the file, and that
    the inspection of the bytes written for them accepts exactly the claims that are in order. */
module IsoPrinted {
  import opened Prelude
  import opened UnicodeText
  import opened PngChunks
  import opened IsoBoxes
  import opened IsoFragments
  import opened IsoMovie
  import opened IsoWriter
  import opened IsoWritten

  const MOOF: FourCC := [0x6D, 0x6F, 0x6F, 0x66]

  lemma KindsDiffer()
    ensures TFHD != TFDT && TFHD != TRUN && TFDT != TRUN && MFHD != TRAF && MVEX != TREX
    ensures |TFHD| == |TFDT| == |TRUN| == |MFHD| == |TRAF| == |MVEX| == |TREX| == |MOOF| == 4
  {
    assert TFHD[2] != TFDT[2];
    assert TFHD[1] != TRUN[1];
    assert TFDT[1] != TRUN[1];
    assert MFHD[0] != TRAF[0];
    assert MVEX[0] != TREX[0];
  }

  // ---------------------------------------------------------------- spans of runs

  /** Where sample k of a span starts; behind the last one, where the span ends. */
  function SampleStart(s: Span, k: nat): int
    requires k <= |s.sizes|
  {
    if k == 0 then s.start else SampleStart(s, k - 1) + s.sizes[k - 1]
  }

  /** Every sample lies in the same media data range. */
  predicate Placed(s: Span, media: seq<Range>) { exists i :: 0 <= i < |media| && AllIn(s, media[i]) }

  predicate AllIn(s: Span, r: Range) {
    forall k :: 0 <= k < |s.sizes| ==> r.start <= SampleStart(s, k) && SampleStart(s, k) + s.sizes[k] <= r.end
  }

  lemma {:induction false} StartsAdd(s: Span, k: nat)
    requires k <= |s.sizes|
    ensures SampleStart(s, k) == s.start + Sum(s.sizes[..k])
    decreases k
  {
    if k > 0 {
      StartsAdd(s, k - 1);
      assert s.sizes[..k][..k - 1] == s.sizes[..k - 1];
    }
  }

  lemma EndIsLast(s: Span)
    ensures End(s) == SampleStart(s, |s.sizes|)
  {
    StartsAdd(s, |s.sizes|);
    assert s.sizes[..|s.sizes|] == s.sizes;
  }

  lemma {:induction false} StartsRise(s: Span, k: nat, j: nat)
    requires k <= j <= |s.sizes|
    ensures SampleStart(s, k) <= SampleStart(s, j)
    decreases j
  {
    if k < j {
      StartsRise(s, k, j - 1);
    }
  }

  lemma AllInExact(s: Span, r: Range)
    requires s.sizes != []
    ensures AllIn(s, r) <==> r.start <= s.start && End(s) <= r.end
  {
    var last: nat := |s.sizes| - 1;
    EndIsLast(s);
    assert SampleStart(s, last + 1) == SampleStart(s, last) + s.sizes[last];
    if AllIn(s, r) {
      assert r.start <= SampleStart(s, 0) && SampleStart(s, last) + s.sizes[last] <= r.end;
    }
    forall k: nat | k < |s.sizes| && r.start <= s.start && End(s) <= r.end
      ensures r.start <= SampleStart(s, k) && SampleStart(s, k) + s.sizes[k] <= r.end
    {
      StartsRise(s, 0, k);
      StartsRise(s, k + 1, |s.sizes|);
    }
  }

  /** The bounds that are checked are those of the samples. */
  lemma PlacedExact(s: Span, media: seq<Range>)
    requires s.sizes != []
    ensures InMedia(s, media) <==> Placed(s, media)
  {
    forall i | 0 <= i < |media| ensures AllIn(s, media[i]) <==> media[i].start <= s.start && End(s) <= media[i].end {
      AllInExact(s, media[i]);
    }
  }

  /** The spans of the runs of one track fragment, each where the last sample of the one before it ended unless it says
      otherwise. */
  function SpansOf(rs: seq<Run>, track: Track, next: Option<int>): Option<seq<Span>>
    decreases |rs|
  {
    if rs == [] then Some([])
    else match RunMeaning(rs[0], track, next)
      case None => None
      case Some(span) =>
        match SpansOf(rs[1..], track, Some(SampleStart(span, |span.sizes|))) case None => None case Some(rest) => Some([span] + rest)
  }

  /** In media data, and within the sample limit with those counted before. */
  predicate Allowed(m: Movie, samples: nat, spans: seq<Span>) {
    (forall i :: 0 <= i < |spans| ==> Placed(spans[i], m.media)) && samples + SampleTotal(spans) <= 100000
  }

  function RecordAll(m: Movie, t: Tally, spans: seq<Span>): Tally
    decreases |spans|
  {
    if spans == [] then t else RecordAll(m, Record(m, t, spans[0]), spans[1..])
  }

  lemma {:induction false} TotalOfConcat(a: seq<Span>, b: seq<Span>)
    ensures SampleTotal(a + b) == SampleTotal(a) + SampleTotal(b)
    decreases |b|
  {
    if b == [] {
      assert a + b == a;
    } else {
      var n := |b| - 1;
      assert (a + b)[..|a + b| - 1] == a + b[..n];
      TotalOfConcat(a, b[..n]);
    }
  }

  lemma TotalOfOne(span: Span)
    ensures SampleTotal([span]) == |span.sizes|
  {
    assert [span][..0] == [];
  }

  lemma {:induction false} RecordsAdd(m: Movie, t: Tally, spans: seq<Span>)
    ensures var u := RecordAll(m, t, spans);
            && u.samples == t.samples + SampleTotal(spans) && u.spans == t.spans + spans && u.sequences == t.sequences
            && u.seen == t.seen + set i | 0 <= i < |spans| && spans[i].track in m.video :: spans[i].track
    decreases |spans|
  {
    if spans == [] {
      assert t.spans + spans == t.spans;
    } else {
      var first, rest := Record(m, t, spans[0]), spans[1..];
      RecordsAdd(m, first, rest);
      TotalOfOne(spans[0]);
      TotalOfConcat([spans[0]], rest);
      assert spans == [spans[0]] + rest;
      assert t.spans + spans == first.spans + rest;
      SeenAdds(m, spans);
    }
  }

  lemma SeenAdds(m: Movie, spans: seq<Span>)
    requires spans != []
    ensures (set i | 0 <= i < |spans| && spans[i].track in m.video :: spans[i].track) ==
            (if spans[0].track in m.video then {spans[0].track} else {}) +
            (set i | 0 <= i < |spans[1..]| && spans[1..][i].track in m.video :: spans[1..][i].track)
  {
    var all := set i | 0 <= i < |spans| && spans[i].track in m.video :: spans[i].track;
    var rest := set i | 0 <= i < |spans[1..]| && spans[1..][i].track in m.video :: spans[1..][i].track;
    forall x | x in all ensures x in (if spans[0].track in m.video then {spans[0].track} else {}) + rest {
      var i :| 0 <= i < |spans| && spans[i].track in m.video && spans[i].track == x;
      if i > 0 {
        assert spans[1..][i - 1].track == x;
      }
    }
    forall x | x in rest ensures x in all {
      var i :| 0 <= i < |spans[1..]| && spans[1..][i].track in m.video && spans[1..][i].track == x;
      assert spans[i + 1].track == x;
    }
  }

  lemma {:induction false} RecordsJoin(m: Movie, t: Tally, a: seq<Span>, b: seq<Span>)
    ensures RecordAll(m, t, a + b) == RecordAll(m, RecordAll(m, t, a), b)
    decreases |a|
  {
    if a == [] {
      assert a + b == b;
    } else {
      assert (a + b)[1..] == a[1..] + b;
      RecordsJoin(m, Record(m, t, a[0]), a[1..], b);
    }
  }

  lemma AllowedJoin(m: Movie, t: Tally, a: seq<Span>, b: seq<Span>)
    ensures Allowed(m, t.samples, a + b) <==> Allowed(m, t.samples, a) && Allowed(m, RecordAll(m, t, a).samples, b)
  {
    TotalOfConcat(a, b);
    RecordsAdd(m, t, a);
    assert forall i :: 0 <= i < |b| ==> (a + b)[|a| + i] == b[i];
    assert forall i :: 0 <= i < |a| ==> (a + b)[i] == a[i];
  }

  /** A reading with this outcome accepts exactly these spans, if they are allowed, and records them. */
  predicate Takes(m: Movie, t: Tally, spans: Option<seq<Span>>, r: Result<Tally, Rejection>) {
    && (r.Ok? <==> spans.Some? && Allowed(m, t.samples, spans.value))
    && (r.Ok? ==> r.value == RecordAll(m, t, spans.value))
  }

  function RunsBytes(w: Writer, rs: seq<Run>): (bs: seq<Bytes>)
    ensures |bs| == |rs| && forall i :: 0 <= i < |rs| ==> bs[i] == RunBytes(w, rs[i])
  {
    seq(|rs|, i requires 0 <= i < |rs| => RunBytes(w, rs[i]))
  }

  lemma RunTaken(w: Writer, d: Bytes, m: Movie, box: Atom, r: Run, track: Track, next: Option<int>, t: Tally)
    requires w.Sound() && WritableRun(r) && Holds(d, box, RunBytes(w, r))
    ensures var turn, span := RunFrom(w.n, d, m, box, track, next, t), RunMeaning(r, track, next);
            && (turn.Ok? <==> span.Some? && Allowed(m, t.samples, [span.value]))
            && (turn.Ok? ==> turn.value == (SampleStart(span.value, |span.value.sizes|), Record(m, t, span.value)))
  {
    RunRead(w, d, box, r, track, next, t.samples, m.media);
    var span := RunMeaning(r, track, next);
    if span.Some? {
      EndIsLast(span.value);
      PlacedExact(span.value, m.media);
      TotalOfOne(span.value);
      assert [span.value][0] == span.value;
    }
  }

  /** Dropping the first of a row. */
  lemma HoldsRest(d: Bytes, boxes: seq<Atom>, contents: seq<Bytes>)
    requires HoldsEach(d, boxes, contents) && boxes != []
    ensures Holds(d, boxes[0], contents[0]) && HoldsEach(d, boxes[1..], contents[1..])
  {
  }

  lemma {:induction false} RunsTaken(w: Writer, d: Bytes, m: Movie, boxes: seq<Atom>, rs: seq<Run>, track: Track, next: Option<int>, t: Tally)
    requires w.Sound() && (forall i :: 0 <= i < |rs| ==> WritableRun(rs[i])) && HoldsEach(d, boxes, RunsBytes(w, rs))
    requires t.samples <= 100000 && AllWithin(boxes, d)
    ensures Takes(m, t, SpansOf(rs, track, next), RunsFrom(w.n, d, m, boxes, track, next, t))
    decreases |rs|
  {
    if rs != [] {
      HoldsRest(d, boxes, RunsBytes(w, rs));
      assert RunsBytes(w, rs)[1..] == RunsBytes(w, rs[1..]);
      RunTaken(w, d, m, boxes[0], rs[0], track, next, t);
      var span := RunMeaning(rs[0], track, next);
      if span.Some? {
        var behind := Some(SampleStart(span.value, |span.value.sizes|));
        OneThenRest(m, t, span.value, SpansOf(rs[1..], track, behind));
        if RunFrom(w.n, d, m, boxes[0], track, next, t).Ok? {
          RunsTaken(w, d, m, boxes[1..], rs[1..], track, behind, Record(m, t, span.value));
        }
      }
    }
  }

  lemma OneThenRest(m: Movie, t: Tally, span: Span, rest: Option<seq<Span>>)
    ensures rest.Some? ==>
              && (Allowed(m, t.samples, [span] + rest.value) <==>
                  Allowed(m, t.samples, [span]) && Allowed(m, Record(m, t, span).samples, rest.value))
              && RecordAll(m, t, [span] + rest.value) == RecordAll(m, Record(m, t, span), rest.value)
  {
    if rest.Some? {
      assert RecordAll(m, t, [span]) == Record(m, t, span) by { assert [span][1..] == []; }
      AllowedJoin(m, t, [span], rest.value);
      RecordsJoin(m, t, [span], rest.value);
    }
  }

  // ---------------------------------------------------------------- track fragments

  /** What a track fragment box holds, in any order. */
  datatype Item = Tfhd(form: Form, header: Header) | Tfdt(form: Form, contents: Bytes) | Trun(form: Form, run: Run) | OtherItem(box: Box)

  function ItemBox(w: Writer, i: Item): Box {
    match i
    case Tfhd(form, h) => Box(TFHD, form, HeaderBytes(w, h))
    case Tfdt(form, contents) => Box(TFDT, form, contents)
    case Trun(form, r) => Box(TRUN, form, RunBytes(w, r))
    case OtherItem(b) => b
  }

  predicate WritableItem(w: Writer, i: Item) {
    && WritableBox(ItemBox(w, i)) && (i.Tfhd? ==> WritableHeader(i.header)) && (i.Trun? ==> WritableRun(i.run))
    && (i.OtherItem? ==> i.box.kind != TFHD && i.box.kind != TFDT && i.box.kind != TRUN)
  }

  predicate EachItem(w: Writer, items: seq<Item>) { forall i :: 0 <= i < |items| ==> WritableItem(w, items[i]) }

  predicate WritableItems(w: Writer, items: seq<Item>) { EachItem(w, items) && LastOpen(ItemBoxes(w, items)) }

  function ItemBoxes(w: Writer, items: seq<Item>): seq<Box> { if items == [] then [] else [ItemBox(w, items[0])] + ItemBoxes(w, items[1..]) }

  function HeaderOf(items: seq<Item>): Option<Header> {
    if items == [] then None else if items[0].Tfhd? then Some(items[0].header) else HeaderOf(items[1..])
  }

  function TimeOf(items: seq<Item>): Option<Bytes> {
    if items == [] then None else if items[0].Tfdt? then Some(items[0].contents) else TimeOf(items[1..])
  }

  function RunsOf(items: seq<Item>): seq<Run> {
    if items == [] then [] else (if items[0].Trun? then [items[0].run] else []) + RunsOf(items[1..])
  }

  /** Version 0 with a word, or version 1 with a long word. */
  predicate TimeUsable(time: Option<Bytes>) {
    time.Some? ==> (|time.value| == 8 && time.value[0] == 0) || (|time.value| == 12 && time.value[0] == 1)
  }

  /** The spans a track fragment claims: by its first header, if that and its first decode time are usable and it has runs. */
  function TrafMeaning(items: seq<Item>, defaults: map<nat, nat>, offset: nat): Option<seq<Span>> {
    var header, runs := HeaderOf(items), RunsOf(items);
    if |items| > 10001 || header.None? || !TimeUsable(TimeOf(items)) || runs == [] then None
    else match HeaderMeaning(header.value, defaults, offset) case Err(_) => None case Ok(track) => SpansOf(runs, track, None)
  }

  lemma {:induction false} ItemsWritten(w: Writer, items: seq<Item>)
    requires EachItem(w, items)
    ensures var bs := ItemBoxes(w, items);
            && |bs| == |items| && WritableBoxes(bs)
            && (FirstWritten(bs, TFHD).Some? <==> HeaderOf(items).Some?)
            && (HeaderOf(items).Some? ==> FirstWritten(bs, TFHD).value == HeaderBytes(w, HeaderOf(items).value))
            && (HeaderOf(items).Some? ==> WritableHeader(HeaderOf(items).value))
            && FirstWritten(bs, TFDT) == TimeOf(items)
    decreases |items|
  {
    KindsDiffer();
    if items != [] {
      ItemsWritten(w, items[1..]);
    }
  }

  lemma RunsBytesNext(w: Writer, r: Run, rs: seq<Run>)
    ensures RunsBytes(w, [r] + rs) == [RunBytes(w, r)] + RunsBytes(w, rs)
  {
  }

  lemma {:induction false} RunsWritten(w: Writer, items: seq<Item>)
    ensures EachItem(w, items) ==> AllWritten(ItemBoxes(w, items), TRUN) == RunsBytes(w, RunsOf(items))
    decreases |items|
  {
    if items != [] && EachItem(w, items) {
      var rest := items[1..];
      RunsWritten(w, rest);
      ItemBoxNext(w, items);
      KindsDiffer();
      assert WritableItem(w, items[0]);
      if items[0].Trun? {
        RunsBytesNext(w, items[0].run, RunsOf(rest));
      }
    }
  }

  lemma ItemBoxNext(w: Writer, items: seq<Item>)
    requires items != []
    ensures var bs := ItemBoxes(w, items); bs != [] && bs[0] == ItemBox(w, items[0]) && bs[1..] == ItemBoxes(w, items[1..])
  {
  }

  lemma {:induction false} RunsWritable(w: Writer, items: seq<Item>)
    requires EachItem(w, items)
    ensures forall i :: 0 <= i < |RunsOf(items)| ==> WritableRun(RunsOf(items)[i])
    decreases |items|
  {
    if items != [] {
      RunsWritable(w, items[1..]);
      assert WritableItem(w, items[0]);
    }
  }

  lemma TimeRead(d: Bytes, kids: seq<Atom>, time: Option<Bytes>)
    requires FirstOf(kids, TFDT).Some? <==> time.Some?
    requires FirstOf(kids, TFDT).Some? ==> Holds(d, FirstOf(kids, TFDT).value, time.value)
    ensures DecodeTimeAllowed(d, kids) <==> TimeUsable(time)
  {
    if time.Some? && time.value != [] {
      HeldSlice(d, FirstOf(kids, TFDT).value, time.value, 0, 1);
      assert d[FirstOf(kids, TFDT).value.body..FirstOf(kids, TFDT).value.body + 1][0] == time.value[0];
    }
  }

  lemma TrafTaken(w: Writer, d: Bytes, m: Movie, traf: Atom, items: seq<Item>, offset: nat, t: Tally)
    requires w.Sound() && WritableItems(w, items) && Holds(d, traf, RowBytes(w, ItemBoxes(w, items))) && t.samples <= 100000
    ensures Takes(m, t, TrafMeaning(items, m.defaults, offset), TrackFrom(w.n, d, m, traf, offset, t))
  {
    var bs, header, runs := ItemBoxes(w, items), HeaderOf(items), RunsOf(items);
    ItemsWritten(w, items);
    RunsWritten(w, items);
    RunsWritable(w, items);
    ChildrenRead(w, d, traf, bs);
    var kids := Children(w.n, d, traf);
    if kids.Ok? {
      FirstFound(d, kids.value, bs, TFHD);
      FirstFound(d, kids.value, bs, TFDT);
      AllFound(d, kids.value, bs, TRUN);
      TimeRead(d, kids.value, TimeOf(items));
      if header.Some? {
        HeaderRead(w, d, FirstOf(kids.value, TFHD).value, header.value, m.defaults, offset);
        var track := HeaderMeaning(header.value, m.defaults, offset);
        if track.Ok? {
          RunsTaken(w, d, m, OfKind(kids.value, TRUN), runs, track.value, None, t);
        }
      }
    }
  }

  // ---------------------------------------------------------------- fragments

  /** What a fragment box holds, in any order: the number, with whatever stands behind it, and track fragments. */
  datatype Piece = Number(form: Form, version: Byte, flags: set<nat>, sequence: nat, behind: Bytes) | Traf(form: Form, items: seq<Item>)
    | OtherPiece(box: Box)

  function PieceBox(w: Writer, p: Piece): Box {
    match p
    case Number(form, version, flags, sequence, behind) => Box(MFHD, form, FrontBytes(w, version, flags, sequence) + behind)
    case Traf(form, items) => Box(TRAF, form, RowBytes(w, ItemBoxes(w, items)))
    case OtherPiece(b) => b
  }

  predicate WritablePiece(w: Writer, p: Piece) {
    && WritableBox(PieceBox(w, p)) && (p.Number? ==> Below24(p.flags) && Word(p.sequence)) && (p.Traf? ==> WritableItems(w, p.items))
    && (p.OtherPiece? ==> p.box.kind != MFHD && p.box.kind != TRAF)
  }

  predicate EachPiece(w: Writer, ps: seq<Piece>) { forall i :: 0 <= i < |ps| ==> WritablePiece(w, ps[i]) }

  predicate WritablePieces(w: Writer, ps: seq<Piece>) { EachPiece(w, ps) && LastOpen(PieceBoxes(w, ps)) }

  function PieceBoxes(w: Writer, ps: seq<Piece>): seq<Box> { if ps == [] then [] else [PieceBox(w, ps[0])] + PieceBoxes(w, ps[1..]) }

  function NumberOf(ps: seq<Piece>): (r: Option<Piece>)
    ensures r.Some? ==> r.value.Number?
  {
    if ps == [] then None else if ps[0].Number? then Some(ps[0]) else NumberOf(ps[1..])
  }

  function TrafsOf(ps: seq<Piece>): seq<seq<Item>> {
    if ps == [] then [] else (if ps[0].Traf? then [ps[0].items] else []) + TrafsOf(ps[1..])
  }

  function TrafsMeaning(trafs: seq<seq<Item>>, defaults: map<nat, nat>, offset: nat): Option<seq<Span>>
    decreases |trafs|
  {
    if trafs == [] then Some([])
    else match TrafMeaning(trafs[0], defaults, offset)
      case None => None
      case Some(spans) =>
        match TrafsMeaning(trafs[1..], defaults, offset) case None => None case Some(rest) => Some(spans + rest)
  }

  /** A fragment is usable: it has a number of version 0, track fragments, and not too many boxes. */
  function SequenceOf(ps: seq<Piece>): Option<nat> {
    var number := NumberOf(ps);
    if |ps| > 10001 || number.None? || number.value.version != 0 || number.value.behind != [] || TrafsOf(ps) == [] then None
    else Some(number.value.sequence)
  }

  function TrafsBytes(w: Writer, trafs: seq<seq<Item>>): (bs: seq<Bytes>)
    ensures |bs| == |trafs| && forall i :: 0 <= i < |trafs| ==> bs[i] == RowBytes(w, ItemBoxes(w, trafs[i]))
  {
    seq(|trafs|, i requires 0 <= i < |trafs| => RowBytes(w, ItemBoxes(w, trafs[i])))
  }

  lemma {:induction false} PiecesWritten(w: Writer, ps: seq<Piece>)
    requires EachPiece(w, ps)
    ensures var bs := PieceBoxes(w, ps);
            && |bs| == |ps| && WritableBoxes(bs)
            && (FirstWritten(bs, MFHD).Some? <==> NumberOf(ps).Some?)
            && (NumberOf(ps).Some? ==>
                 && NumberOf(ps).value.Number? && Below24(NumberOf(ps).value.flags) && Word(NumberOf(ps).value.sequence)
                 && FirstWritten(bs, MFHD).value == PieceBox(w, NumberOf(ps).value).contents)
    decreases |ps|
  {
    KindsDiffer();
    if ps != [] {
      PiecesWritten(w, ps[1..]);
    }
  }

  lemma TrafsBytesNext(w: Writer, items: seq<Item>, trafs: seq<seq<Item>>)
    ensures TrafsBytes(w, [items] + trafs) == [RowBytes(w, ItemBoxes(w, items))] + TrafsBytes(w, trafs)
  {
  }

  lemma PieceBoxNext(w: Writer, ps: seq<Piece>)
    requires ps != []
    ensures var bs := PieceBoxes(w, ps); bs != [] && bs[0] == PieceBox(w, ps[0]) && bs[1..] == PieceBoxes(w, ps[1..])
  {
  }

  lemma {:induction false} TrafsWritten(w: Writer, ps: seq<Piece>)
    ensures EachPiece(w, ps) ==> AllWritten(PieceBoxes(w, ps), TRAF) == TrafsBytes(w, TrafsOf(ps))
    decreases |ps|
  {
    if ps != [] && EachPiece(w, ps) {
      var rest := ps[1..];
      TrafsWritten(w, rest);
      PieceBoxNext(w, ps);
      KindsDiffer();
      assert WritablePiece(w, ps[0]);
      if ps[0].Traf? {
        TrafsBytesNext(w, ps[0].items, TrafsOf(rest));
      }
    }
  }

  lemma {:induction false} TrafsWritable(w: Writer, ps: seq<Piece>)
    requires EachPiece(w, ps)
    ensures forall i :: 0 <= i < |TrafsOf(ps)| ==> WritableItems(w, TrafsOf(ps)[i])
    decreases |ps|
  {
    if ps != [] {
      TrafsWritable(w, ps[1..]);
      assert WritablePiece(w, ps[0]);
    }
  }

  lemma {:induction false} TrafsTaken(w: Writer, d: Bytes, m: Movie, boxes: seq<Atom>, trafs: seq<seq<Item>>, offset: nat, t: Tally)
    requires w.Sound() && (forall i :: 0 <= i < |trafs| ==> WritableItems(w, trafs[i])) && HoldsEach(d, boxes, TrafsBytes(w, trafs))
    requires t.samples <= 100000 && AllWithin(boxes, d)
    ensures Takes(m, t, TrafsMeaning(trafs, m.defaults, offset), TracksFrom(w.n, d, m, boxes, offset, t))
    decreases |trafs|
  {
    if trafs != [] {
      HoldsRest(d, boxes, TrafsBytes(w, trafs));
      assert TrafsBytes(w, trafs)[1..] == TrafsBytes(w, trafs[1..]);
      TrafTaken(w, d, m, boxes[0], trafs[0], offset, t);
      var spans := TrafMeaning(trafs[0], m.defaults, offset);
      if spans.Some? {
        Joined(m, t, spans.value, TrafsMeaning(trafs[1..], m.defaults, offset));
        if TrackFrom(w.n, d, m, boxes[0], offset, t).Ok? {
          RecordsAdd(m, t, spans.value);
          TrafsTaken(w, d, m, boxes[1..], trafs[1..], offset, RecordAll(m, t, spans.value));
        }
      }
    }
  }

  lemma Joined(m: Movie, t: Tally, spans: seq<Span>, rest: Option<seq<Span>>)
    ensures rest.Some? ==>
              && (Allowed(m, t.samples, spans + rest.value) <==>
                  Allowed(m, t.samples, spans) && Allowed(m, RecordAll(m, t, spans).samples, rest.value))
              && RecordAll(m, t, spans + rest.value) == RecordAll(m, RecordAll(m, t, spans), rest.value)
  {
    if rest.Some? {
      AllowedJoin(m, t, spans, rest.value);
      RecordsJoin(m, t, spans, rest.value);
    }
  }

  /** A fragment: where it starts in the file, how it says its size, and what it holds. */
  datatype Part = Part(offset: nat, form: Form, pieces: seq<Piece>)

  function PartBox(w: Writer, p: Part): Box { Box(MOOF, p.form, RowBytes(w, PieceBoxes(w, p.pieces))) }

  function FragmentBytes(w: Writer, p: Part): Bytes { RowBytes(w, [PartBox(w, p)]) }

  predicate WritableFragment(w: Writer, p: Part) { WritablePieces(w, p.pieces) && WritableBox(PartBox(w, p)) }

  lemma NumberRead(w: Writer, d: Bytes, box: Atom, p: Piece)
    requires w.Sound() && p.Number? && Below24(p.flags) && Word(p.sequence) && Holds(d, box, PieceBox(w, p).contents)
    ensures (Content(box) != 8 || ByteOf(d, box, 0) != 0) <==> p.behind != [] || p.version != 0
    ensures Content(box) == 8 ==> WordOf(w.n, d, box, 4) == p.sequence
  {
    FrontRead(w, d, box, p.version, p.flags, p.sequence, p.behind);
  }

  lemma ContentsRead(w: Writer, d: Bytes, p: Part)
    requires w.Sound() && WritableFragment(w, p) && d == FragmentBytes(w, p)
    ensures var c, sequence := Contents(w.n, d), SequenceOf(p.pieces);
            && (sequence.Some? ==>
                 c.Ok? && c.value.0 == sequence.value && c.value.1 != [] && HoldsEach(d, c.value.1, TrafsBytes(w, TrafsOf(p.pieces))))
            && (sequence.None? ==> c.Err? || c.value.1 == [])
  {
    var ps, outer, bs := p.pieces, [PartBox(w, p)], PieceBoxes(w, p.pieces);
    KindsDiffer();
    assert d[0..|d|] == d;
    ChildrenRead(w, d, WholeOf(d), outer);
    var top := Children(w.n, d, WholeOf(d)).value;
    assert Holds(d, top[0], outer[0].contents);
    PiecesWritten(w, ps);
    TrafsWritten(w, ps);
    ChildrenRead(w, d, top[0], bs);
    var kids := Children(w.n, d, top[0]);
    if kids.Ok? {
      FirstFound(d, kids.value, bs, MFHD);
      AllFound(d, kids.value, bs, TRAF);
      if NumberOf(ps).Some? {
        NumberRead(w, d, FirstOf(kids.value, MFHD).value, NumberOf(ps).value);
      }
    }
  }

  /** The spans of a fragment, None when it cannot be used. */
  function PartSpans(p: Part, defaults: map<nat, nat>): Option<seq<Span>> {
    if SequenceOf(p.pieces).None? then None else TrafsMeaning(TrafsOf(p.pieces), defaults, p.offset)
  }

  lemma PartTaken(w: Writer, m: Movie, p: Part, t: Tally)
    requires w.Sound() && WritableFragment(w, p) && t.samples <= 100000
    ensures var r, sequence := FragmentFrom(w.n, m, Fragment(p.offset, FragmentBytes(w, p)), t), SequenceOf(p.pieces);
            && (r.Ok? ==> sequence.Some?)
            && (sequence.Some? && sequence.value <= Prior(t) ==> r.Err?)
            && (sequence.Some? && sequence.value > Prior(t) ==>
                 Takes(m, t.(sequences := t.sequences + [sequence.value]), PartSpans(p, m.defaults), r))
  {
    var d := FragmentBytes(w, p);
    ContentsRead(w, d, p);
    var c, sequence := Contents(w.n, d), SequenceOf(p.pieces);
    if sequence.Some? {
      TrafsWritable(w, p.pieces);
      TrafsTaken(w, d, m, c.value.1, TrafsOf(p.pieces), p.offset, t.(sequences := t.sequences + [sequence.value]));
    }
  }

  // ---------------------------------------------------------------- movies

  /** All the spans of a movie, in order, None when some fragment cannot be used. */
  function MovieSpans(parts: seq<Part>, defaults: map<nat, nat>): Option<seq<Span>>
    decreases |parts|
  {
    if parts == [] then Some([])
    else match PartSpans(parts[0], defaults)
      case None => None
      case Some(spans) => match MovieSpans(parts[1..], defaults) case None => None case Some(rest) => Some(spans + rest)
  }

  function Sequences(parts: seq<Part>): seq<nat> {
    if parts == [] then []
    else (if SequenceOf(parts[0].pieces).Some? then [SequenceOf(parts[0].pieces).value] else []) + Sequences(parts[1..])
  }

  function Fragments(w: Writer, parts: seq<Part>): seq<Fragment> {
    if parts == [] then [] else [Fragment(parts[0].offset, FragmentBytes(w, parts[0]))] + Fragments(w, parts[1..])
  }

  predicate WritableMovie(w: Writer, parts: seq<Part>) { forall i :: 0 <= i < |parts| ==> WritableFragment(w, parts[i]) }

  /** Each number is higher than the one before it, the first one than `prior`. */
  predicate Rising(prior: int, xs: seq<nat>)
    decreases |xs|
  {
    xs == [] || (prior < xs[0] && Rising(xs[0], xs[1..]))
  }

  lemma {:induction false} RisingIsIncreasing(prior: int, xs: seq<nat>)
    ensures Rising(prior, xs) <==> Increasing(xs) && (xs != [] ==> prior < xs[0])
    decreases |xs|
  {
    if xs != [] {
      RisingIsIncreasing(xs[0], xs[1..]);
      assert forall i :: 0 <= i < |xs[1..]| ==> xs[1..][i] == xs[i + 1];
      if Increasing(xs) {
        forall i, j | 0 <= i < j < |xs[1..]| ensures xs[1..][i] < xs[1..][j] { assert xs[i + 1] < xs[j + 1]; }
        if xs[1..] != [] {
          assert xs[0] < xs[1];
        }
      }
      if Rising(prior, xs) {
        forall i, j | 0 <= i < j < |xs| ensures xs[i] < xs[j] {
          if i > 0 {
            assert xs[1..][i - 1] < xs[1..][j - 1];
          } else if j > 1 {
            assert xs[1..][0] < xs[1..][j - 1];
          }
        }
      }
    }
  }

  /** A reading with this outcome accepts exactly these numbers and spans, if they rise and are allowed, and records them. */
  predicate TakesAll(m: Movie, t: Tally, numbers: seq<nat>, spans: Option<seq<Span>>, r: Result<Tally, Rejection>) {
    && (r.Ok? <==> spans.Some? && Rising(Prior(t), numbers) && Allowed(m, t.samples, spans.value))
    && (r.Ok? ==> r.value == RecordAll(m, t.(sequences := t.sequences + numbers), spans.value))
  }

  function Joint(spans: Option<seq<Span>>, rest: Option<seq<Span>>): Option<seq<Span>> {
    if spans.Some? && rest.Some? then Some(spans.value + rest.value) else None
  }

  lemma TakesNext(m: Movie, t: Tally, sequence: nat, spans: seq<Span>, more: seq<nat>, rest: Option<seq<Span>>, r: Result<Tally, Rejection>)
    requires Prior(t) < sequence && Allowed(m, t.samples, spans)
    requires TakesAll(m, RecordAll(m, t.(sequences := t.sequences + [sequence]), spans), more, rest, r)
    ensures TakesAll(m, t, [sequence] + more, Joint(Some(spans), rest), r)
  {
    var u, all := t.(sequences := t.sequences + [sequence]), [sequence] + more;
    RecordsAdd(m, u, spans);
    assert all[1..] == more;
    Joined(m, u, spans, rest);
    if rest.Some? {
      NumberedJoin(m, t, sequence, spans, more, rest);
    }
  }

  lemma TakesNone(m: Movie, t: Tally, sequence: nat, spans: Option<seq<Span>>, more: seq<nat>, rest: Option<seq<Span>>, r: Result<Tally, Rejection>)
    requires r.Err? && !(Prior(t) < sequence && spans.Some? && Allowed(m, t.samples, spans.value))
    ensures TakesAll(m, t, [sequence] + more, Joint(spans, rest), r)
  {
    if spans.Some? {
      Joined(m, t, spans.value, rest);
    }
  }

  lemma {:induction false} PartsTaken(w: Writer, m: Movie, parts: seq<Part>, t: Tally)
    requires w.Sound() && WritableMovie(w, parts) && t.samples <= 100000
    ensures TakesAll(m, t, Sequences(parts), MovieSpans(parts, m.defaults), FragmentsFrom(w.n, m, Fragments(w, parts), t))
    decreases |parts|
  {
    if parts == [] {
      assert t.sequences + [] == t.sequences;
    } else {
      var p, rest := parts[0], parts[1..];
      PartTaken(w, m, p, t);
      assert Fragments(w, parts)[1..] == Fragments(w, rest);
      var f, r := FragmentFrom(w.n, m, Fragments(w, parts)[0], t), FragmentsFrom(w.n, m, Fragments(w, parts), t);
      var sequence, spans := SequenceOf(p.pieces), PartSpans(p, m.defaults);
      if sequence.Some? {
        assert MovieSpans(parts, m.defaults) == Joint(spans, MovieSpans(rest, m.defaults));
        if f.Ok? {
          var v := RecordAll(m, t.(sequences := t.sequences + [sequence.value]), spans.value);
          RecordsAdd(m, t.(sequences := t.sequences + [sequence.value]), spans.value);
          PartsTaken(w, m, rest, v);
          TakesNext(m, t, sequence.value, spans.value, Sequences(rest), MovieSpans(rest, m.defaults), r);
        } else {
          TakesNone(m, t, sequence.value, spans, Sequences(rest), MovieSpans(rest, m.defaults), r);
        }
      }
    }
  }

  /** Recording a fragment and then the rest is recording all numbers and all spans. */
  lemma NumberedJoin(m: Movie, t: Tally, sequence: nat, spans: seq<Span>, more: seq<nat>, rest: Option<seq<Span>>)
    requires rest.Some?
    ensures var v := RecordAll(m, t.(sequences := t.sequences + [sequence]), spans);
            RecordAll(m, v.(sequences := v.sequences + more), rest.value) ==
            RecordAll(m, t.(sequences := t.sequences + ([sequence] + more)), spans + rest.value)
  {
    var u := t.(sequences := t.sequences + [sequence]);
    assert t.sequences + ([sequence] + more) == u.sequences + more;
    SequencesJoin(m, u, spans, more);
    RecordsJoin(m, u.(sequences := u.sequences + more), spans, rest.value);
  }

  /** Numbers and spans are recorded apart. */
  lemma {:induction false} SequencesJoin(m: Movie, t: Tally, spans: seq<Span>, more: seq<nat>)
    ensures var v := RecordAll(m, t, spans);
            v.(sequences := v.sequences + more) == RecordAll(m, t.(sequences := t.sequences + more), spans)
    decreases |spans|
  {
    if spans != [] {
      SequencesJoin(m, Record(m, t, spans[0]), spans[1..], more);
    }
  }

  /** The claims of a movie are in order: every fragment is usable, their numbers rise, every run lies in media data, there
      are at most 100000 samples, and every video track has a run. */
  predicate InOrder(m: Movie, parts: seq<Part>) {
    var spans := MovieSpans(parts, m.defaults);
    && spans.Some? && Increasing(Sequences(parts))
    && (forall i :: 0 <= i < |spans.value| ==> Placed(spans.value[i], m.media))
    && SampleTotal(spans.value) <= 100000
    && forall id :: id in m.video ==> HasSpan(spans.value, id)
  }

  /** The fragments written for a movie are accepted exactly when its claims are in order, and then the spans found are the
      ones it claims. */
  lemma PrintedMovie(w: Writer, m: Movie, parts: seq<Part>)
    requires w.Sound() && WritableMovie(w, parts)
    ensures var r := Verdict(w.n, m, Fragments(w, parts));
            && (r.Ok? <==> InOrder(m, parts))
            && (r.Ok? ==> Some(r.value.spans) == MovieSpans(parts, m.defaults) && r.value.sequences == Sequences(parts))
  {
    PartsTaken(w, m, parts, EMPTY);
    RisingIsIncreasing(-1, Sequences(parts));
    var spans := MovieSpans(parts, m.defaults);
    assert [] + Sequences(parts) == Sequences(parts);
    if spans.Some? {
      RecordsAdd(m, EMPTY.(sequences := Sequences(parts)), spans.value);
      assert [] + spans.value == spans.value;
      SeenAll(m, spans.value);
    }
  }

  lemma SeenAll(m: Movie, spans: seq<Span>)
    ensures m.video <= (set i | 0 <= i < |spans| && spans[i].track in m.video :: spans[i].track) <==>
            forall id :: id in m.video ==> HasSpan(spans, id)
  {
    var seen := set i | 0 <= i < |spans| && spans[i].track in m.video :: spans[i].track;
    forall id | id in m.video ensures id in seen <==> HasSpan(spans, id) {
      if HasSpan(spans, id) {
        var i :| 0 <= i < |spans| && spans[i].track == id;
        assert spans[i].track in seen;
      }
    }
  }

  // ---------------------------------------------------------------- the movie box

  /** Defaults of a track: number, description index, duration, size and flags, with whatever stands behind them. */
  datatype Default = Trex(form: Form, version: Byte, flags: set<nat>, track: nat, description: nat, duration: nat, size: nat,
                          sampleFlags: nat, behind: Bytes) | OtherDefault(box: Box)

  /** What a movie box holds. */
  datatype Entry = Mvex(form: Form, defaults: seq<Default>) | OtherEntry(box: Box)

  function DefaultBytes(w: Writer, x: Default): Bytes
    requires x.Trex?
  {
    FrontBytes(w, x.version, x.flags, x.track) + w.w32(x.description) + w.w32(x.duration) + w.w32(x.size) + w.w32(x.sampleFlags) + x.behind
  }

  function DefaultBox(w: Writer, x: Default): Box { if x.Trex? then Box(TREX, x.form, DefaultBytes(w, x)) else x.box }

  predicate WritableDefault(w: Writer, x: Default) {
    && WritableBox(DefaultBox(w, x)) && (x.OtherDefault? ==> x.box.kind != TREX)
    && (x.Trex? ==> Below24(x.flags) && Word(x.track) && Word(x.description) && Word(x.duration) && Word(x.size) && Word(x.sampleFlags))
  }

  function DefaultBoxesOf(w: Writer, xs: seq<Default>): seq<Box> {
    if xs == [] then [] else [DefaultBox(w, xs[0])] + DefaultBoxesOf(w, xs[1..])
  }

  predicate EachDefault(w: Writer, xs: seq<Default>) { forall i :: 0 <= i < |xs| ==> WritableDefault(w, xs[i]) }

  predicate WritableDefaults(w: Writer, xs: seq<Default>) { EachDefault(w, xs) && LastOpen(DefaultBoxesOf(w, xs)) }

  function MovieBoxOf(w: Writer, x: Entry): Box { if x.Mvex? then Box(MVEX, x.form, RowBytes(w, DefaultBoxesOf(w, x.defaults))) else x.box }

  predicate WritableEntry(w: Writer, x: Entry) {
    && WritableBox(MovieBoxOf(w, x)) && (x.Mvex? ==> WritableDefaults(w, x.defaults)) && (x.OtherEntry? ==> x.box.kind != MVEX)
  }

  function MovieBoxes(w: Writer, xs: seq<Entry>): seq<Box> { if xs == [] then [] else [MovieBoxOf(w, xs[0])] + MovieBoxes(w, xs[1..]) }

  predicate EachEntry(w: Writer, xs: seq<Entry>) { forall i :: 0 <= i < |xs| ==> WritableEntry(w, xs[i]) }

  predicate WritableRoot(w: Writer, xs: seq<Entry>) { EachEntry(w, xs) && LastOpen(MovieBoxes(w, xs)) }

  function MvexOf(xs: seq<Entry>): Option<seq<Default>> {
    if xs == [] then None else if xs[0].Mvex? then Some(xs[0].defaults) else MvexOf(xs[1..])
  }

  function TrexsOf(xs: seq<Default>): (ts: seq<Default>)
    ensures forall i :: 0 <= i < |ts| ==> ts[i].Trex?
  {
    if xs == [] then [] else (if xs[0].Trex? then [xs[0]] else []) + TrexsOf(xs[1..])
  }

  /** Version 0, a track number, and nothing behind the flags. */
  predicate UsableDefault(x: Default) { x.Trex? && x.version == 0 && x.track != 0 && x.behind == [] }

  predicate AllUsable(ts: seq<Default>) { forall i :: 0 <= i < |ts| ==> UsableDefault(ts[i]) }

  function PairsOf(ts: seq<Default>): (pairs: seq<(nat, nat)>)
    requires forall i :: 0 <= i < |ts| ==> ts[i].Trex?
    ensures |pairs| == |ts|
  {
    seq(|ts|, i requires 0 <= i < |ts| => (ts[i].track, ts[i].size))
  }

  /** The default sizes a movie box gives: by its first extends box, when all defaults are usable and no track has two. */
  function TableOf(xs: seq<Entry>): Option<map<nat, nat>> {
    var mvex := MvexOf(xs);
    if |xs| > 10001 || mvex.None? || |mvex.value| > 10001 then None
    else
      var ts := TrexsOf(mvex.value);
      if AllUsable(ts) && DistinctTracks(PairsOf(ts)) then Some(Table(PairsOf(ts))) else None
  }

  function Table(pairs: seq<(nat, nat)>): map<nat, nat> {
    if pairs == [] then map[] else Table(pairs[..|pairs| - 1])[pairs[|pairs| - 1].0 := pairs[|pairs| - 1].1]
  }

  lemma {:induction false} TableTabulates(pairs: seq<(nat, nat)>)
    requires DistinctTracks(pairs)
    ensures Tabulates(Table(pairs), pairs)
    decreases |pairs|
  {
    if pairs != [] {
      var n := |pairs| - 1;
      TableTabulates(pairs[..n]);
      assert pairs[..n] + [(pairs[n].0, pairs[n].1)] == pairs;
      assert pairs[n].0 !in Table(pairs[..n]);
      TabulatesNext(Table(pairs[..n]), pairs[..n], pairs[n].0, pairs[n].1);
    }
  }

  lemma OneTable(a: map<nat, nat>, b: map<nat, nat>, pairs: seq<(nat, nat)>)
    requires Tabulates(a, pairs) && Tabulates(b, pairs)
    ensures a == b
  {
    forall id ensures id in a <==> id in b {
    }
    forall id | id in a ensures a[id] == b[id] {
      var i :| 0 <= i < |pairs| && pairs[i].0 == id;
    }
  }

  lemma TrexFields(w: Writer, d: Bytes, box: Atom, x: Default)
    requires w.Sound() && x.Trex? && WritableDefault(w, x) && Holds(d, box, DefaultBytes(w, x))
    ensures Content(box) == 24 + |x.behind| && ByteOf(d, box, 0) == x.version && WordOf(w.n, d, box, 4) == x.track
    ensures WordOf(w.n, d, box, 16) == x.size
  {
    var front, description, duration, size := FrontBytes(w, x.version, x.flags, x.track), w.w32(x.description), w.w32(x.duration), w.w32(x.size);
    var flags, all := w.w32(x.sampleFlags), DefaultBytes(w, x);
    Rows(front, description, duration, size, flags, x.behind);
    FrontRead(w, d, box, x.version, x.flags, x.track, description + duration + size + flags + x.behind);
    assert all == (front + description + duration) + size + (flags + x.behind);
    HeldPiece(d, box, all, front + description + duration, size, flags + x.behind);
  }

  lemma TrexRead(w: Writer, d: Bytes, box: Atom, x: Default)
    requires w.Sound() && x.Trex? && WritableDefault(w, x) && Holds(d, box, DefaultBytes(w, x))
    ensures DefaultOf(w.n, d, box) == if UsableDefault(x) then Some((x.track, x.size)) else None
  {
    TrexFields(w, d, box, x);
  }

  function TrexsBytes(w: Writer, ts: seq<Default>): (bs: seq<Bytes>)
    requires forall i :: 0 <= i < |ts| ==> ts[i].Trex?
    ensures |bs| == |ts|
  {
    seq(|ts|, i requires 0 <= i < |ts| => DefaultBytes(w, ts[i]))
  }

  lemma TrexsBytesNext(w: Writer, x: Default, ts: seq<Default>)
    requires x.Trex? && forall i :: 0 <= i < |ts| ==> ts[i].Trex?
    ensures TrexsBytes(w, [x] + ts) == [DefaultBytes(w, x)] + TrexsBytes(w, ts)
  {
  }

  lemma {:induction false} DefaultsWritten(w: Writer, xs: seq<Default>)
    ensures EachDefault(w, xs) ==>
              && AllWritten(DefaultBoxesOf(w, xs), TREX) == TrexsBytes(w, TrexsOf(xs))
              && WritableBoxes(DefaultBoxesOf(w, xs)) && |DefaultBoxesOf(w, xs)| == |xs|
              && EachDefault(w, TrexsOf(xs))
    decreases |xs|
  {
    if xs != [] && EachDefault(w, xs) {
      var rest := xs[1..];
      DefaultsWritten(w, rest);
      var bs := DefaultBoxesOf(w, xs);
      assert bs[0] == DefaultBox(w, xs[0]) && bs[1..] == DefaultBoxesOf(w, rest);
      assert WritableDefault(w, xs[0]);
      if xs[0].Trex? {
        TrexsBytesNext(w, xs[0], TrexsOf(rest));
      }
    }
  }

  lemma {:induction false} MovieWritten(w: Writer, xs: seq<Entry>)
    requires EachEntry(w, xs)
    ensures var bs := MovieBoxes(w, xs);
            && |bs| == |xs| && WritableBoxes(bs)
            && (FirstWritten(bs, MVEX).Some? <==> MvexOf(xs).Some?)
            && (MvexOf(xs).Some? ==>
                 FirstWritten(bs, MVEX).value == RowBytes(w, DefaultBoxesOf(w, MvexOf(xs).value)) && WritableDefaults(w, MvexOf(xs).value))
    decreases |xs|
  {
    if xs != [] {
      MovieWritten(w, xs[1..]);
      assert WritableEntry(w, xs[0]);
    }
  }

  lemma TrexsRead(w: Writer, moov: Bytes, boxes: seq<Atom>, ts: seq<Default>)
    requires w.Sound() && (forall i :: 0 <= i < |ts| ==> ts[i].Trex?) && EachDefault(w, ts)
    requires HoldsEach(moov, boxes, TrexsBytes(w, ts)) && AllWithin(boxes, moov)
    ensures forall pairs :: ReadAs(w.n, moov, boxes, pairs) <==> AllUsable(ts) && pairs == PairsOf(ts)
  {
    forall i | 0 <= i < |ts| ensures DefaultOf(w.n, moov, boxes[i]) == if UsableDefault(ts[i]) then Some(PairsOf(ts)[i]) else None {
      assert WritableDefault(w, ts[i]) && Holds(moov, boxes[i], TrexsBytes(w, ts)[i]);
      TrexRead(w, moov, boxes[i], ts[i]);
    }
    forall pairs | ReadAs(w.n, moov, boxes, pairs) ensures AllUsable(ts) && pairs == PairsOf(ts) {
      forall i | 0 <= i < |ts| ensures UsableDefault(ts[i]) && pairs[i] == PairsOf(ts)[i] {
        assert DefaultOf(w.n, moov, boxes[i]) == Some(pairs[i]);
      }
    }
    if AllUsable(ts) {
      assert ReadAs(w.n, moov, boxes, PairsOf(ts));
    }
  }

  /** The table of a row of defaults. */
  lemma TableRead(w: Writer, moov: Bytes, boxes: seq<Atom>, ts: seq<Default>)
    requires w.Sound() && (forall i :: 0 <= i < |ts| ==> ts[i].Trex?) && EachDefault(w, ts)
    requires HoldsEach(moov, boxes, TrexsBytes(w, ts)) && AllWithin(boxes, moov)
    ensures var r := DefaultsFrom(w.n, moov, boxes, map[]);
            && (r.Ok? <==> AllUsable(ts) && DistinctTracks(PairsOf(ts))) && (r.Ok? ==> r.value == Table(PairsOf(ts)))
  {
    TrexsRead(w, moov, boxes, ts);
    DefaultsExact(w.n, moov, boxes);
    UniqueTable(w.n, moov, boxes, PairsOf(ts), AllUsable(ts), DefaultsFrom(w.n, moov, boxes, map[]));
  }

  lemma UniqueTable(n: Numbers, moov: Bytes, boxes: seq<Atom>, pairs: seq<(nat, nat)>, usable: bool, r: Result<map<nat, nat>, Rejection>)
    requires AllWithin(boxes, moov) && forall others :: ReadAs(n, moov, boxes, others) <==> usable && others == pairs
    requires r.Ok? ==> exists read :: ReadAs(n, moov, boxes, read) && DistinctTracks(read) && Tabulates(r.value, read)
    requires r.Err? ==> forall others :: ReadAs(n, moov, boxes, others) ==> !DistinctTracks(others)
    ensures (r.Ok? <==> usable && DistinctTracks(pairs)) && (r.Ok? ==> r.value == Table(pairs))
  {
    if r.Ok? {
      var read :| ReadAs(n, moov, boxes, read) && DistinctTracks(read) && Tabulates(r.value, read);
      TableTabulates(pairs);
      OneTable(r.value, Table(pairs), pairs);
    } else if usable {
      assert ReadAs(n, moov, boxes, pairs);
    }
  }

  /** The inspection up to the fragments reads the table the movie box was written with. */
  lemma RootRead(w: Writer, moov: Bytes, root: Atom, xs: seq<Entry>)
    requires w.Sound() && WritableRoot(w, xs) && Holds(moov, root, RowBytes(w, MovieBoxes(w, xs)))
    ensures var boxes, table := DefaultBoxes(w.n, moov, root), TableOf(xs);
            && (table.Some? <==> boxes.Ok? && DefaultsFrom(w.n, moov, boxes.value, map[]).Ok?)
            && (table.Some? ==> DefaultsFrom(w.n, moov, boxes.value, map[]).value == table.value)
  {
    var bs, mvex := MovieBoxes(w, xs), MvexOf(xs);
    MovieWritten(w, xs);
    ChildrenRead(w, moov, root, bs);
    var kids := Children(w.n, moov, root);
    if kids.Ok? {
      FirstFound(moov, kids.value, bs, MVEX);
      if mvex.Some? {
        var box, inner := FirstOf(kids.value, MVEX).value, DefaultBoxesOf(w, mvex.value);
        DefaultsWritten(w, mvex.value);
        ChildrenRead(w, moov, box, inner);
        var found := Children(w.n, moov, box);
        if found.Ok? {
          AllFound(moov, found.value, inner, TREX);
          TableRead(w, moov, OfKind(found.value, TREX), TrexsOf(mvex.value));
        }
      }
    }
  }

  /** A movie written as bytes is accepted exactly when the defaults in its movie box can be tabulated and, with this table,
      the claims of its fragments are in order; the spans found are then the ones it claims. */
  lemma PrintedInspection(w: Writer, moov: Bytes, root: Atom, xs: seq<Entry>, parts: seq<Part>, media: seq<Range>, video: set<nat>)
    requires w.Sound() && WritableRoot(w, xs) && Holds(moov, root, RowBytes(w, MovieBoxes(w, xs))) && WritableMovie(w, parts)
    ensures var r, table := Inspection(w.n, moov, root, Fragments(w, parts), media, video), TableOf(xs);
            && (r.Ok? <==> table.Some? && InOrder(Movie(table.value, video, media), parts))
            && (r.Ok? ==> Some(r.value.spans) == MovieSpans(parts, table.value) && r.value.sequences == Sequences(parts))
  {
    RootRead(w, moov, root, xs);
    var table := TableOf(xs);
    if table.Some? {
      PrintedMovie(w, Movie(table.value, video, media), parts);
    }
  }
}
