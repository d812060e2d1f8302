/** The decompressed half of `inspectPng` (src/media/content.ts): header fields, expected sizes, and the scanline check
    over however many chunks the inflater hands out. */
module PngScanlines {
  import opened Prelude
  import opened PngChunks
  import opened Adam7

  const MAX_EXPANDED := 64 * 1024 * 1024

  // ---------------------------------------------------------------- header

  datatype Header = Header(width: nat, height: nat, depth: nat, color: nat, compression: nat, filter: nat, interlace: nat)

  function HeaderOf(u32: Bytes -> nat, b: Bytes): Header
    requires |b| == 13
  {
    Header(u32(b[0..4]), u32(b[4..8]), b[8], b[9], b[10], b[11], b[12])
  }

  /** Samples per pixel; zero for a colour type that does not exist. */
  function Channels(color: nat): nat {
    if color == 0 || color == 3 then 1 else if color == 2 then 3 else if color == 4 then 2 else if color == 6 then 4 else 0
  }

  predicate DepthAllowed(color: nat, depth: nat) {
    if color == 0 then depth in [1, 2, 4, 8, 16]
    else if color == 3 then depth in [1, 2, 4, 8]
    else (color == 2 || color == 4 || color == 6) && depth in [8, 16]
  }

  predicate HeaderAllowed(h: Header, palette: bool) {
    && 0 < h.width <= 0x7FFF_FFFF && 0 < h.height <= 0x7FFF_FFFF && DepthAllowed(h.color, h.depth)
    && h.compression == 0 && h.filter == 0 && h.interlace <= 1 && (h.color == 3 ==> palette)
  }

  /** Samples of a pixel by the bits of its colour type: 1 for a palette, 2 for colour, 4 for alpha (section 6.1). */
  function Samples(color: nat): nat { (if color % 2 == 0 && color / 2 % 2 == 1 then 3 else 1) + if color / 4 % 2 == 1 then 1 else 0 }

  /** The headers allowed: small depths are for single samples only, depth 16 is not for palettes. */
  lemma HeaderExact(h: Header, palette: bool)
    ensures HeaderAllowed(h, palette) <==>
            && 1 <= h.width < 0x8000_0000 && 1 <= h.height < 0x8000_0000
            && h.color in {0, 2, 3, 4, 6} && h.depth in {1, 2, 4, 8, 16} && (h.depth < 8 ==> Samples(h.color) == 1)
            && (h.color == 3 ==> palette && h.depth != 16) && h.compression == 0 && h.filter == 0 && h.interlace in {0, 1}
    ensures HeaderAllowed(h, palette) ==> Channels(h.color) == Samples(h.color)
  {
    assert Samples(0) == 1 && Samples(2) == 3 && Samples(3) == 1 && Samples(4) == 2 && Samples(6) == 4;
  }

  /** Where the fields of a header stand. */
  lemma HeaderRead(u32: Bytes -> nat, width: Bytes, height: Bytes, rest: Bytes)
    requires |width| == |height| == 4 && |rest| == 5
    ensures HeaderOf(u32, width + height + rest) == Header(u32(width), u32(height), rest[0], rest[1], rest[2], rest[3], rest[4])
  {
    var b := width + height + rest;
    assert b[0..4] == width && b[4..8] == height;
    assert b[8] == rest[0] && b[9] == rest[1] && b[10] == rest[2] && b[11] == rest[3] && b[12] == rest[4];
  }

  // ---------------------------------------------------------------- scanlines

  /** `count` scanlines of `stride` bytes, the filter byte included. */
  datatype Rows = Rows(count: nat, stride: nat)

  predicate IsRows(r: Rows) { r.count > 0 && r.stride > 0 }

  predicate AreRows(rows: seq<Rows>) { forall i :: 0 <= i < |rows| ==> IsRows(rows[i]) }

  function Stride(w: nat, bits: nat): nat { 1 + (w * bits + 7) / 8 }

  /** The scanlines of the passes that are not empty. */
  function RowsOf(ps: seq<Pass>, h: Header): (rows: seq<Rows>)
    requires ArePasses(ps)
    ensures AreRows(rows)
  {
    if ps == [] then []
    else
      assert IsPass(ps[0]);
      var w, n := Width(ps[0], h.width), Height(ps[0], h.height);
      (if w == 0 || n == 0 then [] else [Rows(n, Stride(w, Channels(h.color) * h.depth))]) + RowsOf(ps[1..], h)
  }

  function Size(rows: seq<Rows>): nat { if rows == [] then 0 else rows[0].count * rows[0].stride + Size(rows[1..]) }

  function PassesOf(h: Header): (ps: seq<Pass>)
    ensures ArePasses(ps)
  {
    InterlacedPasses();
    if h.interlace == 0 then PROGRESSIVE else INTERLACED
  }

  /** Which pass holds a pixel: the only one, or the one of the interlaced pattern. */
  lemma LayoutExact(h: Header, x: nat, y: nat, i: nat)
    requires h.interlace <= 1 && i < |PassesOf(h)|
    ensures |PassesOf(h)| == if h.interlace == 1 then 7 else 1
    ensures IsPass(PassesOf(h)[i])
    ensures Covers(PassesOf(h)[i], x, y) <==> i == if h.interlace == 1 then PassOf(x, y) else 0
  {
    if h.interlace == 1 {
      OnePass(x, y, i);
    } else {
      WholeNumber(x);
      WholeNumber(y);
    }
  }

  lemma WholeNumber(x: nat)
    ensures x % 1 == 0
  {
  }

  /** The pass loop: sizes summed while the rows are listed. */
  method ExpectedRows(h: Header) returns (rows: seq<Rows>, expected: nat)
    ensures rows == RowsOf(PassesOf(h), h) && expected == Size(rows)
  {
    var ps, i := PassesOf(h), 0;
    rows, expected := [], 0;
    assert ps[..0] == [];
    while i < |ps|
      invariant 0 <= i <= |ps| && rows == RowsOf(ps[..i], h) && expected == Size(rows)
    {
      assert IsPass(ps[i]);
      var w, n := Width(ps[i], h.width), Height(ps[i], h.height);
      RowsOfNext(ps, i, h);
      if w != 0 && n != 0 {
        var row := Rows(n, Stride(w, Channels(h.color) * h.depth));
        SizeOfNext(rows, row);
        expected := expected + n * row.stride;
        rows := rows + [row];
      }
      i := i + 1;
    }
    assert ps[..i] == ps;
  }

  lemma {:induction false} RowsOfNext(ps: seq<Pass>, k: nat, h: Header)
    requires ArePasses(ps) && k < |ps|
    ensures IsPass(ps[k])
    ensures var w, n := Width(ps[k], h.width), Height(ps[k], h.height);
            RowsOf(ps[..k + 1], h) ==
            RowsOf(ps[..k], h) + if w == 0 || n == 0 then [] else [Rows(n, Stride(w, Channels(h.color) * h.depth))]
  {
    if k == 0 {
      assert ps[..1] == [ps[0]] && ps[..1][1..] == [] && ps[..0] == [];
    } else {
      var rest := ps[1..];
      assert ps[..k + 1][1..] == rest[..k] && ps[..k][1..] == rest[..k - 1];
      RowsOfNext(rest, k - 1, h);
    }
  }

  lemma {:induction false} SizeOfNext(rows: seq<Rows>, row: Rows)
    ensures Size(rows + [row]) == Size(rows) + row.count * row.stride
  {
    if rows == [] {
      assert rows + [row] == [row] && [row][1..] == [];
    } else {
      assert (rows + [row])[1..] == rows[1..] + [row];
      SizeOfNext(rows[1..], row);
    }
  }

  /** Whether `bytes` is a whole image: its scanlines one after another, each opening with a filter type of at most 4. */
  predicate IsImage(bytes: Bytes, rows: seq<Rows>)
    decreases |rows|, if rows == [] then 0 else rows[0].count
  {
    if rows == [] then bytes == []
    else if rows[0].count == 0 then IsImage(bytes, rows[1..])
    else
      && rows[0].stride > 0 && |bytes| >= rows[0].stride && bytes[0] <= 4
      && IsImage(bytes[rows[0].stride..], [rows[0].(count := rows[0].count - 1)] + rows[1..])
  }

  function Rest(rows: seq<Rows>): seq<Rows>
    requires rows != [] && rows[0].count > 0
  {
    [rows[0].(count := rows[0].count - 1)] + rows[1..]
  }

  /** Every scanline that starts inside `bytes`, the first of them at `at`, opens with a filter type of at most 4. */
  predicate FiltersAllowed(bytes: Bytes, at: nat, rows: seq<Rows>)
    decreases |rows|, if rows == [] then 0 else rows[0].count
  {
    if rows == [] then true
    else if rows[0].count == 0 then FiltersAllowed(bytes, at, rows[1..])
    else (at < |bytes| ==> bytes[at] <= 4) && FiltersAllowed(bytes, at + rows[0].stride, Rest(rows))
  }

  /** The next scanline to check: its pass, its row, its offset in the stream. */
  datatype Cursor = Cursor(pass: nat, row: nat, at: nat)

  predicate OnTrack(rows: seq<Rows>, c: Cursor) { c.pass <= |rows| && (c.pass < |rows| ==> c.row < rows[c.pass].count) }

  function Remaining(rows: seq<Rows>, pass: nat, row: nat): seq<Rows>
    requires pass <= |rows| && (pass < |rows| ==> row <= rows[pass].count)
  {
    if pass == |rows| then [] else [rows[pass].(count := rows[pass].count - row)] + rows[pass + 1..]
  }

  predicate FiltersFrom(bytes: Bytes, rows: seq<Rows>, c: Cursor)
    requires OnTrack(rows, c)
  {
    FiltersAllowed(bytes, c.at, Remaining(rows, c.pass, c.row))
  }

  /** One scanline further, into the next pass when this one is used up. */
  function Advance(rows: seq<Rows>, c: Cursor): (next: Cursor)
    requires AreRows(rows) && OnTrack(rows, c) && c.pass < |rows|
    ensures OnTrack(rows, next) && c.at < next.at
  {
    assert IsRows(rows[c.pass]) && (c.pass + 1 < |rows| ==> IsRows(rows[c.pass + 1]));
    var at := c.at + rows[c.pass].stride;
    if c.row + 1 == rows[c.pass].count then Cursor(c.pass + 1, 0, at) else Cursor(c.pass, c.row + 1, at)
  }

  /** How the inflater finished: normally, on bad data, or on something else. */
  datatype Ending = Done | BadData | Broken

  datatype Inflated = Inflated(outputs: seq<Bytes>, ending: Ending)

  function Concat(outputs: seq<Bytes>): Bytes { if outputs == [] then [] else outputs[0] + Concat(outputs[1..]) }

  /** What the whole decompressed stream deserves. */
  function Verdict(bytes: Bytes, ending: Ending, rows: seq<Rows>): Option<Rejection> {
    if |bytes| > Size(rows) || !FiltersAllowed(bytes, 0, rows) || ending.BadData? then Some(Invalid)
    else if ending.Broken? then Some(Unavailable)
    else if |bytes| != Size(rows) then Some(Invalid)
    else None
  }

  lemma {:induction false} ConcatOfNext(outputs: seq<Bytes>, k: nat)
    requires k < |outputs|
    ensures Concat(outputs[..k + 1]) == Concat(outputs[..k]) + outputs[k]
    ensures Concat(outputs) == Concat(outputs[..k]) + outputs[k] + Concat(outputs[k + 1..])
  {
    if k == 0 {
      assert outputs[..1] == [outputs[0]] && outputs[..1][1..] == [] && outputs[..0] == [];
      assert Concat(outputs[..1]) == outputs[0] + [];
    } else {
      ConcatOfNext(outputs[1..], k - 1);
      assert outputs[..k + 1][1..] == outputs[1..][..k] && outputs[..k][1..] == outputs[1..][..k - 1];
      assert outputs[1..][k..] == outputs[k + 1..];
      Regroup(outputs[0], Concat(outputs[1..][..k - 1]), outputs[k], Concat(outputs[k + 1..]));
    }
  }

  lemma {:induction false} FiltersBeyond(bytes: Bytes, at: nat, rows: seq<Rows>)
    requires at >= |bytes|
    ensures FiltersAllowed(bytes, at, rows)
    decreases |rows|, if rows == [] then 0 else rows[0].count
  {
    if rows != [] {
      if rows[0].count == 0 {
        FiltersBeyond(bytes, at, rows[1..]);
      } else {
        FiltersBeyond(bytes, at + rows[0].stride, Rest(rows));
      }
    }
  }

  lemma FiltersTurn(bytes: Bytes, rows: seq<Rows>, c: Cursor)
    requires AreRows(rows) && OnTrack(rows, c) && c.pass < |rows| && c.at < |bytes|
    ensures FiltersFrom(bytes, rows, c) <==> bytes[c.at] <= 4 && FiltersFrom(bytes, rows, Advance(rows, c))
  {
    var now := Remaining(rows, c.pass, c.row);
    assert now[1..] == rows[c.pass + 1..];
    assert Rest(now) == Remaining(rows, c.pass, c.row + 1);
    if c.row + 1 == rows[c.pass].count {
      var done, at := Remaining(rows, c.pass, c.row + 1), c.at + rows[c.pass].stride;
      assert done[1..] == rows[c.pass + 1..] == Remaining(rows, c.pass + 1, 0);
      assert FiltersAllowed(bytes, at, done) == FiltersAllowed(bytes, at, done[1..]);
    }
  }

  predicate Passed(rows: seq<Rows>, c: Cursor, end: nat) { end <= c.at || c.pass == |rows| }

  /** The loop over one output chunk. `bytes` is everything the inflater hands out in all. */
  method CheckOutput(ghost bytes: Bytes, output: Bytes, total: nat, rows: seq<Rows>, start: Cursor)
      returns (r: Option<Cursor>)
    requires AreRows(rows) && OnTrack(rows, start) && Passed(rows, start, total)
    requires total + |output| <= |bytes| && bytes[total..total + |output|] == output
    ensures r.Some? ==> OnTrack(rows, r.value) && Passed(rows, r.value, total + |output|)
    ensures FiltersFrom(bytes, rows, start) <==> r.Some? && FiltersFrom(bytes, rows, r.value)
  {
    var Cursor(pass, row, nextFilter) := start;
    while nextFilter < total + |output| && pass < |rows|
      invariant OnTrack(rows, Cursor(pass, row, nextFilter)) && Passed(rows, Cursor(pass, row, nextFilter), total)
      invariant FiltersFrom(bytes, rows, start) <==> FiltersFrom(bytes, rows, Cursor(pass, row, nextFilter))
      decreases total + |output| - nextFilter
    {
      ghost var before := Cursor(pass, row, nextFilter);
      assert bytes[nextFilter] == output[nextFilter - total];
      FiltersTurn(bytes, rows, before);
      if output[nextFilter - total] > 4 {
        return None;
      }
      nextFilter := nextFilter + rows[pass].stride;
      row := row + 1;
      if row == rows[pass].count {
        pass, row := pass + 1, 0;
      }
      assert Cursor(pass, row, nextFilter) == Advance(rows, before);
    }
    r := Some(Cursor(pass, row, nextFilter));
  }

  /** The loop over the inflater's output. */
  method CheckScanlines(inflated: Inflated, rows: seq<Rows>, expected: nat) returns (r: Option<Rejection>)
    requires AreRows(rows) && expected == Size(rows)
    ensures r == Verdict(Concat(inflated.outputs), inflated.ending, rows)
  {
    var outputs := inflated.outputs;
    ghost var bytes := Concat(outputs);
    var total, k := 0, 0;
    var cursor := Cursor(0, 0, 0);
    FiltersAtStart(bytes, rows);
    assert outputs[..0] == [];
    while k < |outputs|
      invariant 0 <= k <= |outputs| && total == |Concat(outputs[..k])| <= expected
      invariant OnTrack(rows, cursor) && Passed(rows, cursor, total)
      invariant FiltersAllowed(bytes, 0, rows) <==> FiltersFrom(bytes, rows, cursor)
    {
      ConcatOfNext(outputs, k);
      if total + |outputs[k]| > expected {
        return Some(Invalid);
      }
      var next := CheckOutput(bytes, outputs[k], total, rows, cursor);
      if next.None? {
        return Some(Invalid);
      }
      cursor := next.value;
      total := total + |outputs[k]|;
      k := k + 1;
    }
    assert outputs[..k] == outputs;
    PassedAll(bytes, rows, cursor);
    match inflated.ending
    case BadData => r := Some(Invalid);
    case Broken => r := Some(Unavailable);
    case Done => r := if total != expected then Some(Invalid) else None;
  }

  lemma FiltersAtStart(bytes: Bytes, rows: seq<Rows>)
    requires AreRows(rows)
    ensures OnTrack(rows, Cursor(0, 0, 0)) && FiltersFrom(bytes, rows, Cursor(0, 0, 0)) == FiltersAllowed(bytes, 0, rows)
  {
    if rows != [] {
      assert IsRows(rows[0]);
      assert Remaining(rows, 0, 0) == rows;
    }
  }

  lemma PassedAll(bytes: Bytes, rows: seq<Rows>, c: Cursor)
    requires OnTrack(rows, c) && Passed(rows, c, |bytes|)
    ensures FiltersFrom(bytes, rows, c)
  {
    if c.pass < |rows| {
      FiltersBeyond(bytes, c.at, Remaining(rows, c.pass, c.row));
    }
  }

  /** What the loop accepts is a whole image: the right length, and an allowed filter type at every scanline start. */
  lemma {:induction false} ImageIsFiltered(bytes: Bytes, at: nat, rows: seq<Rows>)
    requires at <= |bytes| && forall i :: 0 <= i < |rows| ==> rows[i].stride > 0
    ensures IsImage(bytes[at..], rows) <==> |bytes| - at == Size(rows) && FiltersAllowed(bytes, at, rows)
    decreases |rows|, if rows == [] then 0 else rows[0].count
  {
    if rows != [] {
      if rows[0].count == 0 {
        ImageIsFiltered(bytes, at, rows[1..]);
      } else {
        var stride := rows[0].stride;
        SizeOfRest(rows);
        if at + stride <= |bytes| {
          assert bytes[at..][stride..] == bytes[at + stride..];
          ImageIsFiltered(bytes, at + stride, Rest(rows));
        }
      }
    }
  }

  lemma SizeOfRest(rows: seq<Rows>)
    requires rows != [] && rows[0].count > 0
    ensures Size(rows) == rows[0].stride + Size(Rest(rows))
  {
    var r := rows[0];
    NextMultiple(r.count - 1, r.stride);
    assert Rest(rows)[1..] == rows[1..];
  }

  /** The verdict depends on the stream, not on how it was cut, and accepts exactly the whole images. */
  lemma VerdictExact(bytes: Bytes, ending: Ending, rows: seq<Rows>)
    requires AreRows(rows)
    ensures Verdict(bytes, ending, rows).None? <==> ending.Done? && IsImage(bytes, rows)
  {
    assert bytes[0..] == bytes;
    forall i | 0 <= i < |rows| ensures rows[i].stride > 0 { assert IsRows(rows[i]); }
    ImageIsFiltered(bytes, 0, rows);
  }

  function Lines(rows: seq<Rows>): nat { if rows == [] then 0 else rows[0].count + Lines(rows[1..]) }

  /** A filter byte and the pixels, with less than a byte to spare. */
  lemma StrideBounds(w: nat, bits: nat)
    ensures w * bits + 8 <= 8 * Stride(w, bits) <= w * bits + 15
  {
    var a := w * bits;
    assert Stride(w, bits) == 1 + (a + 7) / 8;
  }

  lemma MulMonotone(n: nat, a: nat, b: nat)
    requires a >= b
    ensures n * a >= n * b
  {
  }

  lemma PassBounds(n: nat, w: nat, bits: nat)
    ensures w * n * bits + 8 * n <= 8 * (n * Stride(w, bits)) <= w * n * bits + 15 * n
  {
    var a := w * bits;
    var stride := Stride(w, bits);
    StrideBounds(w, bits);
    MulMonotone(n, 8 * stride, a + 8);
    MulMonotone(n, a + 15, 8 * stride);
    Products(n, w, bits, stride);
  }

  lemma Products(n: nat, w: nat, bits: nat, stride: nat)
    ensures n * (8 * stride) == 8 * (n * stride)
    ensures n * (w * bits + 8) == w * n * bits + 8 * n && n * (w * bits + 15) == w * n * bits + 15 * n
  {
    var a := w * bits;
    assert n * a == w * n * bits;
    assert n * (a + 8) == n * a + 8 * n && n * (a + 15) == n * a + 15 * n;
  }

  lemma SumTimes(a: nat, b: nat, bits: nat)
    ensures (a + b) * bits == a * bits + b * bits
  {
  }

  lemma {:induction false} RowsHoldArea(ps: seq<Pass>, h: Header, bits: nat)
    requires ArePasses(ps) && bits == Channels(h.color) * h.depth
    ensures var area, rows := Area(ps, h.width, h.height), RowsOf(ps, h);
            area * bits + 8 * Lines(rows) <= 8 * Size(rows) <= area * bits + 15 * Lines(rows)
  {
    if ps != [] {
      assert IsPass(ps[0]);
      var w, n, rest := Width(ps[0], h.width), Height(ps[0], h.height), Area(ps[1..], h.width, h.height);
      RowsHoldArea(ps[1..], h, bits);
      if w == 0 || n == 0 {
        assert w * n == 0;
        assert RowsOf(ps, h) == RowsOf(ps[1..], h);
      } else {
        assert RowsOf(ps, h)[1..] == RowsOf(ps[1..], h);
        PassBounds(n, w, bits);
        SumTimes(w * n, rest, bits);
      }
    }
  }

  /** The size demanded of the stream is a filter byte a scanline and every pixel of the image, interlaced or not, with less
      than a byte to spare on each scanline. */
  lemma RowsHoldEveryPixel(h: Header)
    ensures var pixels, rows := h.width * h.height * (Channels(h.color) * h.depth), RowsOf(PassesOf(h), h);
            pixels + 8 * Lines(rows) <= 8 * Size(rows) <= pixels + 15 * Lines(rows)
  {
    BothLayouts();
    AreasSum(PassesOf(h), h.width, h.height);
    RowsHoldArea(PassesOf(h), h, Channels(h.color) * h.depth);
  }

  // ---------------------------------------------------------------- the whole inspection

  /** `inflate` is zlib's inflater on the image data chunks; `aborted` the signal once the header is known. */
  function Inspection(f: Fields, data: Bytes, inflate: seq<Bytes> -> Inflated, aborted: bool): Option<Rejection> {
    match Chunks(f, data)
    case Err(e) => Some(e)
    case Ok(s) =>
      if s.header.None? || |s.header.value| != 13 then Some(Invalid)
      else
        var h := HeaderOf(f.u32, s.header.value);
        var rows := RowsOf(PassesOf(h), h);
        if !HeaderAllowed(h, s.palette) then Some(Invalid)
        else if Size(rows) > MAX_EXPANDED then Some(LimitExceeded)
        else if aborted then Some(Unavailable)
        else Verdict(Concat(inflate(s.compressed).outputs), inflate(s.compressed).ending, rows)
  }

  method InspectPng(f: Fields, data: Bytes, inflate: seq<Bytes> -> Inflated, aborted: bool) returns (r: Option<Rejection>)
    ensures r == Inspection(f, data, inflate, aborted)
  {
    var chunks := InspectChunks(f, data);
    if chunks.Err? {
      return Some(chunks.error);
    }
    var s := chunks.value;
    if s.header.None? || |s.header.value| != 13 {
      return Some(Invalid);
    }
    var h := HeaderOf(f.u32, s.header.value);
    if !HeaderAllowed(h, s.palette) {
      return Some(Invalid);
    }
    var rows, expected := ExpectedRows(h);
    if expected > MAX_EXPANDED {
      return Some(LimitExceeded);
    }
    if aborted {
      return Some(Unavailable);
    }
    r := CheckScanlines(inflate(s.compressed), rows, expected);
  }

  /** A PNG file: allowed chunks, an allowed header, and image data that inflates to exactly its scanlines. */
  ghost predicate IsPngImage(f: Fields, data: Bytes, inflate: seq<Bytes> -> Inflated, cs: seq<Chunk>) {
    && Describes(f, data, cs) && cs != [] && |cs[0].body| == 13
    && var ps := Parts(f, cs);
       var h := HeaderOf(f.u32, cs[0].body);
       var rows := RowsOf(PassesOf(h), h);
       && HeaderAllowed(h, Has(ps, Plte)) && Size(rows) <= MAX_EXPANDED
       && inflate(DataOf(ps)).ending.Done? && IsImage(Concat(inflate(DataOf(ps)).outputs), rows)
  }

  lemma HeaderPresent(f: Fields, cs: seq<Chunk>)
    requires IsPng(f, cs)
    ensures cs != [] && |cs[0].body| == 13
  {
    var k :| 0 <= k < |Parts(f, cs)| && Parts(f, cs)[k].kind.Iend?;
    assert |Parts(f, cs)[0].body| == 13;
  }

  /** Without an abort the inspection accepts exactly the PNG files. */
  lemma InspectionExact(f: Fields, data: Bytes, inflate: seq<Bytes> -> Inflated)
    ensures Inspection(f, data, inflate, false).None? <==> exists cs: seq<Chunk> :: IsPngImage(f, data, inflate, cs)
  {
    ChunksExact(f, data);
    if Chunks(f, data).Ok? {
      forall cs: seq<Chunk> | Describes(f, data, cs)
        ensures Inspection(f, data, inflate, false).None? <==> IsPngImage(f, data, inflate, cs)
      {
        HeaderPresent(f, cs);
        var ps := Parts(f, cs);
        var h := HeaderOf(f.u32, cs[0].body);
        VerdictExact(Concat(inflate(DataOf(ps)).outputs), inflate(DataOf(ps)).ending, RowsOf(PassesOf(h), h));
      }
    }
  }
}
