/** Pass geometry of `inspectPng` (src/media/content.ts; section 8.2 of the PNG specification, second edition). */
module Adam7 {

  datatype Pass = Pass(x: nat, y: nat, dx: nat, dy: nat)

  const PROGRESSIVE: seq<Pass> := [Pass(0, 0, 1, 1)]

  const INTERLACED: seq<Pass> := [
    Pass(0, 0, 8, 8), Pass(4, 0, 8, 8), Pass(0, 4, 4, 8), Pass(2, 0, 4, 4), Pass(0, 2, 2, 4), Pass(1, 0, 2, 2), Pass(0, 1, 1, 2)]

  predicate IsPass(p: Pass) { p.x < p.dx && p.y < p.dy }

  /** Math.max(0, Math.ceil((size - first) / step)). The divisions of the source are exact: its steps are powers of two. */
  function Across(size: nat, first: nat, step: nat): nat
    requires step > 0
  {
    if size <= first then 0 else (size - first + step - 1) / step
  }

  function Width(p: Pass, width: nat): nat
    requires IsPass(p)
  {
    Across(width, p.x, p.dx)
  }

  function Height(p: Pass, height: nat): nat
    requires IsPass(p)
  {
    Across(height, p.y, p.dy)
  }

  predicate Covers(p: Pass, x: nat, y: nat)
    requires IsPass(p)
  {
    x % p.dx == p.x && y % p.dy == p.y
  }

  predicate Member(x: nat, first: nat, step: nat)
    requires step > 0
  {
    x % step == first
  }

  // ---------------------------------------------------------------- every pixel once

  function PassOf(x: nat, y: nat): (i: nat)
    ensures i < 7
  {
    if y % 2 == 1 then 6
    else if x % 2 == 1 then 5
    else if y % 4 == 2 then 4
    else if x % 4 == 2 then 3
    else if y % 8 == 4 then 2
    else if x % 8 == 4 then 1
    else 0
  }

  /** Each pixel lies in exactly one pass. */
  lemma OnePass(x: nat, y: nat, i: nat)
    requires i < 7
    ensures IsPass(INTERLACED[i])
    ensures Covers(INTERLACED[i], x, y) <==> i == PassOf(x, y)
  {
    Residues(x);
    Residues(y);
  }

  lemma Residues(x: nat)
    ensures x % 8 % 4 == x % 4 && x % 4 % 2 == x % 2
  {
  }

  // ---------------------------------------------------------------- areas

  /** How many of 0..size are hit by first, first + step, ...: the ceiling formula counts them. */
  lemma {:induction false} AcrossCounts(size: nat, first: nat, step: nat)
    requires first < step
    ensures Across(size + 1, first, step) == Across(size, first, step) + (if Member(size, first, step) then 1 else 0)
  {
    if size < first {
      ModUnique(size, step, 0, size);
      if size + 1 > first {
        DivUnique(step, step, 1, 0);
      }
    } else {
      var q, r := (size - first) / step, (size - first) % step;
      assert size - first == q * step + r;
      NextMultiple(q, step);
      if r == 0 {
        AcrossAtHit(size, first, step, q);
      } else {
        AcrossBetween(size, first, step, q, r);
      }
    }
  }

  lemma AcrossAtHit(size: nat, first: nat, step: nat, q: nat)
    requires first < step && size - first == q * step
    ensures Across(size, first, step) == q && Across(size + 1, first, step) == q + 1 && Member(size, first, step)
  {
    NextMultiple(q, step);
    DivUnique(size + 1 - first + step - 1, step, q + 1, 0);
    ModUnique(size, step, q, first);
    if size > first {
      DivUnique(size - first + step - 1, step, q, step - 1);
    } else {
      ZeroMultiple(q, step);
    }
  }

  lemma ZeroMultiple(q: nat, step: nat)
    requires step > 0 && q * step == 0
    ensures q == 0
  {
  }

  lemma AcrossBetween(size: nat, first: nat, step: nat, q: nat, r: nat)
    requires first < step && 0 < r < step && size - first == q * step + r
    ensures Across(size, first, step) == q + 1 && Across(size + 1, first, step) == q + 1 && !Member(size, first, step)
  {
    NextMultiple(q, step);
    DivUnique(size - first + step - 1, step, q + 1, r - 1);
    DivUnique(size + 1 - first + step - 1, step, q + 1, r);
    if first + r < step {
      ModUnique(size, step, q, first + r);
    } else {
      ModUnique(size, step, q + 1, first + r - step);
    }
  }

  lemma MultipleBounds(e: int, d: int)
    requires d > 0
    ensures e >= 1 ==> e * d >= d
    ensures e <= -1 ==> e * d <= -d
  {
  }

  lemma NextMultiple(w: int, h: int)
    ensures (w + 1) * h == w * h + h
  {
  }

  lemma DivUnique(n: int, d: int, q: int, r: int)
    requires d > 0 && 0 <= r < d && n == q * d + r
    ensures n / d == q && n % d == r
  {
    var e := n / d - q;
    assert n == (n / d) * d + n % d;
    assert e * d == r - n % d;
    MultipleBounds(e, d);
  }

  lemma ModUnique(n: int, d: int, q: int, r: int)
    requires d > 0 && 0 <= r < d && n == q * d + r
    ensures n % d == r
  {
    DivUnique(n, d, q, r);
  }

  predicate ArePasses(ps: seq<Pass>) { forall i :: 0 <= i < |ps| ==> IsPass(ps[i]) }

  function Area(ps: seq<Pass>, width: nat, height: nat): nat
    requires ArePasses(ps)
  {
    if ps == [] then 0 else Width(ps[0], width) * Height(ps[0], height) + Area(ps[1..], width, height)
  }

  lemma InterlacedPasses()
    ensures ArePasses(INTERLACED)
  {
  }

  /** The pixels of column `x` in the first `height` rows. */
  function Column(ps: seq<Pass>, x: nat, height: nat): nat
    requires ArePasses(ps)
  {
    if ps == [] then 0
    else
      assert IsPass(ps[0]);
      (if Member(x, ps[0].x, ps[0].dx) then Height(ps[0], height) else 0) + Column(ps[1..], x, height)
  }

  function Cell(ps: seq<Pass>, x: nat, y: nat): nat
    requires ArePasses(ps)
  {
    if ps == [] then 0 else (if Covers(ps[0], x, y) then 1 else 0) + Cell(ps[1..], x, y)
  }

  lemma {:induction false} AreaOfNextColumn(ps: seq<Pass>, width: nat, height: nat)
    requires ArePasses(ps)
    ensures Area(ps, width + 1, height) == Area(ps, width, height) + Column(ps, width, height)
  {
    if ps != [] {
      AcrossCounts(width, ps[0].x, ps[0].dx);
      var w, h := Width(ps[0], width), Height(ps[0], height);
      NextMultiple(w, h);
      AreaOfNextColumn(ps[1..], width, height);
    }
  }

  lemma {:induction false} ColumnOfNextRow(ps: seq<Pass>, x: nat, height: nat)
    requires ArePasses(ps)
    ensures Column(ps, x, height + 1) == Column(ps, x, height) + Cell(ps, x, height)
  {
    if ps != [] {
      AcrossCounts(height, ps[0].y, ps[0].dy);
      ColumnOfNextRow(ps[1..], x, height);
    }
  }

  ghost predicate EveryPixelOnce(ps: seq<Pass>) {
    ArePasses(ps) && forall x: nat, y: nat :: Cell(ps, x, y) == 1
  }

  lemma {:induction false} EmptyArea(ps: seq<Pass>, height: nat)
    requires ArePasses(ps)
    ensures Area(ps, 0, height) == 0
  {
    if ps != [] {
      EmptyArea(ps[1..], height);
    }
  }

  lemma {:induction false} EmptyColumn(ps: seq<Pass>, x: nat)
    requires ArePasses(ps)
    ensures Column(ps, x, 0) == 0
  {
    if ps != [] {
      EmptyColumn(ps[1..], x);
    }
  }

  lemma {:induction false} FullColumn(ps: seq<Pass>, x: nat, height: nat)
    requires EveryPixelOnce(ps)
    ensures Column(ps, x, height) == height
  {
    if height == 0 {
      EmptyColumn(ps, x);
    } else {
      FullColumn(ps, x, height - 1);
      ColumnOfNextRow(ps, x, height - 1);
    }
  }

  /** Passes that cover every pixel once have areas adding up to the image. */
  lemma {:induction false} AreasSum(ps: seq<Pass>, width: nat, height: nat)
    requires EveryPixelOnce(ps)
    ensures Area(ps, width, height) == width * height
  {
    if width == 0 {
      EmptyArea(ps, height);
    } else {
      AreasSum(ps, width - 1, height);
      AreaOfNextColumn(ps, width - 1, height);
      FullColumn(ps, width - 1, height);
      NextMultiple(width - 1, height);
    }
  }

  /** Exactly one pass of a list covers a pixel when the list has one index that does. */
  lemma {:induction false} CellOfOne(ps: seq<Pass>, x: nat, y: nat, k: int)
    requires ArePasses(ps) && forall i :: 0 <= i < |ps| ==> (Covers(ps[i], x, y) <==> i == k)
    ensures Cell(ps, x, y) == if 0 <= k < |ps| then 1 else 0
  {
    if ps != [] {
      assert forall i :: 0 <= i < |ps[1..]| ==> ps[1..][i] == ps[i + 1];
      CellOfOne(ps[1..], x, y, k - 1);
    }
  }

  lemma BothLayouts()
    ensures EveryPixelOnce(PROGRESSIVE) && EveryPixelOnce(INTERLACED)
  {
    InterlacedPasses();
    forall x: nat, y: nat ensures Cell(PROGRESSIVE, x, y) == 1 { CellOfOne(PROGRESSIVE, x, y, 0); }
    forall x: nat, y: nat ensures Cell(INTERLACED, x, y) == 1 {
      forall i | 0 <= i < 7 ensures Covers(INTERLACED[i], x, y) <==> i == PassOf(x, y) { OnePass(x, y, i); }
      CellOfOne(INTERLACED, x, y, PassOf(x, y));
    }
  }
}
