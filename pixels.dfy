/** The value model of the rasterizer's colour buffer: a row-major sequence of
    `width*height` packed colours, cell `(x, y)` stored at `x + width*y`, and
    the bounds-guarded writes that the line drawer performs on it. */
module Pixels {

  /** A packed 32-bit colour (`unsigned int`). */
  type Color = bv32

  /** One entry of the depth buffer (`unsigned short`). */
  type Depth = bv16

  /** Largest value of a C++ `int`. */
  const IntMax: int := 0x7FFF_FFFF

  /** An integer pixel position. */
  datatype Point = Point(x: int, y: int)

  /** The guard in front of every write of the line drawer. */
  predicate InBounds(p: Point, width: nat, height: nat) {
    0 <= p.x < width && 0 <= p.y < height
  }

  /** The flattened index `x + width * y` of a pixel. */
  function Cell(p: Point, width: nat): int {
    p.x + width * p.y
  }

  /** Every in-bounds pixel has its own cell inside the buffer. */
  lemma CellInRange(p: Point, width: nat, height: nat)
    requires InBounds(p, width, height)
    ensures 0 <= Cell(p, width) < width * height
  {
    assert width * p.y <= width * (height - 1) by {
      MulLeftMonotone(width, p.y, height - 1);
    }
  }

  /** Two in-bounds pixels with the same cell are the same pixel. */
  lemma CellInjective(p: Point, q: Point, width: nat, height: nat)
    requires InBounds(p, width, height) && InBounds(q, width, height)
    requires Cell(p, width) == Cell(q, width)
    ensures p == q
  {
    if p.y < q.y {
      MulLeftMonotone(width, p.y + 1, q.y);
      assert false;
    } else if q.y < p.y {
      MulLeftMonotone(width, q.y + 1, p.y);
      assert false;
    }
  }

  lemma MulLeftMonotone(a: nat, b: int, c: int)
    requires b <= c
    ensures a * b <= a * c
  {
    assert a * c - a * b == a * (c - b);
  }

  /** A buffer of `n` cells that all hold `c`. */
  function Background(n: nat, c: Color): seq<Color> {
    seq(n, _ => c)
  }

  /** One guarded write: `c` at `p` when `p` lies inside the grid, nothing otherwise. */
  function Plot(cells: seq<Color>, width: nat, height: nat, p: Point, c: Color): (r: seq<Color>)
    requires |cells| == width * height
    ensures |r| == |cells|
  {
    if InBounds(p, width, height) then
      CellInRange(p, width, height);
      cells[Cell(p, width) := c]
    else
      cells
  }

  /** The guarded writes of `pts`, performed in order. */
  function PlotAll(cells: seq<Color>, width: nat, height: nat, pts: seq<Point>, c: Color): (r: seq<Color>)
    requires |cells| == width * height
    ensures |r| == |cells|
    decreases |pts|
  {
    if pts == [] then cells
    else Plot(PlotAll(cells, width, height, pts[..|pts| - 1], c), width, height, pts[|pts| - 1], c)
  }

  /** Writing one more point after `pts` is one more guarded write. */
  lemma PlotAllSnoc(cells: seq<Color>, width: nat, height: nat, pts: seq<Point>, p: Point, c: Color)
    requires |cells| == width * height
    ensures PlotAll(cells, width, height, pts + [p], c) == Plot(PlotAll(cells, width, height, pts, c), width, height, p, c)
  {
    assert (pts + [p])[..|pts|] == pts;
  }

  /** Writing `a` and then `b` is writing `a + b`. */
  lemma {:induction false} PlotAllConcat(cells: seq<Color>, width: nat, height: nat, a: seq<Point>, b: seq<Point>, c: Color)
    requires |cells| == width * height
    ensures PlotAll(PlotAll(cells, width, height, a, c), width, height, b, c) == PlotAll(cells, width, height, a + b, c)
    decreases |b|
  {
    if b == [] {
      assert a + b == a;
    } else {
      var n := |b| - 1;
      PlotAllConcat(cells, width, height, a, b[..n], c);
      assert (a + b)[..|a| + n] == a + b[..n];
      assert (a + b)[|a| + n] == b[n];
    }
  }

  /** Some in-bounds point of `pts` lands on cell `k`. */
  predicate Covers(pts: seq<Point>, width: nat, height: nat, k: int) {
    exists i :: 0 <= i < |pts| && InBounds(pts[i], width, height) && Cell(pts[i], width) == k
  }

  /** After the guarded writes of `pts`, a cell holds `c` exactly when an
      in-bounds point of `pts` lands on it, and its old colour otherwise:
      out-of-range points change nothing. */
  lemma {:induction false} PlotAllAt(cells: seq<Color>, width: nat, height: nat, pts: seq<Point>, c: Color, k: int)
    requires |cells| == width * height
    requires 0 <= k < |cells|
    ensures PlotAll(cells, width, height, pts, c)[k] == if Covers(pts, width, height, k) then c else cells[k]
    decreases |pts|
  {
    if pts != [] {
      var n := |pts| - 1;
      var init := pts[..n];
      PlotAllAt(cells, width, height, init, c, k);
      if InBounds(pts[n], width, height) && Cell(pts[n], width) == k {
        assert Covers(pts, width, height, k);
      } else {
        if Covers(pts, width, height, k) {
          var i :| 0 <= i < |pts| && InBounds(pts[i], width, height) && Cell(pts[i], width) == k;
          assert i < n && init[i] == pts[i];
        }
        if Covers(init, width, height, k) {
          var i :| 0 <= i < |init| && InBounds(init[i], width, height) && Cell(init[i], width) == k;
          assert pts[i] == init[i];
        }
      }
    }
  }
}
