/** The integer error-accumulator line walk of `rasterizer::bresenham_line`
    (projects/Rasterizer/code/swrast.cc), stated as a function that lists the
    points the walk visits, together with what it guarantees: how many points,
    where it starts and ends, how each step moves, and that the error term
    stays bounded. */
module Bresenham {
  import opened Pixels

  function Abs(d: int): nat {
    if d < 0 then -d else d
  }

  function Max(a: int, b: int): int {
    if a < b then b else a
  }

  /** `(d < 0) ? -1 : 1`: a zero delta steps forward. */
  function Step(d: int): int {
    if d < 0 then -1 else 1
  }

  /** The constants of one walk: the two unit steps and the deltas after they
      have been multiplied by `2 * step`, as the source keeps them. */
  datatype Setup = Setup(stepX: int, stepY: int, dx: int, dy: int)

  function SetupOf(x1: int, y1: int, x2: int, y2: int): Setup {
    Setup(Step(x2 - x1), Step(y2 - y1), 2 * Abs(x2 - x1), 2 * Abs(y2 - y1))
  }

  /** The set-up statements of `bresenham_line`: the deltas, the unit
      steps, and the deltas scaled by `2 * step`, which doubles their
      magnitudes. */
  method ComputeSetup(x1: int, y1: int, x2: int, y2: int) returns (s: Setup)
    ensures s == SetupOf(x1, y1, x2, y2)
    ensures s.dx >= 0 && s.dy >= 0 && s.dx % 2 == 0 && s.dy % 2 == 0
  {
    var dx := x2 - x1;
    var dy := y2 - y1;
    var stepX := if dx < 0 then -1 else 1;
    var stepY := if dy < 0 then -1 else 1;
    dx := dx * (2 * stepX);
    dy := dy * (2 * stepY);
    s := Setup(stepX, stepY, dx, dy);
  }

  /** The walk is x-major when the doubled x delta exceeds the doubled y delta. */
  predicate XMajor(s: Setup) {
    s.dx > s.dy
  }

  /** The mutable state of the walk: the current pixel and the error fraction. */
  datatype Cursor = Cursor(x: int, y: int, fraction: int)

  /** The state before the first step. `dx >> 1` is `dx / 2` because the
      doubled delta is never negative. */
  function Start(x1: int, y1: int, s: Setup): Cursor {
    Cursor(x1, y1, if XMajor(s) then s.dy - s.dx / 2 else s.dx - s.dy / 2)
  }

  /** One iteration of whichever loop the walk runs. */
  function Advance(c: Cursor, s: Setup): Cursor {
    if XMajor(s) then
      if c.fraction >= 0 then Cursor(c.x + s.stepX, c.y + s.stepY, c.fraction - s.dx + s.dy)
      else Cursor(c.x + s.stepX, c.y, c.fraction + s.dy)
    else
      if c.fraction >= 0 then Cursor(c.x + s.stepX, c.y + s.stepY, c.fraction - s.dy + s.dx)
      else Cursor(c.x, c.y + s.stepY, c.fraction + s.dx)
  }

  /** The loop guard has failed: the major coordinate reached its target. */
  predicate Arrived(c: Cursor, x2: int, y2: int, s: Setup) {
    if XMajor(s) then c.x == x2 else c.y == y2
  }

  /** How far `a` still is from `b` when moving by `step`. */
  function Remaining(a: int, b: int, step: int): int {
    if step == 1 then b - a else a - b
  }

  /** Both steps are unit steps, both doubled deltas are magnitudes, and the
      major coordinate has not passed its target. */
  predicate Heading(c: Cursor, x2: int, y2: int, s: Setup) {
    (s.stepX == 1 || s.stepX == -1) && (s.stepY == 1 || s.stepY == -1) &&
    s.dx >= 0 && s.dy >= 0 &&
    if XMajor(s) then Remaining(c.x, x2, s.stepX) >= 0 else Remaining(c.y, y2, s.stepY) >= 0
  }

  function MajorRemaining(c: Cursor, x2: int, y2: int, s: Setup): int {
    if XMajor(s) then Remaining(c.x, x2, s.stepX) else Remaining(c.y, y2, s.stepY)
  }

  /** The pixels visited after `c`, one per loop iteration. */
  function Walk(c: Cursor, x2: int, y2: int, s: Setup): seq<Point>
    requires Heading(c, x2, y2, s)
    decreases MajorRemaining(c, x2, y2, s)
  {
    if Arrived(c, x2, y2, s) then []
    else
      var n := Advance(c, s);
      [Point(n.x, n.y)] + Walk(n, x2, y2, s)
  }

  /** Taking one step moves one point from the remaining walk to the visited prefix. */
  lemma WalkUnfold(visited: seq<Point>, c: Cursor, x2: int, y2: int, s: Setup)
    requires Heading(c, x2, y2, s) && !Arrived(c, x2, y2, s)
    ensures var n := Advance(c, s);
      Heading(n, x2, y2, s) &&
      (visited + [Point(n.x, n.y)]) + Walk(n, x2, y2, s) == visited + Walk(c, x2, y2, s)
  {
    var n := Advance(c, s);
    assert Walk(c, x2, y2, s) == [Point(n.x, n.y)] + Walk(n, x2, y2, s);
  }

  /** Every pixel `bresenham_line(x1, y1, x2, y2, c)` considers writing, in order:
      the start point, then one point per loop iteration. */
  function LinePath(x1: int, y1: int, x2: int, y2: int): seq<Point> {
    var s := SetupOf(x1, y1, x2, y2);
    [Point(x1, y1)] + Walk(Start(x1, y1, s), x2, y2, s)
  }

  // ---------------------------------------------------------------------
  // Length: one point per unit of the larger delta, plus the start point.

  lemma {:induction false} WalkLength(c: Cursor, x2: int, y2: int, s: Setup)
    requires Heading(c, x2, y2, s)
    ensures |Walk(c, x2, y2, s)| == MajorRemaining(c, x2, y2, s)
    decreases MajorRemaining(c, x2, y2, s)
  {
    if !Arrived(c, x2, y2, s) {
      WalkLength(Advance(c, s), x2, y2, s);
    }
  }

  /** The loop runs exactly `max(|x2-x1|, |y2-y1|)` times. */
  lemma LineLength(x1: int, y1: int, x2: int, y2: int)
    ensures |LinePath(x1, y1, x2, y2)| == Max(Abs(x2 - x1), Abs(y2 - y1)) + 1
  {
    var s := SetupOf(x1, y1, x2, y2);
    WalkLength(Start(x1, y1, s), x2, y2, s);
  }

  // ---------------------------------------------------------------------
  // The error term.

  /** The balance of one walk, in terms of the doubled major and minor deltas
      and the distances still to go along each axis: the fraction is fixed by
      how far the walk still has to go, and `dmin - dmaj <= f < dmin`. */
  predicate BalancedParts(f: int, dmaj: int, dmin: int, rmaj: int, rmin: int) {
    2 * f + 2 * dmin * rmaj == 2 * dmin + dmaj * (2 * rmin - 1) &&
    dmin - dmaj <= f < dmin
  }

  /** The error fraction of a cursor is balanced: in the x-major walk
      `dy - dx <= fraction < dy` (both doubled), in the y-major walk
      `dx - dy <= fraction < dx`. */
  predicate Balanced(c: Cursor, x2: int, y2: int, s: Setup) {
    var rx := Remaining(c.x, x2, s.stepX);
    var ry := Remaining(c.y, y2, s.stepY);
    if XMajor(s) then BalancedParts(c.fraction, s.dx, s.dy, rx, ry)
    else BalancedParts(c.fraction, s.dy, s.dx, ry, rx)
  }

  /** The balance equation at the start, with `major` and `minor` the
      undoubled deltas. */
  lemma StartAlgebra(major: int, minor: int)
    ensures 2 * (2 * minor - major) + 2 * (2 * minor) * major == 2 * (2 * minor) + (2 * major) * (2 * minor - 1)
  {
  }

  /** The initial fraction of a line with distinct endpoints is balanced. */
  lemma StartBalanced(x1: int, y1: int, x2: int, y2: int)
    requires x1 != x2 || y1 != y2
    ensures Balanced(Start(x1, y1, SetupOf(x1, y1, x2, y2)), x2, y2, SetupOf(x1, y1, x2, y2))
  {
    var s := SetupOf(x1, y1, x2, y2);
    var a: int, b: int := Abs(x2 - x1), Abs(y2 - y1);
    assert Remaining(x1, x2, s.stepX) == a;
    assert Remaining(y1, y2, s.stepY) == b;
    if XMajor(s) {
      assert s.dx / 2 == a;
      assert Start(x1, y1, s).fraction == 2 * b - a;
      StartAlgebra(a, b);
    } else {
      assert s.dy / 2 == b;
      assert Start(x1, y1, s).fraction == 2 * a - b;
      StartAlgebra(b, a);
    }
  }

  /** The walk starts heading towards its target with the fraction inside
      the bounds the loop keeps: `dy - dx <= fraction < dy` when x-major,
      `dx - dy <= fraction < dx` when y-major and the line is not a point. */
  lemma StartBounds(x1: int, y1: int, x2: int, y2: int)
    ensures var s := SetupOf(x1, y1, x2, y2);
      var f := Start(x1, y1, s).fraction;
      Heading(Start(x1, y1, s), x2, y2, s) &&
      (XMajor(s) ==> s.dy - s.dx <= f < s.dy) &&
      (!XMajor(s) && s.dy > 0 ==> s.dx - s.dy <= f < s.dx)
  {
    var s := SetupOf(x1, y1, x2, y2);
    assert s.dx / 2 == Abs(x2 - x1) && s.dy / 2 == Abs(y2 - y1);
  }

  /** One loop iteration keeps the balance: the major distance drops by one,
      and the minor one too exactly when the fraction was non-negative. */
  lemma StepBalanced(f: int, dmaj: int, dmin: int, rmaj: int, rmin: int)
    requires 0 <= dmin <= dmaj
    requires BalancedParts(f, dmaj, dmin, rmaj, rmin)
    ensures f >= 0 ==> BalancedParts(f - dmaj + dmin, dmaj, dmin, rmaj - 1, rmin - 1)
    ensures f < 0 ==> BalancedParts(f + dmin, dmaj, dmin, rmaj - 1, rmin)
  {
    assert 2 * dmin * (rmaj - 1) == 2 * dmin * rmaj - 2 * dmin;
    assert dmaj * (2 * (rmin - 1) - 1) == dmaj * (2 * rmin - 1) - 2 * dmaj;
  }

  /** Each step keeps the fraction balanced and inside its bounds. */
  lemma AdvanceBalanced(c: Cursor, x2: int, y2: int, s: Setup)
    requires Heading(c, x2, y2, s) && Balanced(c, x2, y2, s) && !Arrived(c, x2, y2, s)
    ensures Balanced(Advance(c, s), x2, y2, s)
  {
    var n := Advance(c, s);
    var rx, ry := Remaining(c.x, x2, s.stepX), Remaining(c.y, y2, s.stepY);
    if XMajor(s) {
      StepBalanced(c.fraction, s.dx, s.dy, rx, ry);
      assert Remaining(n.x, x2, s.stepX) == rx - 1;
      assert Remaining(n.y, y2, s.stepY) == if c.fraction >= 0 then ry - 1 else ry;
    } else {
      StepBalanced(c.fraction, s.dy, s.dx, ry, rx);
      assert Remaining(n.y, y2, s.stepY) == ry - 1;
      assert Remaining(n.x, x2, s.stepX) == if c.fraction >= 0 then rx - 1 else rx;
    }
  }

  /** A balanced walk with no major distance left has no minor distance left. */
  lemma EndBalanced(f: int, dmaj: int, dmin: int, rmin: int)
    requires dmaj > 0
    requires BalancedParts(f, dmaj, dmin, 0, rmin)
    ensures rmin == 0
  {
    if rmin >= 1 {
      MulLeftMonotone(dmaj, 1, 2 * rmin - 1);
    } else if rmin <= -1 {
      MulLeftMonotone(dmaj, 2 * rmin - 1, -3);
    }
  }

  // ---------------------------------------------------------------------
  // The walk ends on the far endpoint.

  /** A balanced walk finishes on `(x2, y2)`. */
  lemma {:induction false} WalkEnds(c: Cursor, x2: int, y2: int, s: Setup)
    requires Heading(c, x2, y2, s) && Balanced(c, x2, y2, s)
    ensures var path := [Point(c.x, c.y)] + Walk(c, x2, y2, s);
      path[|path| - 1] == Point(x2, y2)
    decreases MajorRemaining(c, x2, y2, s)
  {
    var rx, ry := Remaining(c.x, x2, s.stepX), Remaining(c.y, y2, s.stepY);
    if Arrived(c, x2, y2, s) {
      if XMajor(s) {
        EndBalanced(c.fraction, s.dx, s.dy, ry);
      } else {
        EndBalanced(c.fraction, s.dy, s.dx, rx);
      }
    } else {
      var n := Advance(c, s);
      AdvanceBalanced(c, x2, y2, s);
      WalkEnds(n, x2, y2, s);
      assert [Point(c.x, c.y)] + Walk(c, x2, y2, s) == [Point(c.x, c.y)] + ([Point(n.x, n.y)] + Walk(n, x2, y2, s));
    }
  }

  /** The walk starts on `(x1, y1)` and its last point is `(x2, y2)`. */
  lemma LineEnds(x1: int, y1: int, x2: int, y2: int)
    ensures var path := LinePath(x1, y1, x2, y2);
      path[0] == Point(x1, y1) && path[|path| - 1] == Point(x2, y2)
  {
    var s := SetupOf(x1, y1, x2, y2);
    if x1 != x2 || y1 != y2 {
      StartBalanced(x1, y1, x2, y2);
      WalkEnds(Start(x1, y1, s), x2, y2, s);
    } else {
      assert Arrived(Start(x1, y1, s), x2, y2, s);
    }
  }

  // ---------------------------------------------------------------------
  // Each step is a unit step of the major coordinate towards its target and
  // at most a unit step of the minor one in the sign of its delta.

  predicate StepOf(p: Point, q: Point, s: Setup) {
    if XMajor(s) then
      q.x == p.x + s.stepX && (q.y == p.y || q.y == p.y + s.stepY)
    else
      q.y == p.y + s.stepY && (q.x == p.x || q.x == p.x + s.stepX)
  }

  /** Distinct pixels that touch at a side or a corner. */
  predicate Neighbours(p: Point, q: Point) {
    p != q && -1 <= q.x - p.x <= 1 && -1 <= q.y - p.y <= 1
  }

  lemma {:induction false} WalkSteps(c: Cursor, x2: int, y2: int, s: Setup, path: seq<Point>)
    requires Heading(c, x2, y2, s)
    requires path == [Point(c.x, c.y)] + Walk(c, x2, y2, s)
    ensures forall k :: 0 <= k < |path| - 1 ==> StepOf(path[k], path[k + 1], s)
    decreases MajorRemaining(c, x2, y2, s)
  {
    if !Arrived(c, x2, y2, s) {
      var n := Advance(c, s);
      var rest := [Point(n.x, n.y)] + Walk(n, x2, y2, s);
      WalkSteps(n, x2, y2, s, rest);
      assert path == [Point(c.x, c.y)] + rest;
      forall k | 0 <= k < |path| - 1
        ensures StepOf(path[k], path[k + 1], s)
      {
        if k > 0 {
          assert path[k] == rest[k - 1] && path[k + 1] == rest[k];
        }
      }
    }
  }

  /** The walk is monotone and 8-connected: the major coordinate moves by
      exactly one unit in the sign of its delta on every step, the minor one
      by zero or one unit in the sign of its delta, so consecutive points are
      distinct neighbours. The x-major loop runs exactly when `|dx| > |dy|`. */
  lemma LineSteps(x1: int, y1: int, x2: int, y2: int)
    ensures XMajor(SetupOf(x1, y1, x2, y2)) <==> Abs(x2 - x1) > Abs(y2 - y1)
    ensures var path, s := LinePath(x1, y1, x2, y2), SetupOf(x1, y1, x2, y2);
      forall k :: 0 <= k < |path| - 1 ==>
        StepOf(path[k], path[k + 1], s) && Neighbours(path[k], path[k + 1])
  {
    var s := SetupOf(x1, y1, x2, y2);
    WalkSteps(Start(x1, y1, s), x2, y2, s, LinePath(x1, y1, x2, y2));
  }
}
