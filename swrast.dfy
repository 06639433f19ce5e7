/** `rasterizer` (projects/Rasterizer/code/swrast.cc): a `width*height`
    colour buffer filled in place, a depth buffer that is allocated and never
    used, and the line drawer, triangle outliner and frame loop that write
    into the colour buffer. */
module Swrast {
  import opened Pixels
  import opened Bresenham
  import opened RasterizerNode
  import opened Traversal

  class Rasterizer {
    const height: nat
    const width: nat
    const color: Color
    const camera: Camera
    const buffer: array<Color>
    const depth: array<Depth>
    /** The walk of `bresenham_line`, which every triangle edge follows. */
    ghost const line: LineWalk
    /** `nodes_`: the nodes `render` draws, in order. They are added through
        swrast.h, which is not part of this model; callers assign the field. */
    var nodes: seq<Node>

    /** Both buffers hold one entry per pixel, the fill loops' `int`
        counter can reach `width * height`, and edges are Bresenham lines. */
    ghost predicate Valid()
      reads this
    {
      buffer.Length == width * height && depth.Length == width * height &&
      width * height <= IntMax && IsBresenham(line)
    }

    /** Allocates both buffers and fills every colour cell with `color`.
        Note the parameter order: height before width. */
    constructor (height: nat, width: nat, camera: Camera, color: Color)
      requires width * height <= IntMax
      ensures Valid() && fresh(buffer) && fresh(depth)
      ensures this.height == height && this.width == width && this.color == color && this.camera == camera
      ensures nodes == []
      ensures buffer[..] == Background(width * height, color)
    {
      this.height := height;
      this.width := width;
      this.color := color;
      this.camera := camera;
      buffer := new Color[width * height];
      depth := new Depth[width * height];
      nodes := [];
      line := (p: Point, q: Point) => LinePath(p.x, p.y, q.x, q.y);
      new;
      var i := 0;
      while i < width * height
        invariant 0 <= i <= width * height
        invariant forall k :: 0 <= k < i ==> buffer[k] == color
        invariant nodes == []
      {
        buffer[i] := color;
        i := i + 1;
      }
    }

    /** `put_pixel`: writes cell `x + width * y` with no check of its own, so
        the pixel must lie inside the buffer; every other cell is unchanged. */
    method PutPixel(x: int, y: int, c: Color)
      requires Valid() && InBounds(Point(x, y), width, height)
      modifies buffer
      ensures buffer[..] == Plot(old(buffer[..]), width, height, Point(x, y), c)
    {
      CellInRange(Point(x, y), width, height);
      buffer[x + width * y] := c;
    }

    /** `bresenham_line`: walks from `(x1, y1)` to `(x2, y2)` and paints every
        visited pixel that lies inside the buffer (see `PlotAllAt` for what
        that does to each cell). */
    method BresenhamLine(x1: int, y1: int, x2: int, y2: int, c: Color)
      requires Valid()
      modifies buffer
      ensures buffer[..] == PlotAll(old(buffer[..]), width, height, LinePath(x1, y1, x2, y2), c)
    {
      var s := ComputeSetup(x1, y1, x2, y2);

      if 0 <= x1 < width && 0 <= y1 < height {
        PutPixel(x1, y1, c);
      }
      ghost var started := buffer[..];
      assert started == PlotAll(old(buffer[..]), width, height, [Point(x1, y1)], c);

      StartBounds(x1, y1, x2, y2);
      if s.dx > s.dy {
        var fraction := s.dy - s.dx / 2;
        XMajorLoop(x1, y1, fraction, x2, y2, s, c);
      } else {
        var fraction := s.dx - s.dy / 2;
        YMajorLoop(x1, y1, fraction, x2, y2, s, c);
      }
      PlotAllConcat(old(buffer[..]), width, height, [Point(x1, y1)], Walk(Start(x1, y1, s), x2, y2, s), c);
    }

    /** The x-major loop of `bresenham_line`: `x` moves one step towards `x2`
        per iteration, `y` follows when the fraction is non-negative, and each
        new pixel is painted when it lies inside the buffer. */
    method XMajorLoop(x0: int, y0: int, fraction0: int, x2: int, y2: int, s: Setup, c: Color)
      requires Valid() && XMajor(s) && Heading(Cursor(x0, y0, fraction0), x2, y2, s)
      requires s.dy - s.dx <= fraction0 < s.dy
      modifies buffer
      ensures buffer[..] == PlotAll(old(buffer[..]), width, height, Walk(Cursor(x0, y0, fraction0), x2, y2, s), c)
    {
      var x, y, fraction := x0, y0, fraction0;
      ghost var done := [];
      while x != x2
        invariant Heading(Cursor(x, y, fraction), x2, y2, s)
        invariant done + Walk(Cursor(x, y, fraction), x2, y2, s) == Walk(Cursor(x0, y0, fraction0), x2, y2, s)
        invariant buffer[..] == PlotAll(old(buffer[..]), width, height, done, c)
        invariant s.dy - s.dx <= fraction < s.dy
        decreases MajorRemaining(Cursor(x, y, fraction), x2, y2, s)
      {
        WalkUnfold(done, Cursor(x, y, fraction), x2, y2, s);
        ghost var next := Advance(Cursor(x, y, fraction), s);
        x := x + s.stepX;
        if fraction >= 0 {
          y := y + s.stepY;
          fraction := fraction - s.dx;
        }
        fraction := fraction + s.dy;
        assert Cursor(x, y, fraction) == next;
        if 0 <= x < width && 0 <= y < height {
          PutPixel(x, y, c);
        }
        PlotAllSnoc(old(buffer[..]), width, height, done, Point(x, y), c);
        done := done + [Point(x, y)];
      }
      assert done == Walk(Cursor(x0, y0, fraction0), x2, y2, s);
    }

    /** The y-major loop of `bresenham_line`: `y` moves one step towards `y2`
        per iteration, `x` follows when the fraction is non-negative, and each
        new pixel is painted when it lies inside the buffer. */
    method YMajorLoop(x0: int, y0: int, fraction0: int, x2: int, y2: int, s: Setup, c: Color)
      requires Valid() && !XMajor(s) && Heading(Cursor(x0, y0, fraction0), x2, y2, s)
      requires s.dy > 0 ==> s.dx - s.dy <= fraction0 < s.dx
      modifies buffer
      ensures buffer[..] == PlotAll(old(buffer[..]), width, height, Walk(Cursor(x0, y0, fraction0), x2, y2, s), c)
    {
      var x, y, fraction := x0, y0, fraction0;
      ghost var done := [];
      while y != y2
        invariant Heading(Cursor(x, y, fraction), x2, y2, s)
        invariant done + Walk(Cursor(x, y, fraction), x2, y2, s) == Walk(Cursor(x0, y0, fraction0), x2, y2, s)
        invariant buffer[..] == PlotAll(old(buffer[..]), width, height, done, c)
        invariant s.dy > 0 ==> s.dx - s.dy <= fraction < s.dx
        decreases MajorRemaining(Cursor(x, y, fraction), x2, y2, s)
      {
        WalkUnfold(done, Cursor(x, y, fraction), x2, y2, s);
        ghost var next := Advance(Cursor(x, y, fraction), s);
        if fraction >= 0 {
          x := x + s.stepX;
          fraction := fraction - s.dy;
        }
        y := y + s.stepY;
        fraction := fraction + s.dx;
        assert Cursor(x, y, fraction) == next;
        if 0 <= x < width && 0 <= y < height {
          PutPixel(x, y, c);
        }
        PlotAllSnoc(old(buffer[..]), width, height, done, Point(x, y), c);
        done := done + [Point(x, y)];
      }
      assert done == Walk(Cursor(x0, y0, fraction0), x2, y2, s);
    }

    /** `draw_tri`: projects the three vertices the node's indices `index`,
        `index + 1` and `index + 2` name and outlines the triangle with the
        edges 1-2, 1-3 and 2-3. No pixel inside the triangle is filled. */
    method DrawTri(node: Node, index: nat, project: Projection, lineColor: Color)
      requires Valid() && node.Valid() && index + 2 < |node.indices|
      modifies buffer
      ensures buffer[..] == Outline(old(buffer[..]), width, height, line,
        Corner(node, index, camera, project), Corner(node, index + 1, camera, project),
        Corner(node, index + 2, camera, project), lineColor)
    {
      var v1 := node.GetByIndex(index);
      var v2 := node.GetByIndex(index + 1);
      var v3 := node.GetByIndex(index + 2);

      var p1 := project(camera, node.GetTransform(), v1);
      var p2 := project(camera, node.GetTransform(), v2);
      var p3 := project(camera, node.GetTransform(), v3);

      BresenhamLine(p1.x, p1.y, p2.x, p2.y, lineColor);
      BresenhamLine(p1.x, p1.y, p3.x, p3.y, lineColor);
      BresenhamLine(p2.x, p2.y, p3.x, p3.y, lineColor);
    }

    /** `clear`: every colour cell becomes the background colour, whatever it
        held before, so a second call changes nothing; the depth buffer is
        left alone. */
    method Clear()
      requires Valid()
      modifies buffer
      ensures buffer[..] == Background(width * height, color)
      ensures depth[..] == old(depth[..])
    {
      var i := 0;
      while i < width * height
        invariant 0 <= i <= width * height
        invariant forall k :: 0 <= k < i ==> buffer[k] == color
      {
        buffer[i] := color;
        i := i + 1;
      }
    }

    /** The index loop of `render` for one node, as written: `draw_tri` at
        `i = 0, 3, 6, ...` while `i < index_count() / 3`. */
    method DrawNodeTriangles(node: Node, project: Projection, lineColor: Color)
      requires Valid() && node.Valid()
      modifies buffer
      ensures buffer[..] == DrawNode(old(buffer[..]), width, height, camera, project, line, node, lineColor)
    {
      ghost var before := buffer[..];
      var bound := node.IndexCount() / 3;
      assert 3 * bound <= |node.indices|;
      var i: nat := 0;
      while i < bound
        invariant IndexLoop(buffer[..], width, height, camera, project, line, node, i, bound, lineColor) ==
                  IndexLoop(before, width, height, camera, project, line, node, 0, bound, lineColor)
        decreases bound - i
      {
        DrawTri(node, i, project, lineColor);
        i := i + 3;
      }
    }

    /** `render`: clears the buffer, then draws every node, in order, with
        the index loop above. */
    method Render(project: Projection, lineColor: Color)
      requires Valid()
      requires forall n :: n in nodes ==> n.Valid()
      modifies buffer
      ensures buffer[..] == DrawNodes(Background(width * height, color), width, height, camera, project, line, nodes, |nodes|, lineColor)
      ensures depth[..] == old(depth[..])
    {
      Clear();
      var k := 0;
      while k < |nodes|
        invariant 0 <= k <= |nodes|
        invariant buffer[..] == DrawNodes(Background(width * height, color), width, height, camera, project, line, nodes, k, lineColor)
      {
        DrawNodeTriangles(nodes[k], project, lineColor);
        k := k + 1;
      }
    }
  }
}
