/** What `rasterizer::draw_tri` and `rasterizer::render`
    (projects/Rasterizer/code/swrast.cc) do to the colour buffer, as functions
    on its contents: a triangle is outlined by three guarded line walks, and a
    frame draws, node after node, the triangles the index loop reaches. */
module Traversal {
  import opened Pixels
  import opened Bresenham
  import opened RasterizerNode

  /** The `camera_model` the rasterizer holds; camera.h is not part of this model. */
  type Camera

  /** The floating-point projection `camera->view() * transform.model() * v`
      followed by the truncation of its x and y to `int`, abstracted as a
      function from the camera, the node's transform and a vertex to a pixel. */
  type Projection = (Camera, TransformModel, Vertex) -> Point

  /** The pixels a line drawer visits between two endpoints. */
  type LineWalk = (Point, Point) -> seq<Point>

  /** `line` is the walk of `bresenham_line`. The equation is only
      instantiated where a `LinePath` is already in view, so reasoning about
      whole frames does not unfold every edge. */
  ghost predicate IsBresenham(line: LineWalk) {
    forall x1: int, y1: int, x2: int, y2: int {:trigger LinePath(x1, y1, x2, y2)} ::
      line(Point(x1, y1), Point(x2, y2)) == LinePath(x1, y1, x2, y2)
  }

  /** The three guarded line walks of `draw_tri`, in the source's order:
      edge 1-2, edge 1-3, edge 2-3. */
  function Outline(cells: seq<Color>, width: nat, height: nat, line: LineWalk, p1: Point, p2: Point, p3: Point, c: Color): (r: seq<Color>)
    requires |cells| == width * height
    ensures |r| == |cells|
  {
    var e12 := PlotAll(cells, width, height, line(p1, p2), c);
    var e13 := PlotAll(e12, width, height, line(p1, p3), c);
    PlotAll(e13, width, height, line(p2, p3), c)
  }

  /** A cell of an outlined triangle holds the line colour exactly when one
      of the three edges lands on it in bounds, and is untouched otherwise. */
  lemma OutlineAt(cells: seq<Color>, width: nat, height: nat, line: LineWalk, p1: Point, p2: Point, p3: Point, c: Color, k: int)
    requires |cells| == width * height && 0 <= k < |cells|
    ensures Outline(cells, width, height, line, p1, p2, p3, c)[k] ==
      if Covers(line(p1, p2), width, height, k) ||
         Covers(line(p1, p3), width, height, k) ||
         Covers(line(p2, p3), width, height, k)
      then c else cells[k]
  {
    var e12 := PlotAll(cells, width, height, line(p1, p2), c);
    var e13 := PlotAll(e12, width, height, line(p1, p3), c);
    PlotAllAt(cells, width, height, line(p1, p2), c, k);
    PlotAllAt(e12, width, height, line(p1, p3), c, k);
    PlotAllAt(e13, width, height, line(p2, p3), c, k);
  }

  /** The projected pixel of the vertex `node.get_by_index(i)`. */
  function Corner(node: Node, i: nat, camera: Camera, project: Projection): Point
    reads node
    requires node.Valid() && i < |node.indices|
  {
    project(camera, node.transform, node.GetByIndex(i))
  }

  /** The first indices `render` hands to `draw_tri` for an index list of
      length `n`, as written: `i = 0, 3, 6, ...` while `i < n / 3`. */
  function TriangleStarts(n: nat): seq<nat> {
    seq((n / 3 + 2) / 3, t => 3 * t)
  }

  /** The first indices of all complete triangles of an index list of length
      `n`: `i = 0, 3, 6, ...` while `i + 2 < n`. */
  function IntendedStarts(n: nat): seq<nat> {
    seq(n / 3, t => 3 * t)
  }

  /** As written, the loop reaches exactly the multiples of three below `n / 3`,
      and every index `draw_tri` then fetches (`i`, `i + 1`, `i + 2`) is below `n`. */
  lemma TriangleStartsMembers(n: nat, i: nat)
    ensures i in TriangleStarts(n) <==> i % 3 == 0 && i < n / 3
    ensures i in TriangleStarts(n) ==> i + 2 < n
  {
    if i % 3 == 0 && i < n / 3 {
      assert TriangleStarts(n)[i / 3] == i;
    }
  }

  /** The corrected loop reaches exactly the first index of every complete
      triangle. */
  lemma IntendedStartsMembers(n: nat, i: nat)
    ensures i in IntendedStarts(n) <==> i % 3 == 0 && i + 2 < n
  {
    if i % 3 == 0 && i + 2 < n {
      assert IntendedStarts(n)[i / 3] == i;
    }
  }

  /** As written, every list of two or more complete triangles loses some;
      with fewer than 12 indices the triangle at 3 is never drawn. For the 36
      indices of a cube only the triangles at 0, 3, 6 and 9 are drawn, 4 of 12. */
  lemma TriangleStartsMissTriangles(n: nat)
    requires n >= 6
    ensures |TriangleStarts(n)| < |IntendedStarts(n)|
    ensures 3 in IntendedStarts(n)
    ensures n < 12 ==> 3 !in TriangleStarts(n)
    ensures n == 36 ==> TriangleStarts(n) == [0, 3, 6, 9] && |IntendedStarts(n)| == 12
  {
    IntendedStartsMembers(n, 3);
    TriangleStartsMembers(n, 3);
  }

  /** `draw_tri(node, i)` for the first `t` starts `i = 0, 3, ..., 3 * (t - 1)`,
      in order: the reference the index loop is compared with. */
  function DrawTriangles(cells: seq<Color>, width: nat, height: nat, camera: Camera, project: Projection, line: LineWalk,
                         node: Node, t: nat, c: Color): (r: seq<Color>)
    reads node
    requires |cells| == width * height
    requires node.Valid() && 3 * t <= |node.indices|
    ensures |r| == |cells|
  {
    if t == 0 then cells
    else
      var i := 3 * (t - 1);
      var before := DrawTriangles(cells, width, height, camera, project, line, node, t - 1, c);
      Outline(before, width, height, line,
              Corner(node, i, camera, project), Corner(node, i + 1, camera, project), Corner(node, i + 2, camera, project), c)
  }

  /** The index loop of `render` from `i` on, as written: while `i < bound`,
      outline the triangle at `i` and step `i` by three. */
  function IndexLoop(cells: seq<Color>, width: nat, height: nat, camera: Camera, project: Projection, line: LineWalk,
                     node: Node, i: nat, bound: nat, c: Color): (r: seq<Color>)
    reads node
    requires |cells| == width * height
    requires node.Valid() && 3 * bound <= |node.indices|
    ensures |r| == |cells|
    decreases bound - i
  {
    if i < bound then
      var drawn := Outline(cells, width, height, line,
                           Corner(node, i, camera, project), Corner(node, i + 1, camera, project), Corner(node, i + 2, camera, project), c);
      IndexLoop(drawn, width, height, camera, project, line, node, i + 3, bound, c)
    else
      cells
  }

  /** The index loop of `render` for one node: `bound` is `index_count() / 3`. */
  function DrawNode(cells: seq<Color>, width: nat, height: nat, camera: Camera, project: Projection, line: LineWalk,
                    node: Node, c: Color): (r: seq<Color>)
    reads node
    requires |cells| == width * height
    requires node.Valid()
    ensures |r| == |cells|
  {
    IndexLoop(cells, width, height, camera, project, line, node, 0, node.IndexCount() / 3, c)
  }

  /** Continuing the loop from `i = 3 * j` after the first `j` triangles is
      drawing the first `(bound + 2) / 3` triangles. */
  lemma {:induction false} IndexLoopDrawsPrefix(cells: seq<Color>, width: nat, height: nat, camera: Camera, project: Projection,
                                                line: LineWalk, node: Node, j: nat, bound: nat, c: Color)
    requires |cells| == width * height
    requires node.Valid() && 3 * bound <= |node.indices| && 3 * j <= bound + 2
    ensures 3 * ((bound + 2) / 3) <= |node.indices|
    ensures IndexLoop(DrawTriangles(cells, width, height, camera, project, line, node, j, c),
                      width, height, camera, project, line, node, 3 * j, bound, c) ==
            DrawTriangles(cells, width, height, camera, project, line, node, (bound + 2) / 3, c)
    decreases bound + 2 - 3 * j
  {
    if 3 * j < bound {
      IndexLoopDrawsPrefix(cells, width, height, camera, project, line, node, j + 1, bound, c);
    } else {
      assert j == (bound + 2) / 3;
    }
  }

  /** As written, the index loop outlines exactly the triangles whose first
      indices `TriangleStarts` lists, in order: a prefix of the triangles the
      corrected loop would outline. */
  lemma DrawNodeDrawsTriangleStarts(cells: seq<Color>, width: nat, height: nat, camera: Camera, project: Projection,
                                    line: LineWalk, node: Node, c: Color)
    requires |cells| == width * height && node.Valid()
    ensures 3 * |TriangleStarts(node.IndexCount())| <= |node.indices|
    ensures |TriangleStarts(node.IndexCount())| <= |IntendedStarts(node.IndexCount())|
    ensures DrawNode(cells, width, height, camera, project, line, node, c) ==
      DrawTriangles(cells, width, height, camera, project, line, node, |TriangleStarts(node.IndexCount())|, c)
  {
    IndexLoopDrawsPrefix(cells, width, height, camera, project, line, node, 0, node.IndexCount() / 3, c);
  }

  /** The node loop of `render`: the first `k` nodes, node after node. */
  function DrawNodes(cells: seq<Color>, width: nat, height: nat, camera: Camera, project: Projection, line: LineWalk,
                     nodes: seq<Node>, k: nat, c: Color): (r: seq<Color>)
    reads set n | n in nodes
    requires |cells| == width * height
    requires k <= |nodes| && forall n :: n in nodes ==> n.Valid()
    ensures |r| == |cells|
  {
    if k == 0 then cells
    else
      var before := DrawNodes(cells, width, height, camera, project, line, nodes, k - 1, c);
      DrawNode(before, width, height, camera, project, line, nodes[k - 1], c)
  }

  /** Drawing triangles only ever paints the line colour: every cell keeps
      its colour or becomes `c`. */
  lemma {:induction false} DrawTrianglesColours(cells: seq<Color>, width: nat, height: nat, camera: Camera, project: Projection, line: LineWalk,
                                                node: Node, t: nat, c: Color, k: int)
    requires |cells| == width * height && 0 <= k < |cells|
    requires node.Valid() && 3 * t <= |node.indices|
    ensures var r := DrawTriangles(cells, width, height, camera, project, line, node, t, c);
      r[k] == c || r[k] == cells[k]
  {
    if t > 0 {
      var i := 3 * (t - 1);
      var before := DrawTriangles(cells, width, height, camera, project, line, node, t - 1, c);
      DrawTrianglesColours(cells, width, height, camera, project, line, node, t - 1, c, k);
      OutlineAt(before, width, height, line,
                Corner(node, i, camera, project), Corner(node, i + 1, camera, project), Corner(node, i + 2, camera, project), c, k);
    }
  }

  /** A frame drawn over a buffer keeps every cell's colour or paints it
      with the line colour; over a cleared buffer, every cell ends up as the
      background or as the line colour. */
  lemma {:induction false} DrawNodesColours(cells: seq<Color>, width: nat, height: nat, camera: Camera, project: Projection, line: LineWalk,
                                            nodes: seq<Node>, count: nat, c: Color, k: int)
    requires |cells| == width * height && 0 <= k < |cells|
    requires count <= |nodes| && forall n :: n in nodes ==> n.Valid()
    ensures var r := DrawNodes(cells, width, height, camera, project, line, nodes, count, c);
      r[k] == c || r[k] == cells[k]
  {
    if count > 0 {
      var node := nodes[count - 1];
      var before := DrawNodes(cells, width, height, camera, project, line, nodes, count - 1, c);
      DrawNodesColours(cells, width, height, camera, project, line, nodes, count - 1, c, k);
      DrawNodeDrawsTriangleStarts(before, width, height, camera, project, line, node, c);
      DrawTrianglesColours(before, width, height, camera, project, line, node, |TriangleStarts(node.IndexCount())|, c, k);
    }
  }
}
