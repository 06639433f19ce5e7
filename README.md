# Software rasterizer: colour buffer, Bresenham lines and frame traversal

This project models the integer core of the `efiilj` software rasterizer:

- the `rasterizer` class of `projects/Rasterizer/code/swrast.cc`;
- the `rasterizer_node` container of `projects/Rasterizer/code/rnode.h`, which the rasterizer reads.

The rasterizer owns two arrays:

- `buffer_`: a row-major colour buffer of `width * height` packed 32-bit colours. The pixel `(x, y)` lives in cell `x + width * y`.
- `depth_`: a depth buffer of the same size. It is allocated and never used.

The model is split by concern:

- `Pixels` is the value model of the colour buffer. It has the guarded write `Plot` and its repetition `PlotAll` over a list of pixels. `PlotAllAt` states what a run of guarded writes does to every cell.
- `Bresenham` describes what `bresenham_line` walks, as a function `LinePath` over the integer endpoints. It proves the length of the walk, its end points, its monotone 8-connected steps and the bounds on its error fraction.
- `RasterizerNode` is the `rasterizer_node` class. The vertex, shader and transform types are opaque.
- `Traversal` describes what `draw_tri` and `render` do to the buffer contents. It models `render`'s index loop exactly as written (`IndexLoop`) and compares it with a reference that outlines the first `t` triangles (`DrawTriangles`). It also holds the triangle starts the loop reaches and those a corrected loop reaches.
- `Swrast` is the `rasterizer` class. It has an `array` colour buffer and depth buffer, and every method is imperative like the source: the fill loops, `put_pixel`, both loops of `bresenham_line`, `draw_tri`, `clear` and the nested loops of `render`. Each method is proved against the functions above.

`draw_tri` projects each vertex with floating-point matrices and truncates the result to `int`. That projection is a parameter `project` of type `(Camera, TransformModel, Vertex) -> Point`. Everything from the integer endpoints on is modelled.

The colour `bresenham_line` paints by default is declared in swrast.h, which is not part of this model. It is a parameter `lineColor` here.

## Model

| member | source | states |
|---|---|---|
| Pixels.CellInRange | projects/Rasterizer/code/swrast.cc:32-35 | the cell `x + width*y` of an in-bounds pixel lies inside the `width*height` buffer |
| Pixels.CellInjective | projects/Rasterizer/code/swrast.cc:32-35 | two in-bounds pixels never share a cell, so a write hits one pixel only |
| Pixels.PlotAllConcat | projects/Rasterizer/code/swrast.cc:67-103 | painting the start point and then the loop's points is painting the whole walk |
| Pixels.PlotAllAt | projects/Rasterizer/code/swrast.cc:67-68 | after guarded writes, a cell holds `c` exactly when an in-bounds point of the walk lands on it; every other cell keeps its colour, and out-of-range points are skipped |
| Bresenham.ComputeSetup | projects/Rasterizer/code/swrast.cc:58-65 | the steps are the signs of the deltas, and the deltas become doubled absolute values, even and non-negative |
| Bresenham.LineLength | projects/Rasterizer/code/swrast.cc:70-103 | the walk visits `max(abs(x2-x1), abs(y2-y1)) + 1` points: the start point plus one per loop iteration |
| Bresenham.LineEnds | projects/Rasterizer/code/swrast.cc:67-103 | the walk starts on `(x1, y1)` and its last point is `(x2, y2)` |
| Bresenham.LineSteps | projects/Rasterizer/code/swrast.cc:70-103 | the x-major branch is taken exactly when `abs(dx) > abs(dy)`; each step moves the major coordinate one unit towards its target and the minor one by zero or one unit in the sign of its delta, so consecutive points are distinct 8-neighbours |
| Bresenham.StartBalanced | projects/Rasterizer/code/swrast.cc:70-89 | the initial fraction `dy - dx/2` (or `dx - dy/2`) satisfies the balance equation that ties the fraction to the distances still to go |
| Bresenham.StartBounds | projects/Rasterizer/code/swrast.cc:70-89 | the initial fraction lies within `dy - dx <= fraction < dy` in the x-major branch, and within `dx - dy <= fraction < dx` in the y-major branch of a line of non-zero length |
| Bresenham.AdvanceBalanced | projects/Rasterizer/code/swrast.cc:76-99 | one iteration keeps the fraction balanced and inside its bounds |
| Bresenham.StepBalanced | projects/Rasterizer/code/swrast.cc:77-82 | the fraction update with and without the minor step keeps the balance, with the minor distance dropping exactly when the fraction was non-negative |
| Bresenham.EndBalanced | projects/Rasterizer/code/swrast.cc:74-91 | once the major coordinate reaches its target, a balanced fraction forces the minor coordinate onto its target too |
| RasterizerNode.Node.constructor | projects/Rasterizer/code/rnode.h:22 | stores the vertices, indices and transform; both shader members start empty |
| RasterizerNode.Node.SetVertexShader | projects/Rasterizer/code/rnode.h:24 | replaces the vertex shader with the given, possibly empty, function; vertices, indices, fragment shader and transform are unchanged |
| RasterizerNode.Node.SetFragmentShader | projects/Rasterizer/code/rnode.h:25 | replaces the fragment shader with the given, possibly empty, function; every other field is unchanged |
| RasterizerNode.Node.VertexCount | projects/Rasterizer/code/rnode.h:27 | the number of vertices, truncated to `unsigned int`; equal to it whenever it fits |
| RasterizerNode.Node.IndexCount | projects/Rasterizer/code/rnode.h:28 | the number of indices, truncated to `unsigned int`; equal to it whenever it fits |
| RasterizerNode.Node.GetByIndex | projects/Rasterizer/code/rnode.h:30 | the vertex that the `i`-th index names; requires both unchecked lookups to be in range |
| RasterizerNode.Node.WriteByIndex | projects/Rasterizer/code/rnode.h:30 | a write through the returned reference replaces only the vertex that index `i` names; the index list and every vertex named by another index are unchanged |
| RasterizerNode.Node.SetTransform | projects/Rasterizer/code/rnode.h:32-33 | after the setter the getter yields the new transform; geometry and shaders are unchanged |
| Traversal.OutlineAt | projects/Rasterizer/code/swrast.cc:51-53 | a cell of an outlined triangle holds the line colour exactly when edge 1-2, 1-3 or 2-3 lands on it in bounds, and keeps its colour otherwise |
| Traversal.TriangleStartsMembers | projects/Rasterizer/code/swrast.cc:120 | as written, the loop reaches exactly the multiples of three below `index_count()/3`, and every index `draw_tri` then fetches is below `index_count()` |
| Traversal.IntendedStartsMembers | projects/Rasterizer/code/swrast.cc:120 | the corrected loop reaches exactly the first index of every complete triangle |
| Traversal.TriangleStartsMissTriangles | projects/Rasterizer/code/swrast.cc:120 | with two or more triangles, the loop as written draws fewer triangles than there are; for 36 indices it draws those at 0, 3, 6 and 9 only |
| Traversal.IndexLoopDrawsPrefix | projects/Rasterizer/code/swrast.cc:120-123 | running the index loop from `i = 3j` after the first `j` triangles draws the first `(bound + 2) / 3` triangles, in order |
| Traversal.DrawNodeDrawsTriangleStarts | projects/Rasterizer/code/swrast.cc:120-123 | for one node, the loop as written outlines exactly the triangles that start at the listed positions, in order; these are a prefix of all complete triangles |
| Traversal.DrawTrianglesColours | projects/Rasterizer/code/swrast.cc:37-54 | outlining triangles only ever paints the line colour: each cell keeps its colour or becomes `c` |
| Traversal.DrawNodesColours | projects/Rasterizer/code/swrast.cc:114-125 | after drawing the nodes over a buffer, each cell holds its old colour or the line colour; over a cleared buffer that means the background or the line colour |
| Swrast.Rasterizer.constructor | projects/Rasterizer/code/swrast.cc:10-22 | stores `height`, `width`, `camera` and `color` (height first) and allocates both buffers with `width*height` cells; every colour cell holds `color` |
| Swrast.Rasterizer.PutPixel | projects/Rasterizer/code/swrast.cc:32-35 | writes `c` to cell `x + width*y` of an in-bounds pixel and leaves every other cell unchanged |
| Swrast.Rasterizer.BresenhamLine | projects/Rasterizer/code/swrast.cc:56-104 | the buffer afterwards is the old buffer with every in-bounds point of `LinePath` painted `c`; only the colour buffer changes |
| Swrast.Rasterizer.XMajorLoop | projects/Rasterizer/code/swrast.cc:70-86 | the x-major loop paints the in-bounds points of the walk's remaining steps, keeping `dy - dx <= fraction < dy` |
| Swrast.Rasterizer.YMajorLoop | projects/Rasterizer/code/swrast.cc:87-103 | the y-major loop paints the in-bounds points of the walk's remaining steps, keeping `dx - dy <= fraction < dx` |
| Swrast.Rasterizer.DrawTri | projects/Rasterizer/code/swrast.cc:37-54 | the buffer is outlined with the Bresenham edges 1-2, 1-3 and 2-3 between the projected vertices that indices `index`, `index+1` and `index+2` name |
| Swrast.Rasterizer.Clear | projects/Rasterizer/code/swrast.cc:106-112 | every colour cell holds `color` whatever it held before, so a second call changes nothing; the depth buffer is unchanged |
| Swrast.Rasterizer.DrawNodeTriangles | projects/Rasterizer/code/swrast.cc:120-123 | the node's index loop as written leaves the buffer as `DrawNode` says, which `DrawNodeDrawsTriangleStarts` relates to the triangles it reaches |
| Swrast.Rasterizer.Render | projects/Rasterizer/code/swrast.cc:114-125 | the buffer is the background colour with every node drawn over it in order; the depth buffer is unchanged |

## Left out

- The floating-point projection in `draw_tri` (`camera_->view() * node.transform().model() * v` and the truncation of x and y to `int`) is a function parameter. camera.h, vertex.h and transform.h are not part of this model.
- The destructor only logs to the console and frees both arrays. Memory management is not modelled.
- The shader members are never invoked in this code. They are stored as opaque values.
- `depth_` is allocated and never read or written. The model keeps it as an array that nothing changes.
- The `nodes_` list and the methods that add nodes, the default line colour and `get_width`/`get_height` are declared in swrast.h, which is not part of this model. `nodes` is a field that callers assign, and the colour is a parameter.
- Swrast.Rasterizer.BresenhamLine: the doubled deltas are unbounded integers. The C++ `int` overflow for deltas beyond 2^30 is not modelled.
- Swrast.Rasterizer.constructor: requires `width * height <= INT_MAX`. For larger sizes the `int` counter of the fill loop would overflow before it reaches the unsigned product.
- Swrast.Rasterizer.BresenhamLine: its contract names the walk through `PlotAll`. The cell-by-cell effect (only in-bounds cells on the path change, each to `c`) is the lemma `Pixels.PlotAllAt`.
- Swrast.Rasterizer.DrawTri: triangle edges follow a ghost field `line`, which `Valid` requires to agree with `LinePath` at every pair of endpoints. This keeps each frame's proof from unfolding every edge, and it is equivalent to calling `LinePath` directly.
- RasterizerNode.Node.constructor: rnode.h declares the constructor without a body. The model assumes it stores its three arguments and leaves both `std::function` members default-constructed, that is empty.
- RasterizerNode.Node.SetTransform: the source takes the caller's `std::shared_ptr` by non-const reference and moves from it, so the caller's pointer is empty afterwards. The model takes the transform as a value and does not model the caller's pointer.
- RasterizerNode.Node.GetTransform: the getter hands out a mutable reference into a transform that other holders of the `shared_ptr` share. The model treats the transform as an immutable value, so changes made through another holder are not captured.
- Swrast.Rasterizer.constructor: `camera_` is a `shared_ptr` to a mutable camera that other holders may change between frames. The model keeps the camera as an immutable value fixed at construction.
- Node lists that share one node object between two positions are not treated specially. Drawing reads nodes and never changes them.
- The rest of the repository is not modelled: the vector library, the mesh resource with its OpenGL calls, the camera, and the quad test application.

## Findings

| source | as written | input that shows it | evidently intended | confidence | as-written member | corrected member |
|---|---|---|---|---|---|---|
| projects/Rasterizer/code/swrast.cc:120 | `for (i = 0; i < index_count() / 3; i += 3)`: it divides the bound by three and also steps by three | a node with the 36 indices of a cube: only the triangles at 0, 3, 6 and 9 are drawn, 4 of 12 | `i + 2 < index_count()` (or `i < index_count()`) with `i += 3`, which draws every complete triangle | not executed | Traversal.TriangleStartsMissTriangles | Traversal.IntendedStartsMembers |

`render` (`Swrast.Rasterizer.Render`) keeps the loop as written, because that is what the program does. `Traversal.IntendedStarts` is the corrected traversal. Its members are exactly the first indices of the complete triangles.
