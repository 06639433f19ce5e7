/** `rasterizer_node` (projects/Rasterizer/code/rnode.h): the indexed vertex
    container the rasterizer reads. The element types come from headers that
    are not part of this model (vertex.h, transform.h) and are opaque here;
    the two shader members are `std::function` values that are stored and
    never invoked, so they are opaque too. */
module RasterizerNode {

  /** `vertex` from vertex.h. */
  type Vertex

  /** A callable a non-empty `std::function<void(vertex*)>` holds. */
  type VertexShader

  /** A callable a non-empty `std::function<unsigned(vector2, vector4, unsigned*)>` holds. */
  type FragmentShader

  /** The `transform_model` a node's `std::shared_ptr` points to. */
  type TransformModel

  /** A `std::function` value is either empty (`None`) or holds a callable. */
  datatype Option<T> = None | Some(value: T)

  /** The range of a C++ `unsigned int`. */
  const UIntRange: int := 0x1_0000_0000

  class Node {
    var vertices: seq<Vertex>
    var indices: seq<nat>
    var vertexShader: Option<VertexShader>
    var fragmentShader: Option<FragmentShader>
    var transform: TransformModel

    /** Every stored index names a stored vertex, so that `get_by_index` is
        defined for every position of the index list. */
    ghost predicate Valid()
      reads this
    {
      forall j :: 0 <= j < |indices| ==> indices[j] < |vertices|
    }

    /** The constructor stores the geometry and the transform; both shader
        members start out empty. */
    constructor (vertices: seq<Vertex>, indices: seq<nat>, transform: TransformModel)
      ensures this.vertices == vertices && this.indices == indices && this.transform == transform
      ensures vertexShader == None && fragmentShader == None
    {
      this.vertices := vertices;
      this.indices := indices;
      this.transform := transform;
      vertexShader := None;
      fragmentShader := None;
    }

    /** `set_vertex_shader`: replaces the vertex shader, which may be the
        empty function, and nothing else. */
    method SetVertexShader(shader: Option<VertexShader>)
      modifies this`vertexShader
      ensures vertexShader == shader
      ensures vertices == old(vertices) && indices == old(indices)
      ensures fragmentShader == old(fragmentShader) && transform == old(transform)
    {
      vertexShader := shader;
    }

    /** `set_fragment_shader`: replaces the fragment shader, which may be the
        empty function, and nothing else. */
    method SetFragmentShader(shader: Option<FragmentShader>)
      modifies this`fragmentShader
      ensures fragmentShader == shader
      ensures vertices == old(vertices) && indices == old(indices)
      ensures vertexShader == old(vertexShader) && transform == old(transform)
    {
      fragmentShader := shader;
    }

    /** `vertex_count`: the vector's size, narrowed to `unsigned int`. */
    function VertexCount(): (r: nat)
      reads this
      ensures r < UIntRange && r <= |vertices|
      ensures |vertices| < UIntRange ==> r == |vertices|
    {
      |vertices| % UIntRange
    }

    /** `index_count`: the vector's size, narrowed to `unsigned int`. */
    function IndexCount(): (r: nat)
      reads this
      ensures r < UIntRange && r <= |indices|
      ensures |indices| < UIntRange ==> r == |indices|
    {
      |indices| % UIntRange
    }

    /** `get_by_index`: the vertex the `i`-th index names. Neither lookup is
        checked in the source, so both must be in range. */
    function GetByIndex(i: nat): (v: Vertex)
      reads this
      requires i < |indices| && indices[i] < |vertices|
      ensures v in vertices
    {
      vertices[indices[i]]
    }

    /** A write through the reference `get_by_index(i)` returns: it replaces
        the vertex the `i`-th index names, and only that vertex. */
    method WriteByIndex(i: nat, v: Vertex)
      requires i < |indices| && indices[i] < |vertices|
      modifies this`vertices
      ensures vertices == old(vertices)[indices[i] := v]
      ensures GetByIndex(i) == v
      ensures forall j :: 0 <= j < |indices| && indices[j] < |vertices| && indices[j] != indices[i] ==>
                GetByIndex(j) == old(GetByIndex(j))
      ensures indices == old(indices) && Valid() == old(Valid())
    {
      vertices := vertices[indices[i] := v];
    }

    /** The `transform()` getter. */
    function GetTransform(): TransformModel
      reads this
    {
      transform
    }

    /** The `transform(ptr)` setter: afterwards the getter yields the new
        transform; the geometry and the shaders are untouched. */
    method SetTransform(t: TransformModel)
      modifies this`transform
      ensures GetTransform() == t
      ensures vertices == old(vertices) && indices == old(indices)
      ensures vertexShader == old(vertexShader) && fragmentShader == old(fragmentShader)
    {
      transform := t;
    }
  }
}
