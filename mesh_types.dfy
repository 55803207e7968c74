/** The mesh value types of src/mesh/mod.rs (the generation the oldest
    importer, src/mesh/wbg.rs, produces): payloads are owned byte vectors. */
module MeshTypes {
  import opened Wrappers
  import opened Bytes

  datatype Name =
    | Ansiotropy | Binormal | Bitangent | Color | EdgeCrease | JointIndices | JointWeights
    | Normal | OcclusionValue | Position | ShadingBasisU | ShadingBasisV | SubdivisionStencil
    | Tangent | TextureCoordinate | Other(text: string)

  datatype VertexFormat =
    | F16 | F32 | F64
    | I8Normalized | I8 | I16Normalized | I16 | I32Normalized | I32
    | U8Normalized | U8 | U16Normalized | U16 | U32Normalized | U32

  /** Bytes per component: 1, 2 or 4 for 8-, 16- and 32-bit integers (plain or
      normalized), 2 for f16, 4 for f32 and 8 for f64. */
  function VertexByteSize(f: VertexFormat): (n: nat)
    ensures n == 1 <==> f in {I8Normalized, I8, U8Normalized, VertexFormat.U8}
    ensures n == 2 <==> f in {F16, I16Normalized, I16, U16Normalized, VertexFormat.U16}
    ensures n == 4 <==> f in {F32, I32Normalized, I32, U32Normalized, VertexFormat.U32}
    ensures n == 8 <==> f == F64
  {
    match f
    case F16 => 2
    case F32 => 4
    case F64 => 8
    case I8Normalized | I8 => 1
    case I16Normalized | I16 => 2
    case I32Normalized | I32 => 4
    case U8Normalized | U8 => 1
    case U16Normalized | U16 => 2
    case U32Normalized | U32 => 4
  }

  datatype VertexAttribute = VertexAttribute(name: Name, offset: nat, ty: VertexFormat, elements: nat, bufferIndex: nat)

  datatype VertexBuffer = VertexBuffer(stride: nat, buffer: seq<byte>)

  datatype IndexFormat = U8 | U16 | U32 | U64

  /** Bytes per index: u8 = 1, u16 = 2, u32 = 4, u64 = 8. */
  function IndexByteSize(f: IndexFormat): (n: nat)
    ensures n == 1 <==> f == IndexFormat.U8
    ensures n == 2 <==> f == IndexFormat.U16
    ensures n == 4 <==> f == IndexFormat.U32
    ensures n == 8 <==> f == IndexFormat.U64
  {
    match f
    case U8 => 1
    case U16 => 2
    case U32 => 4
    case U64 => 8
  }

  datatype GeometryType = Points | Lines | Triangles | TriangleStrips

  datatype IndexBuffer = IndexBuffer(count: nat, ty: IndexFormat, geometry: GeometryType, buffer: seq<byte>)

  datatype Mesh = Mesh(vertexCount: nat, attributes: seq<VertexAttribute>, buffers: seq<VertexBuffer>, submeshes: seq<IndexBuffer>)

  /** `Mesh::attribute_for`: a copy of the first attribute with the given name,
      so a later attribute of the same name is never returned; `None` when no
      attribute has that name. */
  method AttributeFor(m: Mesh, name: Name) returns (r: Option<VertexAttribute>)
    ensures r.None? <==> forall i :: 0 <= i < |m.attributes| ==> m.attributes[i].name != name
    ensures r.Some? ==>
      exists i :: 0 <= i < |m.attributes| && m.attributes[i] == r.value && r.value.name == name &&
        forall j :: 0 <= j < i ==> m.attributes[j].name != name
  {
    for i := 0 to |m.attributes|
      invariant forall j :: 0 <= j < i ==> m.attributes[j].name != name
    {
      if m.attributes[i].name == name {
        return Some(m.attributes[i]);
      }
    }
    return None;
  }
}
