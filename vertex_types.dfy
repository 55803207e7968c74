/** The flat vertex-format vocabulary, attribute records and descriptor
    lookup of src/vertex/mod.rs (the generation the copying importer uses). */
module VertexTypes {
  import opened Wrappers

  /** One numeric encoding of a vertex component. */
  datatype Format =
    | F16 | F32 | F64
    | I8Normalized | I8 | I16Normalized | I16 | I32Normalized | I32
    | U8Normalized | U8 | U16Normalized | U16 | U32Normalized | U32

  /** Bytes per component: 1, 2 or 4 for 8-, 16- and 32-bit integers (plain
      or normalized), 2 for f16, 4 for f32 and 8 for f64. */
  function ByteSize(f: Format): (n: nat)
    ensures n == 1 <==> f in {I8Normalized, I8, U8Normalized, U8}
    ensures n == 2 <==> f in {F16, I16Normalized, I16, U16Normalized, U16}
    ensures n == 4 <==> f in {F32, I32Normalized, I32, U32Normalized, U32}
    ensures n == 8 <==> f == F64
  {
    match f
    case F16 => 2
    case F32 => 4
    case F64 => 8
    case I8Normalized | I8 => 1
    case I16Normalized | I16 => 2
    case I32Normalized | I32 => 4
    case U8Normalized | U8 => 1
    case U16Normalized | U16 => 2
    case U32Normalized | U32 => 4
  }

  /** The normalized counterpart of a plain integer format; floats have none. */
  function NormalizedOf(f: Format): Option<Format>
  {
    match f
    case I8 => Some(I8Normalized)
    case I16 => Some(I16Normalized)
    case I32 => Some(I32Normalized)
    case U8 => Some(U8Normalized)
    case U16 => Some(U16Normalized)
    case U32 => Some(U32Normalized)
    case _ => None
  }

  /** Normalization never changes a component's size. */
  lemma NormalizedSameSize(f: Format)
    requires NormalizedOf(f).Some?
    ensures ByteSize(NormalizedOf(f).value) == ByteSize(f)
  {
  }

  /** The semantic name of a vertex attribute. */
  datatype AttributeName =
    | Ansiotropy | Binormal | Bitangent | Color | EdgeCrease | JointIndices | JointWeights
    | Normal | OcclusionValue | Position | ShadingBasisU | ShadingBasisV | SubdivisionStencil
    | Tangent | TextureCoordinate | Other(text: string)

  /** One attribute of the vertex layout: `elements` components of type `ty`
      at byte `offset` of each vertex of buffer `bufferIndex`. */
  datatype Attribute = Attribute(name: AttributeName, offset: nat, ty: Format, elements: nat, bufferIndex: nat)

  /** The bytes one attribute occupies in a vertex: a whole number of
      components. */
  function AttributeByteSize(a: Attribute): (n: nat)
    ensures a.elements > 0 ==> n >= ByteSize(a.ty)
    ensures n % ByteSize(a.ty) == 0
  {
    ByteSize(a.ty) * a.elements
  }

  /** An attribute holds exactly `elements` components. */
  lemma AttributeComponents(a: Attribute)
    ensures AttributeByteSize(a) / ByteSize(a.ty) == a.elements
  {
    var z := ByteSize(a.ty);
    assert AttributeByteSize(a) == a.elements * z;
  }

  datatype BufferLayout = BufferLayout(stride: nat)

  datatype Descriptor = Descriptor(attributes: seq<Attribute>, layouts: seq<BufferLayout>)

  /** `Descriptor::attribute_for`: the first attribute, in list order, whose name
      is `name`; `None` exactly when no attribute has that name. */
  method AttributeFor(d: Descriptor, name: AttributeName) returns (r: Option<Attribute>)
    ensures r.None? <==> forall i :: 0 <= i < |d.attributes| ==> d.attributes[i].name != name
    ensures r.Some? ==>
      exists i :: 0 <= i < |d.attributes| && d.attributes[i] == r.value && r.value.name == name &&
        forall j :: 0 <= j < i ==> d.attributes[j].name != name
  {
    for i := 0 to |d.attributes|
      invariant forall j :: 0 <= j < i ==> d.attributes[j].name != name
    {
      if d.attributes[i].name == name {
        return Some(d.attributes[i]);
      }
    }
    return None;
  }
}
