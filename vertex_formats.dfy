/** The current-generation vertex format vocabulary that the zero-copy importer
    and the views use: a scalar encoding paired with a width. The defining file
    is not part of this model; the scalar members follow the 14-way union of
    src/buffer/untyped_view.rs and the width arities follow the design
    description (scalar 1, vectors 2 to 4, 3x3 matrix 9). */
module VertexFormats {
  import opened Wrappers
  import VertexTypes

  datatype ScalarFormat =
    | F16 | F32
    | U8 | U16 | U32
    | U8Normalized | U16Normalized | U32Normalized
    | I8 | I16 | I32
    | I8Normalized | I16Normalized | I32Normalized

  /** Byte width of one scalar: it depends only on the bit width of the encoding. */
  function ScalarByteSize(s: ScalarFormat): (n: nat)
  {
    match s
    case U8 | U8Normalized | I8 | I8Normalized => 1
    case F16 | U16 | U16Normalized | I16 | I16Normalized => 2
    case F32 | U32 | U32Normalized | I32 | I32Normalized => 4
  }

  predicate IsNormalized(s: ScalarFormat)
  {
    s in {U8Normalized, U16Normalized, U32Normalized, I8Normalized, I16Normalized, I32Normalized}
  }

  datatype Width = Scalar | Vector2 | Vector3 | Vector4 | Matrix3x3

  /** Number of scalars in one value of the width. */
  function Elements(w: Width): nat
  {
    match w
    case Scalar => 1
    case Vector2 => 2
    case Vector3 => 3
    case Vector4 => 4
    case Matrix3x3 => 9
  }

  /** `Width::from_integer`: the width with that many scalars, if there is one. */
  function WidthFromInteger(n: int): Option<Width>
  {
    if n == 1 then Some(Scalar)
    else if n == 2 then Some(Vector2)
    else if n == 3 then Some(Vector3)
    else if n == 4 then Some(Vector4)
    else if n == 9 then Some(Matrix3x3)
    else None
  }

  /** Every width is recovered from its arity, so the arity identifies it. */
  lemma WidthRoundTrip(w: Width)
    ensures WidthFromInteger(Elements(w)) == Some(w)
  {
  }

  /** Only the arities 1 to 4 and 9 name a width, and the width named has
      that arity. */
  lemma WidthOfInteger(n: int)
    ensures WidthFromInteger(n).Some? <==> n in {1, 2, 3, 4, 9}
    ensures WidthFromInteger(n).Some? ==> Elements(WidthFromInteger(n).value) == n
  {
  }

  datatype Format = Format(scalar: ScalarFormat, width: Width)

  /** Byte size of one value: the scalar byte size once per scalar of the
      width. */
  function FormatByteSize(f: Format): nat
  {
    var s := ScalarByteSize(f.scalar);
    match f.width
    case Scalar => s
    case Vector2 => 2 * s
    case Vector3 => 3 * s
    case Vector4 => 4 * s
    case Matrix3x3 => 9 * s
  }

  /** The byte size of a format is its scalar byte size times its arity. */
  lemma FormatByteSizeProduct(f: Format)
    ensures FormatByteSize(f) == ScalarByteSize(f.scalar) * Elements(f.width)
  {
  }

  datatype Attribute = Attribute(name: VertexTypes.AttributeName, format: Format, offset: nat, bufferIndex: nat)

  datatype BufferLayout = BufferLayout(stride: nat)

  datatype Descriptor = Descriptor(attributes: seq<Attribute>, layouts: seq<BufferLayout>)
}
