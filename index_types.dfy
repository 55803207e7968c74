/** Index formats and draw topologies (src/index/mod.rs). */
module IndexTypes {

  /** The width of one index in an index buffer. */
  datatype Format = U16 | U32

  /** Bytes per index: u16 is 2 bytes and u32 is 4, so an index never has size 0. */
  function ByteSize(f: Format): (n: nat)
    ensures n == 2 <==> f == U16
    ensures n == 4 <==> f == U32
  {
    match f
    case U16 => 2
    case U32 => 4
  }

  /** How consecutive indices group into primitives. */
  datatype Geometry = Points | Lines | Triangles | TriangleStrips

  /** The two formats have different sizes, so a size determines the format. */
  lemma ByteSizeInjective(f: Format, g: Format)
    requires ByteSize(f) == ByteSize(g)
    ensures f == g
  {
  }
}
