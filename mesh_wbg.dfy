/** The oldest copying loader (src/mesh/wbg.rs): one mesh, read with the
    same declaration records, vertex copy and index copy as the legacy
    importer, into the `mesh` crate's own types (src/mesh/mod.rs). */
module MeshWbg {
  import opened Wrappers
  import opened Bytes
  import opened ByteCursor
  import VertexTypes
  import IndexTypes
  import MeshTypes
  import PayloadCopy
  import WbgCore
  import LegacyWbg

  /** The `mesh` crate's name for an attribute name of the declaration
      table: the same variant. */
  function MeshName(n: VertexTypes.AttributeName): MeshTypes.Name
  {
    match n
    case Ansiotropy => MeshTypes.Ansiotropy
    case Binormal => MeshTypes.Binormal
    case Bitangent => MeshTypes.Bitangent
    case Color => MeshTypes.Color
    case EdgeCrease => MeshTypes.EdgeCrease
    case JointIndices => MeshTypes.JointIndices
    case JointWeights => MeshTypes.JointWeights
    case Normal => MeshTypes.Normal
    case OcclusionValue => MeshTypes.OcclusionValue
    case Position => MeshTypes.Position
    case ShadingBasisU => MeshTypes.ShadingBasisU
    case ShadingBasisV => MeshTypes.ShadingBasisV
    case SubdivisionStencil => MeshTypes.SubdivisionStencil
    case Tangent => MeshTypes.Tangent
    case TextureCoordinate => MeshTypes.TextureCoordinate
    case Other(text) => MeshTypes.Other(text)
  }

  /** The `mesh` crate's `VertexFormat` for a format of the type table. */
  function MeshFormat(f: VertexTypes.Format): (r: MeshTypes.VertexFormat)
    ensures MeshTypes.VertexByteSize(r) == VertexTypes.ByteSize(f)
  {
    match f
    case F16 => MeshTypes.F16
    case F32 => MeshTypes.F32
    case F64 => MeshTypes.F64
    case I8Normalized => MeshTypes.I8Normalized
    case I8 => MeshTypes.I8
    case I16Normalized => MeshTypes.I16Normalized
    case I16 => MeshTypes.I16
    case I32Normalized => MeshTypes.I32Normalized
    case I32 => MeshTypes.I32
    case U8Normalized => MeshTypes.U8Normalized
    case U8 => MeshTypes.VertexFormat.U8
    case U16Normalized => MeshTypes.U16Normalized
    case U16 => MeshTypes.VertexFormat.U16
    case U32Normalized => MeshTypes.U32Normalized
    case U32 => MeshTypes.VertexFormat.U32
  }

  /** The `mesh` crate's `IndexFormat` for the two formats the index table
      reads. */
  function MeshIndexFormat(f: IndexTypes.Format): (r: MeshTypes.IndexFormat)
    ensures MeshTypes.IndexByteSize(r) == IndexTypes.ByteSize(f)
  {
    match f
    case U16 => MeshTypes.IndexFormat.U16
    case U32 => MeshTypes.IndexFormat.U32
  }

  function MeshAttribute(a: VertexTypes.Attribute): MeshTypes.VertexAttribute
  {
    MeshTypes.VertexAttribute(MeshName(a.name), a.offset, MeshFormat(a.ty), a.elements, a.bufferIndex)
  }

  function MeshAttributes(attrs: seq<VertexTypes.Attribute>): (r: seq<MeshTypes.VertexAttribute>)
    ensures |r| == |attrs|
  {
    seq(|attrs|, k requires 0 <= k < |attrs| => MeshAttribute(attrs[k]))
  }

  /** The bytes a vertex with these attributes takes: the sum over them of
      `byte_size * elements`. */
  function VertexSize(attrs: seq<MeshTypes.VertexAttribute>): nat
  {
    if |attrs| == 0 then 0
    else
      var last := attrs[|attrs| - 1];
      VertexSize(attrs[..|attrs| - 1]) + MeshTypes.VertexByteSize(last.ty) * last.elements
  }

  /** The stride the declaration loop accumulates is the vertex size of the
      attributes it pushes. */
  lemma {:induction false} StrideIsVertexSize(decls: seq<LegacyWbg.Decl>)
    ensures VertexSize(MeshAttributes(LegacyWbg.Layout(decls))) == LegacyWbg.Stride(decls)
  {
    if |decls| > 0 {
      var init := decls[..|decls| - 1];
      var last := decls[|decls| - 1];
      StrideIsVertexSize(init);
      LegacyWbg.LayoutPush(init, last);
      assert init + [last] == decls;
      var attrs := MeshAttributes(LegacyWbg.Layout(decls));
      assert attrs[..|attrs| - 1] == MeshAttributes(LegacyWbg.Layout(init));
    }
  }

  /** `read_mesh`: name (read and dropped), vertex buffer, index buffer; the
      one submesh is the whole index buffer drawn as triangles. */
  function MeshAt(d: seq<byte>, p: nat): Option<Parsed<MeshTypes.Mesh>>
  {
    var name :- WbgCore.StringAt(d, p);
    var vb :- LegacyWbg.VertexBufferAt(d, name.next);
    var ib :- LegacyWbg.IndexBufferAt(d, vb.next);
    LegacyWbg.VertexBufferHeader(d, name.next);
    Some(Parsed(Assemble(vb.value, ib.value), ib.next))
  }

  /** The mesh `read_mesh` builds from the two buffers it read. */
  function Assemble(vb: LegacyWbg.VertexData, ib: LegacyWbg.IndexData): MeshTypes.Mesh
    requires |vb.descriptor.layouts| == 1
  {
    var vertexBuffer := MeshTypes.VertexBuffer(vb.descriptor.layouts[0].stride, vb.bytes);
    var indexBuffer := MeshTypes.IndexBuffer(ib.indexCount, MeshIndexFormat(ib.format), MeshTypes.Triangles, ib.bytes);
    MeshTypes.Mesh(vb.vertexCount, MeshAttributes(vb.descriptor.attributes), [vertexBuffer], [indexBuffer])
  }

  /** `load`: the version byte must be 0 and the mesh count byte 1 (anything
      else fails an assertion), then the one mesh. Bytes after it are
      ignored. */
  function LoadAt(d: seq<byte>): Option<MeshTypes.Mesh>
  {
    var version :- U8At(d, 0);
    if version.value != 0 then None
    else
      var meshCount :- U8At(d, 1);
      if meshCount.value != 1 then None
      else
        var mesh :- MeshAt(d, 2);
        Some(mesh.value)
  }

  /** A loaded mesh's vertex data: one vertex buffer holding
      `vertex_count * stride` bytes of the input, unchanged, from just after
      the vertex count. */
  lemma MeshVertices(d: seq<byte>, p: nat)
    requires MeshAt(d, p).Some?
    ensures var name := WbgCore.StringAt(d, p);
      var m := MeshAt(d, p).value.value;
      var q: nat := name.value.next + 5 + 3 * (d[name.value.next] as int);
      name.Some? && name.value.next < |d| &&
      |m.buffers| == 1 && |m.buffers[0].buffer| == m.vertexCount * m.buffers[0].stride &&
      q + |m.buffers[0].buffer| <= |d| && m.buffers[0].buffer == d[q..q + |m.buffers[0].buffer|]
  {
    MeshParts(d, p);
    var name := WbgCore.StringAt(d, p).value;
    LegacyWbg.VertexBufferHeader(d, name.next);
    LegacyWbg.VertexBufferPayload(d, name.next);
  }

  /** A loaded mesh has one attribute per record, and only i16 and f16
      attributes when it has a vertex: any other type aborts the copy. */
  lemma MeshAttributeTypes(d: seq<byte>, p: nat)
    requires MeshAt(d, p).Some?
    ensures var name := WbgCore.StringAt(d, p);
      var m := MeshAt(d, p).value.value;
      name.Some? && name.value.next < |d| && |m.attributes| == d[name.value.next] &&
      (m.vertexCount > 0 ==> forall k :: 0 <= k < |m.attributes| ==> m.attributes[k].ty in {MeshTypes.I16, MeshTypes.F16})
  {
    MeshParts(d, p);
    var name := WbgCore.StringAt(d, p).value;
    LegacyWbg.VertexBufferHeader(d, name.next);
    LegacyWbg.VertexBufferHalfWords(d, name.next);
  }

  /** A loaded mesh's one submesh: triangles, holding `count * byte_size`
      bytes of the input. */
  lemma MeshTriangles(d: seq<byte>, p: nat)
    requires MeshAt(d, p).Some?
    ensures var m := MeshAt(d, p).value.value;
      |m.submeshes| == 1 && m.submeshes[0].geometry == MeshTypes.Triangles &&
      |m.submeshes[0].buffer| == m.submeshes[0].count * MeshTypes.IndexByteSize(m.submeshes[0].ty)
  {
    MeshParts(d, p);
    var vb := LegacyWbg.VertexBufferAt(d, WbgCore.StringAt(d, p).value.next).value;
    LegacyWbg.IndexBufferShape(d, vb.next);
  }

  /** A decoded mesh is the three parts it is read from. */
  lemma MeshParts(d: seq<byte>, p: nat)
    requires MeshAt(d, p).Some?
    ensures WbgCore.StringAt(d, p).Some?
    ensures var name := WbgCore.StringAt(d, p).value;
      LegacyWbg.VertexBufferAt(d, name.next).Some? &&
      LegacyWbg.IndexBufferAt(d, LegacyWbg.VertexBufferAt(d, name.next).value.next).Some?
    ensures var vb := LegacyWbg.VertexBufferAt(d, WbgCore.StringAt(d, p).value.next).value;
      var ib := LegacyWbg.IndexBufferAt(d, vb.next).value;
      MeshAt(d, p).value.value == Assemble(vb.value, ib.value)
  {
  }

  /** A loaded mesh's stride is the sum of `byte_size * elements` over its
      attributes. */
  lemma MeshStride(d: seq<byte>, p: nat)
    requires MeshAt(d, p).Some?
    ensures var m := MeshAt(d, p).value.value;
      |m.buffers| == 1 && m.buffers[0].stride == VertexSize(m.attributes)
  {
    MeshParts(d, p);
    var at := WbgCore.StringAt(d, p).value.next;
    LegacyWbg.VertexBufferParts(d, at);
    var decls := Repeat(LegacyWbg.DeclItem, (), d, at + 1, d[at]).value;
    StrideIsVertexSize(decls.value);
  }

  /** `load` succeeds only on version 0 and a mesh count of 1. */
  lemma LoadHeader(d: seq<byte>)
    ensures LoadAt(d).Some? ==> |d| >= 2 && d[0] == 0 && d[1] == 1
    ensures |d| >= 2 && (d[0] != 0 || d[1] != 1) ==> LoadAt(d).None?
    ensures LoadAt(d).Some? ==> MeshAt(d, 2).Some? && LoadAt(d).value == MeshAt(d, 2).value.value
  {
  }

  /** Extra bytes after the mesh change nothing. */
  lemma {:induction false} LoadIgnoresTrailing(d: seq<byte>, extra: seq<byte>)
    requires LoadAt(d).Some?
    ensures LoadAt(d + extra) == LoadAt(d)
  {
    assert (d + extra)[..|d|] == d;
    MeshPrefix(d, extra, 2);
  }

  /** A mesh that decodes from d decodes the same, ending at the same
      place, from d followed by anything. */
  lemma MeshPrefix(d: seq<byte>, extra: seq<byte>, p: nat)
    requires MeshAt(d, p).Some?
    ensures MeshAt(d + extra, p) == MeshAt(d, p)
  {
    var name := WbgCore.StringAt(d, p).value;
    var vb := LegacyWbg.VertexBufferAt(d, name.next).value;
    StringPrefix(d, extra, p);
    VertexBufferPrefix(d, extra, name.next);
    IndexBufferPrefix(d, extra, vb.next);
  }

  /** A string followed by more bytes reads the same once more data follows. */
  lemma StringPrefix(d: seq<byte>, extra: seq<byte>, p: nat)
    requires WbgCore.StringAt(d, p).Some? && WbgCore.StringAt(d, p).value.next < |d|
    ensures WbgCore.StringAt(d + extra, p) == WbgCore.StringAt(d, p)
  {
    WbgCore.StringAtValid(d, p);
    assert p + 1 + d[p] <= |d|;
    assert (d + extra)[p + 1..p + 1 + d[p]] == d[p + 1..p + 1 + d[p]];
  }

  /** The legacy vertex buffer reads the same once more data follows. */
  lemma VertexBufferPrefix(d: seq<byte>, extra: seq<byte>, p: nat)
    requires LegacyWbg.VertexBufferAt(d, p).Some?
    ensures LegacyWbg.VertexBufferAt(d + extra, p) == LegacyWbg.VertexBufferAt(d, p)
  {
    LegacyWbg.VertexBufferParts(d, p);
    DeclsPrefix(d, extra, p + 1, d[p]);
    var decls := Repeat(LegacyWbg.DeclItem, (), d, p + 1, d[p]).value;
    WordAtPrefix(d, extra, decls.next, 4);
    DataPrefix(d, extra, decls.value, U32At(d, decls.next).value);
    assert (d + extra)[p] == d[p];
  }

  /** A run of declaration records reads the same once more data follows. */
  lemma DeclsPrefix(d: seq<byte>, extra: seq<byte>, p: nat, n: nat)
    requires Repeat(LegacyWbg.DeclItem, (), d, p, n).Some?
    ensures Repeat(LegacyWbg.DeclItem, (), d + extra, p, n) == Repeat(LegacyWbg.DeclItem, (), d, p, n)
  {
    forall q: nat | LegacyWbg.DeclItem((), d, q).Some?
      ensures LegacyWbg.DeclItem((), d + extra, q) == LegacyWbg.DeclItem((), d, q)
    {
      LegacyWbg.DeclFields(d, q);
    }
    RepeatPrefix(LegacyWbg.DeclItem, (), d, extra, p, n);
  }

  /** The vertex copy reads the same once more data follows. */
  lemma DataPrefix(d: seq<byte>, extra: seq<byte>, decls: seq<LegacyWbg.Decl>, vc: Parsed<nat>)
    requires LegacyWbg.VertexDataOf(d, decls, vc).Some?
    ensures LegacyWbg.VertexDataOf(d + extra, decls, vc) == LegacyWbg.VertexDataOf(d, decls, vc)
  {
    var runs := LegacyWbg.Runs(LegacyWbg.Layout(decls));
    CopyPrefix(d, extra, vc.next, vc.value * PayloadCopy.PerVertex(runs));
  }

  /** The legacy index buffer reads the same once more data follows. */
  lemma IndexBufferPrefix(d: seq<byte>, extra: seq<byte>, p: nat)
    requires LegacyWbg.IndexBufferAt(d, p).Some?
    ensures LegacyWbg.IndexBufferAt(d + extra, p) == LegacyWbg.IndexBufferAt(d, p)
  {
    var format := WbgCore.IndexFormatFromCode(d[p]).value;
    WordAtPrefix(d, extra, p + 1, 4);
    var count := U32At(d, p + 1).value;
    CopyPrefix(d, extra, count.next, count.value * IndexTypes.ByteSize(format));
  }

  /** n bytes that are all there are the same bytes once more data follows. */
  lemma CopyPrefix(d: seq<byte>, extra: seq<byte>, q: nat, n: nat)
    ensures q + n <= |d| ==> (d + extra)[q..q + n] == d[q..q + n]
  {
  }

  /** `read_mesh` over the cursor. */
  method ReadMesh(c: Cursor) returns (r: Option<MeshTypes.Mesh>)
    modifies c
    ensures Agrees(r, c.pos, MeshAt(c.data, old(c.pos)))
  {
    var name := WbgCore.ReadString(c);
    if name.None? {
      return None;
    }
    var vb := LegacyWbg.ReadVertexBuffer(c);
    if vb.None? {
      return None;
    }
    var ib := LegacyWbg.ReadIndexBuffer(c);
    if ib.None? {
      return None;
    }
    r := Some(Assemble(vb.value, ib.value));
  }

  /** `load`: the two header assertions, then the mesh. */
  method Load(input: seq<byte>) returns (r: Option<MeshTypes.Mesh>)
    ensures r == LoadAt(input)
  {
    var c := new Cursor(input);
    var version := c.ReadU8();
    if version.None? || version.value != 0 {
      return None;
    }
    var meshCount := c.ReadU8();
    if meshCount.None? || meshCount.value != 1 {
      return None;
    }
    r := ReadMesh(c);
  }
}
