/** The legacy copying importer (src/importer/wbg.rs), the one resource
    loading uses for `application/x-ccp-wbg`: it copies every payload out of
    the input into vectors of its own, turns each mesh record into a main
    mesh followed by its blend shapes, and keeps no buffer table. */
module LegacyWbg {
  import opened Wrappers
  import opened Bytes
  import opened ByteCursor
  import opened VertexTypes
  import IndexTypes
  import opened Seqs
  import opened PayloadCopy
  import WbgCore

  /** `mesh::Submesh` of this generation: its own copy of the index bytes. */
  datatype Submesh = Submesh(name: seq<byte>, buffer: seq<byte>, indexCount: nat, indexFormat: IndexTypes.Format, geometry: IndexTypes.Geometry)

  /** `mesh::Mesh` of this generation: the copied vertex bytes are its buffers. */
  datatype Mesh = Mesh(name: seq<byte>, vertexCount: nat, descriptor: Descriptor, buffers: seq<seq<byte>>, submeshes: seq<Submesh>)

  datatype Object = MeshObject(mesh: Mesh)

  datatype Asset = Asset(objects: seq<Object>)

  /** The type table keyed on the low nibble of the packed type byte. The
      arms 16, 17, 24 and 25 are written but a nibble never reaches them. */
  function FormatFromCode(code: nat): (r: Option<Format>)
  {
    match code
    case 0 => Some(I8)
    case 1 => Some(I16)
    case 2 => Some(I32)
    case 3 => Some(F16)
    case 4 => Some(F32)
    case 8 => Some(U8)
    case 9 => Some(U16)
    case 10 => Some(U32)
    case 16 => Some(I8Normalized)
    case 17 => Some(I16Normalized)
    case 24 => Some(U8Normalized)
    case 25 => Some(U16Normalized)
    case _ => None
  }

  /** The formats a declaration can carry. */
  predicate Plain(f: Format)
  {
    f in {I8, I16, I32, F16, F32, U8, U16, U32}
  }

  /** The only formats the vertex copy accepts. */
  predicate HalfWords(f: Format)
  {
    f == I16 || f == F16
  }

  /** One declaration record: usage byte, reserved byte, packed type byte. */
  datatype Decl = Decl(name: AttributeName, ty: Format, elements: nat)

  /** What every decoded declaration satisfies: a plain format (never a
      normalized one) and 1 to 8 elements. */
  predicate WellFormed(decl: Decl)
  {
    Plain(decl.ty) && 1 <= decl.elements <= 8
  }

  /** One record: usage byte, reserved byte, packed type byte whose low
      nibble picks the format and whose top three bits, plus one, give the
      element count. */
  function DeclAt(d: seq<byte>, p: nat): Option<Parsed<Decl>>
  {
    var usage :- U8At(d, p);
    var reserved :- U8At(d, usage.next);
    var fileType :- U8At(d, reserved.next);
    var ty :- FormatFromCode(fileType.value % 16);
    var name :- WbgCore.NameFromUsage(usage.value);
    Some(Parsed(Decl(name, ty, fileType.value / 32 + 1), fileType.next))
  }

  /** A record decodes exactly when its bytes are there, its usage is known
      and its nibble selects a format; it then carries a plain format and 1
      to 8 elements. */
  lemma DeclFields(d: seq<byte>, p: nat)
    ensures var r := DeclAt(d, p);
      r.Some? <==> p + 3 <= |d| && d[p] < 8 && d[p + 2] % 16 in {0, 1, 2, 3, 4, 8, 9, 10}
    ensures var r := DeclAt(d, p);
      r.Some? ==> (r.value.next == p + 3 && WellFormed(r.value.value) &&
        r.value.value.elements == d[p + 2] / 32 + 1 && r.value.value.name == WbgCore.NameFromUsage(d[p]).value)
  {
  }

  function DeclItem(ctx: (), d: seq<byte>, p: nat): Option<Parsed<Decl>>
  {
    DeclAt(d, p)
  }

  /** A run of n records is n records in 3n bytes. */
  lemma {:induction false} DeclsSpan(d: seq<byte>, p: nat, n: nat)
    requires Repeat(DeclItem, (), d, p, n).Some?
    ensures Repeat(DeclItem, (), d, p, n).value.next == p + 3 * n
    ensures |Repeat(DeclItem, (), d, p, n).value.value| == n
  {
    if n > 0 {
      DeclsSpan(d, p, n - 1);
      var init := Repeat(DeclItem, (), d, p, n - 1).value;
      DeclFields(d, init.next);
    }
  }

  /** Every record in a run of them is well formed. */
  lemma DeclsWellFormed(d: seq<byte>, p: nat, n: nat)
    requires Repeat(DeclItem, (), d, p, n).Some?
    ensures |Repeat(DeclItem, (), d, p, n).value.value| == n
    ensures forall k :: 0 <= k < n ==> WellFormed(Repeat(DeclItem, (), d, p, n).value.value[k])
  {
    RepeatLength(DeclItem, (), d, p, n);
    forall q: nat | DeclItem((), d, q).Some?
      ensures WellFormed(DeclItem((), d, q).value.value)
    {
      DeclFields(d, q);
    }
    RepeatAll(DeclItem, (), d, p, n, WellFormed);
  }

  /** The bytes one record's attribute takes in a vertex: `byte_size * elements`. */
  function Size(decl: Decl): nat
  {
    ByteSize(decl.ty) * decl.elements
  }

  /** `vertex_size`: the running sum of the records' sizes. */
  function Stride(decls: seq<Decl>): nat
  {
    if |decls| == 0 then 0
    else
      var last := decls[|decls| - 1];
      Stride(decls[..|decls| - 1]) + Size(last)
  }

  /** The attributes the declaration loop pushes: each at the size of the
      records before it, in buffer 0. */
  function Layout(decls: seq<Decl>): (attrs: seq<Attribute>)
    ensures |attrs| == |decls|
  {
    if |decls| == 0 then []
    else
      var last := decls[|decls| - 1];
      Layout(decls[..|decls| - 1]) + [Attribute(last.name, Stride(decls[..|decls| - 1]), last.ty, last.elements, 0)]
  }

  /** One more record adds its size to the stride and its attribute, at the
      old stride, to the layout. */
  lemma LayoutPush(decls: seq<Decl>, decl: Decl)
    ensures Stride(decls + [decl]) == Stride(decls) + Size(decl)
    ensures Layout(decls + [decl]) == Layout(decls) + [Attribute(decl.name, Stride(decls), decl.ty, decl.elements, 0)]
  {
    assert (decls + [decl])[..|decls|] == decls;
  }

  /** Attributes lie back to back in declaration order: the k-th starts where
      the first k records end and ends where the first k + 1 end. */
  lemma LayoutOffsets(decls: seq<Decl>)
    ensures forall k :: 0 <= k < |decls| ==>
      Layout(decls)[k] == Attribute(decls[k].name, Stride(decls[..k]), decls[k].ty, decls[k].elements, 0)
    ensures forall k :: 0 <= k < |decls| ==>
      Stride(decls[..k]) + AttributeByteSize(Layout(decls)[k]) == Stride(decls[..k + 1])
    ensures Stride(decls[..|decls|]) == Stride(decls)
  {
    assert decls[..|decls|] == decls;
    LayoutAt(decls);
    forall k | 0 <= k < |decls|
      ensures Stride(decls[..k]) + AttributeByteSize(Layout(decls)[k]) == Stride(decls[..k + 1])
    {
      StrideStep(decls, k);
    }
  }

  /** The k-th attribute starts where the first k records end. */
  lemma {:induction false} LayoutAt(decls: seq<Decl>)
    ensures forall k :: 0 <= k < |decls| ==>
      Layout(decls)[k] == Attribute(decls[k].name, Stride(decls[..k]), decls[k].ty, decls[k].elements, 0)
  {
    if |decls| > 0 {
      var init := decls[..|decls| - 1];
      LayoutAt(init);
      forall k | 0 <= k < |decls|
        ensures Layout(decls)[k] == Attribute(decls[k].name, Stride(decls[..k]), decls[k].ty, decls[k].elements, 0)
      {
        if k < |decls| - 1 {
          assert init[..k] == decls[..k];
        }
      }
    }
  }

  /** The first k + 1 records take the first k's bytes and record k's. */
  lemma StrideStep(decls: seq<Decl>, k: nat)
    requires k < |decls|
    ensures Stride(decls[..k]) + Size(decls[k]) == Stride(decls[..k + 1])
  {
    assert decls[..k + 1][..k] == decls[..k];
  }

  /** What the copy loop dispatches on for each attribute. */
  function Runs(attrs: seq<Attribute>): (runs: seq<Run>)
    ensures |runs| == |attrs|
  {
    seq(|attrs|, k requires 0 <= k < |attrs| => Run(HalfWords(attrs[k].ty), attrs[k].elements))
  }

  /** When every declaration is 16-bit, the bytes the copy takes per vertex
      are the declared stride. */
  lemma {:induction false} HalfWordStride(decls: seq<Decl>)
    requires forall k :: 0 <= k < |decls| ==> HalfWords(Layout(decls)[k].ty)
    ensures PerVertex(Runs(Layout(decls))) == Stride(decls)
  {
    if |decls| > 0 {
      var init := decls[..|decls| - 1];
      assert forall k :: 0 <= k < |init| ==> Layout(init)[k] == Layout(decls)[k];
      HalfWordStride(init);
      var rs := Runs(Layout(decls));
      assert rs[..|rs| - 1] == Runs(Layout(init));
    }
  }

  /** The result of `read_vertex_buffer`. */
  datatype VertexData = VertexData(vertexCount: nat, bytes: seq<byte>, descriptor: Descriptor)

  /** `read_vertex_buffer`: a u8 record count, the records, a u32 vertex
      count, then the copy of every vertex. */
  function VertexBufferAt(d: seq<byte>, p: nat): Option<Parsed<VertexData>>
  {
    var n :- U8At(d, p);
    var decls :- Repeat(DeclItem, (), d, n.next, n.value);
    var vc :- U32At(d, decls.next);
    VertexDataOf(d, decls.value, vc)
  }

  /** The tail of `read_vertex_buffer` once the records and the vertex count
      are read: the copy, and the descriptor the records declare. */
  function VertexDataOf(d: seq<byte>, decls: seq<Decl>, vc: Parsed<nat>): Option<Parsed<VertexData>>
  {
    var attrs := Layout(decls);
    var payload :- VertexCopyAt(d, vc.next, vc.value, Runs(attrs));
    Some(Parsed(VertexData(vc.value, payload.value, Descriptor(attrs, [BufferLayout(Stride(decls))])), payload.next))
  }

  /** A decoded vertex buffer is its records and vertex count followed by
      the tail. */
  lemma VertexBufferParts(d: seq<byte>, p: nat)
    requires VertexBufferAt(d, p).Some?
    ensures p < |d| && Repeat(DeclItem, (), d, p + 1, d[p]).Some?
    ensures U32At(d, Repeat(DeclItem, (), d, p + 1, d[p]).value.next).Some?
    ensures var decls := Repeat(DeclItem, (), d, p + 1, d[p]).value;
      VertexBufferAt(d, p) == VertexDataOf(d, decls.value, U32At(d, decls.next).value)
  {
  }

  /** A decoded vertex buffer has one attribute per record and one layout,
      its vertex count is the u32 after the records, and the copy starts
      right after that count. */
  lemma VertexBufferHeader(d: seq<byte>, p: nat)
    requires VertexBufferAt(d, p).Some?
    ensures p < |d| && p + 5 + 3 * (d[p] as int) <= |d|
    ensures var q: nat := p + 1 + 3 * (d[p] as int);
      var v := VertexBufferAt(d, p).value.value;
      |v.descriptor.attributes| == d[p] && |v.descriptor.layouts| == 1 &&
      v.vertexCount == LeValue(d[q..q + 4]) &&
      VertexCopyAt(d, q + 4, v.vertexCount, Runs(v.descriptor.attributes)) == Some(Parsed(v.bytes, VertexBufferAt(d, p).value.next))
  {
    var decls := Repeat(DeclItem, (), d, p + 1, d[p]).value;
    DeclsSpan(d, p + 1, d[p]);
    var vc := U32At(d, decls.next).value;
    assert vc.value == LeValue(d[decls.next..decls.next + 4]);
  }

  /** If there is a vertex to copy, every attribute is i16 or f16: any
      other type aborts the import. */
  lemma VertexBufferHalfWords(d: seq<byte>, p: nat)
    requires VertexBufferAt(d, p).Some?
    ensures var v := VertexBufferAt(d, p).value.value;
      v.vertexCount > 0 ==> forall k :: 0 <= k < |v.descriptor.attributes| ==> HalfWords(v.descriptor.attributes[k].ty)
  {
    var decls := Repeat(DeclItem, (), d, p + 1, d[p]).value;
    var vc := U32At(d, decls.next).value;
    var attrs := Layout(decls.value);
    var v := VertexBufferAt(d, p).value.value;
    assert v.vertexCount == vc.value && v.descriptor.attributes == attrs;
    if vc.value > 0 {
      var runs := Runs(attrs);
      assert VertexCopyAt(d, vc.next, vc.value, runs).Some?;
      DeclsWellFormed(d, p + 1, d[p]);
      LayoutOffsets(decls.value);
      forall k | 0 <= k < |attrs|
        ensures HalfWords(attrs[k].ty)
      {
        assert WellFormed(decls.value[k]);
        assert Copyable(runs[k]);
      }
    }
  }

  /** The copied vertex bytes are `vertex_count * stride` bytes of the input
      taken unchanged from just after the count. */
  lemma VertexBufferPayload(d: seq<byte>, p: nat)
    requires VertexBufferAt(d, p).Some?
    ensures var q: nat := p + 5 + 3 * (d[p] as int);
      var vb := VertexBufferAt(d, p).value;
      var v := vb.value;
      |v.bytes| == v.vertexCount * v.descriptor.layouts[0].stride &&
      q + |v.bytes| <= |d| && v.bytes == d[q..q + |v.bytes|] && vb.next == q + |v.bytes|
  {
    VertexBufferParts(d, p);
    VertexBufferHalfWords(d, p);
    var decls := Repeat(DeclItem, (), d, p + 1, d[p]).value;
    DeclsSpan(d, p + 1, d[p]);
    var vc := U32At(d, decls.next).value;
    DataPayload(d, decls.value, vc);
  }

  /** The tail's copy is the bytes right after the count, unchanged, one
      stride per vertex once every attribute is 16-bit. */
  lemma DataPayload(d: seq<byte>, decls: seq<Decl>, vc: Parsed<nat>)
    requires VertexDataOf(d, decls, vc).Some? && vc.next <= |d|
    requires vc.value > 0 ==> forall k :: 0 <= k < |decls| ==> HalfWords(Layout(decls)[k].ty)
    ensures var vb := VertexDataOf(d, decls, vc).value;
      var v := vb.value;
      |v.bytes| == v.vertexCount * v.descriptor.layouts[0].stride &&
      vc.next + |v.bytes| <= |d| && v.bytes == d[vc.next..vc.next + |v.bytes|] && vb.next == vc.next + |v.bytes|
  {
    if vc.value > 0 {
      HalfWordStride(decls);
    }
    var payload := VertexCopyAt(d, vc.next, vc.value, Runs(Layout(decls))).value;
    CopyLength(d, vc.next, vc.value, Runs(Layout(decls)), Stride(decls), payload.value, payload.next);
  }

  /** A vertex copy of a known per-vertex size is that many bytes per
      vertex of the input, unchanged. */
  lemma CopyLength(d: seq<byte>, q: nat, vertexCount: nat, runs: seq<Run>, stride: nat, bytes: seq<byte>, next: nat)
    requires q <= |d| && VertexCopyAt(d, q, vertexCount, runs) == Some(Parsed(bytes, next))
    requires vertexCount > 0 ==> PerVertex(runs) == stride
    ensures |bytes| == vertexCount * stride && q + |bytes| <= |d| && bytes == d[q..q + |bytes|] && next == q + |bytes|
  {
    if vertexCount == 0 {
      assert d[q..q] == [];
    }
  }

  /** `read_index_buffer`: a format byte (0 is u16, 1 is u32), a u32 count,
      and the copy of `count` indices. */
  datatype IndexData = IndexData(indexCount: nat, bytes: seq<byte>, format: IndexTypes.Format)

  function IndexBufferAt(d: seq<byte>, p: nat): Option<Parsed<IndexData>>
  {
    var code :- U8At(d, p);
    var format :- WbgCore.IndexFormatFromCode(code.value);
    var count :- U32At(d, code.next);
    var payload :- IndexCopyAt(d, count.next, IndexTypes.ByteSize(format), count.value);
    Some(Parsed(IndexData(count.value, payload.value, format), payload.next))
  }

  /** An index buffer decodes exactly when its format byte is 0 or 1 and the
      `count * byte_size` bytes after the count are all there; they are then
      the copied bytes, unchanged. */
  lemma IndexBufferShape(d: seq<byte>, p: nat)
    ensures var r := IndexBufferAt(d, p);
      r.Some? <==> (p + 5 <= |d| && d[p] < 2 &&
        p + 5 + LeValue(d[p + 1..p + 5]) * IndexTypes.ByteSize(if d[p] == 0 then IndexTypes.U16 else IndexTypes.U32) <= |d|)
    ensures var r := IndexBufferAt(d, p);
      r.Some? ==> (r.value.value.format == (if d[p] == 0 then IndexTypes.U16 else IndexTypes.U32) &&
        r.value.value.indexCount == LeValue(d[p + 1..p + 5]) &&
        |r.value.value.bytes| == r.value.value.indexCount * IndexTypes.ByteSize(r.value.value.format) &&
        r.value.value.bytes == d[p + 5..p + 5 + |r.value.value.bytes|] &&
        r.value.next == p + 5 + |r.value.value.bytes|)
  {
    if p + 5 <= |d| {
      assert d[p + 5..p + 5] == [];
    }
  }

  /** A submesh an area yields. */
  predicate IsArea(s: Submesh)
  {
    s.geometry == IndexTypes.Triangles && s.indexCount % 3 == 0 &&
    |s.buffer| == IndexTypes.ByteSize(s.indexFormat) * s.indexCount
  }

  /** The indices an area selects: `3 * count` indices from index `start`,
      that is bytes `byte_size * start` up to `byte_size * start +
      byte_size * 3 * count`; a range past the end aborts. */
  function AreaRange(indexBuffer: seq<byte>, format: IndexTypes.Format, start: nat, count: nat): Option<seq<byte>>
  {
    var size := IndexTypes.ByteSize(format);
    var startByte := size * start;
    var endByte := startByte + size * (3 * count);
    if endByte <= |indexBuffer| then Some(indexBuffer[startByte..endByte]) else None
  }

  /** An area's range exists exactly when its `3 * count` indices from index
      `start` lie inside the mesh's index bytes, and it is then exactly those
      bytes. */
  lemma AreaRangeBytes(indexBuffer: seq<byte>, format: IndexTypes.Format, start: nat, count: nat)
    ensures var size := IndexTypes.ByteSize(format);
      AreaRange(indexBuffer, format, start, count).Some? <==> size * start + size * (3 * count) <= |indexBuffer|
    ensures var size := IndexTypes.ByteSize(format);
      var r := AreaRange(indexBuffer, format, start, count);
      r.Some? ==> (|r.value| == size * (3 * count) && r.value == indexBuffer[size * start..size * start + |r.value|])
  {
  }

  /** `read_mesh_area` given the mesh's copied index bytes and their format:
      name, u32 start, u32 triangle count, six f32 bounds (dropped), and the
      copy of the area's indices as a Triangles submesh. */
  function AreaAt(ctx: (seq<byte>, IndexTypes.Format), d: seq<byte>, p: nat): Option<Parsed<Submesh>>
  {
    var name :- WbgCore.StringAt(d, p);
    var start :- U32At(d, name.next);
    var count :- U32At(d, start.next);
    var bounds :- Repeat(F32Item, (), d, count.next, 6);
    var buffer :- AreaRange(ctx.0, ctx.1, start.value, count.value);
    Some(Parsed(Submesh(name.value, buffer, 3 * count.value, ctx.1, IndexTypes.Triangles), bounds.next))
  }

  /** A decoded area is a Triangles submesh in the mesh's index format; its
      start and count are the two u32 after its name, and its bytes are the
      range they select. */
  lemma AreaFields(ctx: (seq<byte>, IndexTypes.Format), d: seq<byte>, p: nat)
    requires AreaAt(ctx, d, p).Some?
    ensures IsArea(AreaAt(ctx, d, p).value.value) && AreaAt(ctx, d, p).value.value.indexFormat == ctx.1
    ensures var s := AreaAt(ctx, d, p).value.value;
      var q := p + 1 + |s.name|;
      q + 8 <= |d| && s.indexCount == 3 * LeValue(d[q + 4..q + 8]) &&
      AreaRange(ctx.0, ctx.1, LeValue(d[q..q + 4]), LeValue(d[q + 4..q + 8])) == Some(s.buffer)
  {
    var name := WbgCore.StringAt(d, p).value;
    var start := U32At(d, name.next).value;
    var count := U32At(d, start.next).value;
    AreaRangeBytes(ctx.0, ctx.1, start.value, count.value);
  }

  function AreaItem(ctx: (seq<byte>, IndexTypes.Format), d: seq<byte>, p: nat): Option<Parsed<Submesh>>
  {
    AreaAt(ctx, d, p)
  }

  /** Every submesh of a run of areas is an area in the mesh's format. */
  lemma AreasShaped(ctx: (seq<byte>, IndexTypes.Format), d: seq<byte>, p: nat, n: nat)
    requires Repeat(AreaItem, ctx, d, p, n).Some?
    ensures |Repeat(AreaItem, ctx, d, p, n).value.value| == n
    ensures forall k :: 0 <= k < n ==> IsArea(Repeat(AreaItem, ctx, d, p, n).value.value[k])
  {
    forall q: nat | AreaItem(ctx, d, q).Some?
      ensures IsArea(AreaItem(ctx, d, q).value.value)
    {
      AreaFields(ctx, d, q);
    }
    RepeatLength(AreaItem, ctx, d, p, n);
    RepeatAll(AreaItem, ctx, d, p, n, IsArea);
  }

  /** A mesh `read_blend_shape` yields: the copied vertex bytes as its one
      buffer and one unnamed Points submesh holding the copied indices. */
  predicate IsBlendShape(m: Mesh)
  {
    |m.buffers| == 1 && |m.submeshes| == 1 && m.submeshes[0].name == [] &&
    m.submeshes[0].geometry == IndexTypes.Points &&
    |m.submeshes[0].buffer| == m.submeshes[0].indexCount * IndexTypes.ByteSize(m.submeshes[0].indexFormat)
  }

  /** `read_blend_shape`: name, vertex buffer, index buffer. */
  function BlendShapeAt(ctx: (), d: seq<byte>, p: nat): Option<Parsed<Mesh>>
  {
    var name :- WbgCore.StringAt(d, p);
    var vb :- VertexBufferAt(d, name.next);
    var ib :- IndexBufferAt(d, vb.next);
    var shape := Submesh([], ib.value.bytes, ib.value.indexCount, ib.value.format, IndexTypes.Points);
    Some(Parsed(Mesh(name.value, vb.value.vertexCount, vb.value.descriptor, [vb.value.bytes], [shape]), ib.next))
  }

  /** A decoded blend shape is named by its record and has the shape above. */
  lemma BlendShapeShape(d: seq<byte>, p: nat)
    requires BlendShapeAt((), d, p).Some?
    ensures IsBlendShape(BlendShapeAt((), d, p).value.value)
    ensures WbgCore.StringAt(d, p).Some? && BlendShapeAt((), d, p).value.value.name == WbgCore.StringAt(d, p).value.value
  {
    var name := WbgCore.StringAt(d, p).value;
    var vb := VertexBufferAt(d, name.next).value;
    IndexBufferShape(d, vb.next);
  }

  /** Every shape of a run of blend shapes has that shape. */
  lemma BlendShapesShaped(d: seq<byte>, p: nat, n: nat)
    requires Repeat(BlendShapeItem, (), d, p, n).Some?
    ensures forall k :: 0 <= k < |Repeat(BlendShapeItem, (), d, p, n).value.value| ==> IsBlendShape(Repeat(BlendShapeItem, (), d, p, n).value.value[k])
  {
    forall q: nat | BlendShapeItem((), d, q).Some?
      ensures IsBlendShape(BlendShapeItem((), d, q).value.value)
    {
      BlendShapeShape(d, q);
    }
    RepeatAll(BlendShapeItem, (), d, p, n, IsBlendShape);
  }

  function BlendShapeItem(ctx: (), d: seq<byte>, p: nat): Option<Parsed<Mesh>>
  {
    BlendShapeAt(ctx, d, p)
  }

  /** The main mesh of a record: one buffer, every submesh an area. */
  predicate IsMain(m: Mesh)
  {
    |m.buffers| == 1 && |m.submeshes| < 0x100 && forall k :: 0 <= k < |m.submeshes| ==> IsArea(m.submeshes[k])
  }

  /** `read_mesh`: name, vertex buffer, index buffer, a u8 area count and the
      areas, a u8 bone binding count and the binding names (read and
      dropped), a u8 blend shape count and the blend shapes. The result is
      the main mesh followed by one mesh per blend shape. */
  function MeshAt(ctx: (), d: seq<byte>, p: nat): Option<Parsed<seq<Mesh>>>
  {
    var name :- WbgCore.StringAt(d, p);
    var vb :- VertexBufferAt(d, name.next);
    var ib :- IndexBufferAt(d, vb.next);
    var areaCount :- U8At(d, ib.next);
    var areas :- Repeat(AreaItem, (ib.value.bytes, ib.value.format), d, areaCount.next, areaCount.value);
    var main := Mesh(name.value, vb.value.vertexCount, vb.value.descriptor, [vb.value.bytes], areas.value);
    var bindingCount :- U8At(d, areas.next);
    var bindings :- Repeat(WbgCore.StringItem, (), d, bindingCount.next, bindingCount.value);
    var shapeCount :- U8At(d, bindings.next);
    var shapes :- Repeat(BlendShapeItem, (), d, shapeCount.next, shapeCount.value);
    Some(Parsed([main] + shapes.value, shapes.next))
  }

  function RecordItem(ctx: (), d: seq<byte>, p: nat): Option<Parsed<seq<Mesh>>>
  {
    MeshAt(ctx, d, p)
  }

  /** A record yields its main mesh, named by the record, with one buffer and
      only Triangles areas as submeshes, followed by its blend shapes. */
  lemma MeshShape(d: seq<byte>, p: nat)
    requires MeshAt((), d, p).Some?
    ensures var ms := MeshAt((), d, p).value.value;
      |ms| >= 1 && IsMain(ms[0]) &&
      WbgCore.StringAt(d, p).Some? && ms[0].name == WbgCore.StringAt(d, p).value.value &&
      forall k :: 1 <= k < |ms| ==> IsBlendShape(ms[k])
  {
    var name := WbgCore.StringAt(d, p).value;
    var vb := VertexBufferAt(d, name.next).value;
    var ib := IndexBufferAt(d, vb.next).value;
    var areaCount := U8At(d, ib.next).value;
    AreasShaped((ib.value.bytes, ib.value.format), d, areaCount.next, areaCount.value);
    var areas := Repeat(AreaItem, (ib.value.bytes, ib.value.format), d, areaCount.next, areaCount.value).value;
    var bindingCount := U8At(d, areas.next).value;
    var bindings := Repeat(WbgCore.StringItem, (), d, bindingCount.next, bindingCount.value).value;
    var shapeCount := U8At(d, bindings.next).value;
    BlendShapesShaped(d, shapeCount.next, shapeCount.value);
  }

  /** A record's meshes are exactly what was read: the main mesh holds the
      copied vertex bytes as its one buffer and the areas read after the
      area-count byte, in stream order and number; after it come the blend
      shapes read after the blend-shape count byte, as many as that byte
      says, and reading ends after the last of them. */
  lemma MeshRecord(d: seq<byte>, p: nat)
    requires MeshAt((), d, p).Some?
    ensures var name := WbgCore.StringAt(d, p).value;
      var vb := VertexBufferAt(d, name.next).value;
      var ib := IndexBufferAt(d, vb.next).value;
      var areaCount := U8At(d, ib.next);
      areaCount.Some? &&
      var areas := Repeat(AreaItem, (ib.value.bytes, ib.value.format), d, areaCount.value.next, areaCount.value.value);
      areas.Some? &&
      var bindingCount := U8At(d, areas.value.next);
      bindingCount.Some? &&
      var bindings := Repeat(WbgCore.StringItem, (), d, bindingCount.value.next, bindingCount.value.value);
      bindings.Some? &&
      var shapeCount := U8At(d, bindings.value.next);
      shapeCount.Some? &&
      var shapes := Repeat(BlendShapeItem, (), d, shapeCount.value.next, shapeCount.value.value);
      shapes.Some? &&
      var ms := MeshAt((), d, p).value;
      |ms.value| == 1 + shapeCount.value.value && ms.next == shapes.value.next &&
      ms.value[0].name == name.value && ms.value[0].vertexCount == vb.value.vertexCount &&
      ms.value[0].buffers == [vb.value.bytes] &&
      ms.value[0].submeshes == areas.value.value && |ms.value[0].submeshes| == areaCount.value.value &&
      ms.value[1..] == shapes.value.value
  {
    var name := WbgCore.StringAt(d, p).value;
    var vb := VertexBufferAt(d, name.next).value;
    var ib := IndexBufferAt(d, vb.next).value;
    var areaCount := U8At(d, ib.next).value;
    RepeatLength(AreaItem, (ib.value.bytes, ib.value.format), d, areaCount.next, areaCount.value);
    var areas := Repeat(AreaItem, (ib.value.bytes, ib.value.format), d, areaCount.next, areaCount.value).value;
    var bindingCount := U8At(d, areas.next).value;
    var bindings := Repeat(WbgCore.StringItem, (), d, bindingCount.next, bindingCount.value).value;
    var shapeCount := U8At(d, bindings.next).value;
    RepeatLength(BlendShapeItem, (), d, shapeCount.next, shapeCount.value);
  }

  /** A record's meshes, each with exactly one buffer. */
  predicate OneBufferEach(ms: seq<Mesh>)
  {
    |ms| > 0 && forall k :: 0 <= k < |ms| ==> |ms[k].buffers| == 1
  }

  function Objects(ms: seq<Mesh>): (r: seq<Object>)
    ensures |r| == |ms|
  {
    seq(|ms|, k requires 0 <= k < |ms| => MeshObject(ms[k]))
  }

  /** `import`: a version byte that must be 0, a u8 record count and the
      records; every mesh of every record becomes an object, in order.
      Bytes after the last record are ignored. */
  function ImportAt(d: seq<byte>): Option<Asset>
  {
    var version :- U8At(d, 0);
    if version.value != 0 then None
    else
      var meshCount :- U8At(d, 1);
      var groups :- Repeat(RecordItem, (), d, 2, meshCount.value);
      Some(Asset(Objects(Flatten(groups.value))))
  }

  /** An import succeeds only on version 0; it yields at least one object per
      record (the main meshes), and every object has exactly one buffer. */
  lemma ImportShape(d: seq<byte>)
    requires ImportAt(d).Some?
    ensures |d| >= 2 && d[0] == 0
    ensures |ImportAt(d).value.objects| >= d[1]
    ensures forall k :: 0 <= k < |ImportAt(d).value.objects| ==> |ImportAt(d).value.objects[k].mesh.buffers| == 1
  {
    var groups := Repeat(RecordItem, (), d, 2, d[1]).value.value;
    assert ImportAt(d).value.objects == Objects(Flatten(groups));
    RecordsOneBuffer(d, 2, d[1]);
    GroupsOneBuffer(groups);
  }

  /** Every mesh a record yields has one buffer. */
  lemma RecordOneBuffer(d: seq<byte>, p: nat)
    requires RecordItem((), d, p).Some?
    ensures OneBufferEach(RecordItem((), d, p).value.value)
  {
    MeshShape(d, p);
    ShapedOneBuffer(MeshAt((), d, p).value.value);
  }

  /** A main mesh followed by blend shapes has one buffer per mesh. */
  lemma ShapedOneBuffer(ms: seq<Mesh>)
    requires |ms| >= 1 && IsMain(ms[0]) && forall k :: 1 <= k < |ms| ==> IsBlendShape(ms[k])
    ensures OneBufferEach(ms)
  {
    forall k | 0 <= k < |ms|
      ensures |ms[k].buffers| == 1
    {
      if k > 0 {
        assert IsBlendShape(ms[k]);
      }
    }
  }

  /** Every record of a run of them yields meshes of one buffer each. */
  lemma RecordsOneBuffer(d: seq<byte>, p: nat, n: nat)
    requires Repeat(RecordItem, (), d, p, n).Some?
    ensures |Repeat(RecordItem, (), d, p, n).value.value| == n
    ensures forall i :: 0 <= i < n ==> OneBufferEach(Repeat(RecordItem, (), d, p, n).value.value[i])
  {
    forall q: nat | RecordItem((), d, q).Some?
      ensures OneBufferEach(RecordItem((), d, q).value.value)
    {
      RecordOneBuffer(d, q);
    }
    RepeatLength(RecordItem, (), d, p, n);
    RepeatAll(RecordItem, (), d, p, n, OneBufferEach);
  }

  /** Records that each yield meshes of one buffer yield at least one object
      per record, each with one buffer. */
  lemma GroupsOneBuffer(groups: seq<seq<Mesh>>)
    requires forall i :: 0 <= i < |groups| ==> OneBufferEach(groups[i])
    ensures |Objects(Flatten(groups))| >= |groups|
    ensures forall k :: 0 <= k < |Objects(Flatten(groups))| ==> |Objects(Flatten(groups))[k].mesh.buffers| == 1
  {
    FlattenKeeps(groups, (m: Mesh) => |m.buffers| == 1);
    TotalLengthAtLeast(groups);
  }

  method ReadDecl(c: Cursor) returns (r: Option<Decl>)
    modifies c
    ensures Agrees(r, c.pos, DeclAt(c.data, old(c.pos)))
  {
    var usage := c.ReadU8();
    if usage.None? {
      return None;
    }
    var reserved := c.ReadU8();
    if reserved.None? {
      return None;
    }
    var fileType := c.ReadU8();
    if fileType.None? {
      return None;
    }
    var ty := FormatFromCode(fileType.value % 16);
    var name := WbgCore.NameFromUsage(usage.value);
    if ty.None? || name.None? {
      return None;
    }
    r := Some(Decl(name.value, ty.value, fileType.value / 32 + 1));
  }

  /** The declaration loop of `read_vertex_buffer`: n records, each
      attribute pushed at the running size, which then grows by the record's
      `byte_size * elements`. */
  method ReadDecls(c: Cursor, n: nat) returns (r: Option<(seq<Attribute>, nat)>)
    modifies c
    ensures match Repeat(DeclItem, (), c.data, old(c.pos), n)
      case None => r.None?
      case Some(decls) => r == Some((Layout(decls.value), Stride(decls.value))) && c.pos == decls.next
  {
    var p0 := c.pos;
    var vertexSize: nat := 0;
    var attributes: seq<Attribute> := [];
    ghost var decls: seq<Decl> := [];
    for i := 0 to n
      invariant Repeat(DeclItem, (), c.data, p0, i) == Some(Parsed(decls, c.pos))
      invariant attributes == Layout(decls) && vertexSize == Stride(decls)
    {
      var pushed := PushDecl(c, p0, i, decls, attributes, vertexSize);
      if pushed.None? {
        RepeatAbortStays(DeclItem, (), c.data, p0, i + 1, n);
        return None;
      }
      decls := Repeat(DeclItem, (), c.data, p0, i + 1).value.value;
      attributes, vertexSize := pushed.value.0, pushed.value.1;
    }
    return Some((attributes, vertexSize));
  }

  /** One turn of the declaration loop: a record read, its attribute pushed
      at the running size, and the size grown by the record's size. */
  method PushDecl(c: Cursor, ghost p0: nat, ghost i: nat, ghost decls: seq<Decl>, attributes: seq<Attribute>, vertexSize: nat)
    returns (r: Option<(seq<Attribute>, nat)>)
    requires Repeat(DeclItem, (), c.data, p0, i) == Some(Parsed(decls, c.pos))
    requires attributes == Layout(decls) && vertexSize == Stride(decls)
    modifies c
    ensures r.None? <==> Repeat(DeclItem, (), c.data, p0, i + 1).None?
    ensures r.Some? ==> var next := Repeat(DeclItem, (), c.data, p0, i + 1).value;
      r.value == (Layout(next.value), Stride(next.value)) && c.pos == next.next
  {
    ghost var pos := c.pos;
    var decl := ReadDecl(c);
    DeclStep(c.data, p0, i, decls, pos, decl, c.pos);
    if decl.None? {
      return None;
    }
    var x := decl.value;
    var attribute := Attribute(x.name, vertexSize, x.ty, x.elements, 0);
    var size := Size(x);
    ghost var next := Repeat(DeclItem, (), c.data, p0, i + 1).value;
    assert next.value == decls + [x] && next.next == c.pos;
    assert attributes + [attribute] == Layout(next.value);
    assert vertexSize + size == Stride(next.value);
    r := Some((attributes + [attribute], vertexSize + size));
  }

  /** One more record read (or its failure) extends the run, its layout
      and its stride (or fails the run). */
  lemma DeclStep(d: seq<byte>, p0: nat, i: nat, decls: seq<Decl>, pos: nat, decl: Option<Decl>, next: nat)
    requires Repeat(DeclItem, (), d, p0, i) == Some(Parsed(decls, pos))
    requires Agrees(decl, next, DeclAt(d, pos))
    ensures decl.None? <==> Repeat(DeclItem, (), d, p0, i + 1).None?
    ensures decl.Some? ==> Repeat(DeclItem, (), d, p0, i + 1) == Some(Parsed(decls + [decl.value], next))
    ensures decl.Some? ==> Layout(decls + [decl.value]) == Layout(decls) + [Attribute(decl.value.name, Stride(decls), decl.value.ty, decl.value.elements, 0)]
    ensures decl.Some? ==> Stride(decls + [decl.value]) == Stride(decls) + Size(decl.value)
  {
    RepeatStep(DeclItem, (), d, p0, i, decls, pos, DeclAt(d, pos));
    if decl.Some? {
      LayoutPush(decls, decl.value);
    }
  }

  /** `read_vertex_buffer`: the declarations, the vertex count, and the
      copy. */
  method ReadVertexBuffer(c: Cursor) returns (r: Option<VertexData>)
    modifies c
    ensures Agrees(r, c.pos, VertexBufferAt(c.data, old(c.pos)))
  {
    var n := c.ReadU8();
    if n.None? {
      return None;
    }
    var layout := ReadDecls(c, n.value);
    if layout.None? {
      return None;
    }
    var (attributes, vertexSize) := layout.value;
    var vertexCount := c.ReadU32();
    if vertexCount.None? {
      return None;
    }
    var bytes := CopyVertices(c, vertexCount.value, Runs(attributes));
    if bytes.None? {
      return None;
    }
    r := Some(VertexData(vertexCount.value, bytes.value, Descriptor(attributes, [BufferLayout(vertexSize)])));
  }

  method ReadIndexBuffer(c: Cursor) returns (r: Option<IndexData>)
    modifies c
    ensures Agrees(r, c.pos, IndexBufferAt(c.data, old(c.pos)))
  {
    var code := c.ReadU8();
    if code.None? {
      return None;
    }
    var format := WbgCore.IndexFormatFromCode(code.value);
    if format.None? {
      return None;
    }
    var count := c.ReadU32();
    if count.None? {
      return None;
    }
    var bytes := CopyIndices(c, IndexTypes.ByteSize(format.value), count.value);
    if bytes.None? {
      return None;
    }
    r := Some(IndexData(count.value, bytes.value, format.value));
  }

  method ReadMeshArea(c: Cursor, indexBuffer: seq<byte>, format: IndexTypes.Format) returns (r: Option<Submesh>)
    modifies c
    ensures Agrees(r, c.pos, AreaAt((indexBuffer, format), c.data, old(c.pos)))
  {
    var name := WbgCore.ReadString(c);
    if name.None? {
      return None;
    }
    var start := c.ReadU32();
    if start.None? {
      return None;
    }
    var count := c.ReadU32();
    if count.None? {
      return None;
    }
    var p0 := c.pos;
    for i := 0 to 6
      invariant Repeat(F32Item, (), c.data, p0, i).Some? && Repeat(F32Item, (), c.data, p0, i).value.next == c.pos
    {
      var bound := c.ReadF32();
      if bound.None? {
        RepeatAbortStays(F32Item, (), c.data, p0, i + 1, 6);
        return None;
      }
    }
    var buffer := AreaRange(indexBuffer, format, start.value, count.value);
    if buffer.None? {
      return None;
    }
    r := Some(Submesh(name.value, buffer.value, 3 * count.value, format, IndexTypes.Triangles));
  }

  method ReadBlendShape(c: Cursor) returns (r: Option<Mesh>)
    modifies c
    ensures Agrees(r, c.pos, BlendShapeAt((), c.data, old(c.pos)))
  {
    var name := WbgCore.ReadString(c);
    if name.None? {
      return None;
    }
    var vb := ReadVertexBuffer(c);
    if vb.None? {
      return None;
    }
    var ib := ReadIndexBuffer(c);
    if ib.None? {
      return None;
    }
    var shape := Submesh([], ib.value.bytes, ib.value.indexCount, ib.value.format, IndexTypes.Points);
    r := Some(Mesh(name.value, vb.value.vertexCount, vb.value.descriptor, [vb.value.bytes], [shape]));
  }

  method ReadMesh(c: Cursor) returns (r: Option<seq<Mesh>>)
    modifies c
    ensures Agrees(r, c.pos, MeshAt((), c.data, old(c.pos)))
  {
    var name := WbgCore.ReadString(c);
    if name.None? {
      return None;
    }
    var vb := ReadVertexBuffer(c);
    if vb.None? {
      return None;
    }
    var ib := ReadIndexBuffer(c);
    if ib.None? {
      return None;
    }
    var areaCount := c.ReadU8();
    if areaCount.None? {
      return None;
    }
    var submeshes := ReadAreas(c, ib.value.bytes, ib.value.format, areaCount.value);
    if submeshes.None? {
      return None;
    }
    var main := Mesh(name.value, vb.value.vertexCount, vb.value.descriptor, [vb.value.bytes], submeshes.value);
    var bindingCount := c.ReadU8();
    if bindingCount.None? {
      return None;
    }
    var bindings := ReadBoneBindings(c, bindingCount.value);
    if !bindings {
      return None;
    }
    var shapeCount := c.ReadU8();
    if shapeCount.None? {
      return None;
    }
    var shapes := ReadBlendShapes(c, shapeCount.value);
    if shapes.None? {
      return None;
    }
    r := Some([main] + shapes.value);
  }

  /** The area loop of `read_mesh`. */
  method ReadAreas(c: Cursor, indexBuffer: seq<byte>, format: IndexTypes.Format, n: nat) returns (r: Option<seq<Submesh>>)
    modifies c
    ensures Agrees(r, c.pos, Repeat(AreaItem, (indexBuffer, format), c.data, old(c.pos), n))
  {
    var ctx := (indexBuffer, format);
    var p0 := c.pos;
    var submeshes: seq<Submesh> := [];
    for i := 0 to n
      invariant Repeat(AreaItem, ctx, c.data, p0, i) == Some(Parsed(submeshes, c.pos))
    {
      ghost var pos := c.pos;
      var area := ReadMeshArea(c, indexBuffer, format);
      RepeatStep(AreaItem, ctx, c.data, p0, i, submeshes, pos, AreaAt(ctx, c.data, pos));
      if area.None? {
        RepeatAbortStays(AreaItem, ctx, c.data, p0, i + 1, n);
        return None;
      }
      submeshes := submeshes + [area.value];
    }
    r := Some(submeshes);
  }

  /** The bone binding loop of `read_mesh`: each name is read and dropped. */
  method ReadBoneBindings(c: Cursor, n: nat) returns (ok: bool)
    modifies c
    ensures ok <==> Repeat(WbgCore.StringItem, (), c.data, old(c.pos), n).Some?
    ensures ok ==> c.pos == Repeat(WbgCore.StringItem, (), c.data, old(c.pos), n).value.next
  {
    var p0 := c.pos;
    ghost var names: seq<seq<byte>> := [];
    for i := 0 to n
      invariant Repeat(WbgCore.StringItem, (), c.data, p0, i) == Some(Parsed(names, c.pos))
    {
      ghost var pos := c.pos;
      var name := WbgCore.ReadString(c);
      RepeatStep(WbgCore.StringItem, (), c.data, p0, i, names, pos, WbgCore.StringAt(c.data, pos));
      if name.None? {
        RepeatAbortStays(WbgCore.StringItem, (), c.data, p0, i + 1, n);
        return false;
      }
      names := names + [name.value];
    }
    return true;
  }

  /** The blend shape loop of `read_mesh`. */
  method ReadBlendShapes(c: Cursor, n: nat) returns (r: Option<seq<Mesh>>)
    modifies c
    ensures Agrees(r, c.pos, Repeat(BlendShapeItem, (), c.data, old(c.pos), n))
  {
    var p0 := c.pos;
    var shapes: seq<Mesh> := [];
    for i := 0 to n
      invariant Repeat(BlendShapeItem, (), c.data, p0, i) == Some(Parsed(shapes, c.pos))
    {
      ghost var pos := c.pos;
      var shape := ReadBlendShape(c);
      RepeatStep(BlendShapeItem, (), c.data, p0, i, shapes, pos, BlendShapeAt((), c.data, pos));
      if shape.None? {
        RepeatAbortStays(BlendShapeItem, (), c.data, p0, i + 1, n);
        return None;
      }
      shapes := shapes + [shape.value];
    }
    r := Some(shapes);
  }

  /** Objects of a concatenation are the concatenation of the objects. */
  lemma ObjectsAppend(a: seq<Mesh>, b: seq<Mesh>)
    ensures Objects(a + b) == Objects(a) + Objects(b)
  {
    assert forall k :: 0 <= k < |a + b| ==> Objects(a + b)[k] == (Objects(a) + Objects(b))[k];
  }

  /** The inner loop of `import`: every mesh of a record pushed as an object. */
  method PushMeshes(objects: seq<Object>, meshes: seq<Mesh>) returns (r: seq<Object>)
    ensures r == objects + Objects(meshes)
  {
    r := objects;
    for j := 0 to |meshes|
      invariant r == objects + Objects(meshes[..j])
    {
      ObjectsAppend(meshes[..j], [meshes[j]]);
      assert meshes[..j + 1] == meshes[..j] + [meshes[j]];
      r := r + [MeshObject(meshes[j])];
    }
    assert meshes[..|meshes|] == meshes;
  }

  /** The record loop of `import`: each record read and its meshes pushed. */
  method ReadRecords(c: Cursor, n: nat) returns (r: Option<seq<Object>>)
    modifies c
    ensures match Repeat(RecordItem, (), c.data, old(c.pos), n)
      case None => r.None?
      case Some(groups) => r == Some(Objects(Flatten(groups.value)))
  {
    var p0 := c.pos;
    var objects: seq<Object> := [];
    ghost var groups: seq<seq<Mesh>> := [];
    for i := 0 to n
      invariant Repeat(RecordItem, (), c.data, p0, i) == Some(Parsed(groups, c.pos))
      invariant objects == Objects(Flatten(groups))
    {
      ghost var pos := c.pos;
      var meshes := ReadMesh(c);
      RepeatStep(RecordItem, (), c.data, p0, i, groups, pos, MeshAt((), c.data, pos));
      if meshes.None? {
        RepeatAbortStays(RecordItem, (), c.data, p0, i + 1, n);
        return None;
      }
      FlattenPush(groups, meshes.value);
      ObjectsAppend(Flatten(groups), meshes.value);
      objects := PushMeshes(objects, meshes.value);
      groups := groups + [meshes.value];
    }
    r := Some(objects);
  }

  /** `import`: the version must be 0; every mesh of every record is pushed
      as an object. */
  method Import(input: seq<byte>) returns (r: Option<Asset>)
    ensures r == ImportAt(input)
  {
    var c := new Cursor(input);
    var version := c.ReadU8();
    if version.None? || version.value != 0 {
      return None;
    }
    var meshCount := c.ReadU8();
    if meshCount.None? {
      return None;
    }
    var objects := ReadRecords(c, meshCount.value);
    if objects.None? {
      return None;
    }
    r := Some(Asset(objects.value));
  }
}
