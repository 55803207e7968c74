/** Meshes and their areas (src/importer/wbg/mesh.rs): an area is a
    sub-view of the mesh's index view, checked to lie inside it. */
module WbgMesh {
  import opened Wrappers
  import opened Bytes
  import opened ByteCursor
  import Buffers
  import opened BufferViews
  import opened IndexTypes
  import opened Assets
  import opened WbgCore
  import opened Seqs

  /** `inner` is a window of the same buffer inside `outer`'s window. */
  predicate Contains(outer: BufferView, inner: BufferView)
  {
    inner.buffer == outer.buffer && outer.offset <= inner.offset && inner.offset + inner.length <= outer.offset + outer.length
  }

  /** The view of an area of `count` triangles from index `start`: offset
      `parent.offset + byte_size * start`, length `byte_size * 3 * count`, and
      both asserts on it. */
  function AreaView(parent: BufferView, format: Format, start: nat, count: nat): (r: Option<BufferView>)
    ensures r.Some? ==> Contains(parent, r.value) && r.value.name == parent.name
  {
    var bs := ByteSize(format);
    var offset := parent.offset + Span(start, bs);
    var length := Span(3 * count, bs);
    if offset >= parent.offset && offset + length <= parent.offset + parent.length then
      Some(BufferView(parent.name, parent.buffer, offset, length))
    else None
  }

  /** The two asserts pass exactly when the `start + 3 * count` indices from
      the start of the index view fit in it; the area then begins `start`
      indices in. */
  lemma AreaViewFits(parent: BufferView, format: Format, start: nat, count: nat)
    ensures AreaView(parent, format, start, count).Some? <==> ByteSize(format) * (start + 3 * count) <= parent.length
    ensures AreaView(parent, format, start, count).Some? ==>
      AreaView(parent, format, start, count).value.offset == parent.offset + ByteSize(format) * start
        && AreaView(parent, format, start, count).value.length == ByteSize(format) * (3 * count)
  {
    var bs := ByteSize(format);
    assert Span(start, bs) + Span(3 * count, bs) == bs * (start + 3 * count);
  }

  /** Inside an in-bounds index view, an area's bytes are the slice of the
      index view's bytes from `byte_size * start`. */
  lemma AreaWindow(parent: BufferView, format: Format, start: nat, count: nat)
    requires InBounds(parent) && AreaView(parent, format, start, count).Some?
    ensures var v := AreaView(parent, format, start, count).value;
      var s := Span(start, ByteSize(format));
      InBounds(v) && Window(v) == Window(parent)[s..s + v.length]
  {
    var v := AreaView(parent, format, start, count).value;
    var s := Span(start, ByteSize(format));
    SliceOfSlice(parent.buffer.data, parent.offset, parent.offset + parent.length, s, s + v.length);
  }

  /** `read_mesh_area` given the mesh's index view and format: name, u32
      start, u32 triangle count, six f32 bounds (read and dropped), and the
      sub-view of `3 * count` indices with geometry Triangles. */
  function AreaAt(ctx: (BufferView, Format), d: seq<byte>, p: nat): (r: Option<Parsed<Submesh>>)
    ensures r.Some? ==> Contains(ctx.0, r.value.value.view) && r.value.value.view.name == ctx.0.name
    ensures r.Some? ==> r.value.value.geometry == Triangles && r.value.value.indexFormat == ctx.1
    ensures r.Some? ==> r.value.value.indexCount % 3 == 0
    ensures r.Some? ==> r.value.value.view.length == ByteSize(ctx.1) * r.value.value.indexCount
  {
    var name :- StringAt(d, p);
    var start :- U32At(d, name.next);
    var count :- U32At(d, start.next);
    var bounds :- Repeat(F32Item, (), d, count.next, 6);
    var view :- AreaView(ctx.0, ctx.1, start.value, count.value);
    Some(Parsed(Submesh(name.value, view, 3 * count.value, ctx.1, Triangles), bounds.next))
  }

  /** An area record is its name's bytes plus 33 bytes: length byte, start,
      count and the 24 bytes of bounds. */
  lemma AreaSize(ctx: (BufferView, Format), d: seq<byte>, p: nat)
    requires AreaAt(ctx, d, p).Some?
    ensures AreaAt(ctx, d, p).value.next == p + |AreaAt(ctx, d, p).value.value.name| + 33
  {
    var name := StringAt(d, p).value;
    var count := U32At(d, name.next + 4).value;
    assert AreaAt(ctx, d, p).value.next == Repeat(F32Item, (), d, count.next, 6).value.next;
    RepeatWords(d, count.next, 6);
  }

  method ReadMeshArea(c: Cursor, parent: BufferView, format: Format) returns (r: Option<Submesh>)
    modifies c
    ensures Agrees(r, c.pos, AreaAt((parent, format), c.data, old(c.pos)))
  {
    var name := ReadString(c);
    if name.None? {
      return None;
    }
    var start := c.ReadU32();
    if start.None? {
      return None;
    }
    var count := c.ReadU32();
    if count.None? {
      return None;
    }
    var p0 := c.pos;
    for i := 0 to 6
      invariant Repeat(F32Item, (), c.data, p0, i).Some? && Repeat(F32Item, (), c.data, p0, i).value.next == c.pos
    {
      var bound := c.ReadF32();
      if bound.None? {
        RepeatAbortStays(F32Item, (), c.data, p0, i + 1, 6);
        return None;
      }
    }
    var view := AreaView(parent, format, start.value, count.value);
    if view.None? {
      return None;
    }
    r := Some(Submesh(name.value, view.value, 3 * count.value, format, Triangles));
  }

  function AreaItem(ctx: (BufferView, Format), d: seq<byte>, p: nat): Option<Parsed<Submesh>>
  {
    AreaAt(ctx, d, p)
  }

  /** `read_mesh`: name, vertex buffer, index buffer, a u8 area count and that
      many areas, in stream order; the vertex view is the mesh's one buffer. */
  function MeshAt(buffer: Buffers.Buffer, p: nat): (r: Option<Parsed<Mesh>>)
    ensures r.Some? ==> |r.value.value.buffers| == 1 && |r.value.value.submeshes| < 0x100
  {
    var d := buffer.data;
    var name :- StringAt(d, p);
    var vb :- VertexBufferAt(buffer, name.next);
    var ib :- IndexBufferAt(buffer, vb.next);
    var areaCount :- U8At(d, ib.next);
    var areas :- Repeat(AreaItem, (ib.value.view, ib.value.format), d, areaCount.next, areaCount.value);
    RepeatLength(AreaItem, (ib.value.view, ib.value.format), d, areaCount.next, areaCount.value);
    Some(Parsed(Mesh(name.value, vb.value.vertexCount, vb.value.descriptor, [vb.value.view], areas.value), areas.next))
  }

  /** Every submesh of a decoded mesh is a Triangles area inside the index
      view read for that mesh, with its format; the buffers are the vertex
      view read for it. */
  lemma MeshSubmeshes(buffer: Buffers.Buffer, p: nat)
    requires MeshAt(buffer, p).Some?
    ensures var name := StringAt(buffer.data, p).value;
      var vb := VertexBufferAt(buffer, name.next).value;
      var ib := IndexBufferAt(buffer, vb.next).value.value;
      var m := MeshAt(buffer, p).value.value;
      m.name == name.value && m.buffers == [vb.value.view] && m.vertexCount == vb.value.vertexCount
        && forall k :: 0 <= k < |m.submeshes| ==>
          Contains(ib.view, m.submeshes[k].view) && m.submeshes[k].geometry == Triangles
            && m.submeshes[k].indexFormat == ib.format
  {
    var d := buffer.data;
    var name := StringAt(d, p).value;
    var vb := VertexBufferAt(buffer, name.next).value;
    var ib := IndexBufferAt(buffer, vb.next);
    var areaCount := U8At(d, ib.value.next).value;
    var ctx := (ib.value.value.view, ib.value.value.format);
    RepeatAll(AreaItem, ctx, d, areaCount.next, areaCount.value,
      (s: Submesh) => Contains(ctx.0, s.view) && s.geometry == Triangles && s.indexFormat == ctx.1);
  }

  /** The submeshes of a decoded mesh are exactly the areas read after the
      area-count byte, in stream order, as many as that byte says; reading
      ends after the last of them. */
  lemma MeshAreas(buffer: Buffers.Buffer, p: nat)
    requires MeshAt(buffer, p).Some?
    ensures var name := StringAt(buffer.data, p).value;
      var vb := VertexBufferAt(buffer, name.next).value;
      var ib := IndexBufferAt(buffer, vb.next).value;
      var m := MeshAt(buffer, p).value;
      var count := U8At(buffer.data, ib.next);
      count.Some? && count.value.value == buffer.data[ib.next] &&
      var areas := Repeat(AreaItem, (ib.value.view, ib.value.format), buffer.data, count.value.next, count.value.value);
      areas.Some? && m.value.submeshes == areas.value.value && m.next == areas.value.next
        && |m.value.submeshes| == count.value.value
  {
    var d := buffer.data;
    var name := StringAt(d, p).value;
    var vb := VertexBufferAt(buffer, name.next).value;
    var ib := IndexBufferAt(buffer, vb.next).value;
    var count := U8At(d, ib.next).value;
    RepeatLength(AreaItem, (ib.value.view, ib.value.format), d, count.next, count.value);
  }

  method ReadMesh(c: Cursor, buffer: Buffers.Buffer) returns (r: Option<Mesh>)
    requires c.data == buffer.data
    modifies c
    ensures Agrees(r, c.pos, MeshAt(buffer, old(c.pos)))
  {
    var name := ReadString(c);
    if name.None? {
      return None;
    }
    var vb := ReadVertexBuffer(c, buffer);
    if vb.None? {
      return None;
    }
    var ib := ReadIndexBuffer(c, buffer);
    if ib.None? {
      return None;
    }
    var areaCount := c.ReadU8();
    if areaCount.None? {
      return None;
    }
    var ctx := (ib.value.view, ib.value.format);
    var p0 := c.pos;
    var submeshes: seq<Submesh> := [];
    for i := 0 to areaCount.value
      invariant Repeat(AreaItem, ctx, c.data, p0, i) == Some(Parsed(submeshes, c.pos))
    {
      var area := ReadMeshArea(c, ib.value.view, ib.value.format);
      if area.None? {
        RepeatAbortStays(AreaItem, ctx, c.data, p0, i + 1, areaCount.value);
        return None;
      }
      submeshes := submeshes + [area.value];
    }
    r := Some(Mesh(name.value, vb.value.vertexCount, vb.value.descriptor, [vb.value.view], submeshes));
  }
}
