/** Blend shapes of the current importer (src/importer/wbg/blend_shape.rs):
    each is a whole mesh over the same shared buffer, drawn as points. */
module WbgBlendShape {
  import opened Wrappers
  import opened Bytes
  import opened ByteCursor
  import Buffers
  import opened IndexTypes
  import opened Assets
  import opened WbgCore

  /** `read_blend_shape`: name, vertex buffer, index buffer; the one submesh
      shares the mesh's name and covers the whole index view as points. */
  function BlendShapeAt(buffer: Buffers.Buffer, p: nat): (r: Option<Parsed<Mesh>>)
    ensures r.Some? ==> |r.value.value.buffers| == 1 && |r.value.value.submeshes| == 1
    ensures r.Some? ==> r.value.value.submeshes[0].name == r.value.value.name
    ensures r.Some? ==> r.value.value.submeshes[0].geometry == Points
    ensures r.Some? ==> r.value.value.buffers[0].buffer == buffer && r.value.value.submeshes[0].view.buffer == buffer
  {
    var name :- StringAt(buffer.data, p);
    var vb :- VertexBufferAt(buffer, name.next);
    var ib :- IndexBufferAt(buffer, vb.next);
    var submesh := Submesh(name.value, ib.value.view, ib.value.indexCount, ib.value.format, Points);
    Some(Parsed(Mesh(name.value, vb.value.vertexCount, vb.value.descriptor, [vb.value.view], [submesh]), ib.next))
  }

  /** A decoded blend shape is made of exactly what was read: its one buffer
      is the vertex view, its submesh is the whole index view with the index
      count and format read, and reading ends after the index buffer. */
  lemma BlendShapeParts(buffer: Buffers.Buffer, p: nat)
    requires BlendShapeAt(buffer, p).Some?
    ensures var name := StringAt(buffer.data, p).value;
      var vb := VertexBufferAt(buffer, name.next).value;
      var ib := IndexBufferAt(buffer, vb.next).value;
      var r := BlendShapeAt(buffer, p).value;
      r.value.name == name.value && r.value.vertexCount == vb.value.vertexCount
        && r.value.descriptor == vb.value.descriptor && r.value.buffers == [vb.value.view]
        && r.value.submeshes[0].view == ib.value.view && r.value.submeshes[0].indexCount == ib.value.indexCount
        && r.value.submeshes[0].indexFormat == ib.value.format && r.next == ib.next
  {
  }

  function BlendShapeItem(ctx: Buffers.Buffer, d: seq<byte>, p: nat): Option<Parsed<Mesh>>
  {
    BlendShapeAt(ctx, p)
  }

  /** The shape every blend shape has. */
  predicate IsBlendShape(m: Mesh)
  {
    |m.buffers| == 1 && |m.submeshes| == 1 && m.submeshes[0].name == m.name && m.submeshes[0].geometry == Points
  }

  /** `read_blend_shapes`: a little-endian u16 count, then that many blend
      shapes, each a one-submesh point mesh named like its submesh. */
  function BlendShapesAt(buffer: Buffers.Buffer, p: nat): (r: Option<Parsed<seq<Mesh>>>)
    ensures r.Some? ==> p + 2 <= |buffer.data| && |r.value.value| == LeValue(buffer.data[p..p + 2])
    ensures r.Some? ==> forall k :: 0 <= k < |r.value.value| ==> IsBlendShape(r.value.value[k])
  {
    var count :- U16At(buffer.data, p);
    var shapes :- Repeat(BlendShapeItem, buffer, buffer.data, count.next, count.value);
    RepeatLength(BlendShapeItem, buffer, buffer.data, count.next, count.value);
    RepeatAll(BlendShapeItem, buffer, buffer.data, count.next, count.value, IsBlendShape);
    Some(shapes)
  }

  method ReadBlendShape(c: Cursor, buffer: Buffers.Buffer) returns (r: Option<Mesh>)
    requires c.data == buffer.data
    modifies c
    ensures Agrees(r, c.pos, BlendShapeAt(buffer, old(c.pos)))
  {
    var name := ReadString(c);
    if name.None? {
      return None;
    }
    var vb := ReadVertexBuffer(c, buffer);
    if vb.None? {
      return None;
    }
    var ib := ReadIndexBuffer(c, buffer);
    if ib.None? {
      return None;
    }
    var submesh := Submesh(name.value, ib.value.view, ib.value.indexCount, ib.value.format, Points);
    r := Some(Mesh(name.value, vb.value.vertexCount, vb.value.descriptor, [vb.value.view], [submesh]));
  }

  method ReadBlendShapes(c: Cursor, buffer: Buffers.Buffer) returns (r: Option<seq<Mesh>>)
    requires c.data == buffer.data
    modifies c
    ensures Agrees(r, c.pos, BlendShapesAt(buffer, old(c.pos)))
  {
    var count := c.ReadU16();
    if count.None? {
      return None;
    }
    var p0 := c.pos;
    var shapes: seq<Mesh> := [];
    for i := 0 to count.value
      invariant c.data == buffer.data
      invariant Repeat(BlendShapeItem, buffer, c.data, p0, i) == Some(Parsed(shapes, c.pos))
    {
      var shape := ReadBlendShape(c, buffer);
      if shape.None? {
        RepeatAbortStays(BlendShapeItem, buffer, c.data, p0, i + 1, count.value);
        return None;
      }
      shapes := shapes + [shape.value];
    }
    r := Some(shapes);
  }
}
