/** The shared readers of the current zero-copy importer
    (src/importer/wbg/mod.rs): length-prefixed strings, the bit-packed vertex
    declaration, and the vertex and index payloads, which become views of the
    imported buffer at the cursor position instead of copies. */
module WbgCore {
  import opened Wrappers
  import opened Bytes
  import opened Utf8
  import opened ByteCursor
  import Buffers
  import opened BufferViews
  import VertexTypes
  import opened VertexFormats
  import IndexTypes

  /** `read_string`: a u8 length, then up to that many bytes, which must be
      UTF-8. */
  function StringAt(d: seq<byte>, p: nat): (r: Option<Parsed<seq<byte>>>)
    ensures r.Some? ==> p < |d| && r.value.value == TakeBytes(d, p + 1, d[p]) && r.value.next == p + 1 + |r.value.value|
  {
    var len :- U8At(d, p);
    TakeStringAt(d, len.next, len.value)
  }

  /** A string is read exactly when its length byte is there and the bytes
      `take` lets through are well-formed UTF-8. */
  lemma StringAtValid(d: seq<byte>, p: nat)
    ensures StringAt(d, p).Some? <==> p < |d| && ValidUtf8(TakeBytes(d, p + 1, d[p]))
  {
  }

  function StringItem(ctx: (), d: seq<byte>, p: nat): Option<Parsed<seq<byte>>>
  {
    StringAt(d, p)
  }

  method ReadString(c: Cursor) returns (r: Option<seq<byte>>)
    modifies c
    ensures Agrees(r, c.pos, StringAt(c.data, old(c.pos)))
  {
    var len := c.ReadU8();
    if len.None? {
      return None;
    }
    r := c.ReadToString(len.value);
  }

  /** The scalar table keyed on the packed byte's low nibble. The arms 16, 17,
      24 and 25 are written in the source but a nibble never reaches them. */
  function ScalarFromCode(code: nat): Option<ScalarFormat>
  {
    match code
    case 0 => Some(I8)
    case 1 => Some(I16)
    case 2 => Some(I32)
    case 3 => Some(F16)
    case 4 => Some(F32)
    case 8 => Some(U8)
    case 9 => Some(U16)
    case 10 => Some(U32)
    case 16 => Some(I8Normalized)
    case 17 => Some(I16Normalized)
    case 24 => Some(U8Normalized)
    case 25 => Some(U16Normalized)
    case _ => None
  }

  /** No packed byte ever selects a normalized scalar: the low nibble decodes
      exactly for 0-4 and 8-10, always to a plain format. */
  lemma NibbleScalars(packed: byte)
    ensures ScalarFromCode(packed % 16).Some? <==> packed % 16 in {0, 1, 2, 3, 4, 8, 9, 10}
    ensures ScalarFromCode(packed % 16).Some? ==> !IsNormalized(ScalarFromCode(packed % 16).value)
  {
  }

  /** The usage table. */
  function NameFromUsage(u: nat): (r: Option<VertexTypes.AttributeName>)
    ensures r.Some? <==> u < 8
  {
    match u
    case 0 => Some(VertexTypes.Position)
    case 1 => Some(VertexTypes.Color)
    case 2 => Some(VertexTypes.Normal)
    case 3 => Some(VertexTypes.Tangent)
    case 4 => Some(VertexTypes.Binormal)
    case 5 => Some(VertexTypes.TextureCoordinate)
    case 6 => Some(VertexTypes.JointWeights)
    case 7 => Some(VertexTypes.JointIndices)
    case _ => None
  }

  /** Distinct usage bytes name distinct attributes. */
  lemma UsageInjective(u: nat, v: nat)
    requires NameFromUsage(u).Some? && u != v
    ensures NameFromUsage(u) != NameFromUsage(v)
  {
  }

  /** The width field: `(packed >> 5) + 1` through `Width::from_integer`. */
  function WidthFromPacked(packed: byte): Option<Width>
  {
    WidthFromInteger(packed / 32 + 1)
  }

  /** The top three bits give counts 1 to 8, so only packed bytes below 128
      decode, to a scalar or a vector; a 3x3 matrix is never produced. */
  lemma PackedWidth(packed: byte)
    ensures WidthFromPacked(packed).Some? <==> packed < 128
    ensures WidthFromPacked(packed).Some? ==>
      WidthFromPacked(packed).value != Matrix3x3 && Elements(WidthFromPacked(packed).value) == packed / 32 + 1
  {
  }

  /** One declaration record: what it names and its format. */
  datatype Decl = Decl(name: VertexTypes.AttributeName, format: Format)

  /** One record: usage byte, reserved byte, packed type byte. */
  function DeclAt(d: seq<byte>, p: nat): Option<Parsed<Decl>>
  {
    var usage :- U8At(d, p);
    var reserved :- U8At(d, usage.next);
    var packed :- U8At(d, reserved.next);
    var width :- WidthFromPacked(packed.value);
    var scalar :- ScalarFromCode(packed.value % 16);
    var name :- NameFromUsage(usage.value);
    Some(Parsed(Decl(name, Format(scalar, width)), packed.next))
  }

  /** A record decodes exactly when its three bytes are there, its usage is
      known, its packed byte is below 128 and its nibble selects a scalar; it
      then names the usage's attribute in the packed byte's format. */
  lemma DeclFields(d: seq<byte>, p: nat)
    ensures var r := DeclAt(d, p);
      r.Some? <==> p + 3 <= |d| && d[p] < 8 && d[p + 2] < 128 && d[p + 2] % 16 in {0, 1, 2, 3, 4, 8, 9, 10}
    ensures var r := DeclAt(d, p);
      r.Some? ==> (r.value.next == p + 3 && r.value.value.name == NameFromUsage(d[p]).value &&
        r.value.value.format == Format(ScalarFromCode(d[p + 2] % 16).value, WidthFromPacked(d[p + 2]).value))
  {
    if p + 3 <= |d| {
      NibbleScalars(d[p + 2]);
      PackedWidth(d[p + 2]);
    }
  }

  function DeclItem(ctx: (), d: seq<byte>, p: nat): Option<Parsed<Decl>>
  {
    DeclAt(d, p)
  }

  /** A record whose format is neither normalized nor a matrix. */
  predicate PlainDecl(decl: Decl)
  {
    !IsNormalized(decl.format.scalar) && decl.format.width != Matrix3x3
  }

  /** A run of n records is 3n bytes, and none of its formats is normalized
      or a matrix. */
  lemma DeclsWellFormed(d: seq<byte>, p: nat, n: nat)
    requires Repeat(DeclItem, (), d, p, n).Some?
    ensures Repeat(DeclItem, (), d, p, n).value.next == p + 3 * n
    ensures |Repeat(DeclItem, (), d, p, n).value.value| == n
    ensures forall k :: 0 <= k < n ==> PlainDecl(Repeat(DeclItem, (), d, p, n).value.value[k])
  {
    DeclsSpan(d, p, n);
    RepeatLength(DeclItem, (), d, p, n);
    forall q: nat | DeclItem((), d, q).Some?
      ensures PlainDecl(DeclItem((), d, q).value.value)
    {
      DeclPlain(d, q);
    }
    RepeatAll(DeclItem, (), d, p, n, PlainDecl);
  }

  /** A run of n records is 3n bytes. */
  lemma {:induction false} DeclsSpan(d: seq<byte>, p: nat, n: nat)
    requires Repeat(DeclItem, (), d, p, n).Some?
    ensures Repeat(DeclItem, (), d, p, n).value.next == p + 3 * n
  {
    if n > 0 {
      DeclsSpan(d, p, n - 1);
      var init := Repeat(DeclItem, (), d, p, n - 1).value;
      RepeatStep(DeclItem, (), d, p, n - 1, init.value, init.next, DeclItem((), d, init.next));
      DeclPlain(d, init.next);
    }
  }

  /** One record takes three bytes and decodes to a plain, non-matrix format. */
  lemma DeclPlain(d: seq<byte>, p: nat)
    requires DeclAt(d, p).Some?
    ensures DeclAt(d, p).value.next == p + 3
    ensures var f := DeclAt(d, p).value.value.format;
      !IsNormalized(f.scalar) && f.width != Matrix3x3
  {
    DeclFields(d, p);
    NibbleScalars(d[p + 2]);
    PackedWidth(d[p + 2]);
  }

  /** The vertex stride: the running sum of the declared formats' sizes. */
  function Stride(decls: seq<Decl>): nat
  {
    if |decls| == 0 then 0 else Stride(decls[..|decls| - 1]) + FormatByteSize(decls[|decls| - 1].format)
  }

  /** The attributes the declaration loop pushes: each at the size of the
      records before it, in buffer 0. */
  function Layout(decls: seq<Decl>): (attrs: seq<Attribute>)
    ensures |attrs| == |decls|
  {
    if |decls| == 0 then []
    else
      var last := decls[|decls| - 1];
      Layout(decls[..|decls| - 1]) + [Attribute(last.name, last.format, Stride(decls[..|decls| - 1]), 0)]
  }

  /** One more record adds its size to the stride and its attribute, at the
      old stride, to the layout. */
  lemma LayoutPush(decls: seq<Decl>, decl: Decl)
    ensures Stride(decls + [decl]) == Stride(decls) + FormatByteSize(decl.format)
    ensures Layout(decls + [decl]) == Layout(decls) + [Attribute(decl.name, decl.format, Stride(decls), 0)]
  {
    assert (decls + [decl])[..|decls|] == decls;
  }

  /** Attributes lie back to back in declaration order: the k-th starts where
      the first k records end and ends where the first k + 1 end, so the first
      starts at 0 and the last ends at the stride. */
  lemma LayoutOffsets(decls: seq<Decl>)
    ensures forall k :: 0 <= k < |decls| ==>
      Layout(decls)[k] == Attribute(decls[k].name, decls[k].format, Stride(decls[..k]), 0)
    ensures forall k :: 0 <= k < |decls| ==>
      Stride(decls[..k]) + FormatByteSize(decls[k].format) == Stride(decls[..k + 1])
    ensures Stride(decls[..|decls|]) == Stride(decls)
  {
    assert decls[..|decls|] == decls;
    LayoutAt(decls);
    forall k | 0 <= k < |decls|
      ensures Stride(decls[..k]) + FormatByteSize(decls[k].format) == Stride(decls[..k + 1])
    {
      assert decls[..k + 1][..k] == decls[..k];
    }
  }

  /** The k-th attribute starts where the first k records end. */
  lemma {:induction false} LayoutAt(decls: seq<Decl>)
    ensures forall k :: 0 <= k < |decls| ==>
      Layout(decls)[k] == Attribute(decls[k].name, decls[k].format, Stride(decls[..k]), 0)
  {
    if |decls| > 0 {
      var init := decls[..|decls| - 1];
      LayoutAt(init);
      forall k | 0 <= k < |decls|
        ensures Layout(decls)[k] == Attribute(decls[k].name, decls[k].format, Stride(decls[..k]), 0)
      {
        if k < |decls| - 1 {
          assert init[..k] == decls[..k];
        }
      }
    }
  }

  /** The result of `read_vertex_buffer`. */
  datatype VertexData = VertexData(vertexCount: nat, view: BufferView, descriptor: Descriptor)

  /** `read_vertex_buffer` at position p of the buffer's bytes: a u8 record
      count, the records, a u32 vertex count, and then the payload, which
      becomes a view and is skipped. */
  function VertexBufferAt(buffer: Buffers.Buffer, p: nat): Option<Parsed<VertexData>>
  {
    var d := buffer.data;
    var n :- U8At(d, p);
    var decls :- Repeat(DeclItem, (), d, n.next, n.value);
    var vc :- U32At(d, decls.next);
    Some(VertexDataOf(buffer, decls.value, vc))
  }

  /** The vertex data of records `decls` and the vertex count `vc`: the
      payload view and where reading goes on. */
  function VertexDataOf(buffer: Buffers.Buffer, decls: seq<Decl>, vc: Parsed<nat>): Parsed<VertexData>
  {
    var stride := Stride(decls);
    var view := BufferView(None, buffer, vc.next, Span(vc.value, stride));
    Parsed(VertexData(vc.value, view, Descriptor(Layout(decls), [BufferLayout(stride)])), vc.next + view.length)
  }

  /** A decoded vertex buffer is an unnamed view of the imported buffer, one
      stride per vertex long, with one layout; the cursor ends just past it. */
  lemma VertexBufferView(buffer: Buffers.Buffer, p: nat)
    requires VertexBufferAt(buffer, p).Some?
    ensures var r := VertexBufferAt(buffer, p).value;
      r.value.view.buffer == buffer && r.value.view.name == None && |r.value.descriptor.layouts| == 1 &&
      r.value.view.length == Span(r.value.vertexCount, r.value.descriptor.layouts[0].stride) &&
      r.next == r.value.view.offset + r.value.view.length
  {
    var d := buffer.data;
    VertexBufferParts(buffer, p);
    var decls := Repeat(DeclItem, (), d, p + 1, d[p]).value;
    VertexDataView(buffer, decls.value, U32At(d, decls.next).value);
  }

  lemma VertexDataView(buffer: Buffers.Buffer, decls: seq<Decl>, vc: Parsed<nat>)
    ensures var r := VertexDataOf(buffer, decls, vc);
      r.value.view.buffer == buffer && r.value.view.name == None && |r.value.descriptor.layouts| == 1 &&
      r.value.view.length == Span(r.value.vertexCount, r.value.descriptor.layouts[0].stride) &&
      r.next == r.value.view.offset + r.value.view.length
  {
  }

  /** The parts a decoded vertex buffer is built from. */
  lemma VertexBufferParts(buffer: Buffers.Buffer, p: nat)
    requires VertexBufferAt(buffer, p).Some?
    ensures var d := buffer.data;
      p < |d| && Repeat(DeclItem, (), d, p + 1, d[p]).Some? &&
      var decls := Repeat(DeclItem, (), d, p + 1, d[p]).value;
      U32At(d, decls.next).Some? &&
      VertexBufferAt(buffer, p).value == VertexDataOf(buffer, decls.value, U32At(d, decls.next).value)
  {
  }

  /** The vertex count of a decoded vertex buffer fits in a u32. */
  lemma VertexCountBound(buffer: Buffers.Buffer, p: nat)
    requires VertexBufferAt(buffer, p).Some?
    ensures VertexBufferAt(buffer, p).value.value.vertexCount < 0x1_0000_0000
  {
    var d := buffer.data;
    VertexBufferParts(buffer, p);
    var decls := Repeat(DeclItem, (), d, p + 1, d[p]).value;
    LeValueBound(d[decls.next..decls.next + 4]);
  }

  /** The stride of a prefix of the records never exceeds the whole stride. */
  lemma {:induction false} StridePrefixBound(decls: seq<Decl>)
    ensures forall k :: 0 <= k <= |decls| ==> Stride(decls[..k]) <= Stride(decls)
  {
    assert decls[..|decls|] == decls;
    if |decls| > 0 {
      var init := decls[..|decls| - 1];
      StridePrefixBound(init);
      forall k | 0 <= k < |decls|
        ensures Stride(decls[..k]) <= Stride(decls)
      {
        assert init[..k] == decls[..k];
      }
    }
  }

  /** Every attribute lies in buffer 0, keeps its record's format and fits
      inside the stride. */
  lemma LayoutWithinStride(decls: seq<Decl>)
    ensures forall k :: 0 <= k < |decls| ==>
      Layout(decls)[k].bufferIndex == 0 && Layout(decls)[k].format == decls[k].format
        && Layout(decls)[k].offset + FormatByteSize(Layout(decls)[k].format) <= Stride(decls)
  {
    LayoutOffsets(decls);
    StridePrefixBound(decls);
    forall k | 0 <= k < |decls|
      ensures Layout(decls)[k].offset + FormatByteSize(Layout(decls)[k].format) <= Stride(decls)
    {
      assert Stride(decls[..k + 1]) <= Stride(decls);
    }
  }

  /** A decoded vertex buffer: the view starts right after the u32 vertex
      count, every attribute is plain (never normalized, never a matrix), lies
      in buffer 0 and fits inside the stride. */
  lemma VertexBufferShape(buffer: Buffers.Buffer, p: nat)
    requires VertexBufferAt(buffer, p).Some?
    ensures var n: nat := buffer.data[p];
      var v := VertexBufferAt(buffer, p).value.value;
      v.view.offset == p + 1 + 3 * n + 4
        && |v.descriptor.attributes| == n
        && forall k :: 0 <= k < n ==>
          var a := v.descriptor.attributes[k];
          !IsNormalized(a.format.scalar) && a.format.width != Matrix3x3 && a.bufferIndex == 0
            && a.offset + FormatByteSize(a.format) <= v.descriptor.layouts[0].stride
  {
    var d := buffer.data;
    var n: nat := d[p];
    var decls := Repeat(DeclItem, (), d, p + 1, n).value;
    VertexBufferParts(buffer, p);
    DeclsShape(d, p + 1, n);
  }

  /** The attributes of a run of records are plain, in buffer 0 and inside
      the stride. */
  lemma DeclsShape(d: seq<byte>, p: nat, n: nat)
    requires Repeat(DeclItem, (), d, p, n).Some?
    ensures var decls := Repeat(DeclItem, (), d, p, n).value;
      decls.next == p + 3 * n && |Layout(decls.value)| == n &&
      forall k :: 0 <= k < n ==>
        var a := Layout(decls.value)[k];
        !IsNormalized(a.format.scalar) && a.format.width != Matrix3x3 && a.bufferIndex == 0
          && a.offset + FormatByteSize(a.format) <= Stride(decls.value)
  {
    DeclsWellFormed(d, p, n);
    LayoutWithinStride(Repeat(DeclItem, (), d, p, n).value.value);
  }

  method ReadDecl(c: Cursor) returns (r: Option<Decl>)
    modifies c
    ensures Agrees(r, c.pos, DeclAt(c.data, old(c.pos)))
  {
    var usage := c.ReadU8();
    if usage.None? {
      return None;
    }
    var reserved := c.ReadU8();
    if reserved.None? {
      return None;
    }
    var packed := c.ReadU8();
    if packed.None? {
      return None;
    }
    var width := WidthFromPacked(packed.value);
    var scalar := ScalarFromCode(packed.value % 16);
    var name := NameFromUsage(usage.value);
    if width.None? || scalar.None? || name.None? {
      return None;
    }
    r := Some(Decl(name.value, Format(scalar.value, width.value)));
  }

  /** The declaration loop: n records read one after another, each
      attribute pushed at the running size, which then grows by the record's
      format size. */
  method ReadDecls(c: Cursor, n: nat) returns (r: Option<(seq<Attribute>, nat)>)
    modifies c
    ensures match Repeat(DeclItem, (), c.data, old(c.pos), n)
      case None => r.None?
      case Some(decls) => r == Some((Layout(decls.value), Stride(decls.value))) && c.pos == decls.next
  {
    var p0 := c.pos;
    var vertexSize: nat := 0;
    var attributes: seq<Attribute> := [];
    ghost var decls: seq<Decl> := [];
    for i := 0 to n
      invariant Repeat(DeclItem, (), c.data, p0, i) == Some(Parsed(decls, c.pos))
      invariant attributes == Layout(decls) && vertexSize == Stride(decls)
    {
      var pushed := PushDecl(c, p0, i, decls, attributes, vertexSize);
      if pushed.None? {
        RepeatAbortStays(DeclItem, (), c.data, p0, i + 1, n);
        return None;
      }
      decls := Repeat(DeclItem, (), c.data, p0, i + 1).value.value;
      attributes, vertexSize := pushed.value.0, pushed.value.1;
    }
    return Some((attributes, vertexSize));
  }

  /** One turn of the declaration loop: a record read, its attribute pushed
      at the running size, and the size grown by its format's size. */
  method PushDecl(c: Cursor, ghost p0: nat, ghost i: nat, ghost decls: seq<Decl>, attributes: seq<Attribute>, vertexSize: nat)
    returns (r: Option<(seq<Attribute>, nat)>)
    requires Repeat(DeclItem, (), c.data, p0, i) == Some(Parsed(decls, c.pos))
    requires attributes == Layout(decls) && vertexSize == Stride(decls)
    modifies c
    ensures r.None? <==> Repeat(DeclItem, (), c.data, p0, i + 1).None?
    ensures r.Some? ==> var next := Repeat(DeclItem, (), c.data, p0, i + 1).value;
      r.value == (Layout(next.value), Stride(next.value)) && c.pos == next.next
  {
    ghost var pos := c.pos;
    var decl := ReadDecl(c);
    DeclStep(c.data, p0, i, decls, pos, decl, c.pos);
    if decl.None? {
      return None;
    }
    var x := decl.value;
    var attribute := Attribute(x.name, x.format, vertexSize, 0);
    var size := FormatByteSize(x.format);
    ghost var next := Repeat(DeclItem, (), c.data, p0, i + 1).value;
    assert next.value == decls + [x] && next.next == c.pos;
    assert attributes + [attribute] == Layout(next.value);
    assert vertexSize + size == Stride(next.value);
    r := Some((attributes + [attribute], vertexSize + size));
  }

  /** One more record read (or its failure) extends the run, its layout
      and its stride (or fails the run). */
  lemma DeclStep(d: seq<byte>, p0: nat, i: nat, decls: seq<Decl>, pos: nat, decl: Option<Decl>, next: nat)
    requires Repeat(DeclItem, (), d, p0, i) == Some(Parsed(decls, pos))
    requires Agrees(decl, next, DeclAt(d, pos))
    ensures decl.None? <==> Repeat(DeclItem, (), d, p0, i + 1).None?
    ensures decl.Some? ==> Repeat(DeclItem, (), d, p0, i + 1) == Some(Parsed(decls + [decl.value], next))
    ensures decl.Some? ==> Layout(decls + [decl.value]) == Layout(decls) + [Attribute(decl.value.name, decl.value.format, Stride(decls), 0)]
    ensures decl.Some? ==> Stride(decls + [decl.value]) == Stride(decls) + FormatByteSize(decl.value.format)
  {
    RepeatStep(DeclItem, (), d, p0, i, decls, pos, DeclAt(d, pos));
    if decl.Some? {
      LayoutPush(decls, decl.value);
    }
  }

  /** `read_vertex_buffer`: the declarations, then the payload taken as a view
      and skipped by a seek. */
  method ReadVertexBuffer(c: Cursor, buffer: Buffers.Buffer) returns (r: Option<VertexData>)
    requires c.data == buffer.data
    modifies c
    ensures Agrees(r, c.pos, VertexBufferAt(buffer, old(c.pos)))
  {
    var n := c.ReadU8();
    if n.None? {
      return None;
    }
    var layout := ReadDecls(c, n.value);
    if layout.None? {
      return None;
    }
    var (attributes, vertexSize) := layout.value;
    var vertexCount := c.ReadU32();
    if vertexCount.None? {
      return None;
    }
    var offset := c.Position();
    var length := Span(vertexCount.value, vertexSize);
    c.Seek(offset + length);
    var view := BufferView(None, buffer, offset, length);
    r := Some(VertexData(vertexCount.value, view, Descriptor(attributes, [BufferLayout(vertexSize)])));
  }

  /** The index format byte: 0 is u16, 1 is u32. */
  function IndexFormatFromCode(b: nat): (r: Option<IndexTypes.Format>)
    ensures r.Some? <==> b < 2
  {
    if b == 0 then Some(IndexTypes.U16)
    else if b == 1 then Some(IndexTypes.U32)
    else None
  }

  /** The result of `read_index_buffer`. */
  datatype IndexData = IndexData(indexCount: nat, view: BufferView, format: IndexTypes.Format)

  /** `read_index_buffer`: a format byte, a u32 index count, and the payload,
      which becomes a view of `count * byte_size` bytes and is skipped. */
  function IndexBufferAt(buffer: Buffers.Buffer, p: nat): (r: Option<Parsed<IndexData>>)
    ensures r.Some? <==> p + 5 <= |buffer.data| && buffer.data[p] < 2
    ensures r.Some? ==> r.value.value.format == (if buffer.data[p] == 0 then IndexTypes.U16 else IndexTypes.U32)
    ensures r.Some? ==> r.value.value.indexCount == LeValue(buffer.data[p + 1..p + 5])
    ensures r.Some? ==> r.value.value.view == BufferView(None, buffer, p + 5,
      r.value.value.indexCount * IndexTypes.ByteSize(r.value.value.format))
    ensures r.Some? ==> r.value.next == p + 5 + r.value.value.view.length
  {
    var d := buffer.data;
    var code :- U8At(d, p);
    var format :- IndexFormatFromCode(code.value);
    var count :- U32At(d, code.next);
    var view := BufferView(None, buffer, count.next, Span(count.value, IndexTypes.ByteSize(format)));
    Some(Parsed(IndexData(count.value, view, format), count.next + view.length))
  }

  method ReadIndexBuffer(c: Cursor, buffer: Buffers.Buffer) returns (r: Option<IndexData>)
    requires c.data == buffer.data
    modifies c
    ensures Agrees(r, c.pos, IndexBufferAt(buffer, old(c.pos)))
  {
    var code := c.ReadU8();
    if code.None? {
      return None;
    }
    var format := IndexFormatFromCode(code.value);
    if format.None? {
      return None;
    }
    var count := c.ReadU32();
    if count.None? {
      return None;
    }
    var offset := c.Position();
    var length := Span(count.value, IndexTypes.ByteSize(format.value));
    c.Seek(offset + length);
    r := Some(IndexData(count.value, BufferView(None, buffer, offset, length), format.value));
  }
}
