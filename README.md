# Mesh engine core in Dafny

This project models the core of a small Rust mesh engine and proves properties of the model. The engine reads the
binary "wbg" model format and keeps the data in shared buffers, reading it through views. It also writes models out
as Wavefront OBJ text and routes resource paths to loaders.

The model covers:

- **Buffers and views** (`src/buffer`, `src/view`). These are:
  - a `Buffer` of bytes;
  - a `BufferView` window into it (offset and length);
  - a `TypedView` that reads elements of one integer or float type at a stride;
  - an `UntypedView` that reads any scalar format as f32;
  - the older per-type read and mutable views.

  Indexing panics are modelled as `None`. Half and single floats are decoded exactly as IEEE 754 binary16 and
  binary32 values (section 3.6 of IEEE 754-2008).
- **Type tables** (`src/vertex`, `src/index`, `src/mesh/mod.rs`). These cover the vertex formats and index formats
  with their byte sizes, attributes, descriptors, and the lookup of an attribute by name.
- **The zero-copy wbg importer** (`src/importer/wbg/*.rs`). It reads the file from one shared `Buffer`. Vertex
  buffers, index buffers and submesh index ranges become `BufferView`s into that buffer; nothing is copied. It also
  reads skeletons, bone and mesh bindings, blend shapes and animation curves.
- **The two copying importers** (`src/importer/wbg.rs` and `src/mesh/wbg.rs`). These read the same records but copy
  the vertex and index payload into fresh byte vectors. They accept only i16 and f16 vertex data.
- **The OBJ exporter** (`src/exporter/obj.rs`). It builds vertex lines, and face lines with 1-based vertex numbers.
- **The resource manager's routing** (`src/resource_manager/mod.rs`). It registers loaders by scheme, splits
  `scheme:rest` paths, and classifies loaded bytes by MIME type.

Every byte decoder has two forms:

- a pure function `XAt(d, p)` from the bytes and a position to `Option<Parsed<T>>`, where `Parsed` is the value plus
  the position after it;
- a method that reads through a `Cursor` object. A `Cursor` holds the bytes and a mutable position, as Rust's
  `io::Cursor` does.

Each method is proved to agree with its function: the method's result is the function's value, and the cursor's new
position is the function's end position. Each `unwrap`, `assert!` and out-of-range index of the source is a `None`.
Properties of the format are proved about the functions.

## Model

| member | source | states |
|---|---|---|
| Buffers.At | src/buffer/buffer.rs:28-30 | `buffer[i]` is defined exactly for `i < len`, and is the i-th byte |
| Buffers.Range | src/buffer/buffer.rs:37-39 | `buffer[s..e]` is defined exactly when `s <= e <= len`; it has `e - s` bytes, and byte k is `buffer[s + k]` |
| Buffers.RangeTo | src/buffer/buffer.rs:42-49 | `buffer[..e]` as a definition; `Buffers.RangeForms` proves it is `buffer[0..e]` |
| Buffers.RangeFrom | src/buffer/buffer.rs:51-58 | `buffer[s..]` as a definition; `Buffers.RangeForms` proves it is `buffer[s..len]` |
| Buffers.Full | src/buffer/buffer.rs:19-21 | `buffer[..]`, `as_slice` and `deref`: the whole data; `Buffers.RangeForms` relates it to the explicit range |
| Buffers.RangeForms | src/buffer/buffer.rs:46-74 | `..e` is `0..e`, `s..` is `s..len`, and the full range, `as_slice` and `deref` all give the whole data |
| Buffers.IndexExamples | src/buffer/buffer.rs:81-103 | the source's tests hold: `[0,1,2,3]` ranged 1..3, ..2 and 2.. gives [1,2], [0,1] and [2,3] |
| BufferViews.At | src/buffer/buffer_view.rs:31-35 | `view[i]` succeeds exactly when `i <= length` (as written; `<` was meant) and the byte exists; it reads byte `offset + i` of the buffer |
| BufferViews.Range | src/buffer/buffer_view.rs:42-49 | a view range is defined exactly when `s <= e <= length` and the bytes exist, and is `buffer[offset + s..offset + e]` |
| BufferViews.RangeTo | src/buffer/buffer_view.rs:52-60 | `view[..e]` as the source writes it, `view[0..e]`; `BufferViews.RangeWithinWindow` states its bytes |
| BufferViews.RangeFrom | src/buffer/buffer_view.rs:63-71 | `view[s..]` as the source writes it, `view[s..length]`; `BufferViews.RangeWithinWindow` states its bytes |
| BufferViews.Full | src/buffer/buffer_view.rs:74-89 | `view[..]`, `as_slice` and `deref`, `view[0..length]`; `BufferViews.FullIsWindow` states when it exists and that it is the window |
| BufferViews.FullIsWindow | src/buffer/buffer_view.rs:22-24 | the full slice, `as_slice` and `deref` succeed exactly when the window lies inside the buffer, and are that window |
| BufferViews.RangeWithinWindow | src/buffer/buffer_view.rs:56-80 | on an in-bounds view, ranges are sub-slices of the window; `..e` and `s..` are `0..e` and `s..length` |
| BufferViews.NewIsUnchecked | src/buffer/buffer_view.rs:17-19 | `new` does not check its window: a view past the buffer's end can be built, and only slicing it fails |
| BufferViews.AtReadsPastWindow | src/buffer/buffer_view.rs:31-35 | the off-by-one: view (1,2) of [0,1,2,3] has window [1,2], yet `view[2]` returns 3; the checked index refuses it |
| BufferViews.AtChecked | src/buffer/buffer_view.rs:31-35 | (corrected) `view[i]` with the check `i < length`; `BufferViews.AtCheckedStaysInWindow` states that it only reads inside the window |
| BufferViews.AtCheckedStaysInWindow | src/buffer/buffer_view.rs:31-35 | with the strict check, an index succeeds only below `length`; on an in-bounds view exactly then, reading the window |
| BufferViews.IndexExamples | src/buffer/buffer_view.rs:113-122 | the source's tests hold: view (1,2) of [0,1,2,3] is [1,2], and its ranges 1..2, ..1, 1.. are [2], [1], [2] |
| TypedViews.Size | src/buffer/typed_view.rs:19-29 | element sizes: 1 byte exactly for u8/i8, 2 for u16/i16, 4 for u32/i32/f32 |
| TypedViews.Decode | src/buffer/typed_view.rs:43 | reading an element's little-endian bytes gives a value in the element type's range |
| TypedViews.Encode | src/buffer/typed_view.rs:43 | an in-range value encodes to exactly one element's bytes |
| TypedViews.CodecRoundTrip | src/buffer/typed_view.rs:43 | decoding and encoding are inverse both ways, for signed and unsigned elements |
| TypedViews.New | src/buffer/typed_view.rs:18-33 | construction fails exactly when stride or offset is not a multiple of the element size, or the window is out of bounds; otherwise stride and offset are converted to elements |
| TypedViews.Index | src/buffer/typed_view.rs:40-44 | a read succeeds only for `i <= length` (as written) and yields an in-range element |
| TypedViews.IndexAtBytePosition | src/buffer/typed_view.rs:28-43 | element i is decoded from byte `stride * i + offset` of the original byte units, and fails exactly when `i > length` or the bytes run out |
| TypedViews.IndexExample | src/buffer/typed_view.rs:54-62 | the source's test: u16 view at offset 2, stride 4 over 0..7 reads 0x0302 and 0x0706. The test does not read index 2. That index passes the `<=` check (typed_view.rs:41) and would need bytes 10 and 11 of the 8-byte view, so in this model it fails because the bytes are missing |
| UntypedViews.ReprOf | src/buffer/untyped_view.rs:41-47 | each scalar format is read through a typed view whose element is as wide as that format |
| UntypedViews.GetScalarValue | src/buffer/untyped_view.rs:50-67 | the tagged scalar read succeeds exactly when the typed read does; it carries the view's format and the element read |
| UntypedViews.ToF32 | src/buffer/untyped_view.rs:21-38 | `to_f32` per scalar format; its ranges and exact values are stated by `UntypedViews.ExactConversions`, `UnsignedNormalizedRange` and `SignedNormalizedRange` |
| UntypedViews.GetF32 | src/buffer/untyped_view.rs:69-71 | `get_f32` is `to_f32` of the tagged read; `UntypedViews.GetF32Example` checks it on the source's test |
| UntypedViews.NormalizedMax | src/buffer/untyped_view.rs:28-36 | every normalized format divides by a positive maximum |
| UntypedViews.ExactConversions | src/buffer/untyped_view.rs:21-33 | plain integers convert to their own value; f32 and f16 bits decode as IEEE single and half |
| UntypedViews.UnsignedNormalizedRange | src/buffer/untyped_view.rs:28-30 | unsigned normalized values lie in [0, 1]; 0 maps to 0 and the maximum to 1 |
| UntypedViews.SignedNormalizedRange | src/buffer/untyped_view.rs:34-36 | signed normalized values lie in [-1, 1]; the minimum is clamped to -1, and every other value is raw/max |
| UntypedViews.GetF32Example | src/buffer/untyped_view.rs:83-92 | the source's test: the u16 view reads 770.0 and 1798.0 as f32 |
| VertexFormats.WidthRoundTrip | src/importer/wbg/mod.rs:97 | `Width::from_integer` inverts the element count of every width |
| VertexFormats.WidthOfInteger | src/importer/wbg/mod.rs:97 | `from_integer` succeeds exactly on 1, 2, 3, 4 and 9, giving a width with that many elements |
| VertexFormats.FormatByteSizeProduct | src/importer/wbg/mod.rs:116-118 | a format's byte size is its scalar's size times its element count |
| VertexTypes.ByteSize | src/vertex/mod.rs:11-23 | vertex format sizes: 1 byte exactly for the 8-bit formats, 2 for f16 and the 16-bit ones, 4 for f32 and the 32-bit ones, 8 exactly for f64 |
| VertexTypes.NormalizedSameSize | src/vertex/mod.rs:16-21 | a normalized format has the size of its plain integer format |
| VertexTypes.AttributeByteSize | src/vertex/mod.rs:56-58 | an attribute's size is a multiple of its component size, and at least one component's size when it has any element |
| VertexTypes.AttributeComponents | src/vertex/mod.rs:56-58 | an attribute's size holds exactly `elements` components |
| VertexTypes.AttributeFor | src/vertex/mod.rs:73-81 | the lookup returns the first attribute with the name, and `None` exactly when no attribute has it |
| IndexTypes.ByteSize | src/index/mod.rs:9-14 | u16 indices take 2 bytes and u32 indices 4, each exactly |
| IndexTypes.ByteSizeInjective | src/index/mod.rs:9-14 | the byte size determines the index format |
| MeshTypes.VertexByteSize | src/mesh/mod.rs:33-45 | the mesh crate's vertex sizes: 1, 2, 4 or 8 bytes by width class, each exactly |
| MeshTypes.IndexByteSize | src/mesh/mod.rs:68-75 | the mesh crate's index sizes: u8 1, u16 2, u32 4, u64 8, each exactly |
| MeshTypes.AttributeFor | src/mesh/mod.rs:105-113 | the first attribute with the name, and `None` exactly when the mesh has none |
| Views.KindRepr | src/view/mod.rs:115-124 | each view's element type is as wide as the scalar it accepts; half views hold i16 |
| Views.New | src/view/mod.rs:43-63 | the view constructor fails exactly when the format is not (scalar, Scalar) or the stride or offset is misaligned; otherwise stride and offset are converted to elements |
| Views.GetAt | src/view/mod.rs:21-27 | `get(i)` over the bytes, panicking only when `i > count`; `Views.StoreThenLoad` and `Views.StoreKeepsOtherSlots` relate it to a write |
| Views.Get | src/view/mod.rs:21-27 | `get(i)` of a view; `Views.SetThenGet` and `Views.SetKeepsOtherGets` relate it to `set` |
| Views.Len | src/view/mod.rs:17-19 | `len()` is the count the view was built with |
| Views.Store | src/view/mod.rs:38 | writing one element keeps the byte length |
| Views.StoreBytes | src/view/mod.rs:38 | a write replaces exactly the bytes of its slot with the value's encoding, and every other byte stays |
| Views.StoreThenLoad | src/view/mod.rs:21-39 | a written slot reads back the written value |
| Views.StoreKeepsOtherSlots | src/view/mod.rs:21-39 | every other slot reads as before the write |
| Views.SetThenGet | src/view/mod.rs:21-39 | `get(i)` after `set(i, v)` returns v, widened for half views |
| Views.SetKeepsOtherGets | src/view/mod.rs:21-39 | `set(i, v)` leaves `get(j)` unchanged for every index with another slot |
| Views.MutView.constructor | src/view/mod.rs:93-95 | a mutable view borrows the byte array, with stride and offset converted to elements |
| Views.MutView.Set | src/view/mod.rs:33-39 | `set` fails exactly when `i > count` or the slot is past the end, and then leaves the bytes alone; otherwise the new bytes are the old ones with that slot stored |
| Views.OmniNew | src/view/mod.rs:136-145 | the omni view accepts only scalar f16 attributes, exactly when the f16 view would, and wraps that view |
| Views.OmniLen | src/view/mod.rs:147-149 | the omni view's `len()`; `Views.OmniAgreesWithHalfView` proves it is the given count |
| Views.OmniGet | src/view/mod.rs:151-155 | the omni view's `get(i)`, delegated to the f16 view; `Views.OmniAgreesWithHalfView` proves it is that view's element, widened |
| Views.OmniAgreesWithHalfView | src/view/mod.rs:147-155 | the omni view's length is the given count, and its elements are the f16 view's, widened |
| Views.HalfViewExample | src/view/mod.rs:165-196 | the source's f16 view and omni view tests read 0.0 at both indices |
| Views.HalfSetExample | src/view/mod.rs:200-223 | the source's mutable view test: `set(1, 1.0)` writes 0x3C00 into bytes 12-13 only; index 0 still reads 0.0 and index 1 reads 1.0 |
| Views.SingleViewExample | src/view/mod.rs:226-240 | the source's f32 view test reads the zero pattern, which is 0.0, at both indices |
| Floats.HalfPatterns | src/view/mod.rs:200-223 | half bits 0 and 0x3C00 are 0.0 and 1.0 |
| Floats.SinglePatterns | src/view/mod.rs:226-240 | single bits 0 and 0x3F800000 are 0.0 and 1.0 |
| Bytes.LeValueOfBytes | src/importer/wbg.rs:202-203 | reading back the little-endian bytes of a value gives the value |
| Bytes.LeBytesOfValue | src/importer/wbg.rs:202-203 | writing the value of a byte string gives the same bytes |
| Bytes.SignedOfUnsigned | src/importer/wbg.rs:202-203 | two's complement of an in-range signed value is an unsigned word that reads back as the same signed value |
| Bytes.SignedRange | src/importer/wbg.rs:202-203 | every unsigned word reads as an in-range signed value that converts back to the same word |
| ByteCursor.U8At | src/importer/wbg/mod.rs:78 | `read_u8` succeeds exactly when a byte remains; it is that byte and advances by one |
| ByteCursor.WordAt | src/importer/wbg/mod.rs:142 | an n-byte little-endian read succeeds exactly when n bytes remain, is below 256^n and advances by n |
| ByteCursor.TakeBytes | src/importer/wbg/mod.rs:80 | `take(n)` yields the next n bytes, or all that remain when fewer are left |
| ByteCursor.TakeStringAt | src/importer/wbg/mod.rs:80 | `read_to_string` succeeds exactly on valid UTF-8, keeps the bytes, and advances by their number |
| Utf8.ValidUtf8 | src/importer/wbg/mod.rs:80 | well-formed UTF-8 (section 3 of RFC 3629), the condition under which `read_to_string` succeeds; `ByteCursor.TakeStringAt` states that it decides the read |
| ByteCursor.RepeatBytes | src/importer/wbg/mesh_bindings.rs:8 | n byte reads are the next n bytes, and fail when fewer remain |
| ByteCursor.RepeatWords | src/importer/wbg/animation.rs:62-72 | n f32 reads succeed exactly when 4n bytes remain, and word k is the word at byte 4k |
| ByteCursor.Cursor.constructor | src/importer/wbg/mod.rs:30 | a cursor starts at position 0 over the input |
| ByteCursor.Cursor.ReadU8 | src/importer/wbg/mod.rs:78 | agrees with `U8At`: same result, and the cursor ends where it says |
| ByteCursor.Cursor.ReadU16 | src/importer/wbg/blend_shape.rs:13 | agrees with the 2-byte little-endian read |
| ByteCursor.Cursor.ReadU32 | src/importer/wbg/mod.rs:142 | agrees with the 4-byte little-endian read |
| ByteCursor.Cursor.ReadF32 | src/importer/wbg/animation.rs:11 | agrees with the 4-byte read of the float's bits |
| ByteCursor.Cursor.ReadToString | src/importer/wbg/mod.rs:80 | agrees with `TakeStringAt` |
| ByteCursor.Cursor.Position | src/importer/wbg/mod.rs:144-146 | returns the current position |
| ByteCursor.Cursor.Seek | src/importer/wbg/mod.rs:144-146 | moves to the given position |
| WbgCore.StringAt | src/importer/wbg/mod.rs:75-83 | a string is a length byte, then up to that many bytes, ending after them |
| WbgCore.StringAtValid | src/importer/wbg/mod.rs:75-83 | `read_string` succeeds exactly when the length byte exists and the bytes taken are valid UTF-8 |
| WbgCore.ReadString | src/importer/wbg/mod.rs:75-83 | the cursor method agrees with `StringAt` |
| WbgCore.NibbleScalars | src/importer/wbg/mod.rs:100-114 | the low nibble decodes exactly for 0-4 and 8-10, always to a non-normalized scalar |
| WbgCore.NameFromUsage | src/importer/wbg/mod.rs:120-130 | usage codes 0-7 name an attribute; anything else panics |
| WbgCore.UsageInjective | src/importer/wbg/mod.rs:120-130 | distinct usage codes name distinct attributes |
| WbgCore.PackedWidth | src/importer/wbg/mod.rs:97 | the top three bits give the element count minus one; it decodes exactly below 128 and never as a 3x3 matrix |
| WbgCore.DeclFields | src/importer/wbg/mod.rs:92-114 | a declaration record is 3 bytes; it decodes exactly on a valid usage, width and scalar code, and names that attribute and format |
| WbgCore.ScalarFromCode | src/importer/wbg/mod.rs:100-114 | the scalar table on the low nibble; `WbgCore.NibbleScalars` states where it decodes |
| WbgCore.DeclAt | src/importer/wbg/mod.rs:93-130 | one declaration record; `WbgCore.DeclFields` and `WbgCore.DeclPlain` state what it decodes |
| WbgCore.DeclsWellFormed | src/importer/wbg/mod.rs:92-140 | n records take 3n bytes, and all of them are plain (non-normalized, not 3x3) |
| WbgCore.DeclsSpan | src/importer/wbg/mod.rs:92-140 | n records end 3n bytes later |
| WbgCore.DeclPlain | src/importer/wbg/mod.rs:92-114 | one record is 3 bytes with a plain format |
| WbgCore.LayoutPush | src/importer/wbg/mod.rs:98-139 | each record adds one attribute at the running vertex size, and grows it by the format's size |
| WbgCore.Layout | src/importer/wbg/mod.rs:98-139 | the attributes the record loop pushes, one per record, in order |
| WbgCore.Stride | src/importer/wbg/mod.rs:98-139 | the running vertex size the record loop accumulates; `WbgCore.LayoutPush` and `WbgCore.StridePrefixBound` state how it grows |
| WbgCore.LayoutOffsets | src/importer/wbg/mod.rs:98-139 | attribute k sits at the sum of the sizes before it |
| WbgCore.LayoutWithinStride | src/importer/wbg/mod.rs:98-139 | every attribute lies within the stride, in buffer 0, with the record's format |
| WbgCore.StridePrefixBound | src/importer/wbg/mod.rs:98-139 | the running vertex size never exceeds the final stride |
| WbgCore.VertexBufferView | src/importer/wbg/mod.rs:142-155 | the vertex view is into the input buffer, unnamed, `vertex_count * stride` bytes long, with one layout, and reading resumes right after it |
| WbgCore.VertexBufferAt | src/importer/wbg/mod.rs:85-156 | `read_vertex_buffer`; `WbgCore.VertexBufferParts`, `VertexBufferView` and `VertexBufferShape` state what it decodes |
| WbgCore.VertexBufferParts | src/importer/wbg/mod.rs:85-156 | a decoded vertex buffer is its record run, then its count, then its view |
| WbgCore.VertexBufferShape | src/importer/wbg/mod.rs:85-156 | the view starts after the records and the count; there is one plain attribute per record, each within the stride |
| WbgCore.VertexCountBound | src/importer/wbg/mod.rs:142 | the vertex count is a 32-bit value |
| WbgCore.ReadDecls | src/importer/wbg/mod.rs:92-140 | the record loop returns the layout and stride of the records read, or fails when any record fails |
| WbgCore.PushDecl | src/importer/wbg/mod.rs:92-140 | one loop step extends the layout and stride by one record |
| WbgCore.ReadDecl | src/importer/wbg/mod.rs:93-130 | agrees with `DeclAt` |
| WbgCore.ReadVertexBuffer | src/importer/wbg/mod.rs:85-156 | agrees with `VertexBufferAt` |
| WbgCore.IndexFormatFromCode | src/importer/wbg/mod.rs:159-163 | index format codes 0 and 1 decode; any other panics |
| WbgCore.IndexBufferAt | src/importer/wbg/mod.rs:158-174 | an index buffer decodes exactly on format code 0 or 1 with a count present; its view follows the count and is `count * size` bytes long |
| WbgCore.ReadIndexBuffer | src/importer/wbg/mod.rs:158-174 | agrees with `IndexBufferAt` |
| WbgMesh.AreaView | src/importer/wbg/mesh.rs:51-59 | a submesh's view lies inside the index buffer's view, and keeps its name |
| WbgMesh.AreaViewFits | src/importer/wbg/mesh.rs:51-56 | the area view exists exactly when `size * (start + 3 * count)` fits; it starts `size * start` in, and is `size * 3 * count` bytes |
| WbgMesh.AreaWindow | src/importer/wbg/mesh.rs:51-59 | on an in-bounds parent, the area's bytes are the parent's bytes from `size * start` |
| WbgMesh.AreaAt | src/importer/wbg/mesh.rs:33-68 | a submesh is drawn as triangles in the index buffer's format; its index count is a multiple of 3, and its view inside the index buffer is sized by that count |
| WbgMesh.AreaSize | src/importer/wbg/mesh.rs:33-68 | a mesh area record is its name plus 33 bytes |
| WbgMesh.ReadMeshArea | src/importer/wbg/mesh.rs:33-68 | agrees with `AreaAt` |
| WbgMesh.MeshAt | src/importer/wbg/mesh.rs:12-31 | a mesh has one vertex buffer and fewer than 256 submeshes; `WbgMesh.MeshAreas` gives their exact number and order |
| WbgMesh.MeshSubmeshes | src/importer/wbg/mesh.rs:12-31 | the mesh keeps its name, its vertex view and count; every submesh is triangles inside its index buffer, in its format |
| WbgMesh.MeshAreas | src/importer/wbg/mesh.rs:18-22 | the submeshes are exactly the areas read after the area-count byte, in stream order, as many as that byte says, and reading ends after the last one |
| WbgMesh.ReadMesh | src/importer/wbg/mesh.rs:12-31 | agrees with `MeshAt` |
| WbgBlendShape.BlendShapeAt | src/importer/wbg/blend_shape.rs:18-37 | a blend shape has one vertex buffer and one point submesh named after it, both into the input buffer |
| WbgBlendShape.BlendShapeParts | src/importer/wbg/blend_shape.rs:18-37 | the blend shape is what was read: its one buffer is the vertex view, its submesh is the whole index view with the index count and format read, and reading ends after the index buffer |
| WbgBlendShape.BlendShapesAt | src/importer/wbg/blend_shape.rs:12-16 | the count is a u16, and as many blend shapes as it says are read |
| WbgBlendShape.ReadBlendShape | src/importer/wbg/blend_shape.rs:18-37 | agrees with `BlendShapeAt` |
| WbgBlendShape.ReadBlendShapes | src/importer/wbg/blend_shape.rs:12-16 | agrees with `BlendShapesAt` |
| WbgBindings.BoneBindingsAt | src/importer/wbg/bone_bindings.rs:7-11 | as many names as the count byte says, ending after the encoded names |
| WbgBindings.ReadBoneBindings | src/importer/wbg/bone_bindings.rs:7-11 | agrees with `BoneBindingsAt` |
| WbgBindings.MeshBindingsAt | src/importer/wbg/mesh_bindings.rs:5-9 | mesh bindings are the count byte's worth of following bytes, read exactly when present |
| WbgBindings.ReadMeshBindings | src/importer/wbg/mesh_bindings.rs:5-9 | agrees with `MeshBindingsAt` |
| WbgSkeleton.WordsOrDefaultSize | src/importer/wbg/skeleton.rs:29-64 | a present bone component reads n words (4n bytes); an absent one takes its default without reading |
| WbgSkeleton.BoneAt | src/importer/wbg/skeleton.rs:19-74 | a bone has 3 position, 4 orientation and 9 scale/shear words |
| WbgSkeleton.BoneLayout | src/importer/wbg/skeleton.rs:19-74 | the flag bits choose which components are read; 0xFF is no parent; absent components are the defaults; the record length follows |
| WbgSkeleton.ReadWordsOrDefault | src/importer/wbg/skeleton.rs:29-64 | agrees with `WordsOrDefault` |
| WbgSkeleton.ReadBone | src/importer/wbg/skeleton.rs:19-74 | agrees with `BoneAt` |
| WbgSkeleton.SkeletonAt | src/importer/wbg/skeleton.rs:9-17 | a skeleton has as many bones as its count byte says |
| WbgSkeleton.ReadSkeleton | src/importer/wbg/skeleton.rs:9-17 | agrees with `SkeletonAt` |
| WbgAnimation.Deinterleave | src/importer/wbg/animation.rs:74-76 | splitting into `dimension` channels gives `dimension` outputs |
| WbgAnimation.Interleave | src/importer/wbg/animation.rs:74-76 | interleaving `dim` channels of k values gives `dim * k` values |
| WbgAnimation.ChannelShape | src/importer/wbg/animation.rs:74-76 | channel i has k values, the m-th being control `i + m * dim` |
| WbgAnimation.DeinterleaveLengths | src/importer/wbg/animation.rs:68-76 | when the count is `dim * k`, every output has k values |
| WbgAnimation.DeinterleaveValue | src/importer/wbg/animation.rs:74-76 | output i, value m is control `i + m * dim` |
| WbgAnimation.InterleaveDeinterleave | src/importer/wbg/animation.rs:68-76 | interleaving the outputs gives back the controls exactly |
| WbgAnimation.CurvesAt | src/importer/wbg/animation.rs:50-85 | format 0 is no curve and takes one byte; otherwise the sampler has the dimension and degree read, with its outputs shaped by them |
| WbgAnimation.ReadWords | src/importer/wbg/animation.rs:62-72 | agrees with n repeated f32 reads |
| WbgAnimation.ReadCurves | src/importer/wbg/animation.rs:50-85 | agrees with `CurvesAt` |
| WbgAnimation.TrackAt | src/importer/wbg/animation.rs:28-48 | a track's orientation curve, when present, has an output to flip (`outputs[0]`) |
| WbgAnimation.ReadTransformTrack | src/importer/wbg/animation.rs:28-48 | agrees with `TrackAt` |
| WbgAnimation.GroupAt | src/importer/wbg/animation.rs:20-26 | fewer than 256 tracks, each paired with the group's name |
| WbgAnimation.Pair | src/importer/wbg/animation.rs:20-26 | pairing keeps every track, in order, with the name |
| WbgAnimation.ReadGroup | src/importer/wbg/animation.rs:20-26 | agrees with `GroupAt` |
| WbgAnimation.ReadAnimation | src/importer/wbg/animation.rs:9-18 | succeeds and advances exactly as the animation decoder does |
| WbgAnimation.AnimationAt | src/importer/wbg/animation.rs:9-18 | `read_animation` as a decoder: name, duration, group count and the groups, with the result dropped |
| WbgImport.EntryAt | src/importer/wbg/mod.rs:36-42 | each mesh entry is a mesh with its blend shapes, all views into the input buffer |
| WbgImport.ReadEntry | src/importer/wbg/mod.rs:36-42 | agrees with `EntryAt` |
| WbgImport.Lookup | src/importer/wbg/mod.rs:53 | an index succeeds exactly when in range, and gives that element |
| WbgImport.LookupAllPicks | src/importer/wbg/mod.rs:52-53 | looking up all indices succeeds exactly when each is in range, and gives the elements in order |
| WbgImport.Bind | src/importer/wbg/mod.rs:52-53 | (corrected) model k uses mesh `bindings[k]`; it fails exactly when a binding is out of range |
| WbgImport.BindAsWritten | src/importer/wbg/mod.rs:52-53 | (as written) `meshes[mesh_bindings[*i]]`; `WbgImport.BindingIndirection` and `WbgImport.BindAsWrittenAgrees` state how it differs from `Bind` |
| WbgImport.BindingIndirection | src/importer/wbg/mod.rs:52-53 | as written, `meshes[bindings[i]]` with i a binding value: [1] fails and [1,0] gives [a,b]; the intended results are [b] and [b,a] |
| WbgImport.BindAsWrittenAgrees | src/importer/wbg/mod.rs:52-53 | the as-written lookup agrees with the intended one when every binding indexes the bindings and points to itself |
| WbgImport.ModelObjects | src/importer/wbg/mod.rs:55-60 | one model object per bound mesh, sharing the model's name and skeleton |
| WbgImport.ModelAt | src/importer/wbg/mod.rs:46-62 | a model yields fewer than 256 objects, each well formed when the mesh entries are |
| WbgImport.ReadModel | src/importer/wbg/mod.rs:46-62 | agrees with `ModelAt` |
| WbgImport.ImportAt | src/importer/wbg/mod.rs:29-73 | an imported asset holds the input buffer alone, and only well-formed model objects |
| WbgImport.Import | src/importer/wbg/mod.rs:29-73 | the cursor-based import agrees with `ImportAt` |
| LegacyWbg.DeclFields | src/importer/wbg.rs:146-189 | a record decodes exactly on a valid usage and scalar code; the element count is the top bits plus one |
| LegacyWbg.FormatFromCode | src/importer/wbg.rs:153-168 | the format table on the low nibble, including the normalized arms a nibble never reaches; `LegacyWbg.DeclFields` states where a record decodes |
| LegacyWbg.DeclAt | src/importer/wbg.rs:146-189 | one declaration record; `LegacyWbg.DeclFields` states what it decodes |
| LegacyWbg.DeclsSpan | src/importer/wbg.rs:145-192 | n records take 3n bytes |
| LegacyWbg.DeclsWellFormed | src/importer/wbg.rs:145-192 | all n records are well formed |
| LegacyWbg.Layout | src/importer/wbg.rs:170-189 | one attribute per record |
| LegacyWbg.LayoutPush | src/importer/wbg.rs:170-189 | each record adds an attribute at the running size and grows it by the attribute's size |
| LegacyWbg.LayoutOffsets | src/importer/wbg.rs:170-189 | attribute k sits at the sum of the sizes before it |
| LegacyWbg.Runs | src/importer/wbg.rs:197-209 | one copy run per attribute |
| LegacyWbg.HalfWordStride | src/importer/wbg.rs:197-209 | when every attribute is i16 or f16, the bytes copied per vertex are the stride |
| LegacyWbg.VertexBufferParts | src/importer/wbg.rs:138-217 | a decoded vertex buffer is its records, its count and its copied data |
| LegacyWbg.VertexBufferAt | src/importer/wbg.rs:138-217 | `read_vertex_buffer`; `LegacyWbg.VertexBufferParts`, `VertexBufferHeader`, `VertexBufferHalfWords` and `VertexBufferPayload` state what it decodes |
| LegacyWbg.VertexBufferHeader | src/importer/wbg.rs:138-217 | one attribute per record and one layout; the count follows the records, and the data is the copy after it |
| LegacyWbg.VertexBufferHalfWords | src/importer/wbg.rs:194-209 | with a vertex, every attribute is i16 or f16; any other type aborts the copy |
| LegacyWbg.VertexBufferPayload | src/importer/wbg.rs:194-217 | the copied data is `vertex_count * stride` input bytes, unchanged, right after the count |
| LegacyWbg.DataPayload | src/importer/wbg.rs:194-217 | the same for a given record run and count |
| LegacyWbg.CopyLength | src/importer/wbg.rs:194-209 | a vertex copy with the stride per vertex yields exactly the next `count * stride` bytes |
| LegacyWbg.IndexBufferShape | src/importer/wbg.rs:219-243 | the index buffer decodes exactly when the format code is 0 or 1 and `count * size` bytes follow; it is those bytes, unchanged |
| LegacyWbg.IndexBufferAt | src/importer/wbg.rs:219-243 | `read_index_buffer`; `LegacyWbg.IndexBufferShape` states what it decodes |
| LegacyWbg.AreaRangeBytes | src/importer/wbg.rs:123-127 | a submesh's slice exists exactly when it fits, and is the index bytes from `size * start`, `size * 3 * count` long |
| LegacyWbg.AreaFields | src/importer/wbg.rs:102-136 | a submesh is triangles in the buffer's format, with `3 * count` indices, holding that slice |
| LegacyWbg.AreaAt | src/importer/wbg.rs:102-136 | `read_mesh_area`; `LegacyWbg.AreaFields` and `LegacyWbg.AreaRangeBytes` state what it decodes |
| LegacyWbg.AreasShaped | src/importer/wbg.rs:38-42 | the area loop yields exactly n submeshes, all triangles |
| LegacyWbg.BlendShapeShape | src/importer/wbg.rs:69-92 | a blend shape is a point mesh carrying its name |
| LegacyWbg.BlendShapeAt | src/importer/wbg.rs:69-92 | `read_blend_shape`; `LegacyWbg.BlendShapeShape` states its form |
| LegacyWbg.BlendShapesShaped | src/importer/wbg.rs:59-64 | every blend shape read is one |
| LegacyWbg.MeshShape | src/importer/wbg.rs:30-67 | `read_mesh` yields the named main mesh first, then only blend shapes |
| LegacyWbg.MeshAt | src/importer/wbg.rs:30-67 | `read_mesh`; `LegacyWbg.MeshRecord` states exactly what it decodes, and `LegacyWbg.MeshShape` and `LegacyWbg.RecordOneBuffer` state its shape |
| LegacyWbg.MeshRecord | src/importer/wbg.rs:30-67 | the main mesh holds the copied vertex bytes as its one buffer, and the areas read after the u8 area count, in stream order and number. It is followed by exactly the blend shapes read after the u8 blend-shape count, so a record yields 1 + that count meshes, and reading ends after the last blend shape |
| LegacyWbg.Objects | src/importer/wbg.rs:22-24 | one object per mesh |
| LegacyWbg.ObjectsAppend | src/importer/wbg.rs:22-24 | the objects of two mesh lists concatenate |
| LegacyWbg.ImportShape | src/importer/wbg.rs:11-28 | import succeeds only on version 0; it has at least as many objects as the mesh count, each with one vertex buffer |
| LegacyWbg.ImportAt | src/importer/wbg.rs:11-28 | `import`; `LegacyWbg.ImportShape` and `LegacyWbg.GroupsOneBuffer` state what it yields |
| LegacyWbg.RecordOneBuffer | src/importer/wbg.rs:30-67 | every mesh of a record has one vertex buffer |
| LegacyWbg.RecordsOneBuffer | src/importer/wbg.rs:17-25 | n records read, each with one buffer per mesh |
| LegacyWbg.GroupsOneBuffer | src/importer/wbg.rs:17-25 | the flattened objects are at least one per record, each with one buffer |
| LegacyWbg.ReadDecl | src/importer/wbg.rs:146-189 | agrees with `DeclAt` |
| LegacyWbg.ReadDecls | src/importer/wbg.rs:145-192 | the record loop returns the layout and stride of the records read |
| LegacyWbg.PushDecl | src/importer/wbg.rs:145-192 | one loop step extends the layout and stride by one record |
| LegacyWbg.ReadVertexBuffer | src/importer/wbg.rs:138-217 | agrees with `VertexBufferAt` |
| LegacyWbg.ReadIndexBuffer | src/importer/wbg.rs:219-243 | agrees with `IndexBufferAt` |
| LegacyWbg.ReadMeshArea | src/importer/wbg.rs:102-136 | agrees with `AreaAt` |
| LegacyWbg.ReadAreas | src/importer/wbg.rs:38-42 | agrees with n repeated area reads |
| LegacyWbg.ReadBoneBindings | src/importer/wbg.rs:52-57 | the bone binding names are read and dropped, advancing past them |
| LegacyWbg.ReadBlendShape | src/importer/wbg.rs:69-92 | agrees with `BlendShapeAt` |
| LegacyWbg.ReadBlendShapes | src/importer/wbg.rs:59-64 | agrees with n repeated blend shape reads |
| LegacyWbg.ReadMesh | src/importer/wbg.rs:30-67 | agrees with `MeshAt` |
| LegacyWbg.PushMeshes | src/importer/wbg.rs:22-24 | appends one object per mesh |
| LegacyWbg.ReadRecords | src/importer/wbg.rs:17-25 | the record loop's objects are those of all records, in order |
| LegacyWbg.Import | src/importer/wbg.rs:11-28 | the cursor-based import agrees with `ImportAt` |
| PayloadCopy.ShortVertex | src/importer/wbg.rs:197-209 | the copy aborts when any attribute is not i16/f16, or a vertex runs past the input |
| PayloadCopy.ShortIndexRead | src/importer/wbg.rs:229-241 | the index copy aborts when an index runs past the input |
| PayloadCopy.RewriteWord | src/importer/wbg.rs:202-203 | reading a word as signed and writing it back gives the same bytes |
| PayloadCopy.CopyVertex | src/importer/wbg.rs:197-209 | one vertex's copy yields the next `PerVertex` input bytes unchanged, or fails for a non-i16/f16 attribute or short input |
| PayloadCopy.VertexCopyAt | src/importer/wbg.rs:194-209 | the vertex payload copy; `PayloadCopy.ShortVertex` states when it aborts and `LegacyWbg.CopyLength` what it yields |
| PayloadCopy.IndexCopyAt | src/importer/wbg.rs:226-241 | the index payload copy: `count` words of `size` bytes, unchanged; `PayloadCopy.ShortIndexRead` states when it aborts |
| PayloadCopy.CopyVertices | src/importer/wbg.rs:194-209 | the vertex loop agrees with `VertexCopyAt` |
| PayloadCopy.CopyIndices | src/importer/wbg.rs:226-241 | the index loop agrees with `IndexCopyAt` |
| MeshWbg.MeshFormat | src/mesh/wbg.rs:48-63 | the mesh crate's format for a table format has the same byte size |
| MeshWbg.MeshIndexFormat | src/mesh/wbg.rs:115-119 | the mesh crate's index format has the same byte size |
| MeshWbg.MeshAttributes | src/mesh/wbg.rs:79-86 | one mesh attribute per attribute |
| MeshWbg.StrideIsVertexSize | src/mesh/wbg.rs:65-77 | the record loop's stride is the sum of `byte_size * elements` over the attributes |
| MeshWbg.MeshStride | src/mesh/wbg.rs:106-109 | a loaded mesh's stride is its vertex size |
| MeshWbg.MeshVertices | src/mesh/wbg.rs:89-112 | a loaded mesh's single buffer is `vertex_count * stride` input bytes, unchanged, after the count |
| MeshWbg.MeshAttributeTypes | src/mesh/wbg.rs:92-104 | one attribute per record, all i16 or f16 when there is a vertex |
| MeshWbg.MeshTriangles | src/mesh/wbg.rs:114-143 | the single submesh is triangles holding `count * byte_size` bytes |
| MeshWbg.MeshParts | src/mesh/wbg.rs:17-31 | a mesh is its name, vertex buffer and index buffer, assembled |
| MeshWbg.MeshAt | src/mesh/wbg.rs:17-31 | `read_mesh`; `MeshWbg.MeshParts`, `MeshVertices`, `MeshTriangles` and `MeshPrefix` state what it decodes |
| MeshWbg.LoadHeader | src/mesh/wbg.rs:8-15 | `load` succeeds only on version 0 and mesh count 1, and is the mesh after them |
| MeshWbg.LoadAt | src/mesh/wbg.rs:8-15 | `load`; `MeshWbg.LoadHeader` and `MeshWbg.LoadIgnoresTrailing` state what it yields |
| MeshWbg.LoadIgnoresTrailing | src/mesh/wbg.rs:8-15 | bytes after the mesh change nothing |
| MeshWbg.MeshPrefix | src/mesh/wbg.rs:17-31 | a mesh reads the same with more bytes after it |
| MeshWbg.ReadMesh | src/mesh/wbg.rs:17-31 | agrees with `MeshAt` |
| MeshWbg.Load | src/mesh/wbg.rs:8-15 | agrees with `LoadAt` |
| ObjExport.Decimal | src/exporter/obj.rs:67 | decimal text is nonempty digits without a leading zero |
| ObjExport.DecimalRoundTrip | src/exporter/obj.rs:67 | parsing the decimal text gives back the number |
| ObjExport.DecimalInjective | src/exporter/obj.rs:67 | distinct numbers print differently |
| ObjExport.FacePartIsJoin | src/exporter/obj.rs:66-78 | a face part is a space, then its fields joined by '/' |
| ObjExport.FacePart | src/exporter/obj.rs:66-78 | `write_face_part`'s text; `ObjExport.FacePartIsJoin` and `ObjExport.FacePartFields` state its form and that it parses back |
| ObjExport.FacePartFields | src/exporter/obj.rs:66-78 | splitting a face part at '/' gives its fields (v, v/vt, v//vn or v/vt/vn), each parsing back to the value |
| ObjExport.FaceLineIsJoin | src/exporter/obj.rs:56-62 | a face line is "  f" and one token per vertex, joined by spaces |
| ObjExport.FaceLine | src/exporter/obj.rs:56-62 | one face line; `ObjExport.FaceLineIsJoin` and `ObjExport.FaceLineTokens` state its form and that it splits back |
| ObjExport.Section | src/exporter/obj.rs:52-64 | `write_faces`' text: the `o` line and one line per face; `ObjExport.ObjWriter.WriteFaces` writes exactly it |
| ObjExport.FaceLineTokens | src/exporter/obj.rs:56-62 | splitting a face line at spaces gives "", "", "f" and one token per vertex |
| ObjExport.TokensFree | src/exporter/obj.rs:56-62 | no token holds a space |
| ObjExport.TokenFields | src/exporter/obj.rs:59 | token k's fields each parse to the 1-based vertex number `face[k] + 1` |
| ObjExport.TokenFree | src/exporter/obj.rs:66-78 | a token holds no space and splits back to its fields |
| ObjExport.Take | src/exporter/obj.rs:41 | `take(n)` keeps the first n components, or all when fewer |
| ObjExport.ObjWriter.constructor | src/exporter/obj.rs:20 | the output starts empty |
| ObjExport.ObjWriter.WriteFacePart | src/exporter/obj.rs:66-78 | appends one face part |
| ObjExport.ObjWriter.WriteFace | src/exporter/obj.rs:56-62 | appends one face line |
| ObjExport.ObjWriter.WriteFaces | src/exporter/obj.rs:52-64 | appends the `o` line and the submesh's face lines |
| ObjExport.ObjWriter.Write | src/exporter/obj.rs:38-50 | writes the vertex lines exactly when the attribute exists, and reports whether it did |
| ObjExport.ExportModel | src/exporter/obj.rs:19-36 | fails (panics) exactly without positions; otherwise one file named `<mesh>.obj` holding the model text |
| ObjExport.ModelText | src/exporter/obj.rs:19-36 | the text of one model's file: the vertex lines, then one section per submesh; `ObjExport.ExportModel` states that the file holds it |
| ObjExport.Export | src/exporter/obj.rs:7-17 | fails exactly when some model lacks positions; otherwise one file per object, in order |
| ResourceManager.FirstColon | src/resource_manager/mod.rs:48 | the first ':' of a path, with none before it |
| ResourceManager.ResourceManager.constructor | src/resource_manager/mod.rs:29-33 | a new manager has no loaders |
| ResourceManager.ResourceManager.Default | src/resource_manager/mod.rs:35-41 | the default manager has the CDN loader under "res" only |
| ResourceManager.ResourceManager.Insert | src/resource_manager/mod.rs:43-45 | registers the loader under its key, replacing any, and keeps every other key |
| ResourceManager.ResourceManager.ParsePath | src/resource_manager/mod.rs:47-63 | a path without ':' fails; otherwise it succeeds exactly when the text before the first ':' is registered, giving that loader and the rest |
| ResourceManager.ResourceManager.RoutesToScheme | src/resource_manager/mod.rs:47-63 | `scheme:rest` with a registered scheme routes to that loader with `rest` unchanged, even when `rest` holds ':' |
| ResourceManager.ResourceManager.ParsedPathSplits | src/resource_manager/mod.rs:47-63 | every successful parse is a registered scheme without ':', a ':' and the rest |
| ResourceManager.ToResource | src/resource_manager/mod.rs:104-122 | no data is no resource; text MIME types need UTF-8 and abort otherwise; wbg is imported and aborts on failure; every other type is binary |
| ResourceManager.ResourceKeepsBytes | src/resource_manager/mod.rs:104-122 | binary and text resources keep the given bytes, and text is valid UTF-8; an asset comes only from the wbg type |

## Findings

| source | as written | input that shows it | evidently intended | confidence | as-written member | corrected member |
|---|---|---|---|---|---|---|
| src/buffer/buffer_view.rs:32 | `assert!(index <= self.length)` admits `index == length` | buffer [0,1,2,3], view offset 1 length 2: `view[2]` returns 3, a byte outside the window [1,2] | `index < self.length` | not executed | BufferViews.AtReadsPastWindow | BufferViews.AtCheckedStaysInWindow |
| src/importer/wbg/mod.rs:52-53 | `meshes[mesh_bindings[*i]]`: i already iterates over the binding values and is used as an index into the bindings again | meshes [a,b], bindings [1]: as written it is out of range (panic); bindings [1,0] give [a,b] | `meshes[*i]`: bindings [1] give [b], bindings [1,0] give [b,a] | not executed | WbgImport.BindingIndirection | WbgImport.Bind |

The same non-strict `<=` check appears in `src/buffer/typed_view.rs:41` and `src/view/mod.rs:22,34`. These views are
modelled as written: an index equal to the length is admitted, and fails only when its bytes are missing. The
as-written binding lookup is `WbgImport.BindAsWritten`; the import uses the corrected `WbgImport.Bind`.
`BufferViews.At` models the view index as written; `BufferViews.AtChecked` is the corrected index.

## Left out

- File, network and thread I/O: `prefetch`, `load` and `load_async` (src/resource_manager/mod.rs:65-100), the CDN and file loaders, and `sof.rs`. Loaders are a type parameter, `Default` takes the CDN loader as an argument, and `ToResource` takes the loaded MIME type and bytes as its input.
- `println!` output and `Arc` sharing. Shared buffers are values; the zero-copy property is stated as views into the input buffer.
- The OBJ importer stub (src/importer/obj/mod.rs) and the binary `main.rs`.
- The big-endian `import` (src/importer/wbg/mod.rs:23-26) always returns `None`; only the little-endian build is modelled.
- The LLVM `f16` conversion intrinsics. Half and single bits are decoded exactly (section 3.6 of IEEE 754-2008). For half views, `Set` takes the half bit pattern that `f32_to_f16` would produce, because rounding an f32 to a half is not modelled.
- UntypedViews.ExactConversions: integer to f32 conversion is stated over exact reals; rounding to 24 significant bits is not modelled. The normalized division is also exact.
- The quaternion sign flip of orientation tracks (src/importer/wbg/animation.rs:35-43 and 87-102) is float arithmetic and is not modelled. Only its `outputs[0]` panic is kept, in `WbgAnimation.TrackAt`.
- WbgImport.ModelAt: builds its objects with the corrected lookup `WbgImport.Bind` (model k uses `meshes[bindings[k]]`), not the source's `meshes[mesh_bindings[*i]]` (src/importer/wbg/mod.rs:52-53). The two differ whenever a binding is not a fixed point of the bindings: on meshes [a,b] with bindings [1] the source panics and the model yields [b]; on bindings [1,0] the source yields [a,b] and the model [b,a]. The as-written lookup is `WbgImport.BindAsWritten`, and `WbgImport.BindAsWrittenAgrees` states where they coincide.
- WbgImport.ReadModel: agrees with `ModelAt`, so it also uses the corrected binding lookup.
- WbgImport.ImportAt: imports every model through `ModelAt`, so it also uses the corrected binding lookup and succeeds on inputs where the source panics.
- WbgImport.Import: agrees with `ImportAt`, so it also uses the corrected binding lookup.
- `WbgAnimation.ReadAnimation`: animations are read and their results dropped, as the source does, so only success and position are stated.
- Float formatting in the OBJ `write` (`format!("{}", x)` on f32) is not modelled. The exporter takes each vertex's formatted components, and each submesh's faces, as a `Rendering` input. `Submesh::faces` and `Mesh::untyped_view_for` are not part of this model.
- `transmute` and memory alignment in the views: the element alignment is taken to be the element size, so the alignment checks become the divisibility checks of stride and offset.
- `usize`, `u32` and `u64` overflow: all integers are unbounded. The values read are at most 32-bit, so on a 64-bit target the products and sums the decoders form from them do not wrap.
- The unreachable normalized arms (codes 16, 17, 24, 25) of the scalar table: the nibble `file_type & 0x0F` never reaches them.
- `vertex::Scalar`, `vertex::Width` and the (scalar, width) `Format` are not defined in any file of this snapshot. Their width arities (1, 2, 3, 4, and 9 for the 3x3 matrix) are an assumption of this model.
- src/asset/mod.rs (lines 3-11) defines only `Object::Mesh(mesh::Mesh)` and an `Asset` with `objects` alone; the legacy importers build that asset, and `LegacyWbg.Asset` models it. The current importer and the OBJ exporter use an `Object::Model` and an `Asset.buffers` field (src/importer/wbg/mod.rs:55,72, src/exporter/obj.rs:12) that this file does not declare; `Assets.Object` and `Assets.Asset` follow those uses. `to_resource` calls the legacy `importer::wbg::import(Vec<u8>)` (src/importer/wbg.rs:11), and `ToResource` does the same.
