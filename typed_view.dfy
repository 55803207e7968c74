/** A strided run of fixed-width elements over a buffer view
    (src/buffer/typed_view.rs). Stride and offset are given in bytes, checked
    against the element alignment and stored in elements. The source
    reinterprets the view's bytes in place; here an element is decoded from its
    little-endian bytes, which must lie inside the view. */
module TypedViews {
  import opened Wrappers
  import opened Bytes
  import Buffers
  import BufferViews

  /** The Rust element types views are instantiated with; f16 data is held as
      `i16`, f32 data as its 32-bit pattern. */
  datatype Repr = U8 | U16 | U32 | I8 | I16 | I32 | F32

  /** `size_of`, which for these primitives is also `align_of`. */
  function Size(t: Repr): (n: nat)
    ensures n == 1 <==> t in {U8, I8}
    ensures n == 2 <==> t in {U16, I16}
    ensures n == 4 <==> t in {U32, I32, F32}
  {
    match t
    case U8 | I8 => 1
    case U16 | I16 => 2
    case U32 | I32 | F32 => 4
  }

  predicate IsSigned(t: Repr)
  {
    t in {I8, I16, I32}
  }

  /** The values an element of type `t` can hold. */
  predicate InRange(t: Repr, v: int)
  {
    if IsSigned(t) then InSignedRange(v, Size(t)) else InUnsignedRange(v, Size(t))
  }

  /** Little-endian decoding of one element. */
  function Decode(t: Repr, b: seq<byte>): (v: int)
    requires |b| == Size(t)
    ensures InRange(t, v)
  {
    LeValueBound(b);
    if IsSigned(t) then
      SignedRange(LeValue(b), Size(t));
      Signed(LeValue(b), Size(t))
    else LeValue(b)
  }

  /** Little-endian encoding of one element. */
  function Encode(t: Repr, v: int): (b: seq<byte>)
    requires InRange(t, v)
    ensures |b| == Size(t)
  {
    if IsSigned(t) then
      SignedOfUnsigned(v, Size(t));
      LeBytes(Unsigned(v, Size(t)), Size(t))
    else LeBytes(v, Size(t))
  }

  /** Decoding undoes encoding, and encoding undoes decoding: an element and its
      bytes determine each other. */
  lemma CodecRoundTrip(t: Repr, v: int, b: seq<byte>)
    requires InRange(t, v) && |b| == Size(t)
    ensures Decode(t, Encode(t, v)) == v
    ensures Encode(t, Decode(t, b)) == b
  {
    LeBytesOfValue(b);
    LeValueBound(b);
    if IsSigned(t) {
      SignedOfUnsigned(v, Size(t));
      LeValueOfBytes(Unsigned(v, Size(t)), Size(t));
      SignedRange(LeValue(b), Size(t));
    } else {
      LeValueOfBytes(v, Size(t));
    }
  }

  /** The element in element slot `slot` of `data`, if its bytes lie inside. */
  function ElementAt(t: Repr, data: seq<byte>, slot: nat): Option<int>
  {
    var b := slot * Size(t);
    if b + Size(t) <= |data| then Some(Decode(t, data[b..b + Size(t)])) else None
  }

  datatype TypedView = TypedView(name: Option<string>, repr: Repr, offset: nat, stride: nat, length: nat, data: seq<byte>)

  /** `TypedView::new`: panics when the byte stride or byte offset is not a
      multiple of the element alignment (or when the view's whole slice does),
      and otherwise keeps both in elements. */
  function New(name: Option<string>, view: BufferViews.BufferView, t: Repr, offset: nat, stride: nat, length: nat): (r: Option<TypedView>)
    ensures r.Some? <==> stride % Size(t) == 0 && offset % Size(t) == 0 && BufferViews.Full(view).Some?
    ensures r.Some? ==> r.value.stride * Size(t) == stride && r.value.offset * Size(t) == offset
    ensures r.Some? ==> r.value.repr == t && r.value.length == length && r.value.data == BufferViews.Full(view).value
  {
    if stride % Size(t) != 0 || offset % Size(t) != 0 then None
    else
      var bytes :- BufferViews.Full(view);
      Some(TypedView(name, t, offset / Size(t), stride / Size(t), length, bytes))
  }

  /** `tv[i]`: the check admits `i <= length`; the element is the one in slot
      `stride * i + offset`. */
  function Index(tv: TypedView, i: nat): (r: Option<int>)
    ensures r.Some? ==> i <= tv.length && InRange(tv.repr, r.value)
  {
    if i <= tv.length then ElementAt(tv.repr, tv.data, tv.stride * i + tv.offset) else None
  }

  /** Element `i` of a view built from byte stride and byte offset is decoded
      from the bytes at view position `stride * i + offset`. */
  lemma IndexAtBytePosition(name: Option<string>, view: BufferViews.BufferView, t: Repr, offset: nat, stride: nat, length: nat, i: nat)
    requires New(name, view, t, offset, stride, length).Some?
    ensures var tv := New(name, view, t, offset, stride, length).value;
      var p := stride * i + offset;
      Index(tv, i) ==
        if i <= length && p + Size(t) <= |tv.data| then Some(Decode(t, tv.data[p..p + Size(t)])) else None
  {
    var tv := New(name, view, t, offset, stride, length).value;
    SlotBytes(tv.stride, tv.offset, i, Size(t));
  }

  /** The first byte of slot `stride * i + offset` in elements of `z` bytes. */
  lemma SlotBytes(stride: nat, offset: nat, i: nat, z: nat)
    ensures (stride * i + offset) * z == (stride * z) * i + offset * z
  {
  }

  /** The source's unit test: a u16 view with byte offset 2 and byte stride 4
      over the bytes 0 to 7 reads 0x0302 and 0x0706; the index 2, which the
      check admits, would need bytes 10 and 11. */
  lemma IndexExample()
    ensures var view := BufferViews.New(None, Buffers.New(None, None, [0, 1, 2, 3, 4, 5, 6, 7]), 0, 8);
      var tv := New(None, view, U16, 2, 4, 2);
      tv.Some? && Index(tv.value, 0) == Some(0x0302) && Index(tv.value, 1) == Some(0x0706) && Index(tv.value, 2).None?
  {
    var d: seq<byte> := [0, 1, 2, 3, 4, 5, 6, 7];
    assert d[0..8] == d;
    assert d[2..4] == [2, 3];
    assert d[6..8] == [6, 7];
  }
}
