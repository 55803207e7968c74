/** The older attribute views (src/view/mod.rs): one read view and one
    mutable view per element type, each built from raw vertex bytes and the
    attribute it reads. `get` converts with `f16_to_f32` for half data and is
    the identity otherwise; `set` writes one element slot in place. */
module Views {
  import opened Wrappers
  import opened Bytes
  import opened Floats
  import opened VertexFormats
  import opened Seqs
  import VertexTypes
  import TypedViews

  datatype Kind = U8View | U16View | U32View | I8View | I16View | I32View | F16View | F32View

  /** The scalar format a view of this kind accepts. */
  function KindScalar(k: Kind): ScalarFormat
  {
    match k
    case U8View => U8
    case U16View => U16
    case U32View => U32
    case I8View => I8
    case I16View => I16
    case I32View => I32
    case F16View => F16
    case F32View => F32
  }

  /** The element type the bytes are read as: half data is held as `i16`. */
  function KindRepr(k: Kind): (t: TypedViews.Repr)
    ensures TypedViews.Size(t) == ScalarByteSize(KindScalar(k))
  {
    match k
    case U8View => TypedViews.U8
    case U16View => TypedViews.U16
    case U32View => TypedViews.U32
    case I8View => TypedViews.I8
    case I16View => TypedViews.I16
    case I32View => TypedViews.I32
    case F16View => TypedViews.I16
    case F32View => TypedViews.F32
  }

  /** What `get` returns: the element itself, or a half widened to f32. */
  datatype Out = Identity(raw: int) | Widened(value: Float)

  function Convert(k: Kind, raw: int): Out
  {
    if k == F16View then Widened(Half(raw)) else Identity(raw)
  }

  /** The constructor's checks: the attribute has exactly this view's scalar
      with width `Scalar`, and stride and attribute offset are multiples of the
      element size. */
  predicate Accepts(k: Kind, attribute: Attribute, stride: nat)
  {
    attribute.format == Format(KindScalar(k), Scalar)
      && stride % TypedViews.Size(KindRepr(k)) == 0
      && attribute.offset % TypedViews.Size(KindRepr(k)) == 0
  }

  /** The element slot of index `i`, with stride and offset in elements. */
  function Slot(stride: nat, offset: nat, i: nat): nat
  {
    stride * i + offset
  }

  /** `get(i)` over bytes `data` with stride and offset in elements: panics
      only when `i > count`, so `i == count` is admitted. */
  function GetAt(k: Kind, data: seq<byte>, count: nat, stride: nat, offset: nat, i: nat): Option<Out>
  {
    if i > count then None
    else
      var raw :- TypedViews.ElementAt(KindRepr(k), data, Slot(stride, offset, i));
      Some(Convert(k, raw))
  }

  /** A read view: bytes, element count, stride and offset in elements, and
      the attribute it was built for. */
  datatype View = View(kind: Kind, data: seq<byte>, count: nat, stride: nat, offset: nat, attribute: Attribute)

  /** `new`: panics unless the constructor's checks pass; stride and offset are
      then converted from bytes to elements. */
  function New(k: Kind, data: seq<byte>, attribute: Attribute, count: nat, stride: nat): (r: Option<View>)
    ensures r.Some? <==> Accepts(k, attribute, stride)
    ensures r.Some? ==> r.value.stride * TypedViews.Size(KindRepr(k)) == stride
    ensures r.Some? ==> r.value.offset * TypedViews.Size(KindRepr(k)) == attribute.offset
    ensures r.Some? ==> r.value.kind == k && r.value.data == data && r.value.count == count && r.value.attribute == attribute
  {
    if !Accepts(k, attribute, stride) then None
    else
      var z := TypedViews.Size(KindRepr(k));
      Some(View(k, data, count, stride / z, attribute.offset / z, attribute))
  }

  function Len(v: View): nat
  {
    v.count
  }

  function Get(v: View, i: nat): Option<Out>
  {
    GetAt(v.kind, v.data, v.count, v.stride, v.offset, i)
  }

  /** `data` with element slot `slot` replaced by the encoding of `value`. */
  function Store(d: seq<byte>, t: TypedViews.Repr, slot: nat, value: int): (r: seq<byte>)
    requires (slot + 1) * TypedViews.Size(t) <= |d| && TypedViews.InRange(t, value)
    ensures |r| == |d|
  {
    var b := slot * TypedViews.Size(t);
    d[..b] + TypedViews.Encode(t, value) + d[b + TypedViews.Size(t)..]
  }

  /** A store changes the bytes of its slot and nothing else. */
  lemma StoreBytes(d: seq<byte>, t: TypedViews.Repr, slot: nat, value: int, j: nat)
    requires (slot + 1) * TypedViews.Size(t) <= |d| && TypedViews.InRange(t, value)
    requires j < |d|
    ensures var b := slot * TypedViews.Size(t);
      Store(d, t, slot, value)[j] == if b <= j < b + TypedViews.Size(t) then TypedViews.Encode(t, value)[j - b] else d[j]
  {
  }

  /** Distinct element slots occupy disjoint bytes. */
  lemma SlotsDisjoint(a: nat, b: nat, z: nat)
    requires a < b
    ensures a * z + z <= b * z
  {
    MulStep(a, z);
    MulMonotone(a + 1, b, z);
  }

  /** The stored slot reads back the value. */
  lemma StoreThenLoad(d: seq<byte>, t: TypedViews.Repr, slot: nat, value: int)
    requires (slot + 1) * TypedViews.Size(t) <= |d| && TypedViews.InRange(t, value)
    ensures TypedViews.ElementAt(t, Store(d, t, slot, value), slot) == Some(value)
  {
    var z := TypedViews.Size(t);
    var b := slot * z;
    var s := Store(d, t, slot, value);
    assert s[b..b + z] == TypedViews.Encode(t, value);
    TypedViews.CodecRoundTrip(t, value, TypedViews.Encode(t, value));
  }

  /** Replacing bytes `b .. b + |e|` keeps every range outside them. */
  lemma SpliceKeeps(d: seq<byte>, b: nat, e: seq<byte>, c: nat, z: nat)
    requires b + |e| <= |d| && c + z <= |d|
    requires c + z <= b || b + |e| <= c
    ensures (d[..b] + e + d[b + |e|..])[c..c + z] == d[c..c + z]
  {
    var s := d[..b] + e + d[b + |e|..];
    forall j | c <= j < c + z
      ensures s[j] == d[j]
    {
      if j < b {
        assert s[j] == d[..b][j];
      } else {
        assert s[j] == d[b + |e|..][j - b - |e|];
      }
    }
  }

  /** Every other slot reads as before the store. */
  lemma StoreKeepsOtherSlots(d: seq<byte>, t: TypedViews.Repr, slot: nat, value: int, other: nat)
    requires (slot + 1) * TypedViews.Size(t) <= |d| && TypedViews.InRange(t, value)
    requires other != slot
    ensures TypedViews.ElementAt(t, Store(d, t, slot, value), other) == TypedViews.ElementAt(t, d, other)
  {
    var z := TypedViews.Size(t);
    var b := slot * z;
    var c := other * z;
    var s := Store(d, t, slot, value);
    if other < slot {
      SlotsDisjoint(other, slot, z);
    } else {
      SlotsDisjoint(slot, other, z);
    }
    if c + z <= |d| {
      SpliceKeeps(d, b, TypedViews.Encode(t, value), c, z);
    }
    SameSlotBytes(t, s, d, other);
  }

  /** An element depends only on the bytes of its slot. */
  lemma SameSlotBytes(t: TypedViews.Repr, s: seq<byte>, d: seq<byte>, slot: nat)
    requires |s| == |d|
    requires var c := slot * TypedViews.Size(t);
      c + TypedViews.Size(t) <= |d| ==> s[c..c + TypedViews.Size(t)] == d[c..c + TypedViews.Size(t)]
    ensures TypedViews.ElementAt(t, s, slot) == TypedViews.ElementAt(t, d, slot)
  {
  }

  /** A view's `get` after `set(i, value)` reads back the converted value at
      index `i`. */
  lemma SetThenGet(k: Kind, d: seq<byte>, count: nat, stride: nat, offset: nat, i: nat, value: int)
    requires i <= count && (Slot(stride, offset, i) + 1) * TypedViews.Size(KindRepr(k)) <= |d|
    requires TypedViews.InRange(KindRepr(k), value)
    ensures GetAt(k, Store(d, KindRepr(k), Slot(stride, offset, i), value), count, stride, offset, i) == Some(Convert(k, value))
  {
    StoreThenLoad(d, KindRepr(k), Slot(stride, offset, i), value);
  }

  /** After `set(i, value)` every index whose slot differs from `i`'s reads as
      before. */
  lemma SetKeepsOtherGets(k: Kind, d: seq<byte>, count: nat, stride: nat, offset: nat, i: nat, value: int, j: nat)
    requires (Slot(stride, offset, i) + 1) * TypedViews.Size(KindRepr(k)) <= |d|
    requires TypedViews.InRange(KindRepr(k), value)
    requires Slot(stride, offset, j) != Slot(stride, offset, i)
    ensures GetAt(k, Store(d, KindRepr(k), Slot(stride, offset, i), value), count, stride, offset, j) == GetAt(k, d, count, stride, offset, j)
  {
    StoreKeepsOtherSlots(d, KindRepr(k), Slot(stride, offset, i), value, Slot(stride, offset, j));
  }

  /** A mutable view over a byte array it borrows. */
  class MutView {
    const kind: Kind
    const data: array<byte>
    const count: nat
    const stride: nat
    const offset: nat
    const attribute: Attribute

    /** `new` on a mutable slice; the panicking cases are those `New` rejects. */
    constructor (kind: Kind, data: array<byte>, attribute: Attribute, count: nat, stride: nat)
      requires Accepts(kind, attribute, stride)
      ensures this.kind == kind && this.data == data && this.count == count && this.attribute == attribute
      ensures this.stride * TypedViews.Size(KindRepr(kind)) == stride
      ensures this.offset * TypedViews.Size(KindRepr(kind)) == attribute.offset
    {
      var z := TypedViews.Size(KindRepr(kind));
      this.kind := kind;
      this.data := data;
      this.count := count;
      this.stride := stride / z;
      this.offset := attribute.offset / z;
      this.attribute := attribute;
    }

    function Get(i: nat): Option<Out>
      reads data
    {
      GetAt(kind, data[..], count, stride, offset, i)
    }

    /** `set(i, value)`: panics (`ok` false, nothing written) when `i > count`
        or the slot lies outside the bytes; otherwise writes the encoding of
        `value` into slot `stride * i + offset` and changes no other byte. For
        a half view `value` is the half pattern `f32_to_f16` produced. */
    method Set(i: nat, value: int) returns (ok: bool)
      requires TypedViews.InRange(KindRepr(kind), value)
      modifies data
      ensures ok <==> i <= count && (Slot(stride, offset, i) + 1) * TypedViews.Size(KindRepr(kind)) <= data.Length
      ensures ok ==> data[..] == Store(old(data[..]), KindRepr(kind), Slot(stride, offset, i), value)
      ensures !ok ==> data[..] == old(data[..])
    {
      if i > count {
        return false;
      }
      var t := KindRepr(kind);
      var z := TypedViews.Size(t);
      var slot := Slot(stride, offset, i);
      if (slot + 1) * z > data.Length {
        return false;
      }
      var b := slot * z;
      var bytes := TypedViews.Encode(t, value);
      var k := 0;
      while k < z
        invariant 0 <= k <= z
        invariant forall j :: 0 <= j < data.Length ==>
          data[j] == if b <= j < b + k then bytes[j - b] else old(data[j])
      {
        data[b + k] := bytes[k];
        k := k + 1;
      }
      ghost var expected := Store(old(data[..]), t, slot, value);
      forall j | 0 <= j < data.Length
        ensures data[..][j] == expected[j]
      {
        StoreBytes(old(data[..]), t, slot, value, j);
      }
      assert data[..] == expected;
      return true;
    }
  }

  /** `F32OmniView`: only an f16 scalar attribute is supported. */
  datatype OmniView = OmniView(count: nat, view: View)

  /** `F32OmniView::new`: panics on any format but (f16, Scalar), and on the
      f16 view's own checks. */
  function OmniNew(data: seq<byte>, attribute: Attribute, count: nat, stride: nat): (r: Option<OmniView>)
    ensures attribute.format != Format(F16, Scalar) ==> r.None?
    ensures r.Some? <==> Accepts(F16View, attribute, stride)
    ensures r.Some? ==> Some(r.value.view) == New(F16View, data, attribute, count, stride) && r.value.count == count
  {
    if attribute.format == Format(F16, Scalar) then
      var v :- New(F16View, data, attribute, count, stride);
      Some(OmniView(count, v))
    else None
  }

  function OmniLen(o: OmniView): nat
  {
    o.count
  }

  /** `get` delegates to the wrapped f16 view. */
  function OmniGet(o: OmniView, i: nat): Option<Float>
  {
    match Get(o.view, i)
    case Some(Widened(x)) => Some(x)
    case Some(Identity(raw)) => Some(Half(raw))
    case None => None
  }

  /** The omni view's length is the given count and its elements are the f16
      view's, widened. */
  lemma OmniAgreesWithHalfView(data: seq<byte>, attribute: Attribute, count: nat, stride: nat, i: nat)
    requires OmniNew(data, attribute, count, stride).Some?
    ensures var o := OmniNew(data, attribute, count, stride).value;
      OmniLen(o) == count
        && OmniGet(o, i).Some? == Get(o.view, i).Some?
        && (OmniGet(o, i).Some? ==> Get(o.view, i) == Some(Widened(OmniGet(o, i).value)))
  {
  }

  /** The fixture of the source's half-float view tests. */
  function HalfFixture(): seq<byte>
  {
    [0xFF, 0xFF, 0xFF, 0xFF, 0, 0, 0xFF, 0xFF, 0xFF, 0xFF, 0xFF, 0xFF, 0, 0, 0xFF, 0xFF]
  }

  function HalfAttribute(): Attribute
  {
    Attribute(VertexTypes.Position, Format(F16, Scalar), 4, 0)
  }

  /** The source's f16 view and omni view tests: offset 4 and stride 8 read
      0.0 at both indices. */
  lemma HalfViewExample()
    ensures New(F16View, HalfFixture(), HalfAttribute(), 2, 8).Some?
    ensures Get(New(F16View, HalfFixture(), HalfAttribute(), 2, 8).value, 0) == Some(Widened(Finite(0.0)))
    ensures Get(New(F16View, HalfFixture(), HalfAttribute(), 2, 8).value, 1) == Some(Widened(Finite(0.0)))
    ensures OmniNew(HalfFixture(), HalfAttribute(), 2, 8).Some?
    ensures OmniGet(OmniNew(HalfFixture(), HalfAttribute(), 2, 8).value, 0) == Some(Finite(0.0))
    ensures OmniGet(OmniNew(HalfFixture(), HalfAttribute(), 2, 8).value, 1) == Some(Finite(0.0))
  {
    var d := HalfFixture();
    assert New(F16View, d, HalfAttribute(), 2, 8) == Some(View(F16View, d, 2, 4, 2, HalfAttribute()));
    HalfZeroAt(d, 2);
    HalfZeroAt(d, 6);
    HalfPatterns();
  }

  lemma HalfZeroAt(d: seq<byte>, slot: nat)
    requires d == HalfFixture() && slot in {2, 6}
    ensures TypedViews.ElementAt(TypedViews.I16, d, slot) == Some(0)
  {
    assert d[4..6] == [0, 0];
    assert d[12..14] == [0, 0];
    assert TypedViews.Decode(TypedViews.I16, [0, 0]) == 0;
  }

  /** The source's mutable f16 view test: `set(1, 1.0)` stores the half
      pattern 0x3C00 in bytes 12 and 13 only; index 0 still reads 0.0 and
      index 1 now reads 1.0. */
  lemma HalfSetExample()
    ensures Store(HalfFixture(), TypedViews.I16, 6, 0x3C00)
      == [0xFF, 0xFF, 0xFF, 0xFF, 0, 0, 0xFF, 0xFF, 0xFF, 0xFF, 0xFF, 0xFF, 0, 0x3C, 0xFF, 0xFF]
    ensures GetAt(F16View, Store(HalfFixture(), TypedViews.I16, 6, 0x3C00), 2, 4, 2, 0) == Some(Widened(Finite(0.0)))
    ensures GetAt(F16View, Store(HalfFixture(), TypedViews.I16, 6, 0x3C00), 2, 4, 2, 1) == Some(Widened(Finite(1.0)))
  {
    HalfStoreBytes();
    HalfSetGets();
  }

  lemma HalfStoreBytes()
    ensures Store(HalfFixture(), TypedViews.I16, 6, 0x3C00)
      == [0xFF, 0xFF, 0xFF, 0xFF, 0, 0, 0xFF, 0xFF, 0xFF, 0xFF, 0xFF, 0xFF, 0, 0x3C, 0xFF, 0xFF]
  {
    assert TypedViews.Encode(TypedViews.I16, 0x3C00) == [0, 0x3C];
  }

  lemma HalfSetGets()
    ensures GetAt(F16View, Store(HalfFixture(), TypedViews.I16, 6, 0x3C00), 2, 4, 2, 0) == Some(Widened(Finite(0.0)))
    ensures GetAt(F16View, Store(HalfFixture(), TypedViews.I16, 6, 0x3C00), 2, 4, 2, 1) == Some(Widened(Finite(1.0)))
  {
    var d := HalfFixture();
    SetThenGet(F16View, d, 2, 4, 2, 1, 0x3C00);
    HalfOne();
    HalfSetKeepsZero();
  }

  lemma HalfSetKeepsZero()
    ensures GetAt(F16View, Store(HalfFixture(), TypedViews.I16, 6, 0x3C00), 2, 4, 2, 0) == Some(Widened(Finite(0.0)))
  {
    var d := HalfFixture();
    HalfZeroAt(d, 2);
    assert GetAt(F16View, d, 2, 4, 2, 0) == Some(Widened(Half(0)));
    HalfPatterns();
    SetKeepsOtherGets(F16View, d, 2, 4, 2, 1, 0x3C00, 0);
  }

  /** The source's f32 view test: offset 4 and stride 8 read the zero pattern,
      which is 0.0, at both indices. */
  lemma SingleViewExample()
    ensures var v := New(F32View, SingleFixture(), SingleAttribute(), 2, 8);
      v.Some? && Get(v.value, 0) == Some(Identity(0)) && Get(v.value, 1) == Some(Identity(0)) && Single(0) == Finite(0.0)
  {
    var d := SingleFixture();
    assert New(F32View, d, SingleAttribute(), 2, 8) == Some(View(F32View, d, 2, 2, 1, SingleAttribute()));
    SingleZeroAt(d, 1);
    SingleZeroAt(d, 3);
    SinglePatterns();
  }

  function SingleFixture(): seq<byte>
  {
    [0xFF, 0xFF, 0xFF, 0xFF, 0, 0, 0, 0, 0xFF, 0xFF, 0xFF, 0xFF, 0, 0, 0, 0]
  }

  function SingleAttribute(): Attribute
  {
    Attribute(VertexTypes.Position, Format(F32, Scalar), 4, 0)
  }

  lemma SingleZeroAt(d: seq<byte>, slot: nat)
    requires d == SingleFixture() && slot in {1, 3}
    ensures TypedViews.ElementAt(TypedViews.F32, d, slot) == Some(0)
  {
    assert d[4..8] == [0, 0, 0, 0];
    assert d[12..16] == [0, 0, 0, 0];
    assert TypedViews.Decode(TypedViews.F32, [0, 0, 0, 0]) == 0;
  }
}
