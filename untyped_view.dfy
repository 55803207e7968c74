/** The format-erased view (src/buffer/untyped_view.rs): one typed view per
    scalar format, an element read as a value tagged with its format, and that
    value converted to a float. Integer-to-float conversion is described over
    the reals, without the rounding of a 32-bit float. */
module UntypedViews {
  import opened Wrappers
  import opened Floats
  import opened VertexFormats
  import Buffers
  import BufferViews
  import TypedViews

  /** The Rust element type behind each scalar format. */
  function ReprOf(s: ScalarFormat): (t: TypedViews.Repr)
    ensures TypedViews.Size(t) == ScalarByteSize(s)
  {
    match s
    case F16 => TypedViews.I16
    case F32 => TypedViews.F32
    case U8 | U8Normalized => TypedViews.U8
    case U16 | U16Normalized => TypedViews.U16
    case U32 | U32Normalized => TypedViews.U32
    case I8 | I8Normalized => TypedViews.I8
    case I16 | I16Normalized => TypedViews.I16
    case I32 | I32Normalized => TypedViews.I32
  }

  /** One variant of the union: the scalar tag and the typed view it wraps. */
  datatype UntypedView = UntypedView(scalar: ScalarFormat, view: TypedViews.TypedView)

  /** The wrapped typed view has the element type of the tag. */
  predicate Valid(uv: UntypedView)
  {
    uv.view.repr == ReprOf(uv.scalar)
  }

  /** A raw element together with the encoding it was read in. */
  datatype ScalarValue = ScalarValue(scalar: ScalarFormat, raw: int)

  /** The raw element holds a value of its format's element type. */
  predicate WellFormed(v: ScalarValue)
  {
    TypedViews.InRange(ReprOf(v.scalar), v.raw)
  }

  /** `get_scalar_value`: element `i` of the wrapped view, unchanged, tagged
      with the view's own scalar format. */
  function GetScalarValue(uv: UntypedView, i: nat): (r: Option<ScalarValue>)
    requires Valid(uv)
    ensures r.Some? <==> TypedViews.Index(uv.view, i).Some?
    ensures r.Some? ==> r.value.scalar == uv.scalar && WellFormed(r.value)
    ensures r.Some? ==> r.value.raw == TypedViews.Index(uv.view, i).value
  {
    var raw :- TypedViews.Index(uv.view, i);
    Some(ScalarValue(uv.scalar, raw))
  }

  /** `MAX` of the integer type behind a normalized format. */
  function NormalizedMax(s: ScalarFormat): (m: nat)
    requires IsNormalized(s)
    ensures m > 0
  {
    match s
    case U8Normalized => 0xFF
    case U16Normalized => 0xFFFF
    case U32Normalized => 0xFFFF_FFFF
    case I8Normalized => 0x7F
    case I16Normalized => 0x7FFF
    case I32Normalized => 0x7FFF_FFFF
  }

  function Max(a: real, b: real): real
  {
    if a >= b then a else b
  }

  /** `to_f32`: a half is widened, an f32 kept, a plain integer taken by value,
      an unsigned normalized integer divided by its type's `MAX`, and a signed
      normalized one divided by its `MAX` and clamped at -1. */
  function ToF32(v: ScalarValue): Float
  {
    match v.scalar
    case F16 => Half(v.raw)
    case F32 => Single(v.raw)
    case U8 | U16 | U32 | I8 | I16 | I32 => Finite(v.raw as real)
    case U8Normalized | U16Normalized | U32Normalized =>
      Finite(v.raw as real / NormalizedMax(v.scalar) as real)
    case I8Normalized | I16Normalized | I32Normalized =>
      Finite(Max(v.raw as real / NormalizedMax(v.scalar) as real, -1.0))
  }

  /** `get_f32`: the converted scalar value. */
  function GetF32(uv: UntypedView, i: nat): Option<Float>
    requires Valid(uv)
  {
    var v :- GetScalarValue(uv, i);
    Some(ToF32(v))
  }

  /** Plain integers keep their value, f32 passes through, and a half is read
      as binary16. */
  lemma ExactConversions(v: ScalarValue)
    ensures !IsNormalized(v.scalar) && v.scalar !in {F16, F32} ==> ToF32(v) == Finite(v.raw as real)
    ensures v.scalar == F32 ==> ToF32(v) == Single(v.raw)
    ensures v.scalar == F16 ==> ToF32(v) == Half(v.raw)
  {
  }

  /** Unsigned normalized values lie in [0, 1]: 0 maps to 0 and `MAX` to 1. */
  lemma UnsignedNormalizedRange(v: ScalarValue)
    requires WellFormed(v) && v.scalar in {U8Normalized, U16Normalized, U32Normalized}
    ensures ToF32(v).Finite? && 0.0 <= ToF32(v).value <= 1.0
    ensures v.raw == 0 ==> ToF32(v) == Finite(0.0)
    ensures v.raw == NormalizedMax(v.scalar) ==> ToF32(v) == Finite(1.0)
  {
    var m := NormalizedMax(v.scalar) as real;
    assert 0.0 <= v.raw as real <= m;
  }

  /** Signed normalized values lie in [-1, 1]; the clamp only changes the
      type's minimum, which maps to exactly -1, and `MAX` maps to 1. */
  lemma SignedNormalizedRange(v: ScalarValue)
    requires WellFormed(v) && v.scalar in {I8Normalized, I16Normalized, I32Normalized}
    ensures ToF32(v).Finite? && -1.0 <= ToF32(v).value <= 1.0
    ensures v.raw == -(NormalizedMax(v.scalar) + 1) ==> ToF32(v) == Finite(-1.0)
    ensures v.raw > -(NormalizedMax(v.scalar) + 1) ==> ToF32(v) == Finite(v.raw as real / NormalizedMax(v.scalar) as real)
    ensures v.raw == NormalizedMax(v.scalar) ==> ToF32(v) == Finite(1.0)
  {
    var m := NormalizedMax(v.scalar);
    assert -(m + 1) <= v.raw <= m;
    var q := v.raw as real / m as real;
    if v.raw > -(m + 1) {
      assert -(m as real) <= v.raw as real;
      assert -1.0 <= q;
    }
    assert q <= 1.0;
  }

  /** The source's unit test: the u16 view of the typed-view test converts its
      two elements to 0x0302 and 0x0706. */
  lemma GetF32Example()
    ensures var view := BufferViews.New(None, Buffers.New(None, None, [0, 1, 2, 3, 4, 5, 6, 7]), 0, 8);
      var tv := TypedViews.New(None, view, TypedViews.U16, 2, 4, 2);
      tv.Some? && GetF32(UntypedView(U16, tv.value), 0) == Some(Finite(0x0302 as real))
        && GetF32(UntypedView(U16, tv.value), 1) == Some(Finite(0x0706 as real))
  {
    TypedViews.IndexExample();
  }
}
