/** A window `[offset, offset + length)` onto a shared buffer
    (src/buffer/buffer_view.rs). Every access is re-based by `offset` and checked
    against `length` before the buffer's own check; `None` stands for either
    panic. */
module BufferViews {
  import opened Wrappers
  import opened Bytes
  import Buffers

  datatype BufferView = BufferView(name: Option<string>, buffer: Buffers.Buffer, offset: nat, length: nat)

  /** `BufferView::new`: no check of the window against the buffer. */
  function New(name: Option<string>, buffer: Buffers.Buffer, offset: nat, length: nat): BufferView
  {
    BufferView(name, buffer, offset, length)
  }

  /** The window lies inside the buffer. */
  predicate InBounds(v: BufferView)
  {
    v.offset + v.length <= |v.buffer.data|
  }

  /** The bytes the view stands for. */
  function Window(v: BufferView): seq<byte>
    requires InBounds(v)
  {
    v.buffer.data[v.offset..v.offset + v.length]
  }

  /** `view[i]` as written: the check admits `i <= length`, so `i == length`
      reaches the byte just past the window. */
  function At(v: BufferView, i: nat): (r: Option<byte>)
    ensures r.Some? <==> i <= v.length && v.offset + i < |v.buffer.data|
    ensures r.Some? ==> r.value == v.buffer.data[v.offset + i]
  {
    if i <= v.length then Buffers.At(v.buffer, v.offset + i) else None
  }

  /** `view[i]` with the half-open check `i < length` the view's contract calls for. */
  function AtChecked(v: BufferView, i: nat): Option<byte>
  {
    if i < v.length then Buffers.At(v.buffer, v.offset + i) else None
  }

  /** `view[s .. e]`: both ends checked against `length`, then the buffer's
      range `[offset + s, offset + e)`. */
  function Range(v: BufferView, s: nat, e: nat): (r: Option<seq<byte>>)
    ensures r.Some? <==> s <= e <= v.length && v.offset + e <= |v.buffer.data|
    ensures r.Some? ==> r.value == v.buffer.data[v.offset + s..v.offset + e]
  {
    if s <= v.length && e <= v.length then Buffers.Range(v.buffer, v.offset + s, v.offset + e) else None
  }

  /** `view[.. e]`, which is `view[0 .. e]`. */
  function RangeTo(v: BufferView, e: nat): Option<seq<byte>>
  {
    Range(v, 0, e)
  }

  /** `view[s ..]`, which is `view[s .. length]`. */
  function RangeFrom(v: BufferView, s: nat): Option<seq<byte>>
  {
    Range(v, s, v.length)
  }

  /** `view[..]`, which is `view[0 .. length]`; `as_slice` and `deref` are this too. */
  function Full(v: BufferView): Option<seq<byte>>
  {
    Range(v, 0, v.length)
  }

  function AsSlice(v: BufferView): Option<seq<byte>>
  {
    Full(v)
  }

  function Deref(v: BufferView): Option<seq<byte>>
  {
    Full(v)
  }

  /** The whole-view slice exists exactly when the window lies inside the
      buffer, and is then the window's bytes. */
  lemma FullIsWindow(v: BufferView)
    ensures Full(v).Some? <==> InBounds(v)
    ensures InBounds(v) ==> Full(v) == AsSlice(v) == Deref(v) == Some(Window(v))
  {
  }

  /** A range of an in-bounds view is the same range of its window, and the
      one-sided forms fill in 0 and `length`: a range access never observes
      bytes outside the window. */
  lemma RangeWithinWindow(v: BufferView, s: nat, e: nat)
    requires InBounds(v)
    ensures Range(v, s, e).Some? <==> s <= e <= v.length
    ensures Range(v, s, e).Some? ==> Range(v, s, e).value == Window(v)[s..e]
    ensures RangeTo(v, e) == Range(v, 0, e) && RangeFrom(v, s) == Range(v, s, v.length)
  {
  }

  /** Construction accepts a window past the end of the buffer; only the later
      accesses fail. */
  lemma NewIsUnchecked()
    ensures !InBounds(New(None, Buffers.New(None, None, [7]), 1, 1))
    ensures Full(New(None, Buffers.New(None, None, [7]), 1, 1)).None?
  {
  }

  /** The corrected single-byte access reads inside the window only, and agrees
      with the window wherever the view is in bounds. */
  lemma AtCheckedStaysInWindow(v: BufferView, i: nat)
    ensures AtChecked(v, i).Some? ==> i < v.length && AtChecked(v, i) == At(v, i)
    ensures InBounds(v) ==> (AtChecked(v, i).Some? <==> i < v.length)
    ensures InBounds(v) && i < v.length ==> AtChecked(v, i) == Some(Window(v)[i])
  {
  }

  /** The access as written returns the byte just past the window: over the
      bytes 0, 1, 2, 3 the view (1, 2) holds 1 and 2, yet `view[2]` is 3. */
  lemma AtReadsPastWindow()
    ensures Window(New(None, Buffers.New(None, None, [0, 1, 2, 3]), 1, 2)) == [1, 2]
    ensures At(New(None, Buffers.New(None, None, [0, 1, 2, 3]), 1, 2), 2) == Some(3)
    ensures AtChecked(New(None, Buffers.New(None, None, [0, 1, 2, 3]), 1, 2), 2).None?
  {
    var d: seq<byte> := [0, 1, 2, 3];
    assert d[1..3] == [1, 2];
  }

  /** The source's unit tests: bytes 0, 1, 2, 3 seen through the view (1, 2). */
  lemma IndexExamples()
    ensures Full(New(None, Buffers.New(None, None, [0, 1, 2, 3]), 1, 2)) == Some([1, 2])
    ensures Range(New(None, Buffers.New(None, None, [0, 1, 2, 3]), 1, 2), 1, 2) == Some([2])
    ensures RangeTo(New(None, Buffers.New(None, None, [0, 1, 2, 3]), 1, 2), 1) == Some([1])
    ensures RangeFrom(New(None, Buffers.New(None, None, [0, 1, 2, 3]), 1, 2), 1) == Some([2])
  {
    var d: seq<byte> := [0, 1, 2, 3];
    assert d[1..3] == [1, 2];
    assert d[2..3] == [2];
    assert d[1..2] == [1];
  }
}
