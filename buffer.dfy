/** The owned byte buffer (src/buffer/buffer.rs). It is shared by reference
    counting and never changed after `new`, so it is a value here; every index
    operation delegates to the owned vector, and a `None` result stands for the
    vector's out-of-range panic. */
module Buffers {
  import opened Wrappers
  import opened Bytes

  datatype Buffer = Buffer(uri: Option<string>, name: Option<string>, data: seq<byte>)

  /** `Buffer::new`: takes ownership of the bytes as they are. */
  function New(uri: Option<string>, name: Option<string>, data: seq<byte>): Buffer
  {
    Buffer(uri, name, data)
  }

  /** `buffer[i]`. */
  function At(b: Buffer, i: nat): (r: Option<byte>)
    ensures r.Some? <==> i < |b.data|
    ensures r.Some? ==> r.value == b.data[i]
  {
    if i < |b.data| then Some(b.data[i]) else None
  }

  /** `buffer[s .. e]`: panics unless s <= e <= len. */
  function Range(b: Buffer, s: nat, e: nat): (r: Option<seq<byte>>)
    ensures r.Some? <==> s <= e <= |b.data|
    ensures r.Some? ==> |r.value| == e - s
    ensures r.Some? ==> forall k :: 0 <= k < e - s ==> At(b, s + k) == Some(r.value[k])
  {
    if s <= e <= |b.data| then Some(b.data[s..e]) else None
  }

  /** `buffer[.. e]`. */
  function RangeTo(b: Buffer, e: nat): Option<seq<byte>>
  {
    if e <= |b.data| then Some(b.data[..e]) else None
  }

  /** `buffer[s ..]`. */
  function RangeFrom(b: Buffer, s: nat): Option<seq<byte>>
  {
    if s <= |b.data| then Some(b.data[s..]) else None
  }

  /** `buffer[..]`. */
  function Full(b: Buffer): seq<byte>
  {
    b.data[..]
  }

  /** `as_slice`, which is `&self[..]`. */
  function AsSlice(b: Buffer): seq<byte>
  {
    Full(b)
  }

  /** `deref`, which derefs the owned vector. */
  function Deref(b: Buffer): seq<byte>
  {
    b.data
  }

  /** The open-ended ranges are the two-sided range with the missing end filled
      in, and the full range, `as_slice` and `deref` all give the bytes that
      `new` was given. */
  lemma RangeForms(uri: Option<string>, name: Option<string>, data: seq<byte>, s: nat, e: nat)
    ensures RangeTo(New(uri, name, data), e) == Range(New(uri, name, data), 0, e)
    ensures RangeFrom(New(uri, name, data), s) == Range(New(uri, name, data), s, |data|)
    ensures Range(New(uri, name, data), 0, |data|) == Some(data)
    ensures Full(New(uri, name, data)) == AsSlice(New(uri, name, data)) == Deref(New(uri, name, data)) == data
  {
    assert data[0..|data|] == data;
    if s <= |data| {
      assert data[s..] == data[s..|data|];
    }
  }

  /** The source's unit tests over the bytes 0, 1, 2, 3. */
  lemma IndexExamples()
    ensures AsSlice(New(None, None, [0, 1, 2, 3])) == [0, 1, 2, 3]
    ensures Range(New(None, None, [0, 1, 2, 3]), 1, 3) == Some([1, 2])
    ensures RangeTo(New(None, None, [0, 1, 2, 3]), 2) == Some([0, 1])
    ensures RangeFrom(New(None, None, [0, 1, 2, 3]), 2) == Some([2, 3])
  {
    var d: seq<byte> := [0, 1, 2, 3];
    assert d[1..3] == [1, 2];
    assert d[..2] == [0, 1];
    assert d[2..] == [2, 3];
  }
}
