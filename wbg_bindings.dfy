/** The two binding lists of the current importer:
    src/importer/wbg/bone_bindings.rs (bone names) and
    src/importer/wbg/mesh_bindings.rs (mesh indices). */
module WbgBindings {
  import opened Wrappers
  import opened Bytes
  import opened ByteCursor
  import opened WbgCore

  /** Bytes a length-prefixed string takes up: its length byte and its own
      bytes. */
  function EncodedSize(name: seq<byte>): nat
  {
    1 + |name|
  }

  /** Bytes taken by length-prefixed strings back to back. */
  function EncodedLength(names: seq<seq<byte>>): nat
  {
    Consumed(EncodedSize, names)
  }

  /** `read_bone_bindings`: a u8 count, then that many strings in stream
      order. */
  function BoneBindingsAt(d: seq<byte>, p: nat): (r: Option<Parsed<seq<seq<byte>>>>)
    ensures r.Some? ==> p < |d| && |r.value.value| == d[p] && |r.value.value| < 0x100
    ensures r.Some? ==> r.value.next == p + 1 + EncodedLength(r.value.value)
  {
    var count :- U8At(d, p);
    var names :- Repeat(StringItem, (), d, count.next, count.value);
    RepeatLength(StringItem, (), d, count.next, count.value);
    RepeatConsumed(StringItem, (), d, count.next, count.value, EncodedSize);
    Some(names)
  }

  method ReadBoneBindings(c: Cursor) returns (r: Option<seq<seq<byte>>>)
    modifies c
    ensures Agrees(r, c.pos, BoneBindingsAt(c.data, old(c.pos)))
  {
    var count := c.ReadU8();
    if count.None? {
      return None;
    }
    var p0 := c.pos;
    var names: seq<seq<byte>> := [];
    for i := 0 to count.value
      invariant Repeat(StringItem, (), c.data, p0, i) == Some(Parsed(names, c.pos))
    {
      var name := ReadString(c);
      if name.None? {
        RepeatAbortStays(StringItem, (), c.data, p0, i + 1, count.value);
        return None;
      }
      names := names + [name.value];
    }
    r := Some(names);
  }

  /** `read_mesh_bindings`: a u8 count, then that many single-byte indices;
      the result is exactly the `count` bytes after the count byte. */
  function MeshBindingsAt(d: seq<byte>, p: nat): (r: Option<Parsed<seq<byte>>>)
    ensures r.Some? <==> p < |d| && p + 1 + d[p] <= |d|
    ensures r.Some? ==> r.value.value == d[p + 1..p + 1 + d[p]] && r.value.next == p + 1 + d[p]
  {
    var count :- U8At(d, p);
    RepeatBytes(d, count.next, count.value);
    Repeat(ByteItem, (), d, count.next, count.value)
  }

  method ReadMeshBindings(c: Cursor) returns (r: Option<seq<byte>>)
    modifies c
    ensures Agrees(r, c.pos, MeshBindingsAt(c.data, old(c.pos)))
  {
    var count := c.ReadU8();
    if count.None? {
      return None;
    }
    var p0 := c.pos;
    var values: seq<byte> := [];
    for i := 0 to count.value
      invariant Repeat(ByteItem, (), c.data, p0, i) == Some(Parsed(values, c.pos))
    {
      var value := c.ReadU8();
      if value.None? {
        RepeatAbortStays(ByteItem, (), c.data, p0, i + 1, count.value);
        return None;
      }
      values := values + [value.value];
    }
    r := Some(values);
  }
}
