/** The payload copies of the two copying importers (src/importer/wbg.rs and
    src/mesh/wbg.rs): values are read from the input and written back, with
    the same width, into a fresh byte vector. */
module PayloadCopy {
  import opened Wrappers
  import opened Bytes
  import opened ByteCursor
  import opened Seqs

  /** What the vertex copy needs of one attribute: whether its type is i16 or
      f16, the only types copied, and its element count. */
  datatype Run = Run(halfWords: bool, elements: nat)

  /** An attribute the loop can get through: 16-bit, or with no elements. */
  predicate Copyable(r: Run)
  {
    r.halfWords || r.elements == 0
  }

  /** Elements per vertex. */
  function Words(runs: seq<Run>): nat
  {
    if |runs| == 0 then 0 else Words(runs[..|runs| - 1]) + runs[|runs| - 1].elements
  }

  function PerVertex(runs: seq<Run>): nat
  {
    2 * Words(runs)
  }

  /** The vertex copy: aborts when a vertex is to be copied and some
      attribute with elements is not 16-bit, and otherwise yields the next
      `vertexCount · 2 · Σ elements` bytes unchanged, aborting if they run
      out. */
  function VertexCopyAt(d: seq<byte>, p: nat, vertexCount: nat, runs: seq<Run>): Option<Parsed<seq<byte>>>
  {
    var n := vertexCount * PerVertex(runs);
    if vertexCount > 0 && exists k :: 0 <= k < |runs| && !Copyable(runs[k]) then None
    else if n == 0 then Some(Parsed([], p))
    else if p + n <= |d| then Some(Parsed(d[p..p + n], p + n))
    else None
  }

  /** The index copy: `count` words of `size` bytes, unchanged. */
  function IndexCopyAt(d: seq<byte>, p: nat, size: nat, count: nat): Option<Parsed<seq<byte>>>
  {
    var n := count * size;
    if n == 0 then Some(Parsed([], p))
    else if p + n <= |d| then Some(Parsed(d[p..p + n], p + n))
    else None
  }

  lemma {:induction false} WordsPrefix(runs: seq<Run>, a: nat)
    requires a < |runs|
    ensures Words(runs[..a]) + runs[a].elements == Words(runs[..a + 1])
    ensures Words(runs[..a + 1]) <= Words(runs)
    decreases |runs|
  {
    assert runs[..a + 1][..a] == runs[..a];
    if a + 1 < |runs| {
      var init := runs[..|runs| - 1];
      assert init[..a] == runs[..a];
      assert init[..a + 1] == runs[..a + 1];
      WordsPrefix(init, a);
    } else {
      assert runs[..a + 1] == runs;
    }
  }

  /** Vertex v < vertexCount that cannot be copied means the whole copy
      aborts. */
  lemma ShortVertex(d: seq<byte>, p: nat, vertexCount: nat, runs: seq<Run>, v: nat, base: nat)
    requires v < vertexCount && base == p + v * PerVertex(runs)
    requires (exists k :: 0 <= k < |runs| && !Copyable(runs[k])) || (PerVertex(runs) > 0 && base + PerVertex(runs) > |d|)
    ensures VertexCopyAt(d, p, vertexCount, runs).None?
  {
    MulMonotone(v + 1, vertexCount, PerVertex(runs));
    MulStep(v, PerVertex(runs));
  }

  /** A read that runs out at index i < count means the whole copy runs out. */
  lemma ShortIndexRead(d: seq<byte>, p: nat, size: nat, count: nat, i: nat)
    requires size > 0 && i < count && p + i * size + size > |d|
    ensures IndexCopyAt(d, p, size, count).None?
  {
    MulMonotone(i + 1, count, size);
    MulStep(i, size);
  }

  /** Reading a word and writing it back with the same width leaves its bytes
      unchanged. */
  lemma RewriteWord(s: seq<byte>)
    requires |s| > 0
    ensures LeBytes(Unsigned(Signed(LeValue(s), |s|), |s|), |s|) == s
  {
    LeValueBound(s);
    SignedRange(LeValue(s), |s|);
    LeBytesOfValue(s);
  }

  /** One vertex of the copy loop: every attribute, every element, an i16
      read and written to `out`, or an abort on an attribute of another
      type. */
  method CopyVertex(c: Cursor, runs: seq<Run>) returns (r: Option<seq<byte>>)
    modifies c
    ensures r.Some? ==> forall k :: 0 <= k < |runs| ==> Copyable(runs[k])
    ensures r.Some? ==> c.pos == old(c.pos) + PerVertex(runs) && |r.value| == PerVertex(runs)
    ensures r.Some? ==> CopiedFrom(r.value, c.data, old(c.pos))
    ensures r.None? ==> (exists k :: 0 <= k < |runs| && !Copyable(runs[k])) || (PerVertex(runs) > 0 && old(c.pos) + PerVertex(runs) > |c.data|)
  {
    var p0 := c.pos;
    var out: seq<byte> := [];
    for a := 0 to |runs|
      invariant c.pos == p0 + 2 * Words(runs[..a]) && |out| == c.pos - p0
      invariant CopiedFrom(out, c.data, p0)
      invariant forall k :: 0 <= k < a ==> Copyable(runs[k])
    {
      WordsPrefix(runs, a);
      for e := 0 to runs[a].elements
        invariant c.pos == p0 + 2 * Words(runs[..a]) + 2 * e && |out| == c.pos - p0
        invariant CopiedFrom(out, c.data, p0)
        invariant e > 0 ==> runs[a].halfWords
      {
        if !runs[a].halfWords {
          assert !Copyable(runs[a]);
          return None;
        }
        var word := c.ReadWord(2);
        if word.None? {
          assert Words(runs[..a]) + e + 1 <= Words(runs);
          return None;
        }
        var value := Signed(word.value, 2);
        RewriteWord(c.data[c.pos - 2..c.pos]);
        CopiedExtend(out, c.data, p0, c.data[c.pos - 2..c.pos]);
        out := out + LeBytes(Unsigned(value, 2), 2);
      }
      assert Copyable(runs[a]);
    }
    assert runs[..|runs|] == runs;
    r := Some(out);
  }

  /** The copy loop of `read_vertex_buffer`: every vertex in turn. */
  method CopyVertices(c: Cursor, vertexCount: nat, runs: seq<Run>) returns (r: Option<seq<byte>>)
    modifies c
    ensures Agrees(r, c.pos, VertexCopyAt(c.data, old(c.pos), vertexCount, runs))
  {
    var p0 := c.pos;
    var out: seq<byte> := [];
    ghost var per := PerVertex(runs);
    for v := 0 to vertexCount
      invariant c.pos == p0 + v * per && |out| == c.pos - p0
      invariant CopiedFrom(out, c.data, p0)
      invariant v > 0 ==> forall k :: 0 <= k < |runs| ==> Copyable(runs[k])
    {
      ghost var base := c.pos;
      var vertex := CopyVertex(c, runs);
      if vertex.None? {
        ShortVertex(c.data, p0, vertexCount, runs, v, base);
        return None;
      }
      CopiedJoin(out, vertex.value, c.data, p0);
      out := out + vertex.value;
      MulStep(v, per);
    }
    PointwiseSlice(out, c.data, p0);
    r := Some(out);
  }

  /** The copy loop of `read_index_buffer`: `count` words of `size` bytes,
      each read and written back. */
  method CopyIndices(c: Cursor, size: nat, count: nat) returns (r: Option<seq<byte>>)
    requires size > 0
    modifies c
    ensures Agrees(r, c.pos, IndexCopyAt(c.data, old(c.pos), size, count))
  {
    var p0 := c.pos;
    var out: seq<byte> := [];
    for i := 0 to count
      invariant c.pos == p0 + i * size && |out| == c.pos - p0
      invariant CopiedFrom(out, c.data, p0)
    {
      var word := c.ReadWord(size);
      if word.None? {
        ShortIndexRead(c.data, p0, size, count, i);
        return None;
      }
      LeBytesOfValue(c.data[c.pos - size..c.pos]);
      CopiedExtend(out, c.data, p0, c.data[c.pos - size..c.pos]);
      out := out + LeBytes(word.value, size);
      MulStep(i, size);
    }
    PointwiseSlice(out, c.data, p0);
    r := Some(out);
  }
}
