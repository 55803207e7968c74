/** The current importer's entry point (src/importer/wbg/mod.rs, `import`):
    meshes with their blend shapes, then models that bind a name, a skeleton
    and a list of meshes, then animations that are read and dropped. Every
    view in the result shares the one input buffer. */
module WbgImport {
  import opened Wrappers
  import opened Bytes
  import opened ByteCursor
  import Buffers
  import opened IndexTypes
  import opened Assets
  import opened WbgCore
  import opened WbgMesh
  import opened WbgBindings
  import opened WbgSkeleton
  import opened WbgBlendShape
  import opened WbgAnimation
  import opened Seqs

  /** A mesh read at top level, with the blend shapes read after it. */
  type Entry = (Mesh, seq<Mesh>)

  /** What every entry looks like: one vertex view, triangle areas, and
      blend shapes each of one point submesh. */
  predicate EntryShape(e: Entry)
  {
    && |e.0.buffers| == 1
    && (forall k :: 0 <= k < |e.0.submeshes| ==> e.0.submeshes[k].geometry == Triangles)
    && (forall k :: 0 <= k < |e.1| ==> IsBlendShape(e.1[k]))
  }

  /** One turn of the mesh loop: `read_mesh`, `read_bone_bindings` (result
      dropped), `read_blend_shapes`. */
  function EntryAt(buffer: Buffers.Buffer, d: seq<byte>, p: nat): (r: Option<Parsed<Entry>>)
    ensures r.Some? ==> EntryShape(r.value.value)
  {
    var mesh :- MeshAt(buffer, p);
    MeshSubmeshes(buffer, p);
    var bones :- BoneBindingsAt(buffer.data, mesh.next);
    var shapes :- BlendShapesAt(buffer, bones.next);
    Some(Parsed((mesh.value, shapes.value), shapes.next))
  }

  method ReadEntry(c: Cursor, buffer: Buffers.Buffer) returns (r: Option<Entry>)
    requires c.data == buffer.data
    modifies c
    ensures Agrees(r, c.pos, EntryAt(buffer, c.data, old(c.pos)))
  {
    var mesh := ReadMesh(c, buffer);
    if mesh.None? {
      return None;
    }
    var bones := ReadBoneBindings(c);
    if bones.None? {
      return None;
    }
    var shapes := ReadBlendShapes(c, buffer);
    if shapes.None? {
      return None;
    }
    r := Some((mesh.value, shapes.value));
  }

  /** `s[i]`, or None where Rust's indexing would panic. */
  function Lookup<T>(s: seq<T>, i: nat): (r: Option<T>)
    ensures r.Some? <==> i < |s|
    ensures r.Some? ==> r.value == s[i]
  {
    if i < |s| then Some(s[i]) else None
  }

  /** `s[i]` for every index i of `indices`, in order. */
  function LookupAll<T>(s: seq<T>, indices: seq<byte>): (r: Option<seq<T>>)
  {
    if |indices| == 0 then Some([])
    else
      var init :- LookupAll(s, indices[..|indices| - 1]);
      var last :- Lookup(s, indices[|indices| - 1]);
      Some(init + [last])
  }

  /** All lookups succeed exactly when every index is in range, and then the
      k-th result is `s[indices[k]]`. */
  lemma {:induction false} LookupAllPicks<T>(s: seq<T>, indices: seq<byte>)
    ensures LookupAll(s, indices).Some? <==> forall k :: 0 <= k < |indices| ==> indices[k] < |s|
    ensures LookupAll(s, indices).Some? ==> |LookupAll(s, indices).value| == |indices|
    ensures LookupAll(s, indices).Some? ==> forall k :: 0 <= k < |indices| ==> LookupAll(s, indices).value[k] == s[indices[k]]
  {
    if |indices| > 0 {
      var init := indices[..|indices| - 1];
      LookupAllPicks(s, init);
      assert forall k :: 0 <= k < |init| ==> init[k] == indices[k];
    }
  }

  /** The mesh list of one model, as intended: binding value i selects the
      i-th top-level mesh. */
  function Bind(meshes: seq<Entry>, bindings: seq<byte>): (r: Option<seq<Entry>>)
    ensures r.Some? <==> forall k :: 0 <= k < |bindings| ==> bindings[k] < |meshes|
    ensures r.Some? ==> |r.value| == |bindings|
    ensures r.Some? ==> forall k :: 0 <= k < |bindings| ==> r.value[k] == meshes[bindings[k]]
  {
    LookupAllPicks(meshes, bindings);
    LookupAll(meshes, bindings)
  }

  /** The mesh list as the source computes it, `meshes[mesh_bindings[*i]]`:
      each binding value is first used as an index into the bindings
      themselves. */
  function BindAsWritten(meshes: seq<Entry>, bindings: seq<byte>): Option<seq<Entry>>
  {
    var inner :- LookupAll(bindings, bindings);
    LookupAll(meshes, inner)
  }

  /** A model bound to mesh 1 alone of two meshes: the intended binding
      yields that mesh, while the source indexes the one-element binding list
      with 1 and panics. A model bound to [1, 0] gets its meshes swapped. */
  lemma BindingIndirection(a: Entry, b: Entry)
    ensures Bind([a, b], [1]) == Some([b])
    ensures BindAsWritten([a, b], [1]).None?
    ensures Bind([a, b], [1, 0]) == Some([b, a])
    ensures BindAsWritten([a, b], [1, 0]) == Some([a, b])
  {
    var meshes := [a, b];
    var one: seq<byte> := [1];
    assert Bind(meshes, one).value == [b];
    LookupAllPicks(one, one);
    var swap: seq<byte> := [1, 0];
    assert Bind(meshes, swap).value == [b, a];
    LookupAllPicks(swap, swap);
    var inner := LookupAll(swap, swap).value;
    assert inner == [0, 1];
    LookupAllPicks(meshes, inner);
    assert LookupAll(meshes, inner).value == [a, b];
  }

  /** The two agree whenever every binding value is a fixed point of the
      bindings, such as the common single model bound to `[0]`. */
  lemma BindAsWrittenAgrees(meshes: seq<Entry>, bindings: seq<byte>)
    requires forall k :: 0 <= k < |bindings| ==> bindings[k] < |bindings| && bindings[bindings[k]] == bindings[k]
    ensures BindAsWritten(meshes, bindings) == Bind(meshes, bindings)
  {
    LookupAllPicks(bindings, bindings);
    var inner := LookupAll(bindings, bindings).value;
    assert inner == bindings;
  }

  /** The objects of one model: a model object per bound mesh, all sharing
      the name and skeleton. */
  function ModelObjects(name: seq<byte>, skeleton: Skeleton, picked: seq<Entry>): (objects: seq<Object>)
    ensures |objects| == |picked|
    ensures forall k :: 0 <= k < |picked| ==> objects[k] == ModelObject(Model(name, picked[k].0, picked[k].1, skeleton))
  {
    seq(|picked|, k requires 0 <= k < |picked| => ModelObject(Model(name, picked[k].0, picked[k].1, skeleton)))
  }

  predicate ObjectShape(o: Object)
  {
    EntryShape((o.model.mesh, o.model.blendShapes))
  }

  /** One turn of the model loop: name, skeleton, mesh bindings, and the
      objects they select from `meshes`. */
  function ModelAt(meshes: seq<Entry>, d: seq<byte>, p: nat): (r: Option<Parsed<seq<Object>>>)
    ensures r.Some? ==> |r.value.value| < 0x100
    ensures r.Some? && (forall k :: 0 <= k < |meshes| ==> EntryShape(meshes[k])) ==>
      forall k :: 0 <= k < |r.value.value| ==> ObjectShape(r.value.value[k])
  {
    var name :- StringAt(d, p);
    var skeleton :- SkeletonAt(d, name.next);
    var bindings :- MeshBindingsAt(d, skeleton.next);
    var picked :- Bind(meshes, bindings.value);
    Some(Parsed(ModelObjects(name.value, skeleton.value, picked), bindings.next))
  }

  method ReadModel(c: Cursor, meshes: seq<Entry>) returns (r: Option<seq<Object>>)
    modifies c
    ensures Agrees(r, c.pos, ModelAt(meshes, c.data, old(c.pos)))
  {
    var name := ReadString(c);
    if name.None? {
      return None;
    }
    var skeleton := ReadSkeleton(c);
    if skeleton.None? {
      return None;
    }
    var bindings := ReadMeshBindings(c);
    if bindings.None? {
      return None;
    }
    var picked := Bind(meshes, bindings.value);
    if picked.None? {
      return None;
    }
    r := Some(ModelObjects(name.value, skeleton.value, picked.value));
  }

  function EntryItem(buffer: Buffers.Buffer, d: seq<byte>, p: nat): Option<Parsed<Entry>>
  {
    EntryAt(buffer, d, p)
  }

  function ModelItem(meshes: seq<Entry>, d: seq<byte>, p: nat): Option<Parsed<seq<Object>>>
  {
    ModelAt(meshes, d, p)
  }

  predicate AllShaped(objects: seq<Object>)
  {
    forall k :: 0 <= k < |objects| ==> ObjectShape(objects[k])
  }

  /** `import`: version byte (ignored), u8 mesh count and the meshes, u8
      model count and the models, u8 animation count and the animations;
      the asset holds the input buffer and the models' objects in order. */
  function ImportAt(buffer: Buffers.Buffer): (r: Option<Asset>)
    ensures r.Some? ==> r.value.buffers == [buffer]
    ensures r.Some? ==> forall k :: 0 <= k < |r.value.objects| ==> ObjectShape(r.value.objects[k])
  {
    var d := buffer.data;
    var version :- U8At(d, 0);
    var meshCount :- U8At(d, version.next);
    var meshes :- Repeat(EntryItem, buffer, d, meshCount.next, meshCount.value);
    var modelCount :- U8At(d, meshes.next);
    var models :- Repeat(ModelItem, meshes.value, d, modelCount.next, modelCount.value);
    var animationCount :- U8At(d, models.next);
    var animations :- Repeat(AnimationAt, (), d, animationCount.next, animationCount.value);
    RepeatAll(EntryItem, buffer, d, meshCount.next, meshCount.value, EntryShape);
    RepeatAll(ModelItem, meshes.value, d, modelCount.next, modelCount.value, AllShaped);
    FlattenKeeps(models.value, ObjectShape);
    Some(Asset([buffer], Flatten(models.value)))
  }

  method Import(buffer: Buffers.Buffer) returns (r: Option<Asset>)
    ensures r == ImportAt(buffer)
  {
    var c := new Cursor(buffer.data);
    var version := c.ReadU8();
    if version.None? {
      return None;
    }
    var meshCount := c.ReadU8();
    if meshCount.None? {
      return None;
    }
    var p0 := c.pos;
    var meshes: seq<Entry> := [];
    for i := 0 to meshCount.value
      invariant Repeat(EntryItem, buffer, c.data, p0, i) == Some(Parsed(meshes, c.pos))
    {
      var entry := ReadEntry(c, buffer);
      if entry.None? {
        RepeatAbortStays(EntryItem, buffer, c.data, p0, i + 1, meshCount.value);
        return None;
      }
      meshes := meshes + [entry.value];
    }
    var modelCount := c.ReadU8();
    if modelCount.None? {
      return None;
    }
    var p1 := c.pos;
    var models: seq<seq<Object>> := [];
    for i := 0 to modelCount.value
      invariant Repeat(ModelItem, meshes, c.data, p1, i) == Some(Parsed(models, c.pos))
    {
      var objects := ReadModel(c, meshes);
      if objects.None? {
        RepeatAbortStays(ModelItem, meshes, c.data, p1, i + 1, modelCount.value);
        return None;
      }
      models := models + [objects.value];
    }
    var animationCount := c.ReadU8();
    if animationCount.None? {
      return None;
    }
    var p2 := c.pos;
    for i := 0 to animationCount.value
      invariant Repeat(AnimationAt, (), c.data, p2, i).Some?
      invariant Repeat(AnimationAt, (), c.data, p2, i).value.next == c.pos
    {
      var ok := ReadAnimation(c);
      if !ok {
        RepeatAbortStays(AnimationAt, (), c.data, p2, i + 1, animationCount.value);
        return None;
      }
    }
    r := Some(Asset([buffer], Flatten(models)));
  }
}
