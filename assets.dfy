/** The plain data the current importer produces: meshes whose vertex and
    index data are views into the imported buffer, skeletons, models and the
    asset that holds them. Names are the UTF-8 bytes read from the file; f32
    fields read from the file are kept as their 32-bit patterns. */
module Assets {
  import opened Wrappers
  import opened Bytes
  import Buffers
  import BufferViews
  import VertexFormats
  import IndexTypes

  datatype Submesh = Submesh(
    name: seq<byte>,
    view: BufferViews.BufferView,
    indexCount: nat,
    indexFormat: IndexTypes.Format,
    geometry: IndexTypes.Geometry)

  datatype Mesh = Mesh(
    name: seq<byte>,
    vertexCount: nat,
    descriptor: VertexFormats.Descriptor,
    buffers: seq<BufferViews.BufferView>,
    submeshes: seq<Submesh>)

  datatype Bone = Bone(
    name: seq<byte>,
    parentIndex: Option<nat>,
    position: seq<nat>,
    orientation: seq<nat>,
    scaleShear: seq<nat>)

  datatype Skeleton = Skeleton(bones: seq<Bone>)

  datatype Model = Model(name: seq<byte>, mesh: Mesh, blendShapes: seq<Mesh>, skeleton: Skeleton)

  datatype Object = ModelObject(model: Model)

  datatype Asset = Asset(buffers: seq<Buffers.Buffer>, objects: seq<Object>)

  datatype Behavior = Undefined | Constant | Gradient | Cycle | CycleRelative | Oscillate

  /** An animation curve: knots as `input`, one output channel per dimension. */
  datatype Sampler = Sampler(preBehavior: Behavior, postBehavior: Behavior, degree: nat, input: seq<nat>, outputs: seq<seq<nat>>)

  /** The bit patterns of the f32 constants the skeleton reader falls back to. */
  const ZERO_BITS: nat := 0
  const ONE_BITS: nat := 0x3F80_0000
}
