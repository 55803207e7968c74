/** Animations of the current importer (src/importer/wbg/animation.rs):
    groups of transform tracks whose curves are B-spline samplers. The
    records are read through to keep the stream position right; the f32
    values stay 32-bit patterns. */
module WbgAnimation {
  import opened Wrappers
  import opened Bytes
  import opened ByteCursor
  import opened Assets
  import opened WbgCore
  import opened Seqs

  /** Every `dim`-th control value starting at `j`: one output channel. */
  function Channel(controls: seq<nat>, dim: nat, j: nat): seq<nat>
    requires dim > 0
    decreases |controls| - j
  {
    if j >= |controls| then [] else [controls[j]] + Channel(controls, dim, j + dim)
  }

  /** Channel i holds controls i, i + dim, i + 2·dim, ... (the source's
      `step_by(dimension)`). */
  function Deinterleave(controls: seq<nat>, dim: nat): (outputs: seq<seq<nat>>)
    ensures |outputs| == dim
  {
    seq(dim, i requires 0 <= i < dim => Channel(controls, dim, i))
  }

  /** The inverse: control j is channel `j % dim` at position `j / dim`. */
  function Interleave(outputs: seq<seq<nat>>, k: nat): (controls: seq<nat>)
    requires forall i :: 0 <= i < |outputs| ==> |outputs[i]| == k
    ensures |controls| == |outputs| * k
  {
    seq(|outputs| * k, j requires 0 <= j < |outputs| * k => Pick(outputs, k, j))
  }

  function Pick(outputs: seq<seq<nat>>, k: nat, j: nat): nat
    requires forall i :: 0 <= i < |outputs| ==> |outputs[i]| == k
    requires j < |outputs| * k
  {
    DivModSplit(j, |outputs|, k);
    outputs[j % |outputs|][j / |outputs|]
  }

  /** Where control j sits: position `j / dim` of channel `j % dim`. */
  lemma DivModSplit(j: nat, dim: nat, k: nat)
    requires j < dim * k
    ensures dim > 0 && j % dim < dim && j / dim < k && j == (j / dim) * dim + j % dim
  {
  }

  /** One step along a channel: the position after `m · dim + i` is
      `(m + 1) · dim + i`, and it lies in the controls exactly while m < k. */
  lemma StepFacts(dim: nat, k: nat, i: nat, m: nat, j: nat)
    requires dim > 0 && i < dim && m <= k && j == m * dim + i
    ensures j < dim * k <==> m < k
    ensures j + dim == (m + 1) * dim + i
  {
    if m < k {
      MulMonotone(m + 1, k, dim);
      assert (m + 1) * dim == m * dim + dim;
    } else {
      assert m == k;
    }
  }

  /** A channel started at `m · dim + i` holds k - m values. */
  lemma {:induction false} ChannelLength(controls: seq<nat>, dim: nat, k: nat, i: nat, m: nat, j: nat)
    requires dim > 0 && |controls| == dim * k && i < dim && m <= k && j == m * dim + i
    ensures |Channel(controls, dim, j)| == k - m
    decreases k - m
  {
    StepFacts(dim, k, i, m, j);
    if m < k {
      ChannelLength(controls, dim, k, i, m + 1, j + dim);
    }
  }

  /** Value t of the channel started at j is control `j + t · dim`. */
  lemma {:induction false} ChannelElements(controls: seq<nat>, dim: nat, j: nat)
    requires dim > 0
    ensures forall t :: 0 <= t < |Channel(controls, dim, j)| ==> j + t * dim < |controls|
    ensures forall t :: 0 <= t < |Channel(controls, dim, j)| ==> Channel(controls, dim, j)[t] == controls[j + t * dim]
    decreases |controls| - j
  {
    if j < |controls| {
      ChannelElements(controls, dim, j + dim);
      var rest := Channel(controls, dim, j + dim);
      assert Channel(controls, dim, j) == [controls[j]] + rest;
      forall t | 0 < t < |Channel(controls, dim, j)|
        ensures j + t * dim < |controls|
        ensures Channel(controls, dim, j)[t] == controls[j + t * dim]
      {
        assert Channel(controls, dim, j)[t] == rest[t - 1];
        assert j + dim + (t - 1) * dim == j + t * dim;
      }
    }
  }

  lemma ChannelShape(controls: seq<nat>, dim: nat, k: nat, i: nat)
    requires |controls| == dim * k && i < dim
    ensures |Channel(controls, dim, i)| == k
    ensures forall m :: 0 <= m < k ==> i + m * dim < |controls| && Channel(controls, dim, i)[m] == controls[i + m * dim]
  {
    ChannelLength(controls, dim, k, i, 0, i);
    ChannelElements(controls, dim, i);
  }

  /** With `dim · k` controls there are `dim` channels of k values each. */
  lemma DeinterleaveLengths(controls: seq<nat>, dim: nat, k: nat)
    requires |controls| == dim * k
    ensures |Deinterleave(controls, dim)| == dim
    ensures forall i :: 0 <= i < dim ==> |Deinterleave(controls, dim)[i]| == k
  {
    forall i | 0 <= i < dim
      ensures |Deinterleave(controls, dim)[i]| == k
    {
      ChannelShape(controls, dim, k, i);
    }
  }

  /** Channel i at position m is control `i + m · dim`. */
  lemma DeinterleaveValue(controls: seq<nat>, dim: nat, k: nat, i: nat, m: nat)
    requires |controls| == dim * k && i < dim && m < k
    ensures m < |Deinterleave(controls, dim)[i]| && i + m * dim < |controls|
    ensures Deinterleave(controls, dim)[i][m] == controls[i + m * dim]
  {
    ChannelShape(controls, dim, k, i);
    assert Deinterleave(controls, dim)[i] == Channel(controls, dim, i);
  }

  /** Interleaving the channels gives the control values back. */
  lemma InterleaveDeinterleave(controls: seq<nat>, dim: nat, k: nat)
    requires |controls| == dim * k
    ensures forall i :: 0 <= i < dim ==> |Deinterleave(controls, dim)[i]| == k
    ensures Interleave(Deinterleave(controls, dim), k) == controls
  {
    DeinterleaveLengths(controls, dim, k);
    var outputs := Deinterleave(controls, dim);
    var back := Interleave(outputs, k);
    forall j | 0 <= j < dim * k
      ensures back[j] == controls[j]
    {
      DivModSplit(j, dim, k);
      DeinterleaveValue(controls, dim, k, j % dim, j / dim);
    }
  }

  /** `read_curves`: a type byte (0 means no curve and ends the record),
      dimension, degree, u32 knot count and knots, u32 control count, which
      must equal dimension · knots (`assert_eq!`), and the controls. */
  function CurvesAt(ctx: (), d: seq<byte>, p: nat): (r: Option<Parsed<Option<Sampler>>>)
    ensures r.Some? ==> p < |d|
    ensures r.Some? ==> (r.value.value.None? <==> d[p] == 0)
    ensures r.Some? && d[p] == 0 ==> r.value.next == p + 1
    ensures r.Some? && r.value.value.Some? ==> p + 2 < |d|
    ensures r.Some? && r.value.value.Some? ==> SamplerShape(r.value.value.value, d[p + 1], d[p + 2])
  {
    var ty :- U8At(d, p);
    if ty.value == 0 then Some(Parsed(None, ty.next)) else
    var dim :- U8At(d, ty.next);
    var degree :- U8At(d, dim.next);
    var knotCount :- U32At(d, degree.next);
    var knots :- Repeat(F32Item, (), d, knotCount.next, knotCount.value);
    var controlCount :- U32At(d, knots.next);
    if controlCount.value != dim.value * knotCount.value then None else
    var controls :- Repeat(F32Item, (), d, controlCount.next, controlCount.value);
    RepeatLength(F32Item, (), d, knotCount.next, knotCount.value);
    RepeatLength(F32Item, (), d, controlCount.next, controlCount.value);
    DeinterleaveLengths(controls.value, dim.value, knotCount.value);
    var outputs := Deinterleave(controls.value, dim.value);
    Some(Parsed(Some(Sampler(Undefined, Undefined, degree.value, knots.value, outputs)), controls.next))
  }

  /** A decoded sampler: undefined behaviours on both ends, the stored degree,
      and `dimension` output channels each as long as the knot vector. */
  predicate SamplerShape(s: Sampler, dim: nat, degree: nat)
  {
    && s.preBehavior == Undefined
    && s.postBehavior == Undefined
    && s.degree == degree
    && |s.outputs| == dim
    && forall i :: 0 <= i < dim ==> |s.outputs[i]| == |s.input|
  }

  method ReadWords(c: Cursor, n: nat) returns (r: Option<seq<nat>>)
    modifies c
    ensures Agrees(r, c.pos, Repeat(F32Item, (), c.data, old(c.pos), n))
  {
    var p0 := c.pos;
    var words: seq<nat> := [];
    for i := 0 to n
      invariant Repeat(F32Item, (), c.data, p0, i) == Some(Parsed(words, c.pos))
    {
      var word := c.ReadF32();
      if word.None? {
        RepeatAbortStays(F32Item, (), c.data, p0, i + 1, n);
        return None;
      }
      words := words + [word.value];
    }
    r := Some(words);
  }

  /** The outcome of `read_curves`: `Some(None)` for an absent curve. */
  method ReadCurves(c: Cursor) returns (r: Option<Option<Sampler>>)
    modifies c
    ensures Agrees(r, c.pos, CurvesAt((), c.data, old(c.pos)))
  {
    var ty := c.ReadU8();
    if ty.None? {
      return None;
    }
    if ty.value == 0 {
      return Some(None);
    }
    var dim := c.ReadU8();
    if dim.None? {
      return None;
    }
    var degree := c.ReadU8();
    if degree.None? {
      return None;
    }
    var knotCount := c.ReadU32();
    if knotCount.None? {
      return None;
    }
    var knots := ReadWords(c, knotCount.value);
    if knots.None? {
      return None;
    }
    var controlCount := c.ReadU32();
    if controlCount.None? || controlCount.value != dim.value * knotCount.value {
      return None;
    }
    var controls := ReadWords(c, controlCount.value);
    if controls.None? {
      return None;
    }
    r := Some(Some(Sampler(Undefined, Undefined, degree.value, knots.value, Deinterleave(controls.value, dim.value))));
  }

  datatype Track = Track(orientation: Option<Sampler>, position: Option<Sampler>, scaleShear: Option<Sampler>)

  /** `read_transform_track`: a name (discarded), then orientation, position
      and scale-shear curves. The quaternion sign fix-up reads the first
      orientation channel, so an orientation curve without channels aborts. */
  function TrackAt(ctx: (), d: seq<byte>, p: nat): (r: Option<Parsed<Track>>)
    ensures r.Some? && r.value.value.orientation.Some? ==> |r.value.value.orientation.value.outputs| > 0
  {
    var name :- StringAt(d, p);
    var orientation :- CurvesAt((), d, name.next);
    var position :- CurvesAt((), d, orientation.next);
    var scaleShear :- CurvesAt((), d, position.next);
    if orientation.value.Some? && |orientation.value.value.outputs| == 0 then None
    else Some(Parsed(Track(orientation.value, position.value, scaleShear.value), scaleShear.next))
  }

  method ReadTransformTrack(c: Cursor) returns (r: Option<Track>)
    modifies c
    ensures Agrees(r, c.pos, TrackAt((), c.data, old(c.pos)))
  {
    var name := ReadString(c);
    if name.None? {
      return None;
    }
    var orientation := ReadCurves(c);
    if orientation.None? {
      return None;
    }
    var position := ReadCurves(c);
    if position.None? {
      return None;
    }
    var scaleShear := ReadCurves(c);
    if scaleShear.None? {
      return None;
    }
    if orientation.value.Some? && |orientation.value.value.outputs| == 0 {
      return None;
    }
    r := Some(Track(orientation.value, position.value, scaleShear.value));
  }

  /** `read_group`: a name and a u8 track count; each track is paired with
      the group's name. */
  function GroupAt(ctx: (), d: seq<byte>, p: nat): (r: Option<Parsed<seq<(seq<byte>, Track)>>>)
    ensures r.Some? ==> StringAt(d, p).Some? && |r.value.value| < 0x100
    ensures r.Some? ==> forall k :: 0 <= k < |r.value.value| ==> r.value.value[k].0 == StringAt(d, p).value.value
  {
    var name :- StringAt(d, p);
    var count :- U8At(d, name.next);
    var tracks :- Repeat(TrackAt, (), d, count.next, count.value);
    RepeatLength(TrackAt, (), d, count.next, count.value);
    Some(Parsed(Pair(name.value, tracks.value), tracks.next))
  }

  function Pair(name: seq<byte>, tracks: seq<Track>): (pairs: seq<(seq<byte>, Track)>)
    ensures |pairs| == |tracks|
    ensures forall k :: 0 <= k < |tracks| ==> pairs[k] == (name, tracks[k])
  {
    seq(|tracks|, k requires 0 <= k < |tracks| => (name, tracks[k]))
  }

  method ReadGroup(c: Cursor) returns (r: Option<seq<(seq<byte>, Track)>>)
    modifies c
    ensures Agrees(r, c.pos, GroupAt((), c.data, old(c.pos)))
  {
    var name := ReadString(c);
    if name.None? {
      return None;
    }
    var count := c.ReadU8();
    if count.None? {
      return None;
    }
    var p0 := c.pos;
    var tracks: seq<Track> := [];
    for i := 0 to count.value
      invariant Repeat(TrackAt, (), c.data, p0, i) == Some(Parsed(tracks, c.pos))
    {
      var track := ReadTransformTrack(c);
      if track.None? {
        RepeatAbortStays(TrackAt, (), c.data, p0, i + 1, count.value);
        return None;
      }
      tracks := tracks + [track.value];
    }
    r := Some(Pair(name.value, tracks));
  }

  /** `read_animation`: name, f32 duration and a u8 group count; every group
      is read (the source drives them with `last()`) and the result dropped,
      so only success and the position reached are observable. */
  function AnimationAt(ctx: (), d: seq<byte>, p: nat): Option<Parsed<()>>
  {
    var name :- StringAt(d, p);
    var duration :- F32At(d, name.next);
    var count :- U8At(d, duration.next);
    var groups :- Repeat(GroupAt, (), d, count.next, count.value);
    Some(Parsed((), groups.next))
  }

  method ReadAnimation(c: Cursor) returns (ok: bool)
    modifies c
    ensures ok <==> AnimationAt((), c.data, old(c.pos)).Some?
    ensures ok ==> c.pos == AnimationAt((), c.data, old(c.pos)).value.next
  {
    var name := ReadString(c);
    if name.None? {
      return false;
    }
    var duration := c.ReadF32();
    if duration.None? {
      return false;
    }
    var count := c.ReadU8();
    if count.None? {
      return false;
    }
    var p0 := c.pos;
    var groups: seq<seq<(seq<byte>, Track)>> := [];
    for i := 0 to count.value
      invariant Repeat(GroupAt, (), c.data, p0, i) == Some(Parsed(groups, c.pos))
    {
      var group := ReadGroup(c);
      if group.None? {
        RepeatAbortStays(GroupAt, (), c.data, p0, i + 1, count.value);
        return false;
      }
      groups := groups + [group.value];
    }
    ok := true;
  }
}
