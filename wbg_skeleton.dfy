/** Skeletons (src/importer/wbg/skeleton.rs): bones whose transform parts
    are present only when the matching flag bit is set. The f32 values are
    kept as their bit patterns. */
module WbgSkeleton {
  import opened Wrappers
  import opened Bytes
  import opened ByteCursor
  import opened Assets
  import opened WbgCore

  /** The fallbacks: zero position, identity quaternion, identity 3x3. */
  const DEFAULT_POSITION: seq<nat> := [ZERO_BITS, ZERO_BITS, ZERO_BITS]
  const DEFAULT_ORIENTATION: seq<nat> := [ZERO_BITS, ZERO_BITS, ZERO_BITS, ONE_BITS]
  const DEFAULT_SCALE_SHEAR: seq<nat> :=
    [ONE_BITS, ZERO_BITS, ZERO_BITS, ZERO_BITS, ONE_BITS, ZERO_BITS, ZERO_BITS, ZERO_BITS, ONE_BITS]

  /** Bit `k` of a flags byte. */
  function Bit(flags: byte, k: nat): bool
  {
    (flags / PowTwo(k)) % 2 == 1
  }

  function PowTwo(k: nat): (r: nat)
    ensures r >= 1
  {
    if k == 0 then 1 else 2 * PowTwo(k - 1)
  }

  /** n f32 words when `present`, otherwise the fallback without reading. */
  function WordsOrDefault(d: seq<byte>, p: nat, present: bool, n: nat, fallback: seq<nat>): Option<Parsed<seq<nat>>>
  {
    if present then Repeat(F32Item, (), d, p, n) else Some(Parsed(fallback, p))
  }

  /** Reading the words when present consumes 4n bytes and gives n words;
      otherwise nothing is consumed and the fallback is used. */
  lemma WordsOrDefaultSize(d: seq<byte>, p: nat, present: bool, n: nat, fallback: seq<nat>)
    requires WordsOrDefault(d, p, present, n, fallback).Some?
    ensures present ==> WordsOrDefault(d, p, present, n, fallback).value.next == p + 4 * n
    ensures present ==> |WordsOrDefault(d, p, present, n, fallback).value.value| == n
    ensures !present ==> WordsOrDefault(d, p, present, n, fallback) == Some(Parsed(fallback, p))
  {
    if present {
      RepeatWords(d, p, n);
    }
  }

  /** `read_bone`: name, flags byte, parent byte (0xFF for none), then
      position, orientation and scale-shear, each read only under its flag
      bit 0x01, 0x02, 0x04. */
  function BoneAt(ctx: (), d: seq<byte>, p: nat): (r: Option<Parsed<Bone>>)
    ensures r.Some? ==> |r.value.value.position| == 3 && |r.value.value.orientation| == 4 && |r.value.value.scaleShear| == 9
  {
    var name :- StringAt(d, p);
    var flags :- U8At(d, name.next);
    var parent :- U8At(d, flags.next);
    var position :- WordsOrDefault(d, parent.next, Bit(flags.value, 0), 3, DEFAULT_POSITION);
    var orientation :- WordsOrDefault(d, position.next, Bit(flags.value, 1), 4, DEFAULT_ORIENTATION);
    var scaleShear :- WordsOrDefault(d, orientation.next, Bit(flags.value, 2), 9, DEFAULT_SCALE_SHEAR);
    WordsOrDefaultSize(d, parent.next, Bit(flags.value, 0), 3, DEFAULT_POSITION);
    WordsOrDefaultSize(d, position.next, Bit(flags.value, 1), 4, DEFAULT_ORIENTATION);
    WordsOrDefaultSize(d, orientation.next, Bit(flags.value, 2), 9, DEFAULT_SCALE_SHEAR);
    var parentIndex := if parent.value == 0xFF then None else Some(parent.value as nat);
    Some(Parsed(Bone(name.value, parentIndex, position.value, orientation.value, scaleShear.value), scaleShear.next))
  }

  function Count(b: bool): nat
  {
    if b then 1 else 0
  }

  /** A bone record takes its name's bytes, 3 more bytes, and 12, 16 and 36
      bytes for each part whose flag bit is set; the other flag bits are
      ignored. The parent byte 0xFF means no parent, and an absent part is its
      fallback. */
  lemma BoneLayout(d: seq<byte>, p: nat)
    requires BoneAt((), d, p).Some?
    ensures var b := BoneAt((), d, p).value;
      var q := p + 1 + |b.value.name|;
      var flags := d[q];
      q + 1 < |d|
        && b.next == q + 2 + 12 * Count(Bit(flags, 0)) + 16 * Count(Bit(flags, 1)) + 36 * Count(Bit(flags, 2))
        && b.value.parentIndex == (if d[q + 1] == 0xFF then None else Some(d[q + 1] as nat))
        && (!Bit(flags, 0) ==> b.value.position == DEFAULT_POSITION)
        && (!Bit(flags, 1) ==> b.value.orientation == DEFAULT_ORIENTATION)
        && (!Bit(flags, 2) ==> b.value.scaleShear == DEFAULT_SCALE_SHEAR)
  {
    var name := StringAt(d, p).value;
    var flags := U8At(d, name.next).value;
    var parent := U8At(d, flags.next).value;
    WordsOrDefaultSize(d, parent.next, Bit(flags.value, 0), 3, DEFAULT_POSITION);
    var position := WordsOrDefault(d, parent.next, Bit(flags.value, 0), 3, DEFAULT_POSITION).value;
    WordsOrDefaultSize(d, position.next, Bit(flags.value, 1), 4, DEFAULT_ORIENTATION);
    var orientation := WordsOrDefault(d, position.next, Bit(flags.value, 1), 4, DEFAULT_ORIENTATION).value;
    WordsOrDefaultSize(d, orientation.next, Bit(flags.value, 2), 9, DEFAULT_SCALE_SHEAR);
  }

  /** The fallback or the words, as the cursor reads them. */
  method ReadWordsOrDefault(c: Cursor, present: bool, n: nat, fallback: seq<nat>) returns (r: Option<seq<nat>>)
    modifies c
    ensures Agrees(r, c.pos, WordsOrDefault(c.data, old(c.pos), present, n, fallback))
  {
    if !present {
      return Some(fallback);
    }
    var p0 := c.pos;
    var words: seq<nat> := [];
    for i := 0 to n
      invariant Repeat(F32Item, (), c.data, p0, i) == Some(Parsed(words, c.pos))
    {
      var word := c.ReadF32();
      if word.None? {
        RepeatAbortStays(F32Item, (), c.data, p0, i + 1, n);
        return None;
      }
      words := words + [word.value];
    }
    r := Some(words);
  }

  method ReadBone(c: Cursor) returns (r: Option<Bone>)
    modifies c
    ensures Agrees(r, c.pos, BoneAt((), c.data, old(c.pos)))
  {
    var name := ReadString(c);
    if name.None? {
      return None;
    }
    var flags := c.ReadU8();
    if flags.None? {
      return None;
    }
    var parent := c.ReadU8();
    if parent.None? {
      return None;
    }
    var parentIndex := if parent.value == 0xFF then None else Some(parent.value as nat);
    var position := ReadWordsOrDefault(c, Bit(flags.value, 0), 3, DEFAULT_POSITION);
    if position.None? {
      return None;
    }
    var orientation := ReadWordsOrDefault(c, Bit(flags.value, 1), 4, DEFAULT_ORIENTATION);
    if orientation.None? {
      return None;
    }
    var scaleShear := ReadWordsOrDefault(c, Bit(flags.value, 2), 9, DEFAULT_SCALE_SHEAR);
    if scaleShear.None? {
      return None;
    }
    r := Some(Bone(name.value, parentIndex, position.value, orientation.value, scaleShear.value));
  }

  /** `read_skeleton`: a u8 bone count and that many bones, in order. */
  function SkeletonAt(d: seq<byte>, p: nat): (r: Option<Parsed<Skeleton>>)
    ensures r.Some? ==> p < |d| && |r.value.value.bones| == d[p]
  {
    var count :- U8At(d, p);
    var bones :- Repeat(BoneAt, (), d, count.next, count.value);
    RepeatLength(BoneAt, (), d, count.next, count.value);
    Some(Parsed(Skeleton(bones.value), bones.next))
  }

  method ReadSkeleton(c: Cursor) returns (r: Option<Skeleton>)
    modifies c
    ensures Agrees(r, c.pos, SkeletonAt(c.data, old(c.pos)))
  {
    var count := c.ReadU8();
    if count.None? {
      return None;
    }
    var p0 := c.pos;
    var bones: seq<Bone> := [];
    for i := 0 to count.value
      invariant Repeat(BoneAt, (), c.data, p0, i) == Some(Parsed(bones, c.pos))
    {
      var bone := ReadBone(c);
      if bone.None? {
        RepeatAbortStays(BoneAt, (), c.data, p0, i + 1, count.value);
        return None;
      }
      bones := bones + [bone.value];
    }
    r := Some(Skeleton(bones));
  }
}
