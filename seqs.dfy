/** Sequence helpers shared by the importers. */
module Seqs {

  /** The groups one after another (the importers' fold that pushes every
      group's items onto one list). */
  function Flatten<T>(groups: seq<seq<T>>): seq<T>
  {
    if |groups| == 0 then [] else Flatten(groups[..|groups| - 1]) + groups[|groups| - 1]
  }

  /** Flattening one more group appends that group. */
  lemma FlattenPush<T>(groups: seq<seq<T>>, g: seq<T>)
    ensures Flatten(groups + [g]) == Flatten(groups) + g
  {
    assert (groups + [g])[..|groups|] == groups;
  }

  function TotalLength<T>(groups: seq<seq<T>>): nat
  {
    if |groups| == 0 then 0 else TotalLength(groups[..|groups| - 1]) + |groups[|groups| - 1]|
  }

  /** Groups that each hold an item hold at least one item per group. */
  lemma {:induction false} TotalLengthAtLeast<T>(groups: seq<seq<T>>)
    requires forall i :: 0 <= i < |groups| ==> |groups[i]| > 0
    ensures TotalLength(groups) >= |groups|
  {
    if |groups| > 0 {
      var init := groups[..|groups| - 1];
      assert forall i :: 0 <= i < |init| ==> init[i] == groups[i];
      TotalLengthAtLeast(init);
    }
  }

  /** Flattening keeps every item: the length is the sum of the lengths, and
      a property of every item of every group holds of the result. */
  lemma {:induction false} FlattenKeeps<T>(groups: seq<seq<T>>, P: T -> bool)
    requires forall i, k :: 0 <= i < |groups| && 0 <= k < |groups[i]| ==> P(groups[i][k])
    ensures |Flatten(groups)| == TotalLength(groups)
    ensures forall k :: 0 <= k < |Flatten(groups)| ==> P(Flatten(groups)[k])
  {
    if |groups| > 0 {
      var init := groups[..|groups| - 1];
      assert forall i :: 0 <= i < |init| ==> init[i] == groups[i];
      FlattenKeeps(init, P);
      var last := groups[|groups| - 1];
      forall k | 0 <= k < |Flatten(groups)|
        ensures P(Flatten(groups)[k])
      {
        if k >= |Flatten(init)| {
          assert Flatten(groups)[k] == last[k - |Flatten(init)|];
        }
      }
    }
  }

  /** `out` is what `d` holds from position p on. */
  predicate CopiedFrom<T(==)>(out: seq<T>, d: seq<T>, p: nat)
  {
    forall i :: 0 <= i < |out| ==> CopiedAt(out, d, p, i)
  }

  predicate CopiedAt<T(==)>(out: seq<T>, d: seq<T>, p: nat, i: nat)
    requires i < |out|
  {
    p + i < |d| && out[i] == d[p + i]
  }

  /** Items gathered one by one that match `d` from p on are its slice. */
  lemma PointwiseSlice<T>(out: seq<T>, d: seq<T>, p: nat)
    requires CopiedFrom(out, d, p)
    ensures |out| > 0 ==> p + |out| <= |d| && out == d[p..p + |out|]
  {
    if |out| > 0 {
      assert CopiedAt(out, d, p, |out| - 1);
      forall i | 0 <= i < |out|
        ensures out[i] == d[p..p + |out|][i]
      {
        assert CopiedAt(out, d, p, i);
      }
    }
  }

  /** Appending the next items of `d` keeps `out` a copy. */
  lemma CopiedExtend<T>(out: seq<T>, d: seq<T>, p: nat, s: seq<T>)
    requires CopiedFrom(out, d, p) && p + |out| + |s| <= |d| && s == d[p + |out|..p + |out| + |s|]
    ensures CopiedFrom(out + s, d, p)
  {
    var joined := out + s;
    forall i | 0 <= i < |joined|
      ensures CopiedAt(joined, d, p, i)
    {
      if i < |out| {
        assert CopiedAt(out, d, p, i);
      }
    }
  }

  /** A copy of the items after `out` extends the copy. */
  lemma CopiedJoin<T>(out: seq<T>, more: seq<T>, d: seq<T>, p: nat)
    requires CopiedFrom(out, d, p) && CopiedFrom(more, d, p + |out|)
    ensures CopiedFrom(out + more, d, p)
  {
    var joined := out + more;
    forall i | 0 <= i < |joined|
      ensures CopiedAt(joined, d, p, i)
    {
      if i >= |out| {
        assert CopiedAt(more, d, p + |out|, i - |out|);
      } else {
        assert CopiedAt(out, d, p, i);
      }
    }
  }

  /** A slice of a slice is a slice of the whole. */
  lemma SliceOfSlice<T>(d: seq<T>, a: nat, b: nat, i: nat, j: nat)
    requires a <= b <= |d| && i <= j <= b - a
    ensures d[a..b][i..j] == d[a + i..a + j]
  {
    forall k | 0 <= k < j - i
      ensures d[a..b][i..j][k] == d[a + i..a + j][k]
    {
      assert d[a..b][i..j][k] == d[a..b][i + k] == d[a + i + k];
    }
  }

  lemma MulMonotone(a: nat, b: nat, c: nat)
    requires a <= b
    ensures a * c <= b * c
  {
  }

  lemma MulStep(a: nat, c: nat)
    ensures a * c + c == (a + 1) * c
  {
  }
}
