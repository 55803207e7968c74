/** The forward-only byte cursor the importers read through (std's
    `io::Cursor` with `byteorder`'s little-endian reads), together with the
    pure specification of every read: `XAt(d, p)` is what reading an X at
    position p of d yields, with the position just after it, or `None` when
    the read's `unwrap` would abort. */
module ByteCursor {
  import opened Wrappers
  import opened Bytes
  import opened Utf8

  /** A decoded value and the cursor position just past it. */
  datatype Parsed<T> = Parsed(value: T, next: nat)

  /** A method that returned `r` and left the cursor at `pos` did exactly what
      the specification outcome `s` says. */
  ghost predicate Agrees<T>(r: Option<T>, pos: nat, s: Option<Parsed<T>>)
  {
    match s
    case None => r.None?
    case Some(parsed) => r == Some(parsed.value) && pos == parsed.next
  }

  /** One byte (`read_u8`). */
  function U8At(d: seq<byte>, p: nat): (r: Option<Parsed<byte>>)
    ensures r.Some? <==> p < |d|
    ensures r.Some? ==> r.value.value == d[p] && r.value.next == p + 1
  {
    if p < |d| then Some(Parsed(d[p], p + 1)) else None
  }

  /** An n-byte little-endian word: `read_u16`, `read_u32`, and `read_f32`,
      whose 32-bit pattern the model keeps uninterpreted. */
  function WordAt(d: seq<byte>, p: nat, n: nat): (r: Option<Parsed<nat>>)
    ensures r.Some? <==> p + n <= |d|
    ensures r.Some? ==> r.value.next == p + n && r.value.value < Pow256(n)
  {
    if p + n <= |d| then
      LeValueBound(d[p..p + n]);
      Some(Parsed(LeValue(d[p..p + n]), p + n))
    else None
  }

  /** A word that is all there reads the same once more data follows. */
  lemma WordAtPrefix(d: seq<byte>, extra: seq<byte>, p: nat, n: nat)
    requires p + n <= |d|
    ensures WordAt(d + extra, p, n) == WordAt(d, p, n)
  {
    assert (d + extra)[p..p + n] == d[p..p + n];
  }

  function U16At(d: seq<byte>, p: nat): Option<Parsed<nat>>
  {
    WordAt(d, p, 2)
  }

  function U32At(d: seq<byte>, p: nat): Option<Parsed<nat>>
  {
    WordAt(d, p, 4)
  }

  function F32At(d: seq<byte>, p: nat): Option<Parsed<nat>>
  {
    WordAt(d, p, 4)
  }

  /** The bytes `take(n)` lets through from position p: at most n, and fewer
      when the data ends first (possibly none at all). */
  function TakeBytes(d: seq<byte>, p: nat, n: nat): (s: seq<byte>)
    ensures |s| <= n
    ensures p + n <= |d| ==> s == d[p..p + n]
    ensures p + n > |d| ==> |s| == (if p < |d| then |d| - p else 0)
  {
    if p >= |d| then [] else if p + n <= |d| then d[p..p + n] else d[p..]
  }

  /** `take(n).read_to_string(..)`: the bytes `take(n)` lets through, which
      must be well-formed UTF-8. A short read is not an error. */
  function TakeStringAt(d: seq<byte>, p: nat, n: nat): (r: Option<Parsed<seq<byte>>>)
    ensures r.Some? <==> ValidUtf8(TakeBytes(d, p, n))
    ensures r.Some? ==> r.value.value == TakeBytes(d, p, n)
    ensures r.Some? ==> r.value.next == p + |r.value.value|
  {
    var s := TakeBytes(d, p, n);
    if ValidUtf8(s) then Some(Parsed(s, p + |s|)) else None
  }

  /** `n` items read one after another, each starting where the previous one
      ended: the source's `(0 .. n).map(|_| read(cursor)).collect()`, which
      aborts at the first item that aborts. `ctx` is what the item reader is
      given besides the cursor. */
  function Repeat<C, T>(item: (C, seq<byte>, nat) -> Option<Parsed<T>>, ctx: C, d: seq<byte>, p: nat, n: nat): Option<Parsed<seq<T>>>
  {
    if n == 0 then Some(Parsed([], p))
    else
      var init :- Repeat(item, ctx, d, p, n - 1);
      var last :- item(ctx, d, init.next);
      Some(Parsed(init.value + [last.value], last.next))
  }

  /** When every item that reads from d reads the same from d followed by
      more data, so does every repetition of them. */
  lemma {:induction false} RepeatPrefix<C, T>(item: (C, seq<byte>, nat) -> Option<Parsed<T>>, ctx: C, d: seq<byte>, extra: seq<byte>, p: nat, n: nat)
    requires forall q: nat :: item(ctx, d, q).Some? ==> item(ctx, d + extra, q) == item(ctx, d, q)
    requires Repeat(item, ctx, d, p, n).Some?
    ensures Repeat(item, ctx, d + extra, p, n) == Repeat(item, ctx, d, p, n)
  {
    if n > 0 {
      RepeatPrefix(item, ctx, d, extra, p, n - 1);
    }
  }

  /** A successful repetition yields exactly n items. */
  lemma {:induction false} RepeatLength<C, T>(item: (C, seq<byte>, nat) -> Option<Parsed<T>>, ctx: C, d: seq<byte>, p: nat, n: nat)
    requires Repeat(item, ctx, d, p, n).Some?
    ensures |Repeat(item, ctx, d, p, n).value.value| == n
  {
    if n > 0 {
      RepeatLength(item, ctx, d, p, n - 1);
    }
  }

  /** Once an item aborts, every longer repetition aborts too. */
  lemma {:induction false} RepeatAbortStays<C, T>(item: (C, seq<byte>, nat) -> Option<Parsed<T>>, ctx: C, d: seq<byte>, p: nat, i: nat, n: nat)
    requires i <= n && Repeat(item, ctx, d, p, i).None?
    ensures Repeat(item, ctx, d, p, n).None?
  {
    if n > i {
      RepeatAbortStays(item, ctx, d, p, i, n - 1);
    }
  }

  /** One more item read where the repetition so far ended extends it. */
  lemma RepeatStep<C, T>(item: (C, seq<byte>, nat) -> Option<Parsed<T>>, ctx: C, d: seq<byte>, p: nat, i: nat,
                         acc: seq<T>, pos: nat, x: Option<Parsed<T>>)
    requires Repeat(item, ctx, d, p, i) == Some(Parsed(acc, pos)) && item(ctx, d, pos) == x
    ensures x.None? ==> Repeat(item, ctx, d, p, i + 1).None?
    ensures x.Some? ==> Repeat(item, ctx, d, p, i + 1) == Some(Parsed(acc + [x.value.value], x.value.next))
  {
  }

  /** A property every single item has holds of every item of a repetition. */
  lemma {:induction false} RepeatAll<C, T>(item: (C, seq<byte>, nat) -> Option<Parsed<T>>, ctx: C, d: seq<byte>, p: nat, n: nat, P: T -> bool)
    requires forall q: nat :: item(ctx, d, q).Some? ==> P(item(ctx, d, q).value.value)
    requires Repeat(item, ctx, d, p, n).Some?
    ensures forall k :: 0 <= k < |Repeat(item, ctx, d, p, n).value.value| ==> P(Repeat(item, ctx, d, p, n).value.value[k])
  {
    if n > 0 {
      RepeatAll(item, ctx, d, p, n - 1, P);
    }
  }

  /** The bytes a run of items takes up, item by item. */
  function Consumed<T>(size: T -> nat, xs: seq<T>): nat
  {
    if |xs| == 0 then 0 else Consumed(size, xs[..|xs| - 1]) + size(xs[|xs| - 1])
  }

  /** When every item read takes up its own size in bytes, a repetition ends
      the sum of its items' sizes further on. */
  lemma {:induction false} RepeatConsumed<C, T>(item: (C, seq<byte>, nat) -> Option<Parsed<T>>, ctx: C, d: seq<byte>, p: nat, n: nat, size: T -> nat)
    requires forall q: nat :: item(ctx, d, q).Some? ==> item(ctx, d, q).value.next == q + size(item(ctx, d, q).value.value)
    requires Repeat(item, ctx, d, p, n).Some?
    ensures Repeat(item, ctx, d, p, n).value.next == p + Consumed(size, Repeat(item, ctx, d, p, n).value.value)
  {
    if n > 0 {
      RepeatConsumed(item, ctx, d, p, n - 1, size);
      var init := Repeat(item, ctx, d, p, n - 1).value;
      var last := item(ctx, d, init.next).value;
      var xs := init.value + [last.value];
      assert xs[..|xs| - 1] == init.value;
    }
  }

  /** The reader of a single byte, as a repeatable item. */
  function ByteItem(ctx: (), d: seq<byte>, p: nat): Option<Parsed<byte>>
  {
    U8At(d, p)
  }

  /** The reader of one 32-bit float word, as a repeatable item. */
  function F32Item(ctx: (), d: seq<byte>, p: nat): Option<Parsed<nat>>
  {
    F32At(d, p)
  }

  /** n bytes read one at a time are the next n bytes of the data; the reads
      fail when fewer than n bytes remain (reading none never fails). */
  lemma {:induction false} RepeatBytes(d: seq<byte>, p: nat, n: nat)
    ensures p + n <= |d| ==> Repeat(ByteItem, (), d, p, n) == Some(Parsed(d[p..p + n], p + n))
    ensures n > 0 && p + n > |d| ==> Repeat(ByteItem, (), d, p, n).None?
  {
    if n > 0 {
      RepeatBytes(d, p, n - 1);
      var init := Repeat(ByteItem, (), d, p, n - 1);
      if init.Some? {
        var last := ByteItem((), d, p + n - 1);
        assert Repeat(ByteItem, (), d, p, n) ==
          if last.None? then None else Some(Parsed(init.value.value + [last.value.value], last.value.next));
        if p + n <= |d| {
          assert d[p..p + n - 1] + [d[p + n - 1]] == d[p..p + n];
        }
      } else {
        assert Repeat(ByteItem, (), d, p, n).None?;
      }
    } else if p <= |d| {
      assert d[p..p] == [];
    }
  }

  /** n float words read one at a time succeed exactly when 4n bytes remain (or n is 0),
      end 4n bytes further on, and the k-th word is the k-th group of four bytes. */
  lemma {:induction false} RepeatWords(d: seq<byte>, p: nat, n: nat)
    ensures Repeat(F32Item, (), d, p, n).Some? <==> n == 0 || p + 4 * n <= |d|
    ensures Repeat(F32Item, (), d, p, n).Some? ==>
      var words := Repeat(F32Item, (), d, p, n).value;
      words.next == p + 4 * n && |words.value| == n &&
      forall k :: 0 <= k < n ==> words.value[k] == LeValue(d[p + 4 * k..p + 4 * k + 4])
  {
    if n > 0 {
      RepeatWords(d, p, n - 1);
      var init := Repeat(F32Item, (), d, p, n - 1);
      if init.Some? {
        var last := F32Item((), d, p + 4 * (n - 1));
        assert Repeat(F32Item, (), d, p, n) ==
          if last.None? then None else Some(Parsed(init.value.value + [last.value.value], last.value.next));
      } else {
        assert Repeat(F32Item, (), d, p, n).None?;
      }
    }
  }

  /** std's `io::Cursor` over an immutable byte slice. The position may be moved
      past the end by `seek`; reads there fail. */
  class Cursor {
    const data: seq<byte>
    var pos: nat

    constructor (data: seq<byte>)
      ensures this.data == data && pos == 0
    {
      this.data := data;
      pos := 0;
    }

    method ReadU8() returns (r: Option<byte>)
      modifies this
      ensures Agrees(r, pos, U8At(data, old(pos)))
    {
      if pos < |data| {
        r := Some(data[pos]);
        pos := pos + 1;
      } else {
        r := None;
      }
    }

    method ReadWord(n: nat) returns (r: Option<nat>)
      modifies this
      ensures Agrees(r, pos, WordAt(data, old(pos), n))
    {
      if pos + n <= |data| {
        r := Some(LeValue(data[pos..pos + n]));
        pos := pos + n;
      } else {
        r := None;
      }
    }

    method ReadU16() returns (r: Option<nat>)
      modifies this
      ensures Agrees(r, pos, U16At(data, old(pos)))
    {
      r := ReadWord(2);
    }

    method ReadU32() returns (r: Option<nat>)
      modifies this
      ensures Agrees(r, pos, U32At(data, old(pos)))
    {
      r := ReadWord(4);
    }

    method ReadF32() returns (r: Option<nat>)
      modifies this
      ensures Agrees(r, pos, F32At(data, old(pos)))
    {
      r := ReadWord(4);
    }

    /** `take(n).read_to_string(&mut s)` into an empty string. */
    method ReadToString(n: nat) returns (r: Option<seq<byte>>)
      modifies this
      ensures Agrees(r, pos, TakeStringAt(data, old(pos), n))
    {
      var s := TakeBytes(data, pos, n);
      if ValidUtf8(s) {
        r := Some(s);
        pos := pos + |s|;
      } else {
        r := None;
      }
    }

    /** `seek(SeekFrom::Current(0))`. */
    method Position() returns (p: nat)
      ensures p == pos
    {
      p := pos;
    }

    /** `seek(SeekFrom::Start(p))`, which a `Cursor` allows past the end. */
    method Seek(p: nat)
      modifies this
      ensures pos == p
    {
      pos := p;
    }
  }
}
