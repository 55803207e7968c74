/** UTF-8 well-formedness, as checked by Rust's `read_to_string` and
    `String::from_utf8` (the well-formed byte sequences of RFC 3629 and the
    Unicode Standard, Table 3-7: no overlong forms, no surrogates, nothing
    above U+10FFFF). */
module Utf8 {
  import opened Bytes

  predicate Continuation(b: byte)
  {
    0x80 <= b <= 0xBF
  }

  /** The length of the well-formed encoded character that starts `s`, or 0 when
      `s` does not start with one. */
  function LeadingCharLength(s: seq<byte>): (k: nat)
    requires |s| > 0
    ensures k <= 4 && k <= |s|
  {
    var b := s[0];
    if b <= 0x7F then 1
    else if 0xC2 <= b <= 0xDF then
      (if |s| >= 2 && Continuation(s[1]) then 2 else 0)
    else if b == 0xE0 then
      (if |s| >= 3 && 0xA0 <= s[1] <= 0xBF && Continuation(s[2]) then 3 else 0)
    else if 0xE1 <= b <= 0xEC || b == 0xEE || b == 0xEF then
      (if |s| >= 3 && Continuation(s[1]) && Continuation(s[2]) then 3 else 0)
    else if b == 0xED then
      (if |s| >= 3 && 0x80 <= s[1] <= 0x9F && Continuation(s[2]) then 3 else 0)
    else if b == 0xF0 then
      (if |s| >= 4 && 0x90 <= s[1] <= 0xBF && Continuation(s[2]) && Continuation(s[3]) then 4 else 0)
    else if 0xF1 <= b <= 0xF3 then
      (if |s| >= 4 && Continuation(s[1]) && Continuation(s[2]) && Continuation(s[3]) then 4 else 0)
    else if b == 0xF4 then
      (if |s| >= 4 && 0x80 <= s[1] <= 0x8F && Continuation(s[2]) && Continuation(s[3]) then 4 else 0)
    else 0
  }

  /** `s` is a sequence of well-formed UTF-8 encoded characters. */
  predicate ValidUtf8(s: seq<byte>)
    decreases |s|
  {
    s == [] || (var k := LeadingCharLength(s); k > 0 && ValidUtf8(s[k..]))
  }

  predicate IsAscii(s: seq<byte>)
  {
    forall i :: 0 <= i < |s| ==> s[i] <= 0x7F
  }

  /** Every ASCII byte string is valid UTF-8. */
  lemma {:induction false} AsciiIsValid(s: seq<byte>)
    requires IsAscii(s)
    ensures ValidUtf8(s)
  {
    if s != [] {
      assert IsAscii(s[1..]);
      AsciiIsValid(s[1..]);
    }
  }

  /** A well-formed leading character is read the same way whatever follows it. */
  lemma LeadingCharOfPrefix(a: seq<byte>, c: seq<byte>)
    requires |a| > 0 && LeadingCharLength(a) > 0
    requires |a| <= |c| && a == c[..|a|]
    ensures LeadingCharLength(c) == LeadingCharLength(a)
  {
    var k := LeadingCharLength(a);
    forall i | 0 <= i < k ensures c[i] == a[i] {
      assert c[..|a|][i] == c[i];
    }
  }

  lemma DropOfConcat(a: seq<byte>, b: seq<byte>, k: nat)
    requires k <= |a|
    ensures (a + b)[k..] == a[k..] + b
  {
  }

  /** Two well-formed texts concatenate to a well-formed text. */
  lemma {:induction false} ConcatIsValid(a: seq<byte>, b: seq<byte>)
    requires ValidUtf8(a) && ValidUtf8(b)
    ensures ValidUtf8(a + b)
  {
    if a != [] {
      var k := LeadingCharLength(a);
      assert (a + b)[..|a|] == a;
      LeadingCharOfPrefix(a, a + b);
      assert k > 0 && ValidUtf8(a[k..]);
      ConcatIsValid(a[k..], b);
      DropOfConcat(a, b, k);
      assert LeadingCharLength(a + b) == k && ValidUtf8((a + b)[k..]);
    } else {
      assert a + b == b;
    }
  }
}
