/** Shared vocabulary: bytes, options and two facts about finite sets of integers. */
module Prelude {
  datatype Option<+T> = None | Some(value: T)

  /** One octet of a C `char` buffer, read as `unsigned char`. */
  type byte = b: int | 0 <= b < 256

  type bytes = seq<byte>

  predicate IsDigit(c: byte) { 0x30 <= c <= 0x39 }

  /** What `isspace` accepts in the C locale. */
  predicate IsSpace(c: byte) { c == 0x20 || 0x09 <= c <= 0x0d }

  /** The bytes of a string literal. */
  function Ascii(text: string): bytes {
    seq(|text|, i requires 0 <= i < |text| => text[i] as int % 256)
  }

  ghost predicate IsEmpty(s: set<int>)
    ensures IsEmpty(s) <==> s == {}
  {
    assert (forall c :: c !in s) ==> s == {};
    forall c :: c !in s
  }

  ghost function AnyOf(s: set<int>): (x: int)
    requires s != {}
    ensures x in s
  {
    assert !IsEmpty(s);
    var x :| x in s;
    x
  }

  predicate Between(lo: int, i: int, hi: int) {
    lo <= i <= hi
  }

  /** The integers lo, lo + 1, ..., hi. */
  ghost function Range(lo: int, hi: int): (range: set<int>)
    ensures forall i :: i in range <==> lo <= i <= hi
  {
    set i | lo <= i <= hi && Between(lo, i, hi)
  }

  lemma {:induction false} RangeSize(lo: int, hi: int)
    ensures |Range(lo, hi)| == if lo <= hi then hi - lo + 1 else 0
    decreases hi - lo
  {
    if lo <= hi {
      RangeSize(lo, hi - 1);
      assert Range(lo, hi) == Range(lo, hi - 1) + {hi};
    } else {
      assert Range(lo, hi) == {};
    }
  }

  lemma Associate<T>(a: seq<T>, b: seq<T>, c: seq<T>)
    ensures a + (b + c) == a + b + c
  {
  }

  /** Cutting at `n` and at `i`, in either order. */
  lemma CutTwice<T>(s: seq<T>, n: nat, i: nat)
    requires n <= i <= |s|
    ensures s[..i][..n] == s[..n] && s[..i][n..] == s[n..][..i - n] && s[n..][i - n..] == s[i..]
  {
  }

  lemma CardinalityMonotone(small: set<int>, big: set<int>)
    requires small <= big
    ensures |small| <= |big|
  {
    assert |big| == |small| + |big - small| by { assert big == small + (big - small); }
  }
}
