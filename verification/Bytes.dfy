/** Byte strings, options, and the byte-wise lexicographic order shared by every component. */
module Bytes {

  type byte = b: int | 0 <= b < 256

  type bytes = seq<byte>

  datatype Option<+T> = None | Some(value: T)

  function SetOf<T(==)>(s: seq<T>): (r: set<T>) {
    set x | x in s
  }

  predicate IsAscii(s: string) {
    forall i :: 0 <= i < |s| ==> s[i] as int < 128
  }

  /** The bytes of an ASCII string. */
  function Ascii(s: string): (b: bytes)
    requires IsAscii(s)
    ensures |b| == |s| && forall i :: 0 <= i < |s| ==> b[i] == s[i] as int
  {
    seq(|s|, i requires 0 <= i < |s| => s[i] as int)
  }

  /** Strict lexicographic order: a proper prefix precedes its extensions. */
  predicate Less(a: seq<int>, b: seq<int>) {
    && b != []
    && (a == [] || a[0] < b[0] || (a[0] == b[0] && Less(a[1..], b[1..])))
  }

  /** a and b agree up to position i, where a ends or is smaller. */
  predicate SmallerAt(a: seq<int>, b: seq<int>, i: nat) {
    i <= |a| && i < |b| && a[..i] == b[..i] && (i == |a| || a[i] < b[i])
  }

  lemma {:induction false} SmallerHead(a: seq<int>, b: seq<int>, i: nat)
    ensures SmallerAt(a, b, i) ==> b != [] && (a == [] || a[0] <= b[0])
  {
    if SmallerAt(a, b, i) && i > 0 {
      assert a[..i][0] == a[0] && b[..i][0] == b[0];
    }
  }

  /** The order is decided at the first difference. */
  lemma {:induction false} LessMeaning(a: seq<int>, b: seq<int>)
    ensures Less(a, b) <==> exists i: nat :: SmallerAt(a, b, i)
    decreases |a|
  {
    if a != [] && b != [] && a[0] == b[0] {
      LessMeaning(a[1..], b[1..]);
      if i: nat :| SmallerAt(a[1..], b[1..], i) {
        assert a[..i + 1] == [a[0]] + a[1..][..i] && b[..i + 1] == [b[0]] + b[1..][..i];
        assert SmallerAt(a, b, i + 1);
      }
      if i: nat :| SmallerAt(a, b, i) {
        assert i > 0;
        assert a[1..][..i - 1] == a[..i][1..] && b[1..][..i - 1] == b[..i][1..];
        assert SmallerAt(a[1..], b[1..], i - 1);
      }
    } else {
      assert b != [] && (a == [] || a[0] < b[0]) ==> SmallerAt(a, b, 0);
      forall i: nat
        ensures SmallerAt(a, b, i) ==> b != [] && (a == [] || a[0] <= b[0])
      {
        SmallerHead(a, b, i);
      }
    }
  }

  lemma {:induction false} LessIrreflexive(a: seq<int>)
    ensures !Less(a, a)
  {
    if a != [] { LessIrreflexive(a[1..]); }
  }

  lemma {:induction false} LessTransitive(a: seq<int>, b: seq<int>, c: seq<int>)
    requires Less(a, b) && Less(b, c)
    ensures Less(a, c)
  {
    if a != [] && a[0] == b[0] == c[0] {
      LessTransitive(a[1..], b[1..], c[1..]);
    }
  }

  /** Any two strings are equal or one precedes the other. */
  lemma {:induction false} LessTotal(a: seq<int>, b: seq<int>)
    ensures a == b || Less(a, b) || Less(b, a)
  {
    if a != [] && b != [] && a[0] == b[0] {
      LessTotal(a[1..], b[1..]);
      assert a == [a[0]] + a[1..] && b == [b[0]] + b[1..];
    }
  }

  lemma {:induction false} LessAsymmetric(a: seq<int>, b: seq<int>)
    requires Less(a, b)
    ensures !Less(b, a) && a != b
  {
    LessIrreflexive(a);
    if Less(b, a) {
      LessTransitive(a, b, a);
    }
  }
}
