/** The UTF-8 and UTF-16 conversions that the canonicalizer takes from Go's standard library. */
module Unicode {
  import opened Bytes

  const REPLACEMENT := 0xFFFD

  predicate Surrogate(u: int) {
    0xD800 <= u < 0xE000
  }

  /** A Unicode scalar value: a code point that is not a surrogate. */
  predicate Scalar(r: int) {
    0 <= r <= 0x10FFFF && !Surrogate(r)
  }

  /** The UTF-8 bytes of one scalar value. */
  function Utf8(r: int): (s: bytes)
    requires Scalar(r)
  {
    if r < 0x80 then [r]
    else if r < 0x800 then [0xC0 + r / 64, 0x80 + r % 64]
    else if r < 0x10000 then [0xE0 + r / 4096, 0x80 + r / 64 % 64, 0x80 + r % 64]
    else [0xF0 + r / 262144, 0x80 + r / 4096 % 64, 0x80 + r / 64 % 64, 0x80 + r % 64]
  }

  /** The code point of a surrogate pair; anything else becomes the replacement character. */
  function PairValue(hi: int, lo: int): (r: int)
    ensures Scalar(r)
  {
    if 0xD800 <= hi < 0xDC00 && 0xDC00 <= lo < 0xE000
    then (hi - 0xD800) * 1024 + (lo - 0xDC00) + 0x10000
    else REPLACEMENT
  }

  predicate Continues(s: bytes, i: nat) {
    i < |s| && 0x80 <= s[i] < 0xC0
  }

  /** Payload of the continuation byte at position i. */
  function Payload(s: bytes, i: nat): (x: int)
    requires Continues(s, i)
    ensures 0 <= x < 64
  {
    var c: int := s[i];
    c - 0x80
  }

  /** First rune of a string and its width in bytes; an ill-formed prefix yields the replacement character, width 1. */
  function RuneAt(s: bytes): (d: (int, nat))
    requires s != []
    ensures Scalar(d.0) && 1 <= d.1 <= |s|
  {
    var b: int := s[0];
    if b < 0x80 then (b, 1)
    else if 0xC2 <= b < 0xE0 && Continues(s, 1) then
      ((b - 0xC0) * 64 + Payload(s, 1), 2)
    else if 0xE0 <= b < 0xF0 && Continues(s, 1) && Continues(s, 2) && (b == 0xE0 ==> s[1] >= 0xA0)
        && (b == 0xED ==> s[1] < 0xA0) then
      ((b - 0xE0) * 4096 + Payload(s, 1) * 64 + Payload(s, 2), 3)
    else if 0xF0 <= b < 0xF5 && Continues(s, 1) && Continues(s, 2) && Continues(s, 3) && (b == 0xF0 ==> s[1] >= 0x90)
        && (b == 0xF4 ==> s[1] < 0x90) then
      ((b - 0xF0) * 262144 + Payload(s, 1) * 4096 + Payload(s, 2) * 64 + Payload(s, 3), 4)
    else (REPLACEMENT, 1)
  }

  /** All runes of a byte string, as the conversion []rune(s) produces them. */
  function Runes(s: bytes): (rs: seq<int>)
    ensures AllScalar(rs)
  {
    if s == [] then [] else [RuneAt(s).0] + Runes(s[RuneAt(s).1..])
  }

  predicate AllScalar(rs: seq<int>) {
    forall i :: 0 <= i < |rs| ==> Scalar(rs[i])
  }

  /** UTF-16 code units of a rune sequence. */
  function Utf16(rs: seq<int>): (us: seq<int>)
    requires AllScalar(rs)
  {
    if rs == [] then []
    else if rs[0] < 0x10000 then [rs[0]] + Utf16(rs[1..])
    else [0xD800 + (rs[0] - 0x10000) / 1024, 0xDC00 + (rs[0] - 0x10000) % 1024] + Utf16(rs[1..])
  }

  /** The key by which object members are ordered. */
  function SortKey(name: bytes): (k: seq<int>) {
    Utf16(Runes(name))
  }

  /** A pair of units is read as the code point that has these units in UTF-16; anything else as the replacement. */
  lemma {:induction false} PairValueExactly(hi: int, lo: int, r: int)
    requires 0x10000 <= r <= 0x10FFFF
    ensures Utf16([r]) == [hi, lo] <==> PairValue(hi, lo) == r
    ensures PairValue(hi, lo) < 0x10000 ==> PairValue(hi, lo) == 0xFFFD
  {
    TwoUnits(r);
    var x, y := (r - 0x10000) / 1024, (r - 0x10000) % 1024;
    assert r - 0x10000 == x * 1024 + y && 0 <= x < 1024 && 0 <= y < 1024;
    assert [0xD800 + x, 0xDC00 + y] == [hi, lo] <==> 0xD800 + x == hi && 0xDC00 + y == lo by {
      assert [0xD800 + x, 0xDC00 + y][0] == 0xD800 + x && [0xD800 + x, 0xDC00 + y][1] == 0xDC00 + y;
      assert [hi, lo][0] == hi && [hi, lo][1] == lo;
    }
  }

  lemma {:induction false} TwoUnits(r: int)
    requires 0x10000 <= r <= 0x10FFFF
    ensures Utf16([r]) == [0xD800 + (r - 0x10000) / 1024, 0xDC00 + (r - 0x10000) % 1024]
  {
    var rs := [r];
    assert rs[1..] == [] && Utf16([]) == [];
    assert Utf16(rs) == [0xD800 + (r - 0x10000) / 1024, 0xDC00 + (r - 0x10000) % 1024] + Utf16(rs[1..]);
  }

  /** A well-formed UTF-8 string is the encoding of some scalar values. */
  ghost predicate WellFormed(s: bytes) {
    exists rs :: AllScalar(rs) && s == Encode(rs)
  }

  ghost function Encode(rs: seq<int>): bytes
    requires AllScalar(rs)
  {
    if rs == [] then [] else Utf8(rs[0]) + Encode(rs[1..])
  }

  lemma {:induction false} Digits64(r: int)
    requires 0 <= r < 0x110000
    ensures r == r / 64 * 64 + r % 64
    ensures r == r / 4096 * 4096 + r / 64 % 64 * 64 + r % 64
    ensures r == r / 262144 * 262144 + r / 4096 % 64 * 4096 + r / 64 % 64 * 64 + r % 64
  {
    assert r / 64 / 64 == r / 4096 && r / 4096 / 64 == r / 262144;
  }

  lemma {:induction false} RuneAtUtf8(r: int, s: bytes)
    requires Scalar(r)
    ensures RuneAt(Utf8(r) + s) == (r, |Utf8(r)|)
  {
    var t := Utf8(r) + s;
    Digits64(r);
    var a, b, c := r / 4096, r / 64 % 64, r % 64;
    if r < 0x80 {
    } else if r < 0x800 {
      assert t[0] == 0xC0 + r / 64 && t[1] == 0x80 + c;
    } else if r < 0x10000 {
      assert t[0] == 0xE0 + a && t[1] == 0x80 + b && t[2] == 0x80 + c;
      assert 0 <= a < 16 && (a == 0 ==> b >= 0x20) && (a == 0xD ==> b < 0x20);
    } else {
      var d := r / 262144;
      assert t[0] == 0xF0 + d && t[1] == 0x80 + a % 64 && t[2] == 0x80 + b && t[3] == 0x80 + c;
      assert 0 <= d < 5 && (d == 0 ==> a % 64 >= 0x10) && (d == 4 ==> a % 64 < 0x10);
    }
  }

  lemma {:induction false} RunesOfEncode(rs: seq<int>)
    requires AllScalar(rs)
    ensures Runes(Encode(rs)) == rs
  {
    if rs != [] {
      RuneAtUtf8(rs[0], Encode(rs[1..]));
      assert Encode(rs)[|Utf8(rs[0])|..] == Encode(rs[1..]);
      RunesOfEncode(rs[1..]);
    }
  }

  lemma {:induction false} Utf16Injective(a: seq<int>, b: seq<int>)
    requires AllScalar(a) && AllScalar(b)
    requires Utf16(a) == Utf16(b)
    ensures a == b
  {
    var u, w := Utf16(a), Utf16(b);
    if a != [] && b != [] {
      assert u[0] == w[0];
      if a[0] < 0x10000 {
        assert u[1..] == Utf16(a[1..]) && w[1..] == Utf16(b[1..]);
      } else {
        assert u[1] == w[1];
        assert u[2..] == Utf16(a[1..]) && w[2..] == Utf16(b[1..]);
      }
      Utf16Injective(a[1..], b[1..]);
      assert a == [a[0]] + a[1..] && b == [b[0]] + b[1..];
    }
  }

  /** On well-formed UTF-8 two names collide as sort keys only when they are the same name. */
  lemma {:induction false} SortKeyInjective(a: bytes, b: bytes)
    requires WellFormed(a) && WellFormed(b)
    ensures SortKey(a) == SortKey(b) <==> a == b
  {
    if SortKey(a) == SortKey(b) {
      var ra :| AllScalar(ra) && a == Encode(ra);
      var rb :| AllScalar(rb) && b == Encode(rb);
      RunesOfEncode(ra);
      RunesOfEncode(rb);
      Utf16Injective(ra, rb);
    }
  }

  /** The sort key of a well-formed name is its UTF-16 code units. */
  lemma {:induction false} SortKeyOfEncode(rs: seq<int>)
    requires AllScalar(rs)
    ensures SortKey(Encode(rs)) == Utf16(rs)
  {
    RunesOfEncode(rs);
  }

  /** A code point above the basic plane sorts by its surrogates: before those from U+E000 on, which are smaller. */
  lemma {:induction false} SupplementaryFirst(r: int, q: int)
    requires 0x10000 <= r <= 0x10FFFF && 0xE000 <= q < 0x10000
    ensures Less(SortKey(Encode([r])), SortKey(Encode([q])))
  {
    SortKeyOfEncode([r]);
    SortKeyOfEncode([q]);
    assert [r][1..] == [] && [q][1..] == [];
    assert Utf16([r])[0] == 0xD800 + (r - 0x10000) / 1024 && Utf16([q])[0] == q;
  }

  /** What is decoded, when it is not the replacement of an ill-formed byte, is encoded at the start of the string. */
  lemma {:induction false} DecodedIsEncoded(s: bytes)
    requires s != []
    ensures RuneAt(s) == (REPLACEMENT, 1) || (Utf8(RuneAt(s).0) <= s && RuneAt(s).1 == |Utf8(RuneAt(s).0)|)
  {
    hide Continues, Payload, Utf8;
    var b: int := s[0];
    var n := RuneAt(s).1;
    if n == 1 && b < 0x80 {
      assert Utf8(b) == [b] by { OneByte(b); }
    } else if n == 2 {
      TwoBytes(b - 0xC0, Payload(s, 1));
      Continuation(s, 1);
      assert s[..2] == [s[0], s[1]];
    } else if n == 3 {
      Continuation(s, 1);
      Continuation(s, 2);
      ThreeBytes(b - 0xE0, Payload(s, 1), Payload(s, 2));
      assert s[..3] == [s[0], s[1], s[2]];
    } else if n == 4 {
      Continuation(s, 1);
      Continuation(s, 2);
      Continuation(s, 3);
      FourBytes(b - 0xF0, Payload(s, 1), Payload(s, 2), Payload(s, 3));
      assert s[..4] == [s[0], s[1], s[2], s[3]];
    }
  }

  lemma {:induction false} Continuation(s: bytes, i: nat)
    requires Continues(s, i)
    ensures i < |s| && s[i] == 0x80 + Payload(s, i)
  {
  }

  lemma {:induction false} OneByte(r: int)
    requires 0 <= r < 0x80
    ensures Utf8(r) == [r]
  {
  }

  lemma {:induction false} TwoBytes(a: int, p: int)
    requires 2 <= a < 32 && 0 <= p < 64
    ensures Utf8(a * 64 + p) == [0xC0 + a, 0x80 + p]
  {
  }

  lemma {:induction false} ThreeBytes(a: int, p: int, q: int)
    requires 0 <= a < 16 && 0 <= p < 64 && 0 <= q < 64
    requires Scalar(a * 4096 + p * 64 + q) && a * 4096 + p * 64 + q >= 0x800
    ensures Utf8(a * 4096 + p * 64 + q) == [0xE0 + a, 0x80 + p, 0x80 + q]
  {
    var r := a * 4096 + p * 64 + q;
    assert r == (a * 64 + p) * 64 + q;
    assert r / 64 == a * 64 + p;
  }

  lemma {:induction false} FourBytes(a: int, p: int, q: int, t: int)
    requires 0 <= a < 8 && 0 <= p < 64 && 0 <= q < 64 && 0 <= t < 64
    requires 0x10000 <= a * 262144 + p * 4096 + q * 64 + t <= 0x10FFFF
    ensures Utf8(a * 262144 + p * 4096 + q * 64 + t) == [0xF0 + a, 0x80 + p, 0x80 + q, 0x80 + t]
  {
    var r := a * 262144 + p * 4096 + q * 64 + t;
    assert r == ((a * 64 + p) * 64 + q) * 64 + t;
    assert r / 64 == (a * 64 + p) * 64 + q;
    assert r / 4096 == a * 64 + p;
  }

  /** Decoding finds exactly the scalar value encoded at the start of the string, if there is one. */
  lemma {:induction false} RuneAtExactly(s: bytes, r: int)
    requires s != [] && Scalar(r)
    ensures Utf8(r) <= s ==> RuneAt(s) == (r, |Utf8(r)|)
    ensures RuneAt(s) != (0xFFFD, 1) ==> Utf8(RuneAt(s).0) <= s && RuneAt(s).1 == |Utf8(RuneAt(s).0)|
  {
    if Utf8(r) <= s {
      var n := |Utf8(r)|;
      assert s == Utf8(r) + s[n..];
      RuneAtUtf8(r, s[n..]);
    }
    DecodedIsEncoded(s);
  }
}
