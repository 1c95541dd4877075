/** JSON string literals: the quoting done on output, the unquoting done on input, and all spellings a text may use. */
module JsonString {
  import opened Bytes
  import opened Unicode

  const QUOTE: byte := 0x22
  const BACKSLASH: byte := 0x5C
  const SLASH: byte := 0x2F
  const LOWER_U: byte := 0x75

  // The standard escapes: the letter at an index stands for the raw byte at the same index.
  const ASCII_ESCAPES: bytes := [0x5C, 0x22, 0x62, 0x66, 0x6E, 0x72, 0x74]
  const BINARY_ESCAPES: bytes := [0x5C, 0x22, 0x08, 0x0C, 0x0A, 0x0D, 0x09]

  /** A parse either fails or yields a value and the input that is left. */
  datatype Parsed<+T> = Fail | Ok(value: T, rest: bytes)

  /** The letter that follows the backslash for a raw byte, if it has a standard escape. */
  function Letter(c: byte): (r: Option<byte>) {
    if c == 0x5C || c == 0x22 then Some(c)
    else if c == 0x08 then Some(0x62)
    else if c == 0x0C then Some(0x66)
    else if c == 0x0A then Some(0x6E)
    else if c == 0x0D then Some(0x72)
    else if c == 0x09 then Some(0x74)
    else None
  }

  /** The raw byte a standard escape letter stands for. */
  function Unletter(e: byte): (r: Option<byte>)
    ensures forall c: byte :: Letter(c) == Some(e) <==> r == Some(c)
  {
    if e == 0x5C || e == 0x22 then Some(e)
    else if e == 0x62 then Some(0x08)
    else if e == 0x66 then Some(0x0C)
    else if e == 0x6E then Some(0x0A)
    else if e == 0x72 then Some(0x0D)
    else if e == 0x74 then Some(0x09)
    else None
  }

  predicate IsHex(c: byte) {
    0x30 <= c < 0x3A || 0x41 <= c < 0x47 || 0x61 <= c < 0x67
  }

  function HexValue(c: byte): (x: int)
    requires IsHex(c)
    ensures 0 <= x < 16
  {
    if c < 0x3A then c - 0x30 else if c < 0x47 then c - 0x37 else c - 0x57
  }

  function HexLetter(x: int): (c: byte)
    requires 0 <= x < 16
    ensures IsHex(c) && HexValue(c) == x
  {
    if x < 10 then 0x30 + x else 0x57 + x
  }

  /** Hex digits count up from 0 to 9 and from a to f, in either case. */
  lemma {:induction false} HexDigits(x: int)
    requires 0 <= x < 16
    ensures var lower, upper := Ascii("0123456789abcdef"), Ascii("0123456789ABCDEF");
            && IsHex(lower[x]) && HexValue(lower[x]) == x && HexLetter(x) == lower[x]
            && IsHex(upper[x]) && HexValue(upper[x]) == x
  {
  }

  predicate FourHex(s: bytes) {
    |s| >= 4 && IsHex(s[0]) && IsHex(s[1]) && IsHex(s[2]) && IsHex(s[3])
  }

  /** Value of the four hex digits a string starts with. */
  function Hex4(s: bytes): (u: int)
    requires FourHex(s)
    ensures 0 <= u < 0x10000
  {
    HexValue(s[0]) * 4096 + HexValue(s[1]) * 256 + HexValue(s[2]) * 16 + HexValue(s[3])
  }

  /** Four digits are read from the most significant one on. */
  lemma {:induction false} Hex4Digits(a: int, b: int, c: int, d: int, tail: bytes)
    requires 0 <= a < 16 && 0 <= b < 16 && 0 <= c < 16 && 0 <= d < 16
    ensures var s := [HexLetter(a), HexLetter(b), HexLetter(c), HexLetter(d)] + tail;
            FourHex(s) && Hex4(s) == ((a * 16 + b) * 16 + c) * 16 + d
  {
  }

  /** The standard escapes are those of RFC 8259, section 7. */
  lemma {:induction false} StandardEscapes(i: nat)
    requires i < 7
    ensures Unletter(Ascii("btnfr\"\\")[i]) == Some([0x08, 0x09, 0x0A, 0x0C, 0x0D, 0x22, 0x5C][i])
    ensures forall e: byte :: Unletter(e).Some? ==> e in Ascii("btnfr\"\\")
  {
    assert Ascii("btnfr\"\\") == [0x62, 0x74, 0x6E, 0x66, 0x72, 0x22, 0x5C];
  }

  // ----- output -----

  function EscapeByte(c: byte): (s: bytes) {
    if Letter(c).Some? then [BACKSLASH, Letter(c).value]
    else if c < 0x20 then [BACKSLASH, LOWER_U, 0x30, 0x30, HexLetter(c / 16), HexLetter(c % 16)]
    else [c]
  }

  /** The text between the quotes of a canonical string. */
  function Body(raw: bytes): (s: bytes) {
    if raw == [] then [] else EscapeByte(raw[0]) + Body(raw[1..])
  }

  function Quote(raw: bytes): (s: bytes) {
    [QUOTE] + Body(raw) + [QUOTE]
  }

  lemma {:induction false} BodyAppend(raw: bytes, c: byte)
    ensures Body(raw + [c]) == Body(raw) + EscapeByte(c)
  {
    if raw == [] {
      assert raw + [c] == [c] && Body([c]) == EscapeByte(c) + Body([]);
    } else {
      BodyAppend(raw[1..], c);
      assert (raw + [c])[1..] == raw[1..] + [c];
    }
  }

  // ----- input -----

  /** The escape sequence that follows a backslash. */
  function Escape(s: bytes): (p: Parsed<bytes>)
    ensures p.Ok? ==> |p.rest| < |s|
  {
    if s == [] then Fail
    else if s[0] == LOWER_U then
      if !FourHex(s[1..]) then Fail
      else if !Surrogate(Hex4(s[1..])) then Ok(Utf8(Hex4(s[1..])), s[5..])
      else if |s| >= 7 && s[5] == BACKSLASH && s[6] == LOWER_U && FourHex(s[7..]) then
        Ok(Utf8(PairValue(Hex4(s[1..]), Hex4(s[7..]))), s[11..])
      else Fail
    else if s[0] == SLASH then Ok([SLASH], s[1..])
    else if Unletter(s[0]).Some? then Ok([Unletter(s[0]).value], s[1..])
    else Fail
  }

  /** The characters of a string literal, read from just past its opening quote. */
  function StringBody(s: bytes): (p: Parsed<bytes>)
    ensures p.Ok? ==> |p.rest| < |s|
    decreases |s|
  {
    if s == [] then Fail
    else if s[0] == QUOTE then Ok([], s[1..])
    else if s[0] < 0x20 then Fail
    else if s[0] == BACKSLASH then
      var e := Escape(s[1..]);
      if e.Fail? then Fail else Prepend(e.value, StringBody(e.rest))
    else Prepend([s[0]], StringBody(s[1..]))
  }

  function Prepend(x: bytes, p: Parsed<bytes>): (q: Parsed<bytes>) {
    if p.Fail? then Fail else Ok(x + p.value, p.rest)
  }

  lemma {:induction false} PrependLaws(x: bytes, y: bytes, p: Parsed<bytes>)
    ensures Prepend([], p) == p
    ensures Prepend(x, Prepend(y, p)) == Prepend(x + y, p)
  {
    if p.Ok? {
      assert [] + p.value == p.value && x + (y + p.value) == (x + y) + p.value;
    }
  }

  // ----- the spellings of a string -----

  /** One character as a text may spell it; the bytes of Unit and Pair are hex digits. */
  datatype Piece =
    | Plain(b: byte)
    | Short(letter: byte)
    | Unit(h: bytes)
    | Pair(hi: bytes, lo: bytes)
  {
    /** What the JSON grammar allows between quotes. */
    predicate Legal() {
      match this
      case Plain(b) => b >= 0x20 && b != QUOTE && b != BACKSLASH
      case Short(e) => e == SLASH || Unletter(e).Some?
      case Unit(h) => |h| == 4 && FourHex(h) && !Surrogate(Hex4(h))
      case Pair(hi, lo) => |hi| == 4 && |lo| == 4 && FourHex(hi) && FourHex(lo) && Surrogate(Hex4(hi))
    }

    function Source(): (s: bytes) {
      match this
      case Plain(b) => [b]
      case Short(e) => [BACKSLASH, e]
      case Unit(h) => [BACKSLASH, LOWER_U] + h
      case Pair(hi, lo) => [BACKSLASH, LOWER_U] + hi + [BACKSLASH, LOWER_U] + lo
    }

    /** The characters spelled; an illegal piece spells none. */
    function Meaning(): (s: bytes) {
      if !Legal() then [] else
      match this
      case Plain(b) => [b]
      case Short(e) => if e == SLASH then [SLASH] else [Unletter(e).value]
      case Unit(h) => Utf8(Hex4(h))
      case Pair(hi, lo) => Utf8(PairValue(Hex4(hi), Hex4(lo)))
    }
  }

  predicate AllLegal(ps: seq<Piece>) {
    forall i :: 0 <= i < |ps| ==> ps[i].Legal()
  }

  function Source(ps: seq<Piece>): (s: bytes) {
    if ps == [] then [] else ps[0].Source() + Source(ps[1..])
  }

  function Meaning(ps: seq<Piece>): (s: bytes) {
    if ps == [] then [] else ps[0].Meaning() + Meaning(ps[1..])
  }

  lemma {:induction false} EscapeComplete(p: Piece, t: bytes)
    requires p.Legal() && !p.Plain?
    ensures Escape(p.Source()[1..] + t) == Ok(p.Meaning(), t)
  {
    hide Utf8, PairValue, Hex4, FourHex;
    var e := p.Source()[1..] + t;
    match p
    case Short(_) => assert e[1..] == t;
    case Unit(h) =>
      assert e == [LOWER_U] + h + t;
      UnitComplete(h, t);
    case Pair(hi, lo) =>
      assert e == [LOWER_U] + hi + [BACKSLASH, LOWER_U] + lo + t;
      PairComplete(hi, lo, t);
  }

  lemma {:induction false} UnitComplete(h: bytes, t: bytes)
    requires |h| == 4 && FourHex(h) && !Surrogate(Hex4(h))
    ensures Escape([LOWER_U] + h + t) == Ok(Utf8(Hex4(h)), t)
  {
    hide Utf8, Hex4, FourHex;
    var e := [LOWER_U] + h + t;
    assert e[1..] == h + t && e[5..] == t;
    FourHexPrefix(h, t);
  }

  lemma {:induction false} PairComplete(hi: bytes, lo: bytes, t: bytes)
    requires |hi| == 4 && |lo| == 4 && FourHex(hi) && FourHex(lo) && Surrogate(Hex4(hi))
    ensures Escape([LOWER_U] + hi + [BACKSLASH, LOWER_U] + lo + t) == Ok(Utf8(PairValue(Hex4(hi), Hex4(lo))), t)
  {
    hide Utf8, PairValue, Hex4, FourHex;
    var e := [LOWER_U] + hi + [BACKSLASH, LOWER_U] + lo + t;
    var more := [BACKSLASH, LOWER_U] + lo + t;
    assert e[1..] == hi + more;
    assert e[5] == BACKSLASH && e[6] == LOWER_U;
    assert e[7..] == lo + t && e[11..] == t;
    FourHexPrefix(hi, more);
    FourHexPrefix(lo, t);
  }

  lemma {:induction false} FourHexPrefix(h: bytes, t: bytes)
    requires |h| == 4 && FourHex(h)
    ensures FourHex(h + t) && Hex4(h + t) == Hex4(h)
  {
    hide HexValue, IsHex;
  }

  lemma {:induction false} PieceParses(p: Piece, t: bytes)
    requires p.Legal()
    ensures StringBody(p.Source() + t) == Prepend(p.Meaning(), StringBody(t))
  {
    hide Escape, Utf8, PairValue, Hex4, FourHex, Unletter;
    var s := p.Source() + t;
    if p.Plain? {
      assert s[1..] == t;
    } else {
      assert s[1..] == p.Source()[1..] + t;
      EscapeComplete(p, t);
    }
  }

  lemma {:induction false} EndOfString(post: bytes)
    ensures StringBody([QUOTE] + post) == Ok([], post)
  {
  }

  /** Every legal spelling reads back as the characters it means, and stops just past the closing quote. */
  lemma {:induction false} BodyComplete(ps: seq<Piece>, post: bytes)
    requires AllLegal(ps)
    ensures StringBody(Source(ps) + [QUOTE] + post) == Ok(Meaning(ps), post)
  {
    hide StringBody;
    if ps == [] {
      assert Source(ps) + [QUOTE] + post == [QUOTE] + post;
      EndOfString(post);
    } else {
      BodyComplete(ps[1..], post);
      var t := Source(ps[1..]) + [QUOTE] + post;
      PieceParses(ps[0], t);
      assert Source(ps) + [QUOTE] + post == ps[0].Source() + t;
    }
  }

  lemma {:induction false} EscapeSound(s: bytes) returns (p: Piece)
    requires Escape(s).Ok?
    ensures p.Legal() && [BACKSLASH] + s == p.Source() + Escape(s).rest && p.Meaning() == Escape(s).value
  {
    if s[0] == LOWER_U {
      var h := s[1..5];
      assert h[0] == s[1..][0] && h[1] == s[1..][1] && h[2] == s[1..][2] && h[3] == s[1..][3];
      if Surrogate(Hex4(s[1..])) {
        var l := s[7..11];
        assert l[0] == s[7..][0] && l[1] == s[7..][1] && l[2] == s[7..][2] && l[3] == s[7..][3];
        p := Pair(h, l);
      } else {
        p := Unit(h);
      }
    } else {
      p := Short(s[0]);
    }
  }

  /** Whatever is accepted as a string is a sequence of legal spellings closed by a quote. */
  lemma {:induction false} BodySound(s: bytes) returns (ps: seq<Piece>)
    requires StringBody(s).Ok?
    ensures AllLegal(ps) && s == Source(ps) + [QUOTE] + StringBody(s).rest && StringBody(s).value == Meaning(ps)
    decreases |s|
  {
    if s[0] == QUOTE {
      ps := [];
    } else {
      var p, t := Plain(s[0]), s[1..];
      if s[0] == BACKSLASH {
        p := EscapeSound(s[1..]);
        t := Escape(s[1..]).rest;
      }
      var qs := BodySound(t);
      ps := [p] + qs;
      assert ps[1..] == qs;
      assert [s[0]] + s[1..] == s;
    }
  }

  // ----- round trip -----

  function CanonicalPiece(c: byte): (p: Piece)
    ensures p.Legal() && p.Source() == EscapeByte(c) && p.Meaning() == [c]
  {
    if Letter(c).Some? then Short(Letter(c).value)
    else if c < 0x20 then Unit([0x30, 0x30, HexLetter(c / 16), HexLetter(c % 16)])
    else Plain(c)
  }

  function CanonicalPieces(raw: bytes): (ps: seq<Piece>)
    ensures AllLegal(ps) && Source(ps) == Body(raw) && Meaning(ps) == raw
  {
    if raw == [] then []
    else
      var ps := [CanonicalPiece(raw[0])] + CanonicalPieces(raw[1..]);
      assert ps[1..] == CanonicalPieces(raw[1..]);
      assert raw == [raw[0]] + raw[1..];
      ps
  }

  /** Reading a canonical string gives back exactly the bytes that were quoted, whatever follows it. */
  lemma {:induction false} StringRoundTrip(raw: bytes, post: bytes)
    ensures StringBody(Body(raw) + [QUOTE] + post) == Ok(raw, post)
  {
    BodyComplete(CanonicalPieces(raw), post);
  }

  lemma {:induction false} QuoteInjective(a: bytes, b: bytes)
    requires Quote(a) == Quote(b)
    ensures a == b
  {
    StringRoundTrip(a, []);
    StringRoundTrip(b, []);
    assert Quote(a)[1..] == Body(a) + [QUOTE] + [] && Quote(b)[1..] == Body(b) + [QUOTE] + [];
  }

  // ----- canonical escapes are shortest -----

  function LowerCase(c: byte): (d: byte) {
    if 0x41 <= c < 0x5B then c + 0x20 else c
  }

  /** The spelling with its hex digits in lower case. */
  function Lowered(p: Piece): (q: Piece) {
    if p.Unit? && |p.h| == 4
    then Unit([LowerCase(p.h[0]), LowerCase(p.h[1]), LowerCase(p.h[2]), LowerCase(p.h[3])]) else p
  }

  lemma {:induction false} LowerHex(c: byte)
    requires IsHex(c)
    ensures LowerCase(c) == HexLetter(HexValue(c))
  {
  }

  /** No legal spelling of a byte is shorter than the canonical one; one as short differs only in the case of digits. */
  lemma {:induction false} EscapeShortest(c: byte, p: Piece)
    requires p.Legal() && p.Meaning() == [c]
    ensures |EscapeByte(c)| <= |p.Source()|
    ensures |EscapeByte(c)| == |p.Source()| ==> EscapeByte(c) == Lowered(p).Source()
  {
    if p.Unit? {
      UnitOfByte(c, p.h);
    }
  }

  lemma {:induction false} UnitOfByte(c: byte, h: bytes)
    requires |h| == 4 && FourHex(h) && !Surrogate(Hex4(h)) && Utf8(Hex4(h)) == [c]
    ensures Hex4(h) == c && HexValue(h[0]) == 0 && HexValue(h[1]) == 0
    ensures HexValue(h[2]) == c / 16 && HexValue(h[3]) == c % 16
    ensures forall i :: 0 <= i < 4 ==> LowerCase(h[i]) == HexLetter(HexValue(h[i]))
  {
    forall i | 0 <= i < 4
      ensures LowerCase(h[i]) == HexLetter(HexValue(h[i]))
    {
      LowerHex(h[i]);
    }
  }
}
