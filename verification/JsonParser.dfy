/** What the canonicalizer accepts and computes, as functions of the input that is left to read. */
module JsonParser {
  import opened Bytes
  import opened JsonString
  import opened JsonValue

  predicate IsWhiteSpace(c: byte) {
    c == 0x20 || c == 0x0A || c == 0x0D || c == 0x09
  }

  predicate IsDelimiter(c: byte) {
    c == COMMA || c == RBRACKET || c == RBRACE
  }

  predicate AllWhiteSpace(s: bytes) {
    forall i :: 0 <= i < |s| ==> IsWhiteSpace(s[i])
  }

  function SkipWhiteSpace(s: bytes): (t: bytes)
    ensures |t| <= |s|
    ensures t == [] || !IsWhiteSpace(t[0])
  {
    if s != [] && IsWhiteSpace(s[0]) then SkipWhiteSpace(s[1..]) else s
  }

  /** The next character after white space, if there is one and it is ASCII. */
  predicate Readable(t: bytes) {
    t != [] && t[0] <= 0x7F
  }

  /** An unquoted token: it ends where a delimiter comes next, or with the first white space. */
  function Token(s: bytes): (p: Parsed<bytes>)
    ensures p.Ok? ==> |p.rest| + |p.value| <= |s|
  {
    var t := SkipWhiteSpace(s);
    if !Readable(t) then Fail
    else if IsDelimiter(t[0]) then Ok([], s)
    else if IsWhiteSpace(s[0]) then Ok([], s[1..])
    else Prepend([s[0]], Token(s[1..]))
  }

  function SimpleType(sp: Spelling, s: bytes): (p: Parsed<Json>)
    ensures p.Ok? ==> |p.rest| < |s|
  {
    var t := Token(s);
    if t.Fail? || t.value == [] || CanonToken(sp, t.value).None? then Fail
    else Ok(Simple(CanonToken(sp, t.value).value), t.rest)
  }

  /** One value; objects come out with their members sorted. */
  function Element(sp: Spelling, s: bytes): (p: Parsed<Json>)
    ensures p.Ok? ==> |p.rest| < |s|
    decreases |s|, 0
  {
    var t := SkipWhiteSpace(s);
    if !Readable(t) then Fail
    else if t[0] == LBRACE then
      var p := Members(sp, t[1..], [], false);
      if p.Fail? then Fail else Ok(Obj(p.value), p.rest)
    else if t[0] == QUOTE then
      var p := StringBody(t[1..]);
      if p.Fail? then Fail else Ok(Str(p.value), p.rest)
    else if t[0] == LBRACKET then
      var p := Items(sp, t[1..], false);
      if p.Fail? then Fail else Ok(Arr(p.value), p.rest)
    else SimpleType(sp, t)
  }

  /** The elements of an array up to its closing bracket; next says that a comma must come first. */
  function Items(sp: Spelling, s: bytes, next: bool): (p: Parsed<seq<Json>>)
    ensures p.Ok? ==> |p.rest| < |s|
    decreases |s|, 1
  {
    var t := SkipWhiteSpace(s);
    if !Readable(t) then Fail
    else if t[0] == RBRACKET then Ok([], t[1..])
    else if next && t[0] != COMMA then Fail
    else
      var e := Element(sp, if next then t[1..] else s);
      if e.Fail? then Fail
      else
        var p := Items(sp, e.rest, true);
        if p.Fail? then Fail else Ok([e.value] + p.value, p.rest)
  }

  /** A quoted name and its colon. */
  function Name(s: bytes): (p: Parsed<bytes>)
    ensures p.Ok? ==> |p.rest| < |s|
  {
    var t := SkipWhiteSpace(s);
    if t == [] || t[0] != QUOTE then Fail
    else
      var n := StringBody(t[1..]);
      if n.Fail? then Fail
      else
        var u := SkipWhiteSpace(n.rest);
        if u == [] || u[0] != COLON then Fail else Ok(n.value, u[1..])
  }

  /** The members of an object up to its closing brace, inserted into those already read. */
  function Members(sp: Spelling, s: bytes, acc: seq<Member>, next: bool): (p: Parsed<seq<Member>>)
    ensures p.Ok? ==> |p.rest| < |s|
    decreases |s|, 1
  {
    var t := SkipWhiteSpace(s);
    if !Readable(t) then Fail
    else if t[0] == RBRACE then Ok(acc, t[1..])
    else if next && t[0] != COMMA then Fail
    else
      var n := Name(if next then t[1..] else s);
      if n.Fail? then Fail
      else
        var e := Element(sp, n.rest);
        if e.Fail? then Fail
        else
          var m := Member(n.value, e.value);
          if HasKey(acc, Key(m)) then Fail
          else Members(sp, e.rest, Insert(acc, m), true)
  }

  /** A whole text: one array or object, and white space around it. */
  function Document(sp: Spelling, s: bytes): (v: Option<Json>) {
    var t := SkipWhiteSpace(s);
    if t == [] || !(t[0] == LBRACKET || t[0] == LBRACE) then None
    else
      var e := Element(sp, t);
      if e.Fail? || !AllWhiteSpace(e.rest) then None else Some(e.value)
  }

  /** The canonical text. */
  function Canonicalize(sp: Spelling, s: bytes): (r: Option<bytes>) {
    var v := Document(sp, s);
    if v.None? then None else Some(Print(v.value))
  }

  // ----- white space -----

  lemma {:induction false} SkipPrefix(ws: bytes, t: bytes)
    requires AllWhiteSpace(ws)
    ensures SkipWhiteSpace(ws + t) == SkipWhiteSpace(t)
  {
    if ws == [] {
      assert ws + t == t;
    } else {
      assert (ws + t)[1..] == ws[1..] + t;
      SkipPrefix(ws[1..], t);
    }
  }

  /** What is skipped is white space, and nothing else is lost. */
  lemma {:induction false} SkipSplits(s: bytes) returns (ws: bytes)
    ensures AllWhiteSpace(ws) && s == ws + SkipWhiteSpace(s)
  {
    if s != [] && IsWhiteSpace(s[0]) {
      var w := SkipSplits(s[1..]);
      ws := [s[0]] + w;
      assert s == [s[0]] + s[1..];
    } else {
      ws := [];
    }
  }

  lemma {:induction false} SkipNothing(t: bytes)
    requires t == [] || !IsWhiteSpace(t[0])
    ensures SkipWhiteSpace(t) == t
  {
  }

  lemma {:induction false} SkipTo(ws: bytes, t: bytes)
    requires AllWhiteSpace(ws) && (t == [] || !IsWhiteSpace(t[0]))
    ensures SkipWhiteSpace(ws + t) == t
  {
    SkipPrefix(ws, t);
  }

  /** White space before a value or a list does not matter. */
  lemma {:induction false} ElementSkips(sp: Spelling, ws: bytes, t: bytes)
    requires AllWhiteSpace(ws)
    ensures Element(sp, ws + t) == Element(sp, t)
  {
    SkipPrefix(ws, t);
  }

  lemma {:induction false} ItemsSkip(sp: Spelling, ws: bytes, t: bytes)
    requires AllWhiteSpace(ws)
    ensures Items(sp, ws + t, true) == Items(sp, t, true)
  {
    SkipPrefix(ws, t);
  }

  lemma {:induction false} MembersSkip(sp: Spelling, ws: bytes, t: bytes, acc: seq<Member>)
    requires AllWhiteSpace(ws)
    ensures Members(sp, ws + t, acc, true) == Members(sp, t, acc, true)
  {
    SkipPrefix(ws, t);
  }

  // ----- one step of each parser -----

  lemma {:induction false} ElementArray(sp: Spelling, s: bytes)
    requires s != [] && s[0] == LBRACKET
    ensures var p := Items(sp, s[1..], false); Element(sp, s) == if p.Fail? then Fail else Ok(Arr(p.value), p.rest)
  {
    SkipNothing(s);
  }

  lemma {:induction false} ElementObject(sp: Spelling, s: bytes)
    requires s != [] && s[0] == LBRACE
    ensures var p := Members(sp, s[1..], [], false);
            Element(sp, s) == if p.Fail? then Fail else Ok(Obj(p.value), p.rest)
  {
    SkipNothing(s);
  }

  lemma {:induction false} ElementString(sp: Spelling, s: bytes)
    requires s != [] && s[0] == QUOTE
    ensures var p := StringBody(s[1..]); Element(sp, s) == if p.Fail? then Fail else Ok(Str(p.value), p.rest)
  {
    SkipNothing(s);
  }

  /** Another element or member starts at u, before the closing mark. */
  predicate ItemStarts(s: bytes, next: bool, close: byte, u: bytes) {
    var t := SkipWhiteSpace(s);
    && Readable(t) && t[0] != close
    && if next then t[0] == COMMA && u == t[1..] else u == s
  }

  lemma {:induction false} ItemsStep(sp: Spelling, s: bytes, next: bool, u: bytes)
    requires ItemStarts(s, next, RBRACKET, u)
    ensures Items(sp, s, next) ==
            var e := Element(sp, u);
            if e.Fail? then Fail
            else
              var p := Items(sp, e.rest, true);
              if p.Fail? then Fail else Ok([e.value] + p.value, p.rest)
  {
  }

  lemma {:induction false} ItemsEnd(sp: Spelling, ws: bytes, next: bool, post: bytes)
    requires AllWhiteSpace(ws)
    ensures Items(sp, ws + ([RBRACKET] + post), next) == Ok([], post)
  {
    SkipTo(ws, [RBRACKET] + post);
  }

  lemma {:induction false} MembersStep(sp: Spelling, s: bytes, acc: seq<Member>, next: bool, u: bytes)
    requires ItemStarts(s, next, RBRACE, u) && Name(u).Ok?
    ensures Members(sp, s, acc, next) ==
            var n := Name(u);
            var e := Element(sp, n.rest);
            if e.Fail? then Fail
            else
              var m := Member(n.value, e.value);
              if HasKey(acc, Key(m)) then Fail else Members(sp, e.rest, Insert(acc, m), true)
  {
  }

  lemma {:induction false} MembersEnd(sp: Spelling, ws: bytes, acc: seq<Member>, next: bool, post: bytes)
    requires AllWhiteSpace(ws)
    ensures Members(sp, ws + ([RBRACE] + post), acc, next) == Ok(acc, post)
  {
    SkipTo(ws, [RBRACE] + post);
  }
}
