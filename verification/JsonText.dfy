/** JSON texts as concrete syntax: every legal choice of white space, member order and escape spelling. */
module JsonText {
  import opened Bytes
  import opened JsonString
  import opened JsonValue
  import opened JsonParser

  datatype Tree =
    | Atom(tok: bytes)
    | Text(pieces: seq<Piece>)
    | List(items: seq<Item>, inner: bytes)
    | Record(fields: seq<Field>, inner: bytes)

  /** An array element with the white space around it. */
  datatype Item = Item(pre: bytes, tree: Tree, post: bytes)

  /** A member: white space, quoted name, white space, colon, and a value with white space around it. */
  datatype Field = Field(lead: bytes, name: seq<Piece>, mid: bytes, pre: bytes, tree: Tree, post: bytes)

  /** The white space, the marks and the literals are those of RFC 8259, sections 2 and 3. */
  lemma {:induction false} Alphabet(c: byte)
    ensures IsWhiteSpace(c) <==> c in Ascii(" \t\n\r")
    ensures IsDelimiter(c) <==> c in Ascii(",]}")
    ensures [LBRACE, RBRACE, LBRACKET, RBRACKET, COMMA, COLON, QUOTE, BACKSLASH, SLASH] == Ascii("{}[],:\"\\/")
    ensures TRUE == Ascii("true") && FALSE == Ascii("false") && NULL == Ascii("null")
  {
    assert Ascii(" \t\n\r") == [0x20, 0x09, 0x0A, 0x0D];
    assert Ascii(",]}") == [COMMA, RBRACKET, RBRACE];
  }

  lemma {:induction false} MeaningIsCanonical(sp: Spelling, tok: bytes)
    ensures AtomMeaning(sp, tok) == CanonToken(sp, tok)
  {
    Alphabet(0);
  }

  predicate AtomChar(c: byte) {
    c <= 0x7F && !IsWhiteSpace(c) && !IsDelimiter(c)
  }

  predicate AtomChars(tok: bytes) {
    forall i :: 0 <= i < |tok| ==> AtomChar(tok[i])
  }

  /** The three literals stand for themselves; anything else is a number, if it can be spelled as one. */
  function AtomMeaning(sp: Spelling, tok: bytes): (r: Option<bytes>) {
    if tok == Ascii("true") then Some(Ascii("true"))
    else if tok == Ascii("false") then Some(Ascii("false"))
    else if tok == Ascii("null") then Some(Ascii("null"))
    else sp(tok)
  }

  predicate LegalAtom(sp: Spelling, tok: bytes) {
    && tok != [] && AtomChars(tok)
    && tok[0] != LBRACE && tok[0] != QUOTE && tok[0] != LBRACKET
    && AtomMeaning(sp, tok).Some?
  }

  ghost predicate LegalTree(sp: Spelling, c: Tree) {
    match c
    case Atom(tok) => LegalAtom(sp, tok)
    case Text(ps) => AllLegal(ps)
    case List(its, inner) =>
      && AllWhiteSpace(inner)
      && (forall i :: 0 <= i < |its| ==> AllWhiteSpace(its[i].pre) && AllWhiteSpace(its[i].post))
      && (forall i :: 0 <= i < |its| ==> LegalTree(sp, its[i].tree))
    case Record(fs, inner) =>
      && AllWhiteSpace(inner)
      && (forall i :: 0 <= i < |fs| ==> LegalHead(fs[i]) && AllWhiteSpace(fs[i].pre) && AllWhiteSpace(fs[i].post))
      && (forall i :: 0 <= i < |fs| ==> LegalTree(sp, fs[i].tree))
  }

  ghost predicate LegalItems(sp: Spelling, its: seq<Item>) {
    && (forall i :: 0 <= i < |its| ==> AllWhiteSpace(its[i].pre) && AllWhiteSpace(its[i].post))
    && (forall i :: 0 <= i < |its| ==> LegalTree(sp, its[i].tree))
  }

  ghost predicate LegalFields(sp: Spelling, fs: seq<Field>) {
    && (forall i :: 0 <= i < |fs| ==> LegalHead(fs[i]) && AllWhiteSpace(fs[i].pre) && AllWhiteSpace(fs[i].post))
    && (forall i :: 0 <= i < |fs| ==> LegalTree(sp, fs[i].tree))
  }

  predicate LegalHead(f: Field) {
    AllWhiteSpace(f.lead) && AllLegal(f.name) && AllWhiteSpace(f.mid)
  }

  // ----- the text of a tree -----

  function Render(c: Tree): (s: bytes)
    decreases c, 1
  {
    match c
    case Atom(tok) => tok
    case Text(ps) => RenderString(ps)
    case List(its, inner) => [LBRACKET] + RenderItems(its, false) + inner + [RBRACKET]
    case Record(fs, inner) => [LBRACE] + RenderFields(fs, false) + inner + [RBRACE]
  }

  function RenderString(ps: seq<Piece>): (s: bytes) {
    [QUOTE] + Source(ps) + [QUOTE]
  }

  function RenderItems(its: seq<Item>, next: bool): (s: bytes)
    decreases its, 0
  {
    if its == [] then []
    else Separator(next) + its[0].pre + Render(its[0].tree) + its[0].post + RenderItems(its[1..], true)
  }

  function RenderFields(fs: seq<Field>, next: bool): (s: bytes)
    decreases fs, 0
  {
    if fs == [] then []
    else Separator(next) + RenderHead(fs[0]) + fs[0].pre + Render(fs[0].tree) + fs[0].post + RenderFields(fs[1..], true)
  }

  function RenderHead(f: Field): (s: bytes) {
    f.lead + RenderString(f.name) + f.mid + [COLON]
  }

  // ----- the value of a tree -----

  function Denote(sp: Spelling, c: Tree): (v: Json)
    decreases c, 1
  {
    match c
    case Atom(tok) => Simple(var r := AtomMeaning(sp, tok); if r.Some? then r.value else [])
    case Text(ps) => Str(Meaning(ps))
    case List(its, _) => Arr(DenoteItems(sp, its))
    case Record(fs, _) => Obj(DenoteFields(sp, fs))
  }

  function DenoteItems(sp: Spelling, its: seq<Item>): (vs: seq<Json>)
    ensures |vs| == |its|
    ensures forall i :: 0 <= i < |its| ==> vs[i] == Denote(sp, its[i].tree)
    decreases its, 0
  {
    if its == [] then [] else [Denote(sp, its[0].tree)] + DenoteItems(sp, its[1..])
  }

  function DenoteFields(sp: Spelling, fs: seq<Field>): (ms: seq<Member>)
    ensures |ms| == |fs|
    ensures forall i :: 0 <= i < |fs| ==> ms[i] == Member(Meaning(fs[i].name), Denote(sp, fs[i].tree))
    decreases fs, 0
  {
    if fs == [] then [] else [Member(Meaning(fs[0].name), Denote(sp, fs[0].tree))] + DenoteFields(sp, fs[1..])
  }

  // ----- every tree is read back -----

  predicate Delimited(s: bytes) {
    var t := SkipWhiteSpace(s);
    t != [] && IsDelimiter(t[0])
  }

  lemma {:induction false} HeadChar(sp: Spelling, c: Tree)
    requires LegalTree(sp, c)
    ensures Render(c) != [] && AtomChar(Render(c)[0])
  {
  }

  lemma {:induction false} TokenComplete(tok: bytes, tail: bytes)
    requires AtomChars(tok) && Delimited(tail)
    ensures Token(tok + tail) == Ok(tok, tail)
  {
    if tok == [] {
      assert tok + tail == tail;
    } else {
      TokenComplete(tok[1..], tail);
      assert (tok + tail)[1..] == tok[1..] + tail;
      SkipNothing(tok + tail);
      assert [tok[0]] + tok[1..] == tok;
    }
  }

  /** Reading the text of a value yields its normal form, or fails when some object repeats a key. */
  lemma {:induction false} ElementComplete(sp: Spelling, c: Tree, tail: bytes)
    requires LegalTree(sp, c) && Delimited(tail)
    ensures Element(sp, Render(c) + tail) == if Unique(Denote(sp, c)) then Ok(Norm(Denote(sp, c)), tail) else Fail
    decreases c, 2
  {
    match c
    case Atom(tok) => AtomComplete(sp, tok, tail);
    case Text(ps) => TextComplete(sp, ps, tail);
    case List(_, _) => ListComplete(sp, c, tail);
    case Record(_, _) => RecordComplete(sp, c, tail);
  }

  lemma {:induction false} ListComplete(sp: Spelling, c: Tree, tail: bytes)
    requires c.List? && LegalTree(sp, c)
    ensures Element(sp, Render(c) + tail) == if Unique(Denote(sp, c)) then Ok(Norm(Denote(sp, c)), tail) else Fail
    decreases c, 1
  {
    hide Element, Items, LegalItems, RenderItems;
    var s := Render(c) + tail;
    assert s[0] == LBRACKET && s[1..] == RenderItems(c.items, false) + c.inner + [RBRACKET] + tail;
    LegalParts(sp, c);
    ElementArray(sp, s);
    ItemsComplete(sp, c.items, c.inner, false, tail);
  }

  lemma {:induction false} RecordComplete(sp: Spelling, c: Tree, tail: bytes)
    requires c.Record? && LegalTree(sp, c)
    ensures Element(sp, Render(c) + tail) == if Unique(Denote(sp, c)) then Ok(Norm(Denote(sp, c)), tail) else Fail
    decreases c, 1
  {
    hide Element, Members, LegalFields, RenderFields;
    var s := Render(c) + tail;
    assert s[0] == LBRACE && s[1..] == RenderFields(c.fields, false) + c.inner + [RBRACE] + tail;
    LegalParts(sp, c);
    ElementObject(sp, s);
    MembersComplete(sp, c.fields, c.inner, [], false, tail);
    assert Fresh([], DenoteFields(sp, c.fields)) <==> Unique(Denote(sp, c));
  }

  lemma {:induction false} LegalParts(sp: Spelling, c: Tree)
    requires LegalTree(sp, c)
    ensures c.List? ==> LegalItems(sp, c.items)
    ensures c.Record? ==> LegalFields(sp, c.fields)
  {
  }

  lemma {:induction false} AtomComplete(sp: Spelling, tok: bytes, tail: bytes)
    requires LegalAtom(sp, tok) && Delimited(tail)
    ensures Element(sp, tok + tail) == Ok(Simple(AtomMeaning(sp, tok).value), tail)
  {
    TokenComplete(tok, tail);
    SkipNothing(tok + tail);
    MeaningIsCanonical(sp, tok);
    hide AtomMeaning, CanonToken;
  }

  lemma {:induction false} TextComplete(sp: Spelling, ps: seq<Piece>, tail: bytes)
    requires AllLegal(ps)
    ensures Element(sp, RenderString(ps) + tail) == Ok(Str(Meaning(ps)), tail)
  {
    var s := RenderString(ps) + tail;
    assert s[0] == QUOTE && s[1..] == Source(ps) + [QUOTE] + tail;
    ElementString(sp, s);
    BodyComplete(ps, tail);
  }

  ghost predicate AllUnique(vs: seq<Json>) {
    forall i :: 0 <= i < |vs| ==> Unique(vs[i])
  }

  lemma {:induction false} Regroup(head: bytes, rest: bytes, inner: bytes, close: byte, post: bytes)
    ensures (head + rest) + inner + [close] + post == head + (rest + inner + [close] + post)
  {
  }

  /** The same for the items of an array. */
  lemma {:induction false} ItemsComplete(sp: Spelling, its: seq<Item>, inner: bytes, next: bool, post: bytes)
    requires LegalItems(sp, its) && AllWhiteSpace(inner)
    ensures Items(sp, RenderItems(its, next) + inner + [RBRACKET] + post, next)
         == if AllUnique(DenoteItems(sp, its)) then Ok(NormElems(DenoteItems(sp, its)), post) else Fail
    decreases its, 0
  {
    hide Items, Element, Render;
    var s := RenderItems(its, next) + inner + [RBRACKET] + post;
    if its == [] {
      assert s == inner + ([RBRACKET] + post);
      ItemsEnd(sp, inner, next, post);
    } else {
      var it, rest := its[0], RenderItems(its[1..], true);
      var more := rest + inner + [RBRACKET] + post;
      ItemsComplete(sp, its[1..], inner, true, post);
      ElementComplete(sp, it.tree, it.post + more) by { AfterItem(it.post, rest, inner, RBRACKET, post); }
      Regroup(Separator(next) + it.pre + Render(it.tree) + it.post, rest, inner, RBRACKET, post);
      NextItem(sp, it, s, next, more);
      AllUniqueStep(DenoteItems(sp, its));
    }
  }

  /** One item is read and what follows it is left. */
  lemma {:induction false} NextItem(sp: Spelling, it: Item, s: bytes, next: bool, more: bytes)
    requires LegalTree(sp, it.tree) && AllWhiteSpace(it.pre) && AllWhiteSpace(it.post)
    requires s == Separator(next) + it.pre + Render(it.tree) + it.post + more
    requires var e := Element(sp, Render(it.tree) + (it.post + more)); e.Ok? ==> e.rest == it.post + more
    ensures Items(sp, s, next) ==
            var e := Element(sp, Render(it.tree) + (it.post + more));
            var p := Items(sp, more, true);
            if e.Fail? || p.Fail? then Fail else Ok([e.value] + p.value, p.rest)
  {
    hide Items, Element, Render, LegalTree;
    var body := Render(it.tree) + (it.post + more);
    assert s == Separator(next) + (it.pre + body);
    HeadChar(sp, it.tree);
    HeadOf(s, next, it.pre, body, RBRACKET);
    ItemsStep(sp, s, next, it.pre + body);
    ElementSkips(sp, it.pre, body);
    ItemsSkip(sp, it.post, more);
  }

  lemma {:induction false} AllUniqueStep(vs: seq<Json>)
    requires vs != []
    ensures AllUnique(vs) <==> Unique(vs[0]) && AllUnique(vs[1..])
  {
    assert vs == [vs[0]] + vs[1..];
  }

  /** What follows a value inside an array or object starts, after white space, with a comma or the closing mark. */
  lemma {:induction false} AfterItem(ws: bytes, rendered: bytes, inner: bytes, close: byte, post: bytes)
    requires AllWhiteSpace(ws) && AllWhiteSpace(inner) && IsDelimiter(close)
    requires rendered == [] || rendered[0] == COMMA
    ensures Delimited(ws + (rendered + inner + [close] + post))
  {
    var more := rendered + inner + [close] + post;
    SkipPrefix(ws, more);
    if rendered == [] {
      assert more == inner + ([close] + post);
      SkipTo(inner, [close] + post);
    }
  }

  lemma {:induction false} HeadOf(s: bytes, next: bool, pre: bytes, body: bytes, close: byte)
    requires IsDelimiter(close) && close != COMMA
    requires s == Separator(next) + (pre + body) && AllWhiteSpace(pre)
    requires body != [] && AtomChar(body[0])
    ensures ItemStarts(s, next, close, pre + body)
  {
    if next {
      assert s[0] == COMMA && s[1..] == pre + body;
      SkipNothing(s);
    } else {
      assert s == pre + body;
      SkipTo(pre, body);
    }
  }

  /** The members can be added to acc: keys new to it and to each other, values without repeated keys. */
  ghost predicate Fresh(acc: seq<Member>, ms: seq<Member>) {
    && DistinctKeys(ms)
    && (forall i :: 0 <= i < |ms| ==> Unique(ms[i].value))
    && (forall i :: 0 <= i < |ms| ==> !HasKey(acc, Key(ms[i])))
  }

  lemma {:induction false} FreshStep(acc: seq<Member>, ms: seq<Member>)
    requires ms != []
    ensures var m := Member(ms[0].name, Norm(ms[0].value));
            Fresh(acc, ms) <==> Unique(ms[0].value) && !HasKey(acc, Key(m)) && Fresh(Insert(acc, m), ms[1..])
  {
    var m := Member(ms[0].name, Norm(ms[0].value));
    var t := ms[1..];
    assert forall i :: 0 <= i < |t| ==> t[i] == ms[i + 1];
    forall i | 0 <= i < |t|
      ensures HasKey(Insert(acc, m), Key(t[i])) <==> HasKey(acc, Key(t[i])) || Key(ms[0]) == Key(t[i])
    {
      InsertKeys(acc, m, Key(t[i]));
    }
    if Fresh(Insert(acc, m), t) && Unique(ms[0].value) && !HasKey(acc, Key(m)) {
      forall i | 0 <= i < |ms|
        ensures Unique(ms[i].value) && !HasKey(acc, Key(ms[i])) && forall j :: i < j < |ms| ==> Key(ms[i]) != Key(ms[j])
      {
        assert i > 0 ==> ms[i] == t[i - 1];
        assert forall j :: i < j < |ms| ==> ms[j] == t[j - 1];
      }
    }
  }

  /** The same for the fields of an object, with acc already read. */
  lemma {:induction false} MembersComplete(sp: Spelling, fs: seq<Field>, inner: bytes, acc: seq<Member>, next: bool,
      post: bytes)
    requires LegalFields(sp, fs) && AllWhiteSpace(inner)
    ensures Members(sp, RenderFields(fs, next) + inner + [RBRACE] + post, acc, next)
         == if Fresh(acc, DenoteFields(sp, fs)) then Ok(InsertAll(acc, NormMembers(DenoteFields(sp, fs))), post)
             else Fail
    decreases fs, 0
  {
    hide Members, Element, Render, Fresh;
    var s := RenderFields(fs, next) + inner + [RBRACE] + post;
    var ms := DenoteFields(sp, fs);
    if fs == [] {
      assert s == inner + ([RBRACE] + post);
      MembersEnd(sp, inner, acc, next, post);
      FreshEmpty(acc, ms);
    } else {
      var f, rest := fs[0], RenderFields(fs[1..], true);
      var more := rest + inner + [RBRACE] + post;
      ElementComplete(sp, f.tree, f.post + more) by { AfterItem(f.post, rest, inner, RBRACE, post); }
      Regroup(Separator(next) + RenderHead(f) + f.pre + Render(f.tree) + f.post, rest, inner, RBRACE, post);
      NextField(sp, f, s, acc, next, more);
      FreshStep(acc, ms);
      MembersComplete(sp, fs[1..], inner, Insert(acc, Member(ms[0].name, Norm(ms[0].value))), true, post);
    }
  }

  lemma {:induction false} FreshEmpty(acc: seq<Member>, ms: seq<Member>)
    requires ms == []
    ensures Fresh(acc, ms)
  {
  }

  /** One field is read and what follows it is left. */
  lemma {:induction false} NextField(sp: Spelling, f: Field, s: bytes, acc: seq<Member>, next: bool, more: bytes)
    requires LegalHead(f) && LegalTree(sp, f.tree) && AllWhiteSpace(f.pre) && AllWhiteSpace(f.post)
    requires s == Separator(next) + RenderHead(f) + f.pre + Render(f.tree) + f.post + more
    requires var e := Element(sp, Render(f.tree) + (f.post + more)); e.Ok? ==> e.rest == f.post + more
    ensures Members(sp, s, acc, next) ==
            var e := Element(sp, Render(f.tree) + (f.post + more));
            if e.Fail? then Fail
            else
              var m := Member(Meaning(f.name), e.value);
              if HasKey(acc, Key(m)) then Fail else Members(sp, more, Insert(acc, m), true)
  {
    hide Members, Element, Render, LegalTree, Name, RenderString, Meaning, AllLegal, Insert, HasKey, Key;
    var body := Render(f.tree) + (f.post + more);
    var named := RenderString(f.name) + f.mid + [COLON] + (f.pre + body);
    FieldRegroup(Separator(next), f.lead, RenderString(f.name), f.mid, f.pre, Render(f.tree), f.post, more);
    QuotedStart(f.name, f.mid, f.pre + body);
    HeadOf(s, next, f.lead, named, RBRACE);
    NameComplete(f, f.pre + body);
    MembersStep(sp, s, acc, next, f.lead + named);
    ElementSkips(sp, f.pre, body);
    var e := Element(sp, body);
    if e.Ok? {
      MembersSkip(sp, f.post, more, Insert(acc, Member(Meaning(f.name), e.value)));
    }
  }

  lemma {:induction false} FieldRegroup(sep: bytes, lead: bytes, name: bytes, mid: bytes, pre: bytes, value: bytes,
      post: bytes, more: bytes)
    ensures sep + (lead + name + mid + [COLON]) + pre + value + post + more
         == sep + (lead + (name + mid + [COLON] + (pre + (value + (post + more)))))
  {
  }

  lemma {:induction false} QuotedStart(ps: seq<Piece>, mid: bytes, tail: bytes)
    ensures (RenderString(ps) + mid + [COLON] + tail)[0] == QUOTE
  {
  }

  lemma {:induction false} NameComplete(f: Field, body: bytes)
    requires LegalHead(f)
    ensures Name(f.lead + (RenderString(f.name) + f.mid + [COLON] + body)) == Ok(Meaning(f.name), body)
  {
    hide SkipWhiteSpace, StringBody, Source, Meaning, AllLegal;
    var named := RenderString(f.name) + f.mid + [COLON] + body;
    var after := f.mid + ([COLON] + body);
    SkipTo(f.lead, named);
    assert named[1..] == Source(f.name) + [QUOTE] + after;
    BodyComplete(f.name, after);
    SkipTo(f.mid, [COLON] + body);
  }
}
