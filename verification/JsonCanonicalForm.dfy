/** Which texts are accepted, and what their canonical text says about them. */
module JsonCanonicalForm {
  import opened Bytes
  import opened JsonString
  import opened JsonValue
  import opened JsonParser
  import opened JsonText

  // ----- whatever is read is a text of the grammar -----

  lemma {:induction false} TokenSound(s: bytes) returns (trail: bytes)
    requires Token(s).Ok?
    ensures AtomChars(Token(s).value) && AllWhiteSpace(trail)
    ensures s == Token(s).value + trail + Token(s).rest
  {
    var t := SkipWhiteSpace(s);
    if IsDelimiter(t[0]) {
      trail := [];
    } else if IsWhiteSpace(s[0]) {
      trail := [s[0]];
    } else {
      trail := TokenSound(s[1..]);
      SkipNothing(s);
      var r := Token(s[1..]);
      assert AtomChars([s[0]] + r.value);
      assert Token(s) == Ok([s[0]] + r.value, r.rest);
      hide Token, SkipWhiteSpace;
      assert s == [s[0]] + s[1..];
      assert s == ([s[0]] + r.value) + trail + r.rest;
    }
  }

  /** A legal tree whose objects repeat no key. */
  ghost predicate Proper(sp: Spelling, c: Tree) {
    LegalTree(sp, c) && Unique(Denote(sp, c))
  }

  /** s is the text of c, white space around it, and then rest. */
  predicate Spells(s: bytes, pre: bytes, c: Tree, trail: bytes, rest: bytes) {
    AllWhiteSpace(pre) && AllWhiteSpace(trail) && s == pre + Render(c) + trail + rest
  }

  /** A successful reading of a value, by its first character. */
  lemma {:induction false} ElementCases(sp: Spelling, s: bytes)
    requires Element(sp, s).Ok?
    ensures var t, e := SkipWhiteSpace(s), Element(sp, s);
            && Readable(t)
            && if t[0] == LBRACE then var p := Members(sp, t[1..], [], false); p.Ok? && e == Ok(Obj(p.value), p.rest)
               else if t[0] == QUOTE then var p := StringBody(t[1..]); p.Ok? && e == Ok(Str(p.value), p.rest)
               else if t[0] == LBRACKET then var p := Items(sp, t[1..], false); p.Ok? && e == Ok(Arr(p.value), p.rest)
               else e == SimpleType(sp, t)
  {
  }

  lemma {:induction false} ElementSound(sp: Spelling, s: bytes) returns (pre: bytes, c: Tree, trail: bytes)
    requires Element(sp, s).Ok?
    ensures Proper(sp, c) && Element(sp, s).value == Norm(Denote(sp, c))
    ensures Spells(s, pre, c, trail, Element(sp, s).rest)
    decreases |s|, 2
  {
    hide Element, Items, Members, StringBody, SimpleType, SkipWhiteSpace, Render, LegalTree, Denote, Norm, Proper;
    ElementCases(sp, s);
    var t := SkipWhiteSpace(s);
    pre := SkipSplits(s);
    trail := [];
    if t[0] == LBRACE {
      c := RecordSound(sp, t);
    } else if t[0] == QUOTE {
      c := TextSound(sp, t);
    } else if t[0] == LBRACKET {
      c := ListSound(sp, t);
    } else {
      c, trail := AtomSound(sp, t);
    }
    assert s == pre + Render(c) + trail + Element(sp, s).rest;
  }

  lemma {:induction false} AtomSound(sp: Spelling, t: bytes) returns (c: Tree, trail: bytes)
    requires SimpleType(sp, t).Ok? && !IsWhiteSpace(t[0])
    requires t[0] != LBRACE && t[0] != QUOTE && t[0] != LBRACKET
    ensures Proper(sp, c) && SimpleType(sp, t).value == Norm(Denote(sp, c)) && AllWhiteSpace(trail)
    ensures t == Render(c) + trail + SimpleType(sp, t).rest
  {
    trail := TokenSound(t);
    c := Atom(Token(t).value);
    MeaningIsCanonical(sp, Token(t).value);
    SkipNothing(t);
  }

  lemma {:induction false} TextSound(sp: Spelling, t: bytes) returns (c: Tree)
    requires t != [] && t[0] == QUOTE && StringBody(t[1..]).Ok?
    ensures Proper(sp, c) && Norm(Denote(sp, c)) == Str(StringBody(t[1..]).value)
    ensures t == Render(c) + [] + StringBody(t[1..]).rest
  {
    hide StringBody, Source, Meaning, AllLegal;
    var ps := BodySound(t[1..]);
    c := Text(ps);
    assert t == [QUOTE] + t[1..];
  }

  lemma {:induction false} ListSound(sp: Spelling, t: bytes) returns (c: Tree)
    requires t != [] && t[0] == LBRACKET && Items(sp, t[1..], false).Ok?
    ensures c.List? && Proper(sp, c) && Norm(Denote(sp, c)) == Arr(Items(sp, t[1..], false).value)
    ensures t == Render(c) + [] + Items(sp, t[1..], false).rest
    decreases |t|, 1
  {
    hide Items, RenderItems, LegalItems, Proper, Norm, Denote, AllUnique;
    var lead, its, inner := ItemsSound(sp, t[1..], false);
    c := List(its, inner);
    assert t == [LBRACKET] + t[1..];
    ListProper(sp, its, inner);
  }

  lemma {:induction false} RecordSound(sp: Spelling, t: bytes) returns (c: Tree)
    requires t != [] && t[0] == LBRACE && Members(sp, t[1..], [], false).Ok?
    ensures c.Record? && Proper(sp, c) && Norm(Denote(sp, c)) == Obj(Members(sp, t[1..], [], false).value)
    ensures t == Render(c) + [] + Members(sp, t[1..], [], false).rest
    decreases |t|, 1
  {
    hide Members, RenderFields, InsertAll, NormMembers, DenoteFields, LegalFields, Fresh, Proper, Norm, Denote;
    var lead, fs, inner := MembersSound(sp, t[1..], [], false);
    c := Record(fs, inner);
    assert t == [LBRACE] + t[1..];
    RecordProper(sp, fs, inner);
  }

  lemma {:induction false} ListProper(sp: Spelling, its: seq<Item>, inner: bytes)
    requires LegalItems(sp, its) && AllWhiteSpace(inner) && AllUnique(DenoteItems(sp, its))
    ensures Proper(sp, List(its, inner)) && Norm(Denote(sp, List(its, inner))) == Arr(NormElems(DenoteItems(sp, its)))
  {
    hide NormElems, DenoteItems, AllWhiteSpace;
  }

  lemma {:induction false} RecordProper(sp: Spelling, fs: seq<Field>, inner: bytes)
    requires LegalFields(sp, fs) && AllWhiteSpace(inner) && Fresh([], DenoteFields(sp, fs))
    ensures Proper(sp, Record(fs, inner))
    ensures Norm(Denote(sp, Record(fs, inner))) == Obj(InsertAll([], NormMembers(DenoteFields(sp, fs))))
  {
    hide InsertAll, NormMembers, DenoteFields, HasKey, LegalHead, AllWhiteSpace, DistinctKeys;
  }

  /** Where the next element starts, and what comes before it. */
  lemma {:induction false} ItemSplits(s: bytes, next: bool, ws: bytes) returns (lead: bytes, u: bytes)
    requires AllWhiteSpace(ws) && s == ws + SkipWhiteSpace(s) && Readable(SkipWhiteSpace(s))
    requires next ==> SkipWhiteSpace(s)[0] == COMMA
    ensures u == if next then SkipWhiteSpace(s)[1..] else s
    ensures AllWhiteSpace(lead) && (!next ==> lead == []) && s == lead + (Separator(next) + u)
  {
    if next {
      var t := SkipWhiteSpace(s);
      lead, u := ws, t[1..];
      assert t == [COMMA] + u;
    } else {
      lead, u := [], s;
    }
  }

  lemma {:induction false} ItemsCases(sp: Spelling, s: bytes, next: bool)
    requires Items(sp, s, next).Ok?
    ensures var t := SkipWhiteSpace(s);
            && Readable(t)
            && if t[0] == RBRACKET then Items(sp, s, next) == Ok([], t[1..])
               else
                 && (next ==> t[0] == COMMA)
                 && var e := Element(sp, if next then t[1..] else s);
                 && e.Ok?
                 && var p := Items(sp, e.rest, true);
                 p.Ok? && Items(sp, s, next) == Ok([e.value] + p.value, p.rest)
  {
  }

  lemma {:induction false} ItemsSound(sp: Spelling, s: bytes, next: bool)
    returns (lead: bytes, its: seq<Item>, inner: bytes)
    requires Items(sp, s, next).Ok?
    ensures LegalItems(sp, its) && AllWhiteSpace(inner) && AllWhiteSpace(lead) && (!next ==> lead == [])
    ensures s == lead + (RenderItems(its, next) + inner + [RBRACKET] + Items(sp, s, next).rest)
    ensures AllUnique(DenoteItems(sp, its)) && Items(sp, s, next).value == NormElems(DenoteItems(sp, its))
    decreases |s|, 3
  {
    hide Items, Element, SkipWhiteSpace, Render, LegalTree, Unique, RenderItems, Denote, Norm, LegalItems, AllUnique;
    ItemsCases(sp, s, next);
    var t := SkipWhiteSpace(s);
    var ws := SkipSplits(s);
    if t[0] == RBRACKET {
      lead, its, inner := [], [], ws;
      assert t == [RBRACKET] + t[1..];
      NoItems(sp, next);
    } else {
      var u;
      lead, u := ItemSplits(s, next, ws);
      var e := Element(sp, u);
      var p := Items(sp, e.rest, true);
      var pre, c, trail := ElementSound(sp, u);
      var lead2, its2;
      lead2, its2, inner := ItemsSound(sp, e.rest, true);
      var it := Item(pre, c, trail + lead2);
      its := [it] + its2;
      ConsItems(it, its2, next, inner, p.rest, trail, lead2);
      LegalItemsCons(sp, it, its2);
      assert its[1..] == its2;
      assert DenoteItems(sp, its) == [Denote(sp, c)] + DenoteItems(sp, its2);
      assert NormElems(DenoteItems(sp, its)) == [e.value] + p.value;
    }
  }

  lemma {:induction false} NoItems(sp: Spelling, next: bool)
    ensures LegalItems(sp, []) && RenderItems([], next) == [] && AllUnique(DenoteItems(sp, []))
  {
  }

  lemma {:induction false} LegalItemsCons(sp: Spelling, it: Item, its: seq<Item>)
    requires AllWhiteSpace(it.pre) && AllWhiteSpace(it.post) && Proper(sp, it.tree)
    requires LegalItems(sp, its) && AllUnique(DenoteItems(sp, its))
    ensures LegalItems(sp, [it] + its) && AllUnique(DenoteItems(sp, [it] + its))
  {
    hide LegalTree, AllWhiteSpace, Unique, Denote, LegalItems;
    OneMoreItem(sp, it, its);
    assert ([it] + its)[1..] == its;
  }

  lemma {:induction false} ConsItems(it: Item, its: seq<Item>, next: bool, inner: bytes, rest: bytes, trail: bytes,
      lead: bytes)
    requires it.post == trail + lead
    ensures Separator(next)
          + (it.pre + Render(it.tree) + trail + (lead + (RenderItems(its, true) + inner + [RBRACKET] + rest)))
         == RenderItems([it] + its, next) + inner + [RBRACKET] + rest
  {
    hide Render, Separator;
    assert ([it] + its)[1..] == its;
    Reassociate(Separator(next), it.pre, Render(it.tree), trail, lead, RenderItems(its, true), inner, [RBRACKET], rest);
  }

  lemma {:induction false} Reassociate(a: bytes, b: bytes, c: bytes, d: bytes, e: bytes, f: bytes, g: bytes, h: bytes,
      i: bytes)
    ensures a + (b + c + d + (e + (f + g + h + i))) == (a + b + c + (d + e) + f) + g + h + i
  {
  }

  lemma {:induction false} NameSound(u: bytes) returns (lead: bytes, ps: seq<Piece>, mid: bytes)
    requires Name(u).Ok?
    ensures AllWhiteSpace(lead) && AllLegal(ps) && AllWhiteSpace(mid) && Name(u).value == Meaning(ps)
    ensures u == lead + RenderString(ps) + mid + [COLON] + Name(u).rest
  {
    var t := SkipWhiteSpace(u);
    lead := SkipSplits(u);
    var n := StringBody(t[1..]);
    ps := BodySound(t[1..]);
    mid := SkipSplits(n.rest);
    var w := SkipWhiteSpace(n.rest);
    assert Name(u) == Ok(n.value, w[1..]);
    hide StringBody, SkipWhiteSpace, Source, Meaning, AllLegal, Name, AllWhiteSpace;
    NameText(u, lead, t, Source(ps), n.rest, mid, w);
  }

  lemma {:induction false} NameText(u: bytes, lead: bytes, t: bytes, src: bytes, r: bytes, mid: bytes, w: bytes)
    requires t != [] && t[0] == QUOTE && w != [] && w[0] == COLON
    requires u == lead + t && t[1..] == src + [QUOTE] + r && r == mid + w
    ensures u == lead + ([QUOTE] + src + [QUOTE]) + mid + [COLON] + w[1..]
  {
    assert t == [QUOTE] + t[1..];
    assert w == [COLON] + w[1..];
  }

  lemma {:induction false} MembersCases(sp: Spelling, s: bytes, acc: seq<Member>, next: bool)
    requires Members(sp, s, acc, next).Ok?
    ensures var t := SkipWhiteSpace(s);
            && Readable(t)
            && if t[0] == RBRACE then Members(sp, s, acc, next) == Ok(acc, t[1..])
               else
                 && (next ==> t[0] == COMMA)
                 && var n := Name(if next then t[1..] else s);
                 && n.Ok?
                 && var e := Element(sp, n.rest);
                 && e.Ok?
                 && var m := Member(n.value, e.value);
                 && !HasKey(acc, Key(m))
                 && Members(sp, s, acc, next) == Members(sp, e.rest, Insert(acc, m), true)
  {
  }

  lemma {:induction false} MembersSound(sp: Spelling, s: bytes, acc: seq<Member>, next: bool)
    returns (lead: bytes, fs: seq<Field>, inner: bytes)
    requires Members(sp, s, acc, next).Ok?
    ensures LegalFields(sp, fs) && AllWhiteSpace(inner) && AllWhiteSpace(lead) && (!next ==> lead == [])
    ensures s == lead + (RenderFields(fs, next) + inner + [RBRACE] + Members(sp, s, acc, next).rest)
    ensures Fresh(acc, DenoteFields(sp, fs))
    ensures Members(sp, s, acc, next).value == InsertAll(acc, NormMembers(DenoteFields(sp, fs)))
    decreases |s|, 3
  {
    hide Members, Element, Name, SkipWhiteSpace, Render, LegalTree, Unique, Fresh, LegalFields, RenderFields, HasKey,
         Insert, Denote, Norm;
    MembersCases(sp, s, acc, next);
    var t := SkipWhiteSpace(s);
    var ws := SkipSplits(s);
    if t[0] == RBRACE {
      lead, fs, inner := [], [], ws;
      assert t == [RBRACE] + t[1..];
      NoFields(sp, acc, next);
    } else {
      var u;
      lead, u := ItemSplits(s, next, ws);
      var n := Name(u);
      var e := Element(sp, n.rest);
      var m := Member(n.value, e.value);
      var p := Members(sp, e.rest, Insert(acc, m), true);
      var flead, ps, mid := NameSound(u);
      var pre, c, trail := ElementSound(sp, n.rest);
      var lead2, fs2;
      lead2, fs2, inner := MembersSound(sp, e.rest, Insert(acc, m), true);
      var f := Field(flead, ps, mid, pre, c, trail + lead2);
      fs := [f] + fs2;
      LegalFieldsCons(sp, f, fs2);
      assert fs[1..] == fs2;
      ConsFields(f, fs2, next, inner, p.rest, trail, lead2);
      var ms := DenoteFields(sp, fs);
      assert ms[1..] == DenoteFields(sp, fs2);
      assert m == Member(ms[0].name, Norm(ms[0].value));
      FreshStep(acc, ms);
    }
  }

  lemma {:induction false} NoFields(sp: Spelling, acc: seq<Member>, next: bool)
    ensures LegalFields(sp, []) && RenderFields([], next) == [] && Fresh(acc, DenoteFields(sp, []))
  {
  }

  lemma {:induction false} LegalFieldsCons(sp: Spelling, f: Field, fs: seq<Field>)
    requires LegalHead(f) && AllWhiteSpace(f.pre) && AllWhiteSpace(f.post) && LegalTree(sp, f.tree)
             && LegalFields(sp, fs)
    ensures LegalFields(sp, [f] + fs)
  {
    hide LegalTree, LegalHead, AllWhiteSpace;
  }

  lemma {:induction false} ConsFields(f: Field, fs: seq<Field>, next: bool, inner: bytes, rest: bytes, trail: bytes,
      lead: bytes)
    requires f.post == trail + lead
    ensures Separator(next)
          + (RenderHead(f)
             + (f.pre + Render(f.tree) + trail + (lead + (RenderFields(fs, true) + inner + [RBRACE] + rest))))
         == RenderFields([f] + fs, next) + inner + [RBRACE] + rest
  {
    hide Render, RenderHead, Separator;
    assert ([f] + fs)[1..] == fs;
    var tail := f.pre + Render(f.tree) + trail + (lead + (RenderFields(fs, true) + inner + [RBRACE] + rest));
    assert Separator(next) + (RenderHead(f) + tail) == (Separator(next) + RenderHead(f)) + tail;
    Reassociate(Separator(next) + RenderHead(f), f.pre, Render(f.tree), trail, lead, RenderFields(fs, true), inner,
        [RBRACE], rest);
  }

  // ----- the canonical text of a canonical value -----

  /** The tree of the text that Print writes: no white space, canonical escapes. */
  function CanonicalTree(v: Json): (c: Tree)
    decreases v, 1
  {
    match v
    case Simple(t) => Atom(t)
    case Str(s) => Text(CanonicalPieces(s))
    case Arr(es) => List(CanonicalItems(es), [])
    case Obj(ms) => Record(CanonicalFields(ms), [])
  }

  function CanonicalItems(es: seq<Json>): (its: seq<Item>)
    decreases es, 0
  {
    if es == [] then [] else [Item([], CanonicalTree(es[0]), [])] + CanonicalItems(es[1..])
  }

  function CanonicalFields(ms: seq<Member>): (fs: seq<Field>)
    decreases ms, 0
  {
    if ms == [] then []
    else
      var f := Field([], CanonicalPieces(ms[0].name), [], [], CanonicalTree(ms[0].value), []);
      [f] + CanonicalFields(ms[1..])
  }

  /** A canonical value is written by a legal tree that means the value again. */
  lemma {:induction false} PrintIsLegal(sp: Spelling, v: Json)
    requires FixedTokens(sp, v)
    ensures LegalTree(sp, CanonicalTree(v))
    ensures Render(CanonicalTree(v)) == Print(v)
    ensures Denote(sp, CanonicalTree(v)) == v
    decreases v, 1
  {
    hide CanonicalItems, CanonicalFields, RenderItems, RenderFields, PrintElems, PrintMembers, DenoteItems,
         DenoteFields, LegalItems, LegalFields;
    match v
    case Simple(t) =>
    case Str(s) =>
    case Arr(es) =>
      PrintItemsLegal(sp, es, false);
      ListIsLegal(sp, es);
    case Obj(ms) =>
      PrintFieldsLegal(sp, ms, false);
      RecordIsLegal(sp, ms);
  }

  lemma {:induction false} ListIsLegal(sp: Spelling, es: seq<Json>)
    requires var its := CanonicalItems(es);
             LegalItems(sp, its) && RenderItems(its, false) == PrintElems(es, false) && DenoteItems(sp, its) == es
    ensures var c := CanonicalTree(Arr(es)); LegalTree(sp, c) && Render(c) == Print(Arr(es)) && Denote(sp, c) == Arr(es)
  {
    hide CanonicalItems, RenderItems, PrintElems, DenoteItems;
    assert PrintElems(es, false) + [] == PrintElems(es, false);
  }

  lemma {:induction false} RecordIsLegal(sp: Spelling, ms: seq<Member>)
    requires var fs := CanonicalFields(ms);
             LegalFields(sp, fs) && RenderFields(fs, false) == PrintMembers(ms, false) && DenoteFields(sp, fs) == ms
    ensures var c := CanonicalTree(Obj(ms)); LegalTree(sp, c) && Render(c) == Print(Obj(ms)) && Denote(sp, c) == Obj(ms)
  {
    hide CanonicalFields, RenderFields, PrintMembers, DenoteFields, LegalHead;
    assert PrintMembers(ms, false) + [] == PrintMembers(ms, false);
  }

  lemma {:induction false} PrintItemsLegal(sp: Spelling, es: seq<Json>, next: bool)
    requires forall i :: 0 <= i < |es| ==> FixedTokens(sp, es[i])
    ensures LegalItems(sp, CanonicalItems(es))
    ensures RenderItems(CanonicalItems(es), next) == PrintElems(es, next)
    ensures DenoteItems(sp, CanonicalItems(es)) == es
    decreases es, 0
  {
    hide Print, Render, Denote, FixedTokens, LegalTree, LegalItems, AllWhiteSpace, Separator, CanonicalTree,
         RenderItems, PrintElems;
    if es == [] {
      NoItems(sp, next);
      NoElems(next);
    } else {
      PrintIsLegal(sp, es[0]);
      PrintItemsLegal(sp, es[1..], true);
      var it, its := Item([], CanonicalTree(es[0]), []), CanonicalItems(es[1..]);
      assert CanonicalItems(es) == [it] + its;
      NoWhiteSpace();
      OneMoreItem(sp, it, its);
      ItemText(it, its, es, next);
      assert ([it] + its)[1..] == its && es == [es[0]] + es[1..];
    }
  }

  lemma {:induction false} NoElems(next: bool)
    ensures PrintElems([], next) == []
  {
  }

  lemma {:induction false} NoWhiteSpace()
    ensures AllWhiteSpace([])
  {
  }

  lemma {:induction false} ItemText(it: Item, its: seq<Item>, es: seq<Json>, next: bool)
    requires es != [] && it.pre == [] && it.post == []
    requires Render(it.tree) == Print(es[0]) && RenderItems(its, true) == PrintElems(es[1..], true)
    ensures RenderItems([it] + its, next) == PrintElems(es, next)
  {
    hide Render, Print, Separator;
    assert ([it] + its)[1..] == its;
    assert Separator(next) + it.pre + Render(it.tree) + it.post == Separator(next) + Print(es[0]);
  }

  lemma {:induction false} OneMoreItem(sp: Spelling, it: Item, its: seq<Item>)
    requires AllWhiteSpace(it.pre) && AllWhiteSpace(it.post) && LegalTree(sp, it.tree) && LegalItems(sp, its)
    ensures LegalItems(sp, [it] + its)
  {
    hide LegalTree, AllWhiteSpace;
  }

  lemma {:induction false} PrintFieldsLegal(sp: Spelling, ms: seq<Member>, next: bool)
    requires forall i :: 0 <= i < |ms| ==> FixedTokens(sp, ms[i].value)
    ensures LegalFields(sp, CanonicalFields(ms))
    ensures RenderFields(CanonicalFields(ms), next) == PrintMembers(ms, next)
    ensures DenoteFields(sp, CanonicalFields(ms)) == ms
    decreases ms, 0
  {
    hide Print, Render, Denote, FixedTokens, LegalTree, LegalFields, AllWhiteSpace, Separator, CanonicalTree,
         RenderFields, PrintMembers;
    if ms == [] {
      NoFields(sp, [], next);
      NoMembers(next);
    } else {
      PrintIsLegal(sp, ms[0].value);
      PrintFieldsLegal(sp, ms[1..], true);
      var f := Field([], CanonicalPieces(ms[0].name), [], [], CanonicalTree(ms[0].value), []);
      var fs := CanonicalFields(ms[1..]);
      assert CanonicalFields(ms) == [f] + fs;
      NoWhiteSpace();
      LegalFieldsCons(sp, f, fs);
      FieldText(f, fs, ms, next);
      assert ([f] + fs)[1..] == fs && ms == [ms[0]] + ms[1..];
    }
  }

  lemma {:induction false} NoMembers(next: bool)
    ensures PrintMembers([], next) == []
  {
  }

  lemma {:induction false} FieldText(f: Field, fs: seq<Field>, ms: seq<Member>, next: bool)
    requires ms != [] && f.lead == [] && f.mid == [] && f.pre == [] && f.post == []
    requires RenderString(f.name) == Quote(ms[0].name) && Render(f.tree) == Print(ms[0].value)
    requires RenderFields(fs, true) == PrintMembers(ms[1..], true)
    ensures RenderFields([f] + fs, next) == PrintMembers(ms, next)
  {
    hide Print, Render, RenderString, Quote, Separator;
    assert ([f] + fs)[1..] == fs;
    var head := Separator(next) + RenderHead(f) + f.pre + Render(f.tree) + f.post;
    assert head == Separator(next) + PrintMember(ms[0]) by {
      assert RenderHead(f) + f.pre + Render(f.tree) + f.post == PrintMember(ms[0]);
    }
    assert RenderFields([f] + fs, next) == head + RenderFields(fs, true);
  }

  lemma {:induction false} DenoteIsFixed(sp: Spelling, c: Tree)
    requires ValidSpelling(sp) && LegalTree(sp, c)
    ensures FixedTokens(sp, Denote(sp, c))
    decreases c
  {
    match c
    case Atom(tok) =>
    case Text(_) =>
    case List(its, _) =>
      forall i | 0 <= i < |its| { DenoteIsFixed(sp, its[i].tree); }
    case Record(fs, _) =>
      forall i | 0 <= i < |fs| { DenoteIsFixed(sp, fs[i].tree); }
  }

  // ----- whole texts -----

  /** A whole text: an array or object with white space around it. */
  datatype Doc = Doc(pre: bytes, tree: Tree, post: bytes)

  ghost predicate LegalDoc(sp: Spelling, d: Doc) {
    && AllWhiteSpace(d.pre) && AllWhiteSpace(d.post)
    && LegalTree(sp, d.tree) && (d.tree.List? || d.tree.Record?)
  }

  function DocText(d: Doc): (s: bytes) {
    d.pre + Render(d.tree) + d.post
  }

  /** A legal text is read as the normal form of its value, or refused because some object repeats a key. */
  lemma {:induction false} DocumentComplete(sp: Spelling, d: Doc)
    requires LegalDoc(sp, d)
    ensures var v := Denote(sp, d.tree);
            Document(sp, DocText(d)) == if Unique(v) then Some(Norm(v)) else None
  {
    hide Render, Element, LegalTree, Denote, Unique, Norm;
    var t := Render(d.tree) + d.post;
    assert DocText(d) == d.pre + t;
    assert t[0] == LBRACKET || t[0] == LBRACE by { OpeningMark(sp, d.tree); }
    SkipTo(d.pre, t);
    if d.tree.List? { ListComplete(sp, d.tree, d.post); } else { RecordComplete(sp, d.tree, d.post); }
  }

  lemma {:induction false} OpeningMark(sp: Spelling, c: Tree)
    requires c.List? || c.Record?
    ensures Render(c) != [] && Render(c)[0] == if c.List? then LBRACKET else LBRACE
  {
  }

  /** Whatever is accepted is a legal text without repeated keys. */
  lemma {:induction false} DocumentSound(sp: Spelling, s: bytes) returns (d: Doc)
    requires Document(sp, s).Some?
    ensures LegalDoc(sp, d) && s == DocText(d) && Unique(Denote(sp, d.tree))
  {
    hide Element, Items, Members, Render, SkipWhiteSpace, LegalTree, Unique, Denote;
    var t := SkipWhiteSpace(s);
    var ws := SkipSplits(s);
    var c;
    if t[0] == LBRACKET {
      ElementArray(sp, t);
      c := ListSound(sp, t);
    } else {
      ElementObject(sp, t);
      c := RecordSound(sp, t);
    }
    d := Doc(ws, c, Element(sp, t).rest);
    assert t == Render(c) + d.post;
  }

  // ----- main results -----

  /** A canonical value printed and read again is the same value. */
  lemma {:induction false} PrintRoundTrip(sp: Spelling, v: Json)
    requires Canonical(sp, v) && (v.Arr? || v.Obj?)
    ensures Document(sp, Print(v)) == Some(v)
  {
    hide Document, Print, Render, Denote, Canonical;
    CanonicalIsNorm(sp, v);
    PrintIsLegal(sp, v);
    var d := Doc([], CanonicalTree(v), []);
    DocumentComplete(sp, d);
    assert DocText(d) == Print(v);
  }

  /** What is read is canonical. */
  lemma {:induction false} DocumentIsCanonical(sp: Spelling, s: bytes)
    requires ValidSpelling(sp) && Document(sp, s).Some?
    ensures Canonical(sp, Document(sp, s).value) && (Document(sp, s).value.Arr? || Document(sp, s).value.Obj?)
  {
    hide Document, Render, Canonical;
    var d := DocumentSound(sp, s);
    DocumentComplete(sp, d);
    DenoteIsFixed(sp, d.tree);
    NormIsCanonical(sp, Denote(sp, d.tree));
  }

  /** Canonicalizing a canonical text changes nothing. */
  lemma {:induction false} Idempotent(sp: Spelling, s: bytes)
    requires ValidSpelling(sp) && Canonicalize(sp, s).Some?
    ensures Canonicalize(sp, Canonicalize(sp, s).value) == Canonicalize(sp, s)
  {
    hide Document, Print, Canonical;
    DocumentIsCanonical(sp, s);
    PrintRoundTrip(sp, Document(sp, s).value);
  }

  /** The accepted texts are exactly the legal texts in which no object repeats a key. */
  lemma {:induction false} AcceptedTexts(sp: Spelling, s: bytes)
    ensures Canonicalize(sp, s).Some? <==> exists d :: LegalDoc(sp, d) && s == DocText(d) && Unique(Denote(sp, d.tree))
  {
    hide Document, LegalDoc, DocText, Denote, Unique, Print;
    if Canonicalize(sp, s).Some? {
      var d := DocumentSound(sp, s);
      assert LegalDoc(sp, d) && s == DocText(d) && Unique(Denote(sp, d.tree));
    }
    if d :| LegalDoc(sp, d) && s == DocText(d) && Unique(Denote(sp, d.tree)) {
      DocumentComplete(sp, d);
    }
  }

  /** Two accepted texts have the same canonical text exactly when they state the same JSON value. */
  lemma {:induction false} CanonicalFormDecides(sp: Spelling, a: Doc, b: Doc)
    requires ValidSpelling(sp) && LegalDoc(sp, a) && LegalDoc(sp, b)
    requires Unique(Denote(sp, a.tree)) && Unique(Denote(sp, b.tree))
    ensures Canonicalize(sp, DocText(a)).Some? && Canonicalize(sp, DocText(b)).Some?
    ensures Canonicalize(sp, DocText(a)) == Canonicalize(sp, DocText(b)) <==>
            Same(Denote(sp, a.tree), Denote(sp, b.tree))
  {
    hide Document, DocText, Denote, Unique, Norm, Same, Print, Canonical;
    DocumentComplete(sp, a);
    DocumentComplete(sp, b);
    NormDecides(Denote(sp, a.tree), Denote(sp, b.tree));
    DocumentIsCanonical(sp, DocText(a));
    DocumentIsCanonical(sp, DocText(b));
    PrintRoundTrip(sp, Document(sp, DocText(a)).value);
    PrintRoundTrip(sp, Document(sp, DocText(b)).value);
  }

  /** No white space anywhere outside strings. */
  ghost predicate Compact(c: Tree)
    decreases c, 1
  {
    match c
    case Atom(_) => true
    case Text(_) => true
    case List(its, inner) => inner == [] && CompactItems(its)
    case Record(fs, inner) => inner == [] && CompactFields(fs)
  }

  ghost predicate CompactItems(its: seq<Item>)
    decreases its, 0
  {
    its != [] ==> its[0].pre == [] && its[0].post == [] && Compact(its[0].tree) && CompactItems(its[1..])
  }

  ghost predicate CompactFields(fs: seq<Field>)
    decreases fs, 0
  {
    fs != [] ==>
      && fs[0].lead == [] && fs[0].mid == [] && fs[0].pre == [] && fs[0].post == []
      && Compact(fs[0].tree) && CompactFields(fs[1..])
  }

  lemma {:induction false} CanonicalTreeCompact(v: Json)
    ensures Compact(CanonicalTree(v))
    decreases v, 1
  {
    hide CanonicalItems, CanonicalFields, CompactItems, CompactFields;
    match v
    case Simple(_) =>
    case Str(_) =>
    case Arr(es) => CanonicalItemsCompact(es);
    case Obj(ms) => CanonicalFieldsCompact(ms);
  }

  lemma {:induction false} CanonicalItemsCompact(es: seq<Json>)
    ensures CompactItems(CanonicalItems(es))
    decreases es, 0
  {
    hide CanonicalTree, Compact;
    if es != [] {
      CanonicalTreeCompact(es[0]);
      CanonicalItemsCompact(es[1..]);
      assert CanonicalItems(es)[1..] == CanonicalItems(es[1..]);
    }
  }

  lemma {:induction false} CanonicalFieldsCompact(ms: seq<Member>)
    ensures CompactFields(CanonicalFields(ms))
    decreases ms, 0
  {
    hide CanonicalTree, Compact;
    if ms != [] {
      CanonicalTreeCompact(ms[0].value);
      CanonicalFieldsCompact(ms[1..]);
      assert CanonicalFields(ms)[1..] == CanonicalFields(ms[1..]);
    }
  }

  /** The canonical text of an accepted text is legal, has no white space, and states the same JSON value. */
  lemma {:induction false} CanonicalText(sp: Spelling, d: Doc) returns (c: Tree)
    requires ValidSpelling(sp) && LegalDoc(sp, d) && Unique(Denote(sp, d.tree))
    ensures Canonicalize(sp, DocText(d)) == Some(Render(c))
    ensures LegalTree(sp, c) && Compact(c) && Same(Denote(sp, c), Denote(sp, d.tree))
  {
    hide Document, Print, Render, Denote, Canonical, Norm, Unique, Same, Compact, LegalTree;
    var v := Denote(sp, d.tree);
    DocumentComplete(sp, d);
    DocumentIsCanonical(sp, DocText(d));
    CanonicalIsNorm(sp, Norm(v));
    NormDecides(Norm(v), v);
    c := CanonicalTree(Norm(v));
    PrintIsLegal(sp, Norm(v));
    CanonicalTreeCompact(Norm(v));
  }

  /** The array of one literal is its own canonical text, so the three literals are told apart. */
  lemma {:induction false} LiteralUnchanged(sp: Spelling, word: string)
    requires word in ["true", "false", "null"]
    ensures var s := [LBRACKET] + Ascii(word) + [RBRACKET]; Canonicalize(sp, s) == Some(s)
  {
    var tok := Ascii(word);
    var d := Doc([], List([Item([], Atom(tok), [])], []), []);
    LiteralLegal(sp, word);
    LiteralText(tok);
    hide LegalTree, Ascii, AtomMeaning, Render, Document, Print;
    DocumentComplete(sp, d);
    var v := Arr([Simple(tok)]);
    assert Denote(sp, d.tree) == v by { LiteralMeans(sp, word); }
    assert Unique(v) && Norm(v) == v by { LiteralNorm(tok); }
  }

  lemma {:induction false} LiteralLegal(sp: Spelling, word: string)
    requires word in ["true", "false", "null"]
    ensures LegalDoc(sp, Doc([], List([Item([], Atom(Ascii(word)), [])], []), []))
  {
  }

  lemma {:induction false} LiteralMeans(sp: Spelling, word: string)
    requires word in ["true", "false", "null"]
    ensures Denote(sp, List([Item([], Atom(Ascii(word)), [])], [])) == Arr([Simple(Ascii(word))])
  {
  }

  lemma {:induction false} LiteralNorm(tok: bytes)
    ensures Unique(Arr([Simple(tok)])) && Norm(Arr([Simple(tok)])) == Arr([Simple(tok)])
  {
  }

  lemma {:induction false} LiteralText(tok: bytes)
    ensures DocText(Doc([], List([Item([], Atom(tok), [])], []), [])) == [LBRACKET] + tok + [RBRACKET]
    ensures Print(Arr([Simple(tok)])) == [LBRACKET] + tok + [RBRACKET]
  {
    var es, its := [Simple(tok)], [Item([], Atom(tok), [])];
    assert es[1..] == [] && its[1..] == [];
    assert PrintElems(es, false) == Separator(false) + Print(es[0]) + PrintElems([], true) == tok;
    assert RenderItems(its, false) == tok by {
      assert RenderItems(its, false) == Separator(false) + [] + Render(its[0].tree) + [] + RenderItems([], true);
    }
    assert RenderItems(its, false) + [] == tok;
    assert [] + Render(List(its, [])) + [] == Render(List(its, []));
  }
}
