/** Statements with a variable number of arguments: expansion, numbering of slots, and the cache. */
module SqlStatements {
  import opened Bytes

  /** A statement is a sequence of symbols; the marks a template uses are symbols of their own. */
  datatype Symbol =
    | Char(c: char)
    | Placeholder        // where the expansion goes
    | Param              // a further argument after the expanded ones
    | Verb               // a formatting verb inside an insertion
    | Slot(n: nat)       // $n
    | FormatError        // what formatting writes for a missing or an extra argument

  type Text = seq<Symbol>

  datatype Skeleton = Skeleton(sql: Text, first: Text, firstCount: nat, rest: Text, restCount: nat, num: int)

  // ----- text helpers -----

  function Range(lo: nat, hi: nat): (r: seq<nat>)
    requires lo <= hi
    ensures |r| == hi - lo && forall i :: 0 <= i < |r| ==> r[i] == lo + i
  {
    seq(hi - lo, i requires 0 <= i < hi - lo => lo + i)
  }

  /** Slot numbers in text order. */
  function Slots(t: Text): (ns: seq<nat>) {
    if t == [] then [] else if t[0].Slot? then [t[0].n] + Slots(t[1..]) else Slots(t[1..])
  }

  function Count(t: Text, s: Symbol): (n: nat) {
    if t == [] then 0 else (if t[0] == s then 1 else 0) + Count(t[1..], s)
  }

  /** Formatting: each verb takes the next argument. */
  function Format(t: Text, args: seq<nat>): (r: Text) {
    if t == [] then (if args == [] then [] else [FormatError])
    else if t[0] != Verb then [t[0]] + Format(t[1..], args)
    else if args == [] then [FormatError] + Format(t[1..], [])
    else [Slot(args[0])] + Format(t[1..], args[1..])
  }

  function Repeat(t: Text, n: nat): (r: Text) {
    if n == 0 then [] else t + Repeat(t, n - 1)
  }

  function ReplaceFirst(t: Text, mark: Symbol, fill: Text): (r: Text) {
    if t == [] then []
    else if t[0] == mark then fill + t[1..]
    else [t[0]] + ReplaceFirst(t[1..], mark, fill)
  }

  // ----- expansion -----

  /** The text that takes the place of the placeholder: the first insertion, then the others after commas. */
  function Insertion(sk: Skeleton): (t: Text)
    requires sk.num > 0
  {
    var others := sk.num - 1;
    var last := sk.firstCount + sk.restCount * others;
    Format(sk.first, Range(1, sk.firstCount + 1)) +
    Format(Repeat([Char(',')] + sk.rest, others), Range(sk.firstCount + 1, last + 1))
  }

  function ExpandPlaceholder(sk: Skeleton): (r: Option<Text>) {
    if sk.num <= 0 then None else Some(ReplaceFirst(sk.sql, Placeholder, Insertion(sk)))
  }

  /** Numbers the params from counter on, in text order. */
  function NumberParams(t: Text, counter: nat): (r: Text) {
    if t == [] then []
    else if t[0] == Param then [Slot(counter)] + NumberParams(t[1..], counter + 1)
    else [t[0]] + NumberParams(t[1..], counter)
  }

  function Statement(sk: Skeleton): (r: Option<Text>) {
    var e := ExpandPlaceholder(sk);
    if e.None? then None else Some(NumberParams(e.value, sk.restCount * sk.num + 1))
  }

  lemma {:induction false} ReplaceOneParam(t: Text, counter: nat)
    requires Count(t, Param) > 0
    ensures var u := ReplaceFirst(t, Param, [Slot(counter)]);
            Count(u, Param) == Count(t, Param) - 1 && NumberParams(u, counter + 1) == NumberParams(t, counter)
  {
    if t[0] == Param {
      assert ([Slot(counter)] + t[1..])[1..] == t[1..];
    } else {
      ReplaceOneParam(t[1..], counter);
      var u := ReplaceFirst(t[1..], Param, [Slot(counter)]);
      assert ([t[0]] + u)[1..] == u;
    }
  }

  lemma {:induction false} NoParams(t: Text, counter: nat)
    requires Count(t, Param) == 0
    ensures NumberParams(t, counter) == t
  {
    if t != [] { NoParams(t[1..], counter); }
  }

  /** The loop that replaces the first param until none is left. */
  method ReplaceParams(t: Text, first: nat) returns (r: Text)
    ensures r == NumberParams(t, first)
  {
    r := t;
    var counter := first;
    while Count(r, Param) > 0
      invariant NumberParams(r, counter) == NumberParams(t, first)
      decreases Count(r, Param)
    {
      ReplaceOneParam(r, counter);
      r := ReplaceFirst(r, Param, [Slot(counter)]);
      counter := counter + 1;
    }
    NoParams(r, counter);
  }

  // ----- numbering -----

  predicate Plain(t: Text) {
    forall i :: 0 <= i < |t| ==> t[i].Char? || t[i].Verb?
  }

  /** The shape of the templates in use: verbs counted right, one placeholder, and params only after it. */
  predicate WellFormed(sk: Skeleton, pre: Text, post: Text) {
    && sk.sql == pre + [Placeholder] + post
    && (forall i :: 0 <= i < |pre| ==> pre[i].Char?)
    && (forall i :: 0 <= i < |post| ==> post[i].Char? || post[i].Param?)
    && Plain(sk.first) && Count(sk.first, Verb) == sk.firstCount
    && Plain(sk.rest) && Count(sk.rest, Verb) == sk.restCount
  }

  lemma {:induction false} SlotsConcat(a: Text, b: Text)
    ensures Slots(a + b) == Slots(a) + Slots(b)
  {
    if a == [] {
      assert a + b == b;
    } else {
      SlotsConcat(a[1..], b);
      assert (a + b)[1..] == a[1..] + b;
    }
  }

  lemma {:induction false} CountConcat(a: Text, b: Text, s: Symbol)
    ensures Count(a + b, s) == Count(a, s) + Count(b, s)
  {
    if a == [] {
      assert a + b == b;
    } else {
      CountConcat(a[1..], b, s);
      assert (a + b)[1..] == a[1..] + b;
    }
  }

  lemma {:induction false} FormatSlots(t: Text, args: seq<nat>)
    requires Plain(t) && Count(t, Verb) == |args|
    ensures Slots(Format(t, args)) == args && Count(Format(t, args), Param) == 0
  {
    if t != [] {
      var more := if t[0] == Verb then args[1..] else args;
      FormatSlots(t[1..], more);
      assert Format(t, args)[1..] == Format(t[1..], more);
    }
  }

  lemma {:induction false} RepeatVerbs(t: Text, n: nat)
    requires Plain(t)
    ensures Plain(Repeat(t, n)) && Count(Repeat(t, n), Verb) == Count(t, Verb) * n
  {
    if n > 0 {
      RepeatVerbs(t, n - 1);
      CountConcat(t, Repeat(t, n - 1), Verb);
    }
  }

  lemma {:induction false} RangeConcat(a: nat, b: nat, c: nat)
    requires a <= b <= c
    ensures Range(a, b) + Range(b, c) == Range(a, c)
  {
  }

  lemma {:induction false} UnitVerbs(t: Text)
    requires Plain(t)
    ensures Plain([Char(',')] + t) && Count([Char(',')] + t, Verb) == Count(t, Verb)
  {
    assert ([Char(',')] + t)[1..] == t;
  }

  lemma {:induction false} InsertionSlots(sk: Skeleton)
    requires sk.num > 0 && Plain(sk.first) && Plain(sk.rest)
    requires Count(sk.first, Verb) == sk.firstCount && Count(sk.rest, Verb) == sk.restCount
    ensures Slots(Insertion(sk)) == Range(1, sk.firstCount + sk.restCount * (sk.num - 1) + 1)
    ensures Count(Insertion(sk), Param) == 0
  {
    hide Slots, Count, Format, Repeat, Plain, Range;
    var others, unit := sk.num - 1, [Char(',')] + sk.rest;
    UnitVerbs(sk.rest);
    RepeatVerbs(unit, others);
    var mid, last := sk.firstCount + 1, sk.firstCount + sk.restCount * others + 1;
    var a, b := Format(sk.first, Range(1, mid)), Format(Repeat(unit, others), Range(mid, last));
    FormatSlots(sk.first, Range(1, mid));
    FormatSlots(Repeat(unit, others), Range(mid, last));
    SlotsConcat(a, b);
    CountConcat(a, b, Param);
    RangeConcat(1, mid, last);
  }

  lemma {:induction false} SlotsCons(s: Symbol, t: Text)
    ensures Slots([s] + t) == if s.Slot? then [s.n] + Slots(t) else Slots(t)
  {
    assert ([s] + t)[1..] == t;
  }

  lemma {:induction false} ParamSlots(t: Text, counter: nat)
    requires forall i :: 0 <= i < |t| ==> t[i].Char? || t[i].Param?
    ensures Slots(NumberParams(t, counter)) == Range(counter, counter + Count(t, Param))
  {
    hide Slots, Range;
    if t == [] {
      SlotsOfNothing();
    } else if t[0] == Param {
      ParamSlots(t[1..], counter + 1);
      SlotsCons(Slot(counter), NumberParams(t[1..], counter + 1));
      assert Range(counter, counter + 1) == [counter];
      RangeConcat(counter, counter + 1, counter + Count(t, Param));
    } else {
      ParamSlots(t[1..], counter);
      SlotsCons(t[0], NumberParams(t[1..], counter));
    }
  }

  lemma {:induction false} SlotsOfNothing()
    ensures Slots([]) == []
  {
  }

  lemma {:induction false} NumberConcat(a: Text, b: Text, counter: nat)
    requires Count(a, Param) == 0
    ensures NumberParams(a + b, counter) == a + NumberParams(b, counter)
  {
    if a == [] {
      assert a + b == b;
    } else {
      NumberConcat(a[1..], b, counter);
      assert (a + b)[1..] == a[1..] + b;
    }
  }

  lemma {:induction false} ReplacePlaceholder(pre: Text, post: Text, fill: Text)
    requires forall i :: 0 <= i < |pre| ==> pre[i].Char?
    ensures ReplaceFirst(pre + [Placeholder] + post, Placeholder, fill) == pre + fill + post
    ensures Count(pre, Param) == 0 && Slots(pre) == []
  {
    var t := pre + [Placeholder] + post;
    if pre == [] {
      assert t == [Placeholder] + post && t[1..] == post;
      assert pre + fill + post == fill + post;
    } else {
      ReplacePlaceholder(pre[1..], post, fill);
      assert t[1..] == pre[1..] + [Placeholder] + post;
      assert [pre[0]] + (pre[1..] + fill + post) == pre + fill + post;
    }
  }

  /** The slots of the final statement, in text order: those of the expansion, then those of the params. */
  lemma {:induction false} StatementSlots(sk: Skeleton, pre: Text, post: Text)
    requires sk.num > 0 && WellFormed(sk, pre, post)
    ensures Statement(sk).Some?
    ensures var after := sk.restCount * sk.num + 1;
            Slots(Statement(sk).value) ==
                Range(1, sk.firstCount + sk.restCount * (sk.num - 1) + 1) + Range(after, after + Count(post, Param))
  {
    hide Insertion, Slots, Count, NumberParams, Format, Plain, Range;
    var fill, after := Insertion(sk), sk.restCount * sk.num + 1;
    InsertionSlots(sk);
    ReplacePlaceholder(pre, post, fill);
    assert Statement(sk) == Some(NumberParams(pre + fill + post, after));
    hide Statement, WellFormed;
    CountConcat(pre, fill, Param);
    NumberConcat(pre + fill, post, after);
    ParamSlots(post, after);
    SlotsConcat(pre, fill);
    SlotsConcat(pre + fill, NumberParams(post, after));
    assert [] + Slots(fill) == Slots(fill);
  }

  /**
   The slots are $1, $2, ... once each in text order, so that the j-th argument binds to the j-th slot, exactly when the
   first insertion takes as many arguments as the others or there is no param to get a wrong number.
   */
  lemma {:induction false} NumberedExactly(sk: Skeleton, pre: Text, post: Text)
    requires sk.num > 0 && WellFormed(sk, pre, post)
    ensures var ns := Slots(Statement(sk).value);
            ns == Range(1, |ns| + 1) <==> sk.firstCount == sk.restCount || Count(post, Param) == 0
  {
    hide Statement, Slots, WellFormed, Count, Range;
    StatementSlots(sk, pre, post);
    var last, after := sk.firstCount + sk.restCount * (sk.num - 1), sk.restCount * sk.num + 1;
    AfterLast(sk.firstCount, sk.restCount, sk.num);
    RangesJoin(last, after, Count(post, Param), Slots(Statement(sk).value));
  }

  lemma {:induction false} AfterLast(first: nat, rest: nat, num: int)
    requires num > 0
    ensures rest * num + 1 == first + rest * (num - 1) + 1 <==> first == rest
    ensures first + rest * (num - 1) >= 0 && rest * num + 1 >= 0
  {
    assert rest * num == rest * (num - 1) + rest;
  }

  lemma {:induction false} RangesJoin(last: nat, after: nat, params: nat, ns: seq<nat>)
    requires ns == Range(1, last + 1) + Range(after, after + params)
    ensures ns == Range(1, |ns| + 1) <==> after == last + 1 || params == 0
  {
    if after == last + 1 {
      RangeConcat(1, last + 1, after + params);
    } else if params > 0 {
      assert ns[last] == after && Range(1, |ns| + 1)[last] == last + 1;
    } else {
      assert Range(after, after) == [];
    }
  }

  // ----- the text -----

  /** A statement with every slot, verb and param shown as a verb. */
  function Mask(t: Text): (r: Text)
    ensures |r| == |t|
    ensures forall i :: 0 <= i < |t| ==> r[i] == if t[i].Slot? || t[i].Param? then Verb else t[i]
  {
    seq(|t|, i requires 0 <= i < |t| => if t[i].Slot? || t[i].Param? then Verb else t[i])
  }

  /** The first insertion and n - 1 further ones, with commas between them. */
  function Listing(first: Text, rest: Text, n: nat): (t: Text) {
    if n <= 1 then first else Listing(first, rest, n - 1) + [Char(',')] + rest
  }

  lemma {:induction false} RepeatRight(t: Text, n: nat)
    ensures Repeat(t, n + 1) == Repeat(t, n) + t
  {
    if n == 0 {
      assert Repeat(t, 1) == t + Repeat(t, 0) && Repeat(t, 0) == [];
    } else {
      RepeatRight(t, n - 1);
      assert t + (Repeat(t, n - 1) + t) == (t + Repeat(t, n - 1)) + t;
    }
  }

  lemma {:induction false} ListingIsRepeat(first: Text, rest: Text, n: nat)
    requires n > 0
    ensures Listing(first, rest, n) == first + Repeat([Char(',')] + rest, n - 1)
  {
    if n > 1 {
      ListingIsRepeat(first, rest, n - 1);
      RepeatRight([Char(',')] + rest, n - 2);
      assert first + Repeat([Char(',')] + rest, n - 2) + [Char(',')] + rest
          == first + (Repeat([Char(',')] + rest, n - 2) + ([Char(',')] + rest));
    }
  }

  lemma {:induction false} FormatMask(t: Text, args: seq<nat>)
    requires Plain(t) && Count(t, Verb) == |args|
    ensures Mask(Format(t, args)) == t
  {
    if t != [] {
      var more := if t[0] == Verb then args[1..] else args;
      FormatMask(t[1..], more);
      assert t == [t[0]] + t[1..];
      assert Format(t, args)[1..] == Format(t[1..], more);
    }
  }

  lemma {:induction false} NumberMask(t: Text, counter: nat)
    ensures Mask(NumberParams(t, counter)) == Mask(t)
  {
    if t != [] {
      var next := if t[0] == Param then counter + 1 else counter;
      NumberMask(t[1..], next);
      assert Mask(t) == Mask([t[0]]) + Mask(t[1..]);
      assert NumberParams(t, counter)[1..] == NumberParams(t[1..], next);
      MaskCons(NumberParams(t, counter)[0], NumberParams(t[1..], next));
    }
  }

  lemma {:induction false} MaskCons(s: Symbol, t: Text)
    ensures Mask([s] + t) == [if s.Slot? || s.Param? then Verb else s] + Mask(t)
  {
  }

  lemma {:induction false} InsertionMask(sk: Skeleton)
    requires sk.num > 0 && Plain(sk.first) && Plain(sk.rest)
    requires Count(sk.first, Verb) == sk.firstCount && Count(sk.rest, Verb) == sk.restCount
    ensures Mask(Insertion(sk)) == Listing(sk.first, sk.rest, sk.num)
  {
    hide Count, Format, Repeat, Plain, Range, Listing;
    var others, unit := sk.num - 1, [Char(',')] + sk.rest;
    UnitVerbs(sk.rest);
    RepeatVerbs(unit, others);
    var mid, last := sk.firstCount + 1, sk.firstCount + sk.restCount * others + 1;
    var a, b := Format(sk.first, Range(1, mid)), Format(Repeat(unit, others), Range(mid, last));
    FormatMask(sk.first, Range(1, mid));
    FormatMask(Repeat(unit, others), Range(mid, last));
    assert Mask(a + b) == Mask(a) + Mask(b);
    ListingIsRepeat(sk.first, sk.rest, sk.num);
  }

  /** Apart from slots the final statement is the template, with the insertions listed in place of the placeholder. */
  lemma {:induction false} StatementText(sk: Skeleton, pre: Text, post: Text)
    requires sk.num > 0 && WellFormed(sk, pre, post)
    ensures Statement(sk).Some? && Mask(Statement(sk).value) == pre + Listing(sk.first, sk.rest, sk.num) + Mask(post)
  {
    hide Insertion, Count, NumberParams, Plain, Listing;
    var fill, after := Insertion(sk), sk.restCount * sk.num + 1;
    InsertionMask(sk);
    ReplacePlaceholder(pre, post, fill);
    assert Statement(sk) == Some(NumberParams(pre + fill + post, after));
    NumberMask(pre + fill + post, after);
    assert Mask(pre) == pre;
    assert Mask(pre + fill + post) == Mask(pre) + Mask(fill) + Mask(post);
  }

  // ----- the cache -----

  /** Everything about a skeleton but the number of repetitions. */
  datatype Template = Template(first: Text, firstCount: nat, rest: Text, restCount: nat)

  function TemplateOf(sk: Skeleton): (t: Template) {
    Template(sk.first, sk.firstCount, sk.rest, sk.restCount)
  }

  function With(sql: Text, t: Template, num: int): (sk: Skeleton) {
    Skeleton(sql, t.first, t.firstCount, t.rest, t.restCount, num)
  }

  class StatementCache {
    var statements: map<(Text, int), Text>
    ghost var origins: map<(Text, int), Template>  // the template each statement was prepared from

    ghost predicate Valid()
      reads this
    {
      && origins.Keys == statements.Keys
      && forall k :: k in statements ==> Statement(With(k.0, origins[k], k.1)) == Some(statements[k])
    }

    constructor ()
      ensures Valid() && statements == map[]
    {
      statements, origins := map[], map[];
    }

    /** Each SQL text has been used with one template only. */
    ghost predicate Functional()
      reads this
    {
      forall j, k :: j in origins && k in origins && j.0 == k.0 ==> origins[j] == origins[k]
    }

    /** A template agrees with all earlier uses of its SQL text. */
    ghost predicate AgreesWith(sql: Text, t: Template)
      reads this
    {
      forall k :: k in origins && k.0 == sql ==> origins[k] == t
    }

    /**
     The key is the statement and the number: what comes back is the expansion of the template first used with it.  That
     is a fresh expansion, for every call, as long as each SQL text is used with one template.
     */
    method GetStmt(sk: Skeleton) returns (r: Option<Text>)
      requires Valid()
      modifies this
      ensures Valid()
      ensures var k, t := (sk.sql, sk.num), TemplateOf(sk);
              && r == Statement(if k in old(origins) then With(sk.sql, old(origins)[k], sk.num) else sk)
              && origins == if k in old(origins) || r.None? then old(origins) else old(origins)[k := t]
      ensures old(AgreesWith(sk.sql, TemplateOf(sk))) ==> r == Statement(sk)
      ensures old(Functional() && AgreesWith(sk.sql, TemplateOf(sk))) ==> Functional()
    {
      hide Statement;
      FromExpansion(sk);
      if (sk.sql, sk.num) in statements {
        return Some(statements[(sk.sql, sk.num)]);
      }
      var statement := ExpandPlaceholder(sk);
      if statement.None? {
        return None;
      }
      var numbered := ReplaceParams(statement.value, sk.restCount * sk.num + 1);
      origins := origins[(sk.sql, sk.num) := TemplateOf(sk)];
      statements := statements[(sk.sql, sk.num) := numbered];
      r := Some(numbered);
    }
  }

  lemma {:induction false} FromExpansion(sk: Skeleton)
    ensures var e := ExpandPlaceholder(sk);
            Statement(sk) == if e.None? then None else Some(NumberParams(e.value, sk.restCount * sk.num + 1))
    ensures With(sk.sql, TemplateOf(sk), sk.num) == sk
  {
  }

  /** Two templates for one SQL text are not told apart: the second one gets a statement that is not its own. */
  method SecondTemplateIgnored() returns (a: Skeleton, b: Skeleton, r: Option<Text>)
    ensures a.sql == b.sql && a.num == b.num
    ensures r == Statement(a) && r != Statement(b)
  {
    hide Statement, Insertion, Slots, Range;
    a := Skeleton([Placeholder], [Verb], 1, [Verb], 1, 1);
    b := Skeleton([Placeholder], [Char('x')], 0, [], 0, 1);
    var cache := new StatementCache();
    var first := cache.GetStmt(a);
    r := cache.GetStmt(b);
    assert [] + [Placeholder] + [] == [Placeholder];
    assert Count([Verb], Verb) == 1
        && Count([Char('x')], Verb) == 0 by { assert [Verb][1..] == [] && [Char('x')][1..] == []; }
    StatementSlots(a, [], []);
    StatementSlots(b, [], []);
    assert |Slots(Statement(a).value)| == 1 && |Slots(Statement(b).value)| == 0;
  }

  // ----- the statements of the repository -----

  datatype Query = GetSubtrees | SetSubtrees | ByMerkleHash | ByMerkleHashOrdered | ByIdentityHash

  function Chars(s: string): (t: Text)
    ensures |t| == |s| && forall i :: 0 <= i < |s| ==> t[i] == Char(s[i])
  {
    seq(|s|, i requires 0 <= i < |s| => Char(s[i]))
  }

  const INDENT: string := "\n                        "

  /** The first word of a statement. */
  function Head(q: Query): (s: string)
    ensures |s| > 0 && (s[0] == 'I' <==> q.SetSubtrees?)
  {
    match q
    case GetSubtrees => "\n\t\tSELECT "
    case SetSubtrees => "INSERT "
    case _ => "SELECT "
  }

  /** The text from the first word to the placeholder. */
  function Tail(q: Query): (s: string) {
    match q
    case GetSubtrees =>
      "x.subtree_id, x.max_revision, subtree.nodes\n\t\tFROM (\n" +
      "\t\t\tSELECT n.subtree_id, max(n.subtree_revision) AS max_revision\n" +
      "\t\t\tFROM subtree n\n\t\t\tWHERE n.subtree_id IN ("
    case SetSubtrees =>
      "INTO subtree(tree_id, subtree_id, nodes, subtree_revision) "
    case ByIdentityHash =>
      "'00000000000000000000000000000000',l.leaf_identity_hash,l.leaf_value,-1,l.extra_data," +
      "l.queue_timestamp_nanos,s.integrate_timestamp_nanos" + INDENT +
      "FROM leaf_data l LEFT JOIN sequenced_leaf_data s " +
      "ON (l.leaf_identity_hash = s.leaf_identity_hash AND l.tree_id = s.tree_id)" + INDENT +
      "WHERE l.leaf_identity_hash IN ("
    case _ =>
      "s.merkle_leaf_hash,l.leaf_identity_hash,l.leaf_value,s.sequence_number,l.extra_data," +
      "l.queue_timestamp_nanos,s.integrate_timestamp_nanos" + INDENT +
      "FROM leaf_data l,sequenced_leaf_data s" + INDENT +
      "WHERE l.leaf_identity_hash = s.leaf_identity_hash" + INDENT +
      "AND s.merkle_leaf_hash IN ("
  }

  function ParamCount(q: Query): (n: nat) {
    match q
    case GetSubtrees => 3
    case SetSubtrees => 0
    case _ => 1
  }

  /** The text after the placeholder, from param i - 1 to param i. */
  function Piece(q: Query, i: int): (s: string) {
    match q
    case GetSubtrees =>
      if i == 0 then ") AND\n\t\t\tn.tree_id = "
      else if i == 1 then " AND n.subtree_revision <= "
      else if i == 2 then
        "\n\t\t\tGROUP BY n.subtree_id\n\t\t) AS x\n\t\tINNER JOIN subtree\n" +
        "\t\tON subtree.subtree_id = x.subtree_id\n\t\tAND subtree.subtree_revision = x.max_revision\n" +
        "\t\tAND subtree.tree_id = "
      else ""
    case SetSubtrees => ""
    case ByMerkleHash => if i == 0 then ") AND l.tree_id = " else " AND s.tree_id = l.tree_id"
    case ByMerkleHashOrdered =>
      if i == 0 then ") AND l.tree_id = " else " AND s.tree_id = l.tree_id ORDER BY s.sequence_number"
    case ByIdentityHash => if i == 0 then ") AND l.tree_id = " else ""
  }

  function Before(q: Query): (t: Text) {
    Chars(Head(q)) + Chars(Tail(q))
  }

  function Pieces(q: Query): (ps: seq<string>)
    ensures |ps| == ParamCount(q) + 1
  {
    seq(ParamCount(q) + 1, i => Piece(q, i))
  }

  function Join(ps: seq<string>): (t: Text)
    requires |ps| > 0
  {
    if |ps| == 1 then Chars(ps[0]) else Chars(ps[0]) + [Param] + Join(ps[1..])
  }

  function Build(q: Query, num: int): (sk: Skeleton) {
    var sql := Before(q) + [Placeholder] + Join(Pieces(q));
    if q.SetSubtrees? then
      Skeleton(sql, Chars("VALUES") + Row4(), 4, Row4(), 4, num)
    else
      Skeleton(sql, [Verb], 1, [Verb], 1, num)
  }

  /** Four verbs in parentheses. */
  function Row4(): (t: Text) {
    [Char('(')] + Repeat([Verb, Char(','), Char(' ')], 3) + [Verb, Char(')')]
  }

  /** How many arguments the callers pass: some for each repetition, then one for each param. */
  function ArgumentCount(q: Query, num: nat): (n: nat) {
    match q
    case GetSubtrees => num + 3
    case SetSubtrees => 4 * num
    case _ => num + 1
  }

  lemma {:induction false} CharsCount(s: string, x: Symbol)
    requires !x.Char?
    ensures Count(Chars(s), x) == 0
    decreases |s|
  {
    if s != [] {
      CharsCount(s[1..], x);
      assert Chars(s)[1..] == Chars(s[1..]);
    }
  }

  lemma {:induction false} JoinCount(ps: seq<string>)
    requires |ps| > 0
    ensures Count(Join(ps), Param) == |ps| - 1
    ensures forall i :: 0 <= i < |Join(ps)| ==> Join(ps)[i].Char? || Join(ps)[i].Param?
  {
    CharsCount(ps[0], Param);
    if |ps| > 1 {
      JoinCount(ps[1..]);
      CountConcat(Chars(ps[0]), [Param], Param);
      CountConcat(Chars(ps[0]) + [Param], Join(ps[1..]), Param);
      assert Count([Param], Param) == 1 by { assert [Param][1..] == []; }
    }
  }

  lemma {:induction false} Row4Count()
    ensures Plain(Row4()) && Count(Row4(), Verb) == 4
  {
    hide Count, Repeat;
    var unit := [Verb, Char(','), Char(' ')];
    ShortCounts();
    RepeatVerbs(unit, 3);
    CountConcat([Char('(')], Repeat(unit, 3), Verb);
    CountConcat([Char('(')] + Repeat(unit, 3), [Verb, Char(')')], Verb);
  }

  lemma {:induction false} ShortCounts()
    ensures Count([Char('(')], Verb) == 0 && Count([Verb], Verb) == 1 && Count([Verb, Char(')')], Verb) == 1
    ensures Count([Verb, Char(','), Char(' ')], Verb) == 1
  {
    assert [Verb, Char(','), Char(' ')][1..] == [Char(','), Char(' ')] && [Char(','), Char(' ')][1..] == [Char(' ')];
    assert [Verb, Char(')')][1..] == [Char(')')];
    assert Count([Char(' ')], Verb) == 0 && Count([Char(')')], Verb) == 0;
    assert Count([Char(','), Char(' ')], Verb) == 0;
  }

  lemma {:induction false} BuildShape(q: Query, num: int)
    ensures WellFormed(Build(q, num), Before(q), Join(Pieces(q)))
    ensures Build(q, num).firstCount == Build(q, num).restCount && Build(q, num).num == num
  {
    hide Tail, Head, Piece, Join, Row4, Count, Pieces;
    JoinCount(Pieces(q));
    Row4Count();
    ShortCounts();
    CharsCount("VALUES", Verb);
    CountConcat(Chars("VALUES"), Row4(), Verb);
  }

  /** The slots of a statement are $1 to $n, once each in text order. */
  predicate HasSlots(t: Option<Text>, n: nat) {
    t.Some? && Slots(t.value) == Range(1, n + 1)
  }

  /** The slots of every statement of the repository are $1, $2, ... in text order, as many as arguments are passed. */
  lemma {:induction false} RepositorySlots(q: Query, num: nat)
    requires num > 0
    ensures HasSlots(Statement(Build(q, num)), ArgumentCount(q, num))
  {
    hide Before, Pieces, Join, Statement, Slots, WellFormed, Count, Range;
    var sk, pre, post := Build(q, num), Before(q), Join(Pieces(q));
    BuildShape(q, num);
    JoinCount(Pieces(q));
    StatementSlots(sk, pre, post);
    NumberedExactly(sk, pre, post);
    CountArguments(q, num);
  }

  lemma {:induction false} CountArguments(q: Query, num: nat)
    requires num > 0
    ensures var sk := Build(q, num);
              sk.firstCount + sk.restCount * (sk.num - 1) + ParamCount(q) == ArgumentCount(q, num)
  {
    hide Before, Join, Row4, Pieces;
  }

  /** Statements of the repository with equal SQL texts are built from equal templates. */
  lemma {:induction false} OneTemplateEach(p: Query, m: int, q: Query, n: int)
    requires Build(p, m).sql == Build(q, n).sql
    ensures TemplateOf(Build(p, m)) == TemplateOf(Build(q, n))
  {
    hide Join, Row4, Tail, Head, Pieces, Piece;
    assert Build(p, m).sql[0] == Char(Head(p)[0]) && Build(q, n).sql[0] == Char(Head(q)[0]);
  }

  /** Every entry of the cache was built by the repository. */
  ghost predicate Repository(origins: map<(Text, int), Template>) {
    forall k :: k in origins ==> exists q :: k.0 == Build(q, k.1).sql && origins[k] == TemplateOf(Build(q, k.1))
  }

  lemma {:induction false} OriginOf(origins: map<(Text, int), Template>, k: (Text, int)) returns (q: Query)
    requires Repository(origins) && k in origins
    ensures k.0 == Build(q, k.1).sql && origins[k] == TemplateOf(Build(q, k.1))
  {
    hide Build;
    q :| k.0 == Build(q, k.1).sql && origins[k] == TemplateOf(Build(q, k.1));
  }

  lemma {:induction false} RepositoryAgrees(origins: map<(Text, int), Template>, q: Query, num: int)
    requires Repository(origins)
    ensures Build(q, num).num == num
    ensures forall k :: k in origins && k.0 == Build(q, num).sql ==> origins[k] == TemplateOf(Build(q, num))
  {
    hide Build, WellFormed, Before, Join, Pieces, TemplateOf, Repository;
    BuildShape(q, num);
    forall k | k in origins && k.0 == Build(q, num).sql
      ensures origins[k] == TemplateOf(Build(q, num))
    {
      var p := OriginOf(origins, k);
      OneTemplateEach(p, k.1, q, num);
    }
  }

  /** In every sequence of calls the repository can make, each call gets a fresh expansion of its own statement. */
  method ServeAll(calls: seq<(Query, int)>) returns (answers: seq<Option<Text>>)
    ensures |answers| == |calls|
    ensures forall i :: 0 <= i < |calls| ==> answers[i] == Statement(Build(calls[i].0, calls[i].1))
  {
    hide Build, Statement;
    var cache := new StatementCache();
    answers := [];
    for i := 0 to |calls|
      invariant fresh(cache) && cache.Valid() && Repository(cache.origins)
      invariant |answers| == i && forall j :: 0 <= j < i ==> answers[j] == Statement(Build(calls[j].0, calls[j].1))
    {
      var (q, num) := calls[i];
      RepositoryAgrees(cache.origins, q, num);
      var r := cache.GetStmt(Build(q, num));
      answers := answers + [r];
    }
  }

  /** Formatting complains exactly when verbs and arguments do not match in number. */
  lemma {:induction false} FormatComplains(t: Text, args: seq<nat>)
    requires Plain(t)
    ensures FormatError in Format(t, args) <==> Count(t, Verb) != |args|
  {
    if t != [] {
      var more := if t[0] == Verb && args != [] then args[1..] else args;
      FormatComplains(t[1..], more);
      assert Format(t, args)[1..] == Format(t[1..], more);
      assert FormatError in Format(t, args) <==>
        Format(t, args)[0] == FormatError || FormatError in Format(t[1..], more);
    }
  }
}
