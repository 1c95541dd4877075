/** JSON values, the order of object members, the normal form and its printed text. */
module JsonValue {
  import opened Bytes
  import Unicode
  import JsonString

  const COMMA: byte := 0x2C
  const COLON: byte := 0x3A
  const LBRACKET: byte := 0x5B
  const RBRACKET: byte := 0x5D
  const LBRACE: byte := 0x7B
  const RBRACE: byte := 0x7D

  const TRUE: bytes := [0x74, 0x72, 0x75, 0x65]
  const FALSE: bytes := [0x66, 0x61, 0x6C, 0x73, 0x65]
  const NULL: bytes := [0x6E, 0x75, 0x6C, 0x6C]

  /** A value as a text states it: members in the order of the text, keys possibly repeated. */
  datatype Json =
    | Simple(token: bytes)
    | Str(text: bytes)
    | Arr(elems: seq<Json>)
    | Obj(members: seq<Member>)

  datatype Member = Member(name: bytes, value: Json)

  function Key(m: Member): (k: seq<int>) {
    Unicode.SortKey(m.name)
  }

  // ----- member order -----

  predicate HasKey(ms: seq<Member>, k: seq<int>) {
    exists i :: 0 <= i < |ms| && Key(ms[i]) == k
  }

  ghost predicate Sorted(ms: seq<Member>) {
    forall i, j :: 0 <= i < j < |ms| ==> Less(Key(ms[i]), Key(ms[j]))
  }

  ghost predicate DistinctKeys(ms: seq<Member>) {
    forall i, j :: 0 <= i < j < |ms| ==> Key(ms[i]) != Key(ms[j])
  }

  /** Among well-formed names, keys are distinct exactly when names are. */
  lemma {:induction false} DistinctKeysAreNames(ms: seq<Member>)
    requires forall i :: 0 <= i < |ms| ==> Unicode.WellFormed(ms[i].name)
    ensures DistinctKeys(ms) <==> forall i, j :: 0 <= i < j < |ms| ==> ms[i].name != ms[j].name
  {
    forall i, j | 0 <= i < j < |ms|
      ensures Key(ms[i]) == Key(ms[j]) <==> ms[i].name == ms[j].name
    {
      Unicode.SortKeyInjective(ms[i].name, ms[j].name);
    }
  }

  /** Insert before the first member with a larger key. */
  function Insert(ms: seq<Member>, m: Member): (r: seq<Member>) {
    if ms == [] then [m]
    else if Less(Key(m), Key(ms[0])) then [m] + ms
    else [ms[0]] + Insert(ms[1..], m)
  }

  function InsertAll(acc: seq<Member>, ms: seq<Member>): (r: seq<Member>)
    decreases |ms|
  {
    if ms == [] then acc else InsertAll(Insert(acc, ms[0]), ms[1..])
  }

  lemma {:induction false} InsertPermutes(ms: seq<Member>, m: Member)
    ensures multiset(Insert(ms, m)) == multiset(ms) + multiset{m}
    ensures |Insert(ms, m)| == |ms| + 1
    ensures forall x :: x in Insert(ms, m) <==> x == m || x in ms
  {
    if ms == [] || Less(Key(m), Key(ms[0])) {
    } else {
      InsertPermutes(ms[1..], m);
      assert ms == [ms[0]] + ms[1..];
    }
  }

  lemma {:induction false} InsertKeys(ms: seq<Member>, m: Member, k: seq<int>)
    ensures HasKey(Insert(ms, m), k) <==> HasKey(ms, k) || Key(m) == k
  {
    InsertPermutes(ms, m);
    var r := Insert(ms, m);
    if HasKey(ms, k) {
      var i :| 0 <= i < |ms| && Key(ms[i]) == k;
      assert ms[i] in r;
    }
    if Key(m) == k {
      assert m in r;
    }
    if HasKey(r, k) {
      var i :| 0 <= i < |r| && Key(r[i]) == k;
      assert r[i] == m || r[i] in ms;
    }
  }

  lemma {:induction false} InsertSorted(ms: seq<Member>, m: Member)
    requires Sorted(ms) && !HasKey(ms, Key(m))
    ensures Sorted(Insert(ms, m))
  {
    if ms == [] {
    } else if Less(Key(m), Key(ms[0])) {
      forall j | 0 <= j < |ms|
        ensures Less(Key(m), Key(ms[j]))
      {
        if j > 0 { LessTransitive(Key(m), Key(ms[0]), Key(ms[j])); }
      }
    } else {
      var t := Insert(ms[1..], m);
      assert !HasKey(ms[1..], Key(m));
      InsertSorted(ms[1..], m);
      InsertPermutes(ms[1..], m);
      LessTotal(Key(m), Key(ms[0]));
      forall j | 0 <= j < |t|
        ensures Less(Key(ms[0]), Key(t[j]))
      {
        assert t[j] == m || t[j] in ms[1..];
      }
    }
  }

  /** Inserting members one by one gives a strictly sorted permutation of them. */
  lemma {:induction false} InsertAllSorts(acc: seq<Member>, ms: seq<Member>)
    requires Sorted(acc) && DistinctKeys(ms)
    requires forall i :: 0 <= i < |ms| ==> !HasKey(acc, Key(ms[i]))
    ensures Sorted(InsertAll(acc, ms))
    ensures multiset(InsertAll(acc, ms)) == multiset(acc) + multiset(ms)
    ensures |InsertAll(acc, ms)| == |acc| + |ms|
    decreases |ms|
  {
    if ms != [] {
      var acc', t := Insert(acc, ms[0]), ms[1..];
      InsertSorted(acc, ms[0]);
      InsertPermutes(acc, ms[0]);
      forall i | 0 <= i < |t|
        ensures !HasKey(acc', Key(t[i]))
      {
        InsertKeys(acc, ms[0], Key(t[i]));
      }
      InsertAllSorts(acc', t);
      assert ms == [ms[0]] + t;
    }
  }

  lemma {:induction false} SameElements(a: seq<Member>, b: seq<Member>)
    requires multiset(a) == multiset(b)
    ensures forall m :: m in a <==> m in b
  {
    forall m
      ensures m in a <==> m in b
    {
      assert m in a <==> m in multiset(a);
      assert m in b <==> m in multiset(b);
    }
  }

  /** A sorted member list is determined by its set of members. */
  lemma {:induction false} SortedUnique(a: seq<Member>, b: seq<Member>)
    requires Sorted(a) && Sorted(b)
    requires forall m :: m in a <==> m in b
    ensures a == b
    decreases |a|
  {
    assert a != [] ==> a[0] in b;
    assert b != [] ==> b[0] in a;
    if a != [] && b != [] {
      HeadsAgree(a, b);
      forall m
        ensures m in a[1..] <==> m in b[1..]
      {
        TailMembers(a, m);
        TailMembers(b, m);
      }
      SortedUnique(a[1..], b[1..]);
      assert a == [a[0]] + a[1..] && b == [b[0]] + b[1..];
    }
  }

  lemma {:induction false} HeadsAgree(a: seq<Member>, b: seq<Member>)
    requires Sorted(a) && Sorted(b) && a != [] && b != []
    requires forall m :: m in a <==> m in b
    ensures a[0] == b[0]
  {
    assert a[0] in b && b[0] in a;
    var i :| 0 <= i < |b| && b[i] == a[0];
    var j :| 0 <= j < |a| && a[j] == b[0];
    assert j > 0 ==> Less(Key(a[0]), Key(a[j]));
    if i > 0 { LessAsymmetric(Key(b[0]), Key(b[i])); }
  }

  lemma {:induction false} TailMembers(a: seq<Member>, m: Member)
    requires Sorted(a) && a != []
    ensures m in a[1..] <==> m in a && m != a[0]
  {
    if m in a[1..] {
      var i :| 0 <= i < |a[1..]| && a[1..][i] == m;
      assert a[i + 1] == m;
      LessIrreflexive(Key(a[0]));
    }
    if m in a && m != a[0] {
      var i :| 0 <= i < |a| && a[i] == m;
      assert a[1..][i - 1] == m;
    }
  }

  // ----- normal form -----

  /** No object, at any depth, holds two members with the same sort key. */
  ghost predicate Unique(v: Json) {
    match v
    case Simple(_) => true
    case Str(_) => true
    case Arr(es) => forall i :: 0 <= i < |es| ==> Unique(es[i])
    case Obj(ms) => DistinctKeys(ms) && forall i :: 0 <= i < |ms| ==> Unique(ms[i].value)
  }

  /** The value with the members of every object in key order. */
  function Norm(v: Json): (n: Json)
    decreases v, 1
  {
    match v
    case Simple(_) => v
    case Str(_) => v
    case Arr(es) => Arr(NormElems(es))
    case Obj(ms) => Obj(InsertAll([], NormMembers(ms)))
  }

  function NormElems(es: seq<Json>): (ns: seq<Json>)
    ensures |ns| == |es|
    ensures forall i :: 0 <= i < |es| ==> ns[i] == Norm(es[i])
    decreases es, 0
  {
    if es == [] then [] else [Norm(es[0])] + NormElems(es[1..])
  }

  function NormMembers(ms: seq<Member>): (ns: seq<Member>)
    ensures |ns| == |ms|
    ensures forall i :: 0 <= i < |ms| ==> ns[i] == Member(ms[i].name, Norm(ms[i].value))
    decreases ms, 0
  {
    if ms == [] then [] else [Member(ms[0].name, Norm(ms[0].value))] + NormMembers(ms[1..])
  }

  /** The members of a normalised object are the normalised members, sorted. */
  lemma {:induction false} NormObject(ms: seq<Member>)
    requires DistinctKeys(ms)
    ensures Sorted(Norm(Obj(ms)).members)
    ensures multiset(Norm(Obj(ms)).members) == multiset(NormMembers(ms))
    ensures |Norm(Obj(ms)).members| == |ms|
  {
    InsertAllSorts([], NormMembers(ms));
  }

  /** Two values state the same JSON value: arrays agree position by position, objects agree as maps. */
  ghost predicate Same(v: Json, w: Json) {
    match v
    case Simple(t) => w == v
    case Str(s) => w == v
    case Arr(es) => w.Arr? && |es| == |w.elems| && forall i :: 0 <= i < |es| ==> Same(es[i], w.elems[i])
    case Obj(ms) =>
      && w.Obj?
      && |ms| == |w.members|
      && forall i :: 0 <= i < |ms| ==>
           exists j :: 0 <= j < |w.members| && ms[i].name == w.members[j].name && Same(ms[i].value, w.members[j].value)
  }

  lemma {:induction false} SameImpliesNorm(v: Json, w: Json)
    requires Unique(v) && Unique(w) && Same(v, w)
    ensures Norm(v) == Norm(w)
    decreases v
  {
    match v
    case Simple(_) =>
    case Str(_) =>
    case Arr(es) =>
      forall i | 0 <= i < |es| { SameImpliesNorm(es[i], w.elems[i]); }
      assert NormElems(es) == NormElems(w.elems);
    case Obj(ms) =>
      var a, b := NormMembers(ms), NormMembers(w.members);
      forall i | 0 <= i < |ms|
        ensures a[i] in b
      {
        var j :| 0 <= j < |w.members| && ms[i].name == w.members[j].name && Same(ms[i].value, w.members[j].value);
        SameImpliesNorm(ms[i].value, w.members[j].value);
        assert b[j] == a[i];
      }
      MembersInject(a, b);
      NormObject(ms);
      NormObject(w.members);
      SameElements(Norm(v).members, a);
      SameElements(Norm(w).members, b);
      SortedUnique(Norm(v).members, Norm(w).members);
  }

  /** Equally long member lists with distinct keys, one inside the other, have the same members. */
  lemma {:induction false} MembersInject(a: seq<Member>, b: seq<Member>)
    requires |a| == |b| && DistinctKeys(a) && DistinctKeys(b)
    requires forall i :: 0 <= i < |a| ==> a[i] in b
    ensures forall m :: m in a <==> m in b
  {
    var sa, sb := set m | m in a, set m | m in b;
    DistinctCard(a);
    DistinctCard(b);
    assert sa <= sb;
    if sa != sb {
      assert sa < sb;
      ProperSubset(sa, sb);
    }
    assert forall m :: (m in a <==> m in sa) && (m in b <==> m in sb);
  }

  lemma {:induction false} ProperSubset(a: set<Member>, b: set<Member>)
    requires a < b
    ensures |a| < |b|
  {
    assert b == a + (b - a);
  }

  lemma {:induction false} DistinctCard(a: seq<Member>)
    requires DistinctKeys(a)
    ensures |set m | m in a| == |a|
  {
    if a != [] {
      DistinctCard(a[1..]);
      assert (set m | m in a) == {a[0]} + set m | m in a[1..];
    }
  }

  lemma {:induction false} NormImpliesSame(v: Json, w: Json)
    requires Unique(v) && Unique(w) && Norm(v) == Norm(w)
    ensures Same(v, w)
    decreases v
  {
    match v
    case Simple(_) =>
    case Str(_) =>
    case Arr(es) =>
      assert |NormElems(es)| == |NormElems(w.elems)|;
      forall i | 0 <= i < |es|
        ensures Same(es[i], w.elems[i])
      {
        assert NormElems(es)[i] == NormElems(w.elems)[i];
        NormImpliesSame(es[i], w.elems[i]);
      }
    case Obj(ms) =>
      NormMembersMatch(ms, w.members);
      forall i, j | 0 <= i < |ms| && 0 <= j < |w.members| && Norm(ms[i].value) == Norm(w.members[j].value) {
        NormImpliesSame(ms[i].value, w.members[j].value);
      }
  }

  lemma {:induction false} NormMembersMatch(ms: seq<Member>, ns: seq<Member>)
    requires DistinctKeys(ms) && DistinctKeys(ns) && Norm(Obj(ms)) == Norm(Obj(ns))
    ensures |ms| == |ns|
    ensures forall i :: 0 <= i < |ms| ==>
              exists j :: 0 <= j < |ns| && ms[i].name == ns[j].name && Norm(ms[i].value) == Norm(ns[j].value)
  {
    var a, b := NormMembers(ms), NormMembers(ns);
    NormObject(ms);
    NormObject(ns);
    SameElements(a, b);
    forall i | 0 <= i < |ms|
      ensures exists j :: 0 <= j < |ns| && ms[i].name == ns[j].name && Norm(ms[i].value) == Norm(ns[j].value)
    {
      assert a[i] in b;
      var j :| 0 <= j < |b| && b[j] == a[i];
      assert ms[i].name == ns[j].name && Norm(ms[i].value) == Norm(ns[j].value);
    }
  }

  /** The normal form decides sameness. */
  lemma {:induction false} NormDecides(v: Json, w: Json)
    requires Unique(v) && Unique(w)
    ensures Same(v, w) <==> Norm(v) == Norm(w)
  {
    if Same(v, w) { SameImpliesNorm(v, w); }
    if Norm(v) == Norm(w) { NormImpliesSame(v, w); }
  }

  // ----- tokens -----

  /** The spelling of numbers: a token that is not a number has none. */
  type Spelling = bytes -> Option<bytes>

  predicate IsLiteral(t: bytes) {
    t == TRUE || t == FALSE || t == NULL
  }

  predicate NumberChar(c: byte) {
    0x30 <= c < 0x3A || c == 0x2D || c == 0x2B || c == 0x2E || c == 0x65
  }

  predicate NumberText(t: bytes) {
    t != [] && forall i :: 0 <= i < |t| ==> NumberChar(t[i])
  }

  /** What is assumed of number spelling: it is idempotent and writes only digits, signs, a point and an exponent. */
  ghost predicate ValidSpelling(sp: Spelling) {
    forall t :: sp(t).Some? ==> NumberText(sp(t).value) && sp(sp(t).value) == sp(t)
  }

  function CanonToken(sp: Spelling, t: bytes): (r: Option<bytes>) {
    if IsLiteral(t) then Some(t) else sp(t)
  }

  /** A token that is its own canonical spelling. */
  predicate FixedToken(sp: Spelling, t: bytes) {
    (IsLiteral(t) || NumberText(t)) && CanonToken(sp, t) == Some(t)
  }

  ghost predicate FixedTokens(sp: Spelling, v: Json) {
    match v
    case Simple(t) => FixedToken(sp, t)
    case Str(_) => true
    case Arr(es) => forall i :: 0 <= i < |es| ==> FixedTokens(sp, es[i])
    case Obj(ms) => forall i :: 0 <= i < |ms| ==> FixedTokens(sp, ms[i].value)
  }

  /** Canonical values: fixed tokens, and every object strictly sorted. */
  ghost predicate Canonical(sp: Spelling, v: Json) {
    match v
    case Simple(t) => FixedToken(sp, t)
    case Str(_) => true
    case Arr(es) => forall i :: 0 <= i < |es| ==> Canonical(sp, es[i])
    case Obj(ms) => Sorted(ms) && forall i :: 0 <= i < |ms| ==> Canonical(sp, ms[i].value)
  }

  lemma {:induction false} NormIsCanonical(sp: Spelling, v: Json)
    requires Unique(v) && FixedTokens(sp, v)
    ensures Canonical(sp, Norm(v))
    decreases v
  {
    match v
    case Simple(_) =>
    case Str(_) =>
    case Arr(es) =>
      forall i | 0 <= i < |es| { NormIsCanonical(sp, es[i]); }
    case Obj(ms) =>
      forall i | 0 <= i < |ms| { NormIsCanonical(sp, ms[i].value); }
      NormObject(ms);
      var ns := Norm(v).members;
      SameElements(ns, NormMembers(ms));
      forall i | 0 <= i < |ns|
        ensures Canonical(sp, ns[i].value)
      {
        assert ns[i] in NormMembers(ms);
      }
  }

  lemma {:induction false} SortedDistinct(ms: seq<Member>)
    requires Sorted(ms)
    ensures DistinctKeys(ms)
  {
    forall i, j | 0 <= i < j < |ms|
      ensures Key(ms[i]) != Key(ms[j])
    {
      LessIrreflexive(Key(ms[i]));
    }
  }

  /** Normalising changes nothing that is already canonical. */
  lemma {:induction false} CanonicalIsNorm(sp: Spelling, v: Json)
    requires Canonical(sp, v)
    ensures Unique(v) && Norm(v) == v && FixedTokens(sp, v)
    decreases v
  {
    match v
    case Simple(_) =>
    case Str(_) =>
    case Arr(es) =>
      forall i | 0 <= i < |es| { CanonicalIsNorm(sp, es[i]); }
      assert NormElems(es) == es;
    case Obj(ms) =>
      forall i | 0 <= i < |ms| { CanonicalIsNorm(sp, ms[i].value); }
      assert NormMembers(ms) == ms;
      SortedDistinct(ms);
      NormObject(ms);
      SameElements(Norm(v).members, ms);
      SortedUnique(Norm(v).members, ms);
  }

  // ----- printing -----

  function Print(v: Json): (s: bytes)
    decreases v, 1
  {
    match v
    case Simple(t) => t
    case Str(s) => JsonString.Quote(s)
    case Arr(es) => [LBRACKET] + PrintElems(es, false) + [RBRACKET]
    case Obj(ms) => [LBRACE] + PrintMembers(ms, false) + [RBRACE]
  }

  function Separator(next: bool): (s: bytes) {
    if next then [COMMA] else []
  }

  function PrintElems(es: seq<Json>, next: bool): (s: bytes)
    decreases es, 0
  {
    if es == [] then [] else Separator(next) + Print(es[0]) + PrintElems(es[1..], true)
  }

  function PrintMember(m: Member): (s: bytes)
    decreases m, 2
  {
    JsonString.Quote(m.name) + [COLON] + Print(m.value)
  }

  function PrintMembers(ms: seq<Member>, next: bool): (s: bytes)
    decreases ms, 0
  {
    if ms == [] then [] else Separator(next) + PrintMember(ms[0]) + PrintMembers(ms[1..], true)
  }
}
