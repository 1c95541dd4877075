/** A certificate pool that queues additions and rebuilds the pool lazily, guarded by a lock and an atomic flag. */
module CertPool {
  import opened Bytes

  /** The encoded certificate; equal certificates have equal subjects because the subject is part of the encoding. */
  datatype Content = Content(subject: bytes, rest: bytes)

  /** A certificate behind a pointer: two pointers may hold the same content. */
  datatype Cert = Cert(pointer: nat, content: Content)

  function Contents(certs: seq<Cert>): (s: set<Content>) {
    set c | c in certs :: c.content
  }

  lemma {:induction false} ContentsAppend(certs: seq<Cert>, more: seq<Cert>)
    ensures Contents(certs + more) == Contents(certs) + Contents(more)
  {
    forall x | x in Contents(certs) + Contents(more)
      ensures x in Contents(certs + more)
    {
      var c :| (c in certs || c in more) && c.content == x;
      assert c in certs + more;
    }
  }

  // ----- the index -----

  /** Ascending positions of the certificates with a given subject. */
  function Positions(certs: seq<Cert>, subject: bytes): (ps: seq<nat>) {
    if certs == [] then []
    else
      var n := |certs| - 1;
      Positions(certs[..n], subject) + if certs[n].content.subject == subject then [n] else []
  }

  function Lookup(byName: map<bytes, seq<nat>>, subject: bytes): (ps: seq<nat>) {
    if subject in byName then byName[subject] else []
  }

  ghost predicate Indexed(certs: seq<Cert>, byName: map<bytes, seq<nat>>) {
    forall subject :: Lookup(byName, subject) == Positions(certs, subject)
  }

  lemma {:induction false} PositionsMeaning(certs: seq<Cert>, subject: bytes)
    ensures var ps := Positions(certs, subject);
            && (forall i, j :: 0 <= i < j < |ps| ==> ps[i] < ps[j])
            && (forall k :: k in ps <==> 0 <= k < |certs| && certs[k].content.subject == subject)
    decreases |certs|
  {
    if certs != [] {
      var n := |certs| - 1;
      PositionsMeaning(certs[..n], subject);
      var qs, ps := Positions(certs[..n], subject), Positions(certs, subject);
      assert forall i :: 0 <= i < |qs| ==> qs[i] in qs;
      forall k
        ensures k in ps <==> 0 <= k < |certs| && certs[k].content.subject == subject
      {
        assert k in ps <==> k in qs || (k == n && certs[n].content.subject == subject);
        assert 0 <= k < n ==> certs[..n][k] == certs[k];
      }
    }
  }

  /** The index after one certificate has been stored. */
  function Extend(certs: seq<Cert>, byName: map<bytes, seq<nat>>, c: Cert): (m: map<bytes, seq<nat>>) {
    byName[c.content.subject := Lookup(byName, c.content.subject) + [|certs|]]
  }

  lemma {:induction false} ExtendIndexed(certs: seq<Cert>, byName: map<bytes, seq<nat>>, c: Cert)
    requires Indexed(certs, byName)
    ensures Indexed(certs + [c], Extend(certs, byName, c))
  {
    assert (certs + [c])[..|certs|] == certs;
  }

  // ----- filtering -----

  /** The certificates that are present and not yet queued. */
  function Unknown(known: set<Content>, certs: seq<Option<Cert>>): (r: seq<Cert>) {
    if certs == [] then []
    else
      var n := |certs| - 1;
      Unknown(known, certs[..n]) + if certs[n].Some? && certs[n].value.content !in known then [certs[n].value] else []
  }

  function Distinct(certs: seq<Cert>): (r: seq<Cert>) {
    if certs == [] then []
    else
      var n := |certs| - 1;
      Distinct(certs[..n]) + if certs[n] in certs[..n] then [] else [certs[n]]
  }

  lemma {:induction false} DistinctKeeps(certs: seq<Cert>)
    ensures forall c :: c in Distinct(certs) <==> c in certs
    decreases |certs|
  {
    if certs != [] {
      var n := |certs| - 1;
      DistinctKeeps(certs[..n]);
      assert certs == certs[..n] + [certs[n]];
    }
  }

  /** The certificates of ds occur in certs, each for the first time after those before it. */
  ghost predicate InOrderOfFirst(certs: seq<Cert>, ds: seq<Cert>) {
    && (forall i :: 0 <= i < |ds| ==> ds[i] in certs)
    && (forall i, j :: 0 <= i < j < |ds| ==> ds[i] != ds[j])
    && (forall i, j :: 0 <= i < j < |ds| ==> FirstIndex(certs, ds[i]) < FirstIndex(certs, ds[j]))
  }

  /** Nothing is repeated, and what is kept stays in the order of first occurrence. */
  lemma {:induction false} DistinctInOrder(certs: seq<Cert>)
    ensures InOrderOfFirst(certs, Distinct(certs))
    decreases |certs|
  {
    if certs != [] {
      DistinctInOrder(certs[..|certs| - 1]);
      OrderGrows(certs, Distinct(certs[..|certs| - 1]));
    }
  }

  lemma {:induction false} OrderGrows(certs: seq<Cert>, ds: seq<Cert>)
    requires certs != [] && InOrderOfFirst(certs[..|certs| - 1], ds)
    ensures var n := |certs| - 1;
            InOrderOfFirst(certs, ds + if certs[n] in certs[..n] then [] else [certs[n]])
  {
    hide FirstIndex;
    var n := |certs| - 1;
    var es := ds + if certs[n] in certs[..n] then [] else [certs[n]];
    FirstIndexIn(certs, certs[n]);
    forall i | 0 <= i < |ds|
      ensures ds[i] in certs && FirstIndex(certs, ds[i]) == FirstIndex(certs[..n], ds[i]) < n
    {
      FirstIndexIn(certs, ds[i]);
    }
    assert forall i :: 0 <= i < |ds| ==> es[i] == ds[i];
  }

  /** The first position of a certificate in a list, or its length. */
  function FirstIndex(certs: seq<Cert>, c: Cert): (i: nat)
    ensures i <= |certs| && (i < |certs| ==> certs[i] == c) && c !in certs[..i]
  {
    if certs == [] then 0
    else
      var n := |certs| - 1;
      var i := FirstIndex(certs[..n], c);
      assert certs == certs[..n] + [certs[n]];
      if i < n then i else if certs[n] == c then n else |certs|
  }

  lemma {:induction false} FirstIndexIn(certs: seq<Cert>, c: Cert)
    requires certs != []
    ensures var n := |certs| - 1;
            && (c in certs[..n] ==> FirstIndex(certs, c) == FirstIndex(certs[..n], c) < n)
            && (c !in certs[..n] && certs[n] == c ==> FirstIndex(certs, c) == n)
  {
    var n := |certs| - 1;
    if c in certs[..n] {
      assert certs[..n][..n] == certs[..n];
    }
  }

  /** Contents asked for by a call of Add; missing certificates are skipped. */
  function Asked(certs: seq<Option<Cert>>): (s: set<Content>) {
    set c | c in certs && c.Some? :: c.value.content
  }

  /** Nothing asked for is lost: it is known already or among the certificates to add. */
  lemma {:induction false} FilterCovers(known: set<Content>, certs: seq<Option<Cert>>)
    ensures Contents(Distinct(Unknown(known, certs))) == Asked(certs) - known
    decreases |certs|
  {
    UnknownContents(known, certs);
    DistinctKeeps(Unknown(known, certs));
  }

  lemma {:induction false} NothingLeft(a: set<Content>, b: set<Content>)
    requires a - b == Contents([])
    ensures a <= b
  {
    forall x | x in a
      ensures x in b
    {
      assert x in b || x in a - b;
    }
  }

  lemma {:induction false} UnknownContents(known: set<Content>, certs: seq<Option<Cert>>)
    ensures Contents(Unknown(known, certs)) == Asked(certs) - known
    decreases |certs|
  {
    if certs != [] {
      var n := |certs| - 1;
      UnknownContents(known, certs[..n]);
      var last := if certs[n].Some? && certs[n].value.content !in known then [certs[n].value] else [];
      ContentsAppend(Unknown(known, certs[..n]), last);
      assert certs == certs[..n] + [certs[n]];
      assert Asked(certs) == Asked(certs[..n]) + if certs[n].Some? then {certs[n].value.content} else {};
    }
  }

  // ----- the critical sections, one caller at a time -----

  class Pool {
    var certPool: set<Content>
    var certs: seq<Cert>
    var certsByName: map<bytes, seq<nat>>
    var dirty: bool
    const system: set<Content>

    ghost predicate Valid()
      reads this
    {
      Indexed(certs, certsByName)
    }

    constructor (systemCerts: set<Content>)
      ensures Valid() && certs == [] && certPool == system == systemCerts && !dirty
    {
      certPool, certs, certsByName, dirty, system := systemCerts, [], map[], false, systemCerts;
    }

    /** Keeps the certificates that no stored certificate of the same subject equals, without repeated pointers. */
    method FilterCerts(ins: seq<Option<Cert>>) returns (out: seq<Cert>)
      requires Valid()
      ensures out == Distinct(Unknown(Contents(certs), ins))
    {
      var filtered: seq<Cert> := [];
      for i := 0 to |ins|
        invariant filtered == Unknown(Contents(certs), ins[..i])
      {
        assert ins[..i + 1][..i] == ins[..i];
        if ins[i].Some? {
          var found := IsStored(ins[i].value);
          if !found {
            filtered := filtered + [ins[i].value];
          }
        }
      }
      assert ins[..|ins|] == ins;
      out := RemoveDuplicates(filtered);
    }

    method IsStored(cert: Cert) returns (found: bool)
      requires Valid()
      ensures found <==> cert.content in Contents(certs)
    {
      var possibilities := Lookup(certsByName, cert.content.subject);
      assert possibilities == Positions(certs, cert.content.subject);
      PositionsMeaning(certs, cert.content.subject);
      for i := 0 to |possibilities|
        invariant forall k :: 0 <= k < i ==>
                    possibilities[k] < |certs| && certs[possibilities[k]].content != cert.content
      {
        assert possibilities[i] in possibilities;
        if certs[possibilities[i]].content == cert.content {
          return true;
        }
      }
      forall k | 0 <= k < |certs|
        ensures certs[k].content != cert.content
      {
        assert certs[k].content.subject == cert.content.subject ==> k in possibilities;
      }
      found := false;
    }

    /** Stores certificates and their index entries, in order. */
    method Append(list: seq<Cert>)
      requires Valid()
      modifies this`certs, this`certsByName
      ensures Valid() && certs == old(certs) + list
    {
      hide Indexed, Extend;
      for i := 0 to |list|
        invariant Valid() && certs == old(certs) + list[..i]
      {
        ExtendIndexed(certs, certsByName, list[i]);
        certsByName := Extend(certs, certsByName, list[i]);
        certs := certs + [list[i]];
        assert list[..i + 1] == list[..i] + [list[i]];
      }
    }

    method Add(ins: seq<Option<Cert>>)
      requires Valid()
      modifies this`certs, this`certsByName, this`dirty
      ensures Valid() && old(certs) <= certs && Contents(certs) == old(Contents(certs)) + Asked(ins)
      ensures dirty == (old(dirty) || certs != old(certs))
    {
      var toAdd := FilterCerts(ins);
      FilterCovers(Contents(certs), ins);
      if toAdd != [] {
        ContentsAppend(certs, toAdd);
        Append(toAdd);
        dirty := true;
      } else {
        NothingLeft(Asked(ins), Contents(certs));
      }
    }

    /** A new pool of the system's certificates and every queued one. */
    method SwapCertPool()
      modifies this`certPool
      ensures certPool == system + Contents(certs)
    {
      var newCertPool := system;
      for i := 0 to |certs|
        invariant newCertPool == system + Contents(certs[..i])
      {
        ContentsAppend(certs[..i], [certs[i]]);
        assert certs[..i + 1] == certs[..i] + [certs[i]];
        newCertPool := newCertPool + {certs[i].content};
      }
      assert certs[..|certs|] == certs;
      certPool := newCertPool;
    }
  }

  method RemoveDuplicates(certs: seq<Cert>) returns (result: seq<Cert>)
    ensures result == Distinct(certs)
  {
    var encountered: set<Cert> := {};
    result := [];
    for v := 0 to |certs|
      invariant encountered == set c | c in certs[..v]
      invariant result == Distinct(certs[..v])
    {
      assert certs[..v + 1] == certs[..v] + [certs[v]] && certs[..v + 1][..v] == certs[..v];
      if certs[v] !in encountered {
        encountered := encountered + {certs[v]};
        result := result + [certs[v]];
      }
    }
    assert certs[..|certs|] == certs;
  }

  // ----- any number of threads -----

  /** Where a thread stands inside Get, or inside Add with what it was asked for and the certificates left to store. */
  datatype Thread =
    | Idle
    | Waiting(asked: set<Content>, list: seq<Cert>)    // filtered, about to take the lock
    | Appending(asked: set<Content>, list: seq<Cert>)  // holds the lock
    | Flagging(asked: set<Content>)                    // holds the lock, about to set the flag
    | Releasing(asked: set<Content>)                   // holds the lock, flag set
    | Swapping                                         // has cleared the flag, about to rebuild the pool
    | Reading                                          // about to read the pool
    | Got(pool: set<Content>)                          // Get returned this pool

  /** promised is bookkeeping: what completed calls of Add were asked to add. */
  datatype State = State(
    certs: seq<Cert>,
    byName: map<bytes, seq<nat>>,
    pool: set<Content>,
    dirty: bool,
    lock: Option<nat>,
    threads: seq<Thread>,
    promised: set<Content>)

  datatype Action =
    | AddFilter(t: nat, ins: seq<Option<Cert>>)
    | AddLock(t: nat)
    | AddAppend(t: nat)
    | AddFlag(t: nat)
    | AddUnlock(t: nat)
    | GetSwap(t: nat)
    | GetRebuild(t: nat)
    | GetLoadError(t: nat)
    | GetRead(t: nat)

  predicate Ready(th: Thread) {
    th.Idle? || th.Got?
  }

  function Put(s: State, t: nat, th: Thread): (r: State)
    requires t < |s.threads|
  {
    s.(threads := s.threads[t := th])
  }

  /** One atomic step; errors says whether loading the system's certificates may fail. */
  function Step(system: set<Content>, errors: bool, s: State, a: Action): (r: Option<State>) {
    if a.t >= |s.threads| then None else
    var t, th := a.t, s.threads[a.t];
    match a
    case AddFilter(_, ins) =>
      if !Ready(th) || s.lock.Some? then None
      else
        var list := Distinct(Unknown(Contents(s.certs), ins));
        if list == [] then Some(Put(s, t, Idle).(promised := s.promised + Asked(ins)))
        else Some(Put(s, t, Waiting(Asked(ins), list)))
    case AddLock(_) =>
      if !th.Waiting? || s.lock.Some? then None
      else Some(Put(s, t, Appending(th.asked, th.list)).(lock := Some(t)))
    case AddAppend(_) =>
      if !th.Appending? then None
      else if th.list == [] then Some(Put(s, t, Flagging(th.asked)))
      else
        var c := th.list[0];
        var s' := s.(certs := s.certs + [c], byName := Extend(s.certs, s.byName, c));
        Some(Put(s', t, Appending(th.asked, th.list[1..])))
    case AddFlag(_) =>
      if !th.Flagging? then None
      else Some(Put(s, t, Releasing(th.asked)).(dirty := true))
    case AddUnlock(_) =>
      if !th.Releasing? then None
      else Some(Put(s, t, Idle).(lock := None, promised := s.promised + th.asked))
    case GetSwap(_) =>
      if !Ready(th) then None
      else if s.dirty then Some(Put(s, t, Swapping).(dirty := false))
      else Some(Put(s, t, Reading))
    case GetRebuild(_) =>
      if !th.Swapping? || s.lock.Some? then None
      else Some(Put(s, t, Reading).(pool := system + Contents(s.certs)))
    case GetLoadError(_) =>
      if !th.Swapping? || !errors then None else Some(Put(s, t, Idle))
    case GetRead(_) =>
      if !th.Reading? || s.lock.Some? then None else Some(Put(s, t, Got(s.pool)))
  }

  datatype Run = Begin(n: nat) | Then(before: Run, a: Action)

  function After(system: set<Content>, errors: bool, r: Run): (s: Option<State>) {
    match r
    case Begin(n) => Some(State([], map[], system, false, None, seq(n, i => Idle), {}))
    case Then(r', a) =>
      var s := After(system, errors, r');
      if s.None? then None else Step(system, errors, s.value, a)
  }

  predicate Holds(th: Thread) {
    th.Appending? || th.Flagging? || th.Releasing?
  }

  /** Someone is about to bring the pool up to date, or to say that it is not. */
  ghost predicate Covered(s: State) {
    || s.dirty
    || (exists t :: 0 <= t < |s.threads| && (s.threads[t].Appending? || s.threads[t].Flagging?))
    || (exists t :: 0 <= t < |s.threads| && s.threads[t].Swapping?)
  }

  ghost predicate SomeSwapping(s: State) {
    exists t :: 0 <= t < |s.threads| && s.threads[t].Swapping?
  }

  /** What completed Adds asked for is in the pool, or the flag or a rebuilding Get says that it is not. */
  ghost predicate Upheld(s: State) {
    s.promised <= s.pool || s.dirty || SomeSwapping(s)
  }

  /** What an unfinished Add was asked for is stored or still on its list. */
  predicate Pending(s: State, th: Thread) {
    match th
    case Waiting(asked, list) => asked <= Contents(s.certs) + Contents(list)
    case Appending(asked, list) => asked <= Contents(s.certs) + Contents(list)
    case Flagging(asked) => asked <= Contents(s.certs)
    case Releasing(asked) => asked <= Contents(s.certs)
    case _ => true
  }

  ghost predicate Invariant(system: set<Content>, s: State) {
    && Indexed(s.certs, s.byName)
    && (forall t :: 0 <= t < |s.threads| ==> (Holds(s.threads[t]) <==> s.lock == Some(t)))
    && (forall t :: 0 <= t < |s.threads| ==> Pending(s, s.threads[t]))
    && s.promised <= Contents(s.certs)
    && system <= s.pool
    && (Contents(s.certs) <= s.pool || Covered(s))
    && Upheld(s)
  }

  lemma {:induction false} StepPending(system: set<Content>, s: State, a: Action)
    requires Invariant(system, s) && Step(system, false, s, a).Some?
    ensures var s' := Step(system, false, s, a).value;
            && (forall t :: 0 <= t < |s'.threads| ==> Pending(s', s'.threads[t]))
            && s'.promised <= Contents(s'.certs) && Contents(s.certs) <= Contents(s'.certs)
  {
    var s' := Step(system, false, s, a).value;
    var th := s.threads[a.t];
    assert Pending(s, th);
    if a.AddFilter? {
      FilterCovers(Contents(s.certs), a.ins);
      if Distinct(Unknown(Contents(s.certs), a.ins)) == [] { NothingLeft(Asked(a.ins), Contents(s.certs)); }
    } else if a.AddAppend? && th.list != [] {
      ContentsAppend(s.certs, [th.list[0]]);
      ContentsAppend([th.list[0]], th.list[1..]);
      assert th.list == [th.list[0]] + th.list[1..];
    }
    forall t | 0 <= t < |s'.threads|
      ensures Pending(s', s'.threads[t])
    {
      assert Pending(s, s.threads[t]);
    }
  }

  lemma {:induction false} StepCovered(system: set<Content>, s: State, a: Action)
    requires Invariant(system, s) && Step(system, false, s, a).Some?
    ensures var s' := Step(system, false, s, a).value; Contents(s'.certs) <= s'.pool || Covered(s')
  {
    var s' := Step(system, false, s, a).value;
    var th' := s'.threads[a.t];
    if !(Contents(s.certs) <= s.pool) && !s.dirty {
      var t :| 0 <= t < |s.threads| && (s.threads[t].Appending? || s.threads[t].Flagging? || s.threads[t].Swapping?);
      assert t != a.t ==> s'.threads[t] == s.threads[t];
    }
    if th'.Appending? || th'.Flagging? || th'.Swapping? {
      assert Covered(s');
    }
  }

  /** While no Add is between storing and flagging, a pool that lacks a certificate is known to be out of date. */
  lemma {:induction false} FreeUpholds(system: set<Content>, s: State)
    requires Invariant(system, s)
    requires forall t :: 0 <= t < |s.threads| ==> !s.threads[t].Appending? && !s.threads[t].Flagging?
    ensures Contents(s.certs) <= s.pool || s.dirty || SomeSwapping(s)
  {
  }

  lemma {:induction false} StepUpheld(system: set<Content>, s: State, a: Action)
    requires Invariant(system, s) && Step(system, false, s, a).Some?
    ensures Upheld(Step(system, false, s, a).value)
  {
    hide Contents, Distinct, Unknown, Asked, Extend, Indexed, Pending;
    var s' := Step(system, false, s, a).value;
    if a.AddFilter? || a.AddUnlock? {
      assert forall t :: 0 <= t < |s.threads| ==> (Holds(s.threads[t]) <==> s.lock == Some(t));
      FreeUpholds(system, s);
      StepPending(system, s, a);
    }
    if SomeSwapping(s) && !a.GetRebuild? {
      var t :| 0 <= t < |s.threads| && s.threads[t].Swapping?;
      assert s'.threads[t] == s.threads[t];
    }
    if s'.threads[a.t].Swapping? { assert SomeSwapping(s'); }
  }

  lemma {:induction false} StepInvariant(system: set<Content>, s: State, a: Action)
    requires Invariant(system, s) && Step(system, false, s, a).Some?
    ensures Invariant(system, Step(system, false, s, a).value)
  {
    var s' := Step(system, false, s, a).value;
    StepPending(system, s, a);
    StepCovered(system, s, a);
    StepUpheld(system, s, a);
    if a.AddAppend? && s.threads[a.t].list != [] {
      ExtendIndexed(s.certs, s.byName, s.threads[a.t].list[0]);
    }
    forall t | 0 <= t < |s'.threads|
      ensures Holds(s'.threads[t]) <==> s'.lock == Some(t)
    {
      assert Holds(s.threads[t]) <==> s.lock == Some(t);
      assert Holds(s.threads[a.t]) <==> s.lock == Some(a.t);
    }
  }

  /** In every interleaving a queued certificate missing from the pool is covered, and the index is exact. */
  lemma {:induction false} RunInvariant(system: set<Content>, r: Run)
    requires After(system, false, r).Some?
    ensures Invariant(system, After(system, false, r).value)
  {
    if r.Then? {
      RunInvariant(system, r.before);
      StepInvariant(system, After(system, false, r.before).value, r.a);
    }
  }

  predicate Quiet(s: State) {
    s.lock.None? && forall t :: 0 <= t < |s.threads| ==> Ready(s.threads[t])
  }

  /** Get run by thread t with nothing else in flight. */
  function GetAlone(system: set<Content>, s: State, t: nat): (pool: set<Content>)
    requires t < |s.threads| && Quiet(s)
  {
    var s1 := Step(system, false, s, GetSwap(t)).value;
    var s2 := if s1.threads[t].Swapping? then Step(system, false, s1, GetRebuild(t)).value else s1;
    Step(system, false, s2, GetRead(t)).value.threads[t].pool
  }

  /** Every run with loading as given leaves the pool complete for a caller that is alone. */
  ghost predicate AlwaysComplete(system: set<Content>, errors: bool) {
    forall r, t: nat :: After(system, errors, r).Some? ==>
      var s := After(system, errors, r).value;
      t < |s.threads| && Quiet(s) ==> s.promised <= GetAlone(system, s, t)
  }

  lemma {:induction false} Continue(system: set<Content>, errors: bool, r: Run, a: Action, threads: seq<Thread>)
    returns (r': Run)
    requires After(system, errors, r).Some?
    requires var s := Step(system, errors, After(system, errors, r).value, a); s.Some? && s.value.threads == threads
    ensures r' == Then(r, a) && After(system, errors, r') == Step(system, errors, After(system, errors, r).value, a)
    ensures After(system, errors, r').Some? && After(system, errors, r').value.threads == threads
  {
    r' := Then(r, a);
  }

  /** A run of two threads in which the first adds one certificate. */
  lemma {:induction false} AddOne(system: set<Content>, errors: bool, c: Cert) returns (r: Run)
    ensures After(system, errors, r).Some?
    ensures var s := After(system, errors, r).value;
            && s.threads == [Idle, Idle] && s.lock.None? && s.certs == [c]
            && s.pool == system && s.dirty && s.promised == {c.content}
  {
    var r3 := AppendOne(system, errors, c);
    hide After, Extend;
    var r4 := Continue(system, errors, r3, AddAppend(0), [Flagging({c.content}), Idle]);
    var r5 := Continue(system, errors, r4, AddFlag(0), [Releasing({c.content}), Idle]);
    r := Continue(system, errors, r5, AddUnlock(0), [Idle, Idle]);
  }

  lemma {:induction false} AppendOne(system: set<Content>, errors: bool, c: Cert) returns (r: Run)
    ensures After(system, errors, r).Some?
    ensures var s := After(system, errors, r).value;
            && s.threads == [Appending({c.content}, []), Idle] && s.lock == Some(0)
            && s.certs == [c] && s.pool == system && !s.dirty && s.promised == {}
  {
    hide After, Distinct, Unknown, Asked, Contents, Extend;
    var r1 := WaitOne(system, errors, c);
    var r2 := Continue(system, errors, r1, AddLock(0), [Appending({c.content}, [c]), Idle]);
    assert [c][1..] == [];
    r := Continue(system, errors, r2, AddAppend(0), [Appending({c.content}, []), Idle]);
  }

  lemma {:induction false} WaitOne(system: set<Content>, errors: bool, c: Cert) returns (r: Run)
    ensures After(system, errors, r) ==
            Some(State([], map[], system, false, None, [Waiting({c.content}, [c]), Idle], {}))
  {
    var ins := [Some(c)];
    assert Asked(ins) == {c.content} by { assert Some(c) in ins; }
    FilterOne(c);
    var r0 := Begin(2);
    assert After(system, errors, r0).value.threads == [Idle, Idle];
    hide Distinct, Unknown, Asked, Contents;
    r := Continue(system, errors, r0, AddFilter(0, ins), [Waiting({c.content}, [c]), Idle]);
  }

  lemma {:induction false} FilterOne(c: Cert)
    ensures Distinct(Unknown(Contents([]), [Some(c)])) == [c]
  {
    var ins := [Some(c)];
    assert ins[..0] == [] && ins[0] == Some(c);
    assert Unknown(Contents([]), ins) == [c];
    assert [c][..0] == [];
  }

  /** A failed load loses the flag: the certificate stays out of the pool although nothing is in flight. */
  lemma {:induction false} LoadErrorLoses(system: set<Content>, c: Cert) returns (r: Run)
    requires c.content !in system
    ensures After(system, true, r).Some?
    ensures var s := After(system, true, r).value;
            |s.threads| == 2 && Quiet(s) && c.content in s.promised && c.content !in GetAlone(system, s, 0)
  {
    var r0 := AddOne(system, true, c);
    var r1 := Continue(system, true, r0, GetSwap(0), [Swapping, Idle]);
    r := Continue(system, true, r1, GetLoadError(0), [Idle, Idle]);
  }

  /** Being alone matters: a Get that overlaps another one may miss a certificate whose Add had returned. */
  lemma {:induction false} OverlappingGetMisses(system: set<Content>, c: Cert) returns (r: Run)
    requires c.content !in system
    ensures After(system, false, r).Some?
    ensures var s := After(system, false, r).value; c.content in s.promised && s.threads == [Swapping, Got(system)]
  {
    var r0 := AddOne(system, false, c);
    var r1 := Continue(system, false, r0, GetSwap(0), [Swapping, Idle]);
    var r2 := Continue(system, false, r1, GetSwap(1), [Swapping, Reading]);
    r := Continue(system, false, r2, GetRead(1), [Swapping, Got(system)]);
  }

  /** Get, called alone, returns everything that completed calls of Add asked for, exactly when loading cannot fail. */
  lemma {:induction false} CompleteExactly(system: set<Content>, c: Cert, errors: bool)
    requires c.content !in system
    ensures AlwaysComplete(system, errors) <==> !errors
  {
    if errors {
      var r := LoadErrorLoses(system, c);
    } else {
      forall r, t: nat | After(system, false, r).Some? &&
        (var s := After(system, false, r).value; t < |s.threads| && Quiet(s))
        ensures var s := After(system, false, r).value; s.promised <= GetAlone(system, s, t)
      {
        RunInvariant(system, r);
      }
    }
  }

  // ----- a Get among any number of Adds and Gets -----

  /** r' continues r by one Get of thread t, begun at once, and by any steps of the other threads. */
  predicate SameGet(r': Run, r: Run, t: nat) {
    && r'.Then?
    && if r'.before == r && r'.a == GetSwap(t) then true
       else SameGet(r'.before, r, t) && (r'.a.t == t ==> r'.a.GetRebuild? || r'.a.GetRead?)
  }

  /** The flag is set, or nobody is about to rebuild the pool, or nothing promised is missing from it. */
  ghost predicate Reliable(s: State) {
    s.dirty || !SomeSwapping(s) || s.promised <= s.pool
  }

  /** Thread t is inside its Get and will return, or has returned, all of goal. */
  predicate Served(s: State, t: nat, goal: set<Content>) {
    t < |s.threads| &&
    match s.threads[t]
    case Swapping => true
    case Reading => goal <= s.pool
    case Got(pool) => goal <= pool
    case _ => false
  }

  lemma {:induction false} StepServed(system: set<Content>, s: State, a: Action, t: nat, goal: set<Content>)
    requires Invariant(system, s) && Step(system, false, s, a).Some?
    requires Served(s, t, goal) && goal <= s.promised && (a.t == t ==> a.GetRebuild? || a.GetRead?)
    ensures var s' := Step(system, false, s, a).value; Served(s', t, goal) && goal <= s'.promised
  {
    hide Contents, Distinct, Unknown, Asked, Extend, Indexed, Pending, Covered, Upheld;
  }

  lemma {:induction false} BeginServed(system: set<Content>, s: State, t: nat)
    requires Invariant(system, s) && t < |s.threads| && Ready(s.threads[t]) && Reliable(s)
    ensures var s' := Step(system, false, s, GetSwap(t));
            s'.Some? && Served(s'.value, t, s.promised) && s.promised <= s'.value.promised
  {
    hide Contents, Indexed, Pending, Covered;
  }

  /** A Get begun in a reliable state returns everything promised at that moment, whatever the other threads do. */
  lemma {:induction false} ReliableGet(system: set<Content>, r: Run, t: nat, r': Run)
    requires After(system, false, r).Some? && After(system, false, r').Some? && SameGet(r', r, t)
    requires var s := After(system, false, r).value; t < |s.threads| && Ready(s.threads[t]) && Reliable(s)
    ensures var goal := After(system, false, r).value.promised;
            Served(After(system, false, r').value, t, goal) && goal <= After(system, false, r').value.promised
    decreases r'
  {
    hide Step, Invariant, Reliable, Served;
    var s := After(system, false, r).value;
    RunInvariant(system, r'.before);
    if r'.before == r && r'.a == GetSwap(t) {
      BeginServed(system, s, t);
    } else {
      ReliableGet(system, r, t, r'.before);
      StepServed(system, After(system, false, r'.before).value, r'.a, t, s.promised);
    }
  }

  /** How many steps the thread that holds the lock still has to take. */
  function StepsLeft(s: State): (n: nat) {
    if s.lock.None? || s.lock.value >= |s.threads| then 0
    else
      match s.threads[s.lock.value]
      case Appending(_, list) => 3 + |list|
      case Flagging(_) => 2
      case _ => 1
  }

  /** What the thread that holds the lock does next. */
  function Onward(s: State): (a: Action)
    requires s.lock.Some? && s.lock.value < |s.threads|
  {
    var t := s.lock.value;
    match s.threads[t]
    case Appending(_, _) => AddAppend(t)
    case Flagging(_) => AddFlag(t)
    case _ => AddUnlock(t)
  }

  lemma {:induction false} OnwardStep(system: set<Content>, s: State, t: nat)
    requires Invariant(system, s) && s.lock.Some? && s.lock.value < |s.threads| && t < |s.threads|
             && s.threads[t].Reading?
    ensures var a := Onward(s);
            var s' := Step(system, false, s, a);
            && s'.Some? && a.t != t && s'.value.pool == s.pool && StepsLeft(s'.value) < StepsLeft(s)
            && |s'.value.threads| == |s.threads| && s'.value.threads[t].Reading?
            && (s'.value.lock.None? || s'.value.lock == s.lock)
  {
    hide Contents, Indexed, Pending, Covered, Upheld, Extend;
    assert Holds(s.threads[s.lock.value]) <==> s.lock == Some(s.lock.value);
  }

  /** While t waits to read, a running Add can finish without changing the pool. */
  lemma {:induction false} FinishAdd(system: set<Content>, r: Run, t: nat, r1: Run) returns (r': Run)
    requires After(system, false, r1).Some? && SameGet(r1, r, t)
    requires var s := After(system, false, r1).value;
             t < |s.threads| && s.threads[t].Reading? && (s.lock.Some? ==> s.lock.value < |s.threads|)
    ensures After(system, false, r').Some? && SameGet(r', r, t)
    ensures var s, s' := After(system, false, r1).value, After(system, false, r').value;
            s'.lock.None? && s'.pool == s.pool && t < |s'.threads| && s'.threads[t].Reading?
    decreases StepsLeft(After(system, false, r1).value)
  {
    hide Step, Invariant, StepsLeft, Onward;
    var s := After(system, false, r1).value;
    if s.lock.None? {
      r' := r1;
    } else {
      RunInvariant(system, r1);
      OnwardStep(system, s, t);
      r' := FinishAdd(system, r, t, Then(r1, Onward(s)));
    }
  }

  lemma {:induction false} LockInRange(system: set<Content>, errors: bool, r: Run)
    requires After(system, errors, r).Some?
    ensures var s := After(system, errors, r).value; s.lock.Some? ==> s.lock.value < |s.threads|
  {
    if r.Then? { LockInRange(system, errors, r.before); }
  }

  /** In any other state the Get of an idle thread can miss something promised. */
  lemma {:induction false} UnreliableGet(system: set<Content>, r: Run, t: nat) returns (r': Run)
    requires After(system, false, r).Some?
    requires var s := After(system, false, r).value; t < |s.threads| && Ready(s.threads[t]) && !Reliable(s)
    ensures After(system, false, r').Some? && SameGet(r', r, t)
    ensures var s, s' := After(system, false, r).value, After(system, false, r').value;
            t < |s'.threads| && s'.threads[t].Got? && !(s.promised <= s'.threads[t].pool)
  {
    var r1 := Then(r, GetSwap(t));
    LockInRange(system, false, r);
    var r2 := FinishAdd(system, r, t, r1);
    r' := Then(r2, GetRead(t));
  }

  /** Every way the Get of thread t, begun at the end of r, can end returns all that was promised when it began. */
  ghost predicate GetsAll(system: set<Content>, r: Run, t: nat)
    requires After(system, false, r).Some?
  {
    forall r' :: SameGet(r', r, t) && After(system, false, r').Some? ==>
      var s' := After(system, false, r').value;
      t < |s'.threads| && s'.threads[t].Got? ==> After(system, false, r).value.promised <= s'.threads[t].pool
  }

  /**
   Whatever Adds and Gets run beside it, a Get returns all that completed Adds were asked for before it began, exactly
   when it begins in a reliable state; in particular when no other Get is between its compare-and-swap and its swap.
   */
  lemma {:induction false} OverlapExactly(system: set<Content>, r: Run, t: nat)
    requires After(system, false, r).Some?
    requires var s := After(system, false, r).value; t < |s.threads| && Ready(s.threads[t])
    ensures GetsAll(system, r, t) <==> Reliable(After(system, false, r).value)
  {
    hide Reliable, SameGet, After;
    if Reliable(After(system, false, r).value) {
      forall r' | SameGet(r', r, t) && After(system, false, r').Some?
        ensures Served(After(system, false, r').value, t, After(system, false, r).value.promised)
      {
        ReliableGet(system, r, t, r');
      }
    } else {
      var r' := UnreliableGet(system, r, t);
    }
  }

  // ----- what completed calls of Add asked for, as the run says -----

  /** What the last Add that thread t began was asked for. */
  function LastAsked(r: Run, t: nat): (asked: set<Content>) {
    match r
    case Begin(_) => {}
    case Then(r', a) => if a.AddFilter? && a.t == t then Asked(a.ins) else LastAsked(r', t)
  }

  /** An Add completes when it unlocks, or at once when everything asked for is stored already. */
  function CompletedAsks(system: set<Content>, errors: bool, r: Run): (asked: set<Content>) {
    match r
    case Begin(_) => {}
    case Then(r', a) =>
      var before, s := CompletedAsks(system, errors, r'), After(system, errors, r');
      if a.AddUnlock? then before + LastAsked(r', a.t)
      else if a.AddFilter? && s.Some? && Asked(a.ins) <= Contents(s.value.certs) then before + Asked(a.ins)
      else before
  }

  /** A thread inside an Add remembers what the run asked of it. */
  predicate Remembers(r: Run, t: nat, th: Thread) {
    match th
    case Waiting(asked, _) => asked == LastAsked(r, t)
    case Appending(asked, _) => asked == LastAsked(r, t)
    case Flagging(asked) => asked == LastAsked(r, t)
    case Releasing(asked) => asked == LastAsked(r, t)
    case _ => true
  }

  /** An Add has nothing to do exactly when everything it is asked for is stored. */
  lemma {:induction false} NothingToAdd(known: set<Content>, ins: seq<Option<Cert>>)
    ensures Distinct(Unknown(known, ins)) == [] <==> Asked(ins) <= known
  {
    var ds := Distinct(Unknown(known, ins));
    FilterCovers(known, ins);
    if ds == [] {
      NothingLeft(Asked(ins), known);
    } else {
      assert ds[0].content in Contents(ds);
    }
  }

  lemma {:induction false} StepPromises(system: set<Content>, errors: bool, r: Run, s: State, a: Action)
    requires Step(system, errors, s, a).Some?
    requires forall t :: 0 <= t < |s.threads| ==> Remembers(r, t, s.threads[t])
    ensures var s' := Step(system, errors, s, a).value;
            && (forall t :: 0 <= t < |s'.threads| ==> Remembers(Then(r, a), t, s'.threads[t]))
            && s'.promised == s.promised +
                 if a.AddUnlock? then LastAsked(r, a.t)
                 else if a.AddFilter? && Asked(a.ins) <= Contents(s.certs) then Asked(a.ins)
                 else {}
  {
    hide Distinct, Unknown, Asked, Contents, Extend;
    var s' := Step(system, errors, s, a).value;
    if a.AddFilter? { NothingToAdd(Contents(s.certs), a.ins); }
    assert Remembers(r, a.t, s.threads[a.t]);
    forall t | 0 <= t < |s'.threads|
      ensures Remembers(Then(r, a), t, s'.threads[t])
    {
      assert Remembers(r, t, s.threads[t]);
    }
  }

  /** What is promised is exactly what the completed calls of Add in the run were asked for. */
  lemma {:induction false} PromisedIsAsked(system: set<Content>, errors: bool, r: Run)
    requires After(system, errors, r).Some?
    ensures var s := After(system, errors, r).value;
            && s.promised == CompletedAsks(system, errors, r)
            && forall t :: 0 <= t < |s.threads| ==> Remembers(r, t, s.threads[t])
  {
    if r.Then? {
      PromisedIsAsked(system, errors, r.before);
      var s := After(system, errors, r.before).value;
      StepPromises(system, errors, r.before, s, r.a);
      hide Step, Remembers;
      var s' := After(system, errors, r).value;
      assert s'.promised == CompletedAsks(system, errors, r);
    }
  }

  // ----- nothing comes from nowhere, and the lock excludes -----

  /** Everything that any call of Add in the run was asked for. */
  function AllAsked(r: Run): (asked: set<Content>) {
    match r
    case Begin(_) => {}
    case Then(r', a) => AllAsked(r') + if a.AddFilter? then Asked(a.ins) else {}
  }

  /** What a thread still has to store, or has been given. */
  function Carries(th: Thread): (cs: set<Content>) {
    match th
    case Waiting(_, list) => Contents(list)
    case Appending(_, list) => Contents(list)
    case Got(pool) => pool
    case _ => {}
  }

  ghost predicate Sourced(known: set<Content>, s: State) {
    && Contents(s.certs) <= known && s.pool <= known
    && forall t :: 0 <= t < |s.threads| ==> Carries(s.threads[t]) <= known
  }

  lemma {:induction false} StoreOne(certs: seq<Cert>, list: seq<Cert>)
    requires list != []
    ensures Contents(certs + [list[0]]) <= Contents(certs) + Contents(list) && Contents(list[1..]) <= Contents(list)
  {
    ContentsAppend(certs, [list[0]]);
    ContentsAppend([list[0]], list[1..]);
    assert list == [list[0]] + list[1..];
  }

  lemma {:induction false} StepSourced(system: set<Content>, errors: bool, known: set<Content>, s: State, a: Action)
    requires Step(system, errors, s, a).Some? && Sourced(known, s) && system <= known
    ensures Sourced(known + (if a.AddFilter? then Asked(a.ins) else {}), Step(system, errors, s, a).value)
  {
    hide Contents, Distinct, Unknown, Asked, Extend;
    var s' := Step(system, errors, s, a).value;
    var th, known' := s.threads[a.t], known + if a.AddFilter? then Asked(a.ins) else {};
    assert Carries(th) <= known;
    if a.AddFilter? {
      FilterCovers(Contents(s.certs), a.ins);
    } else if a.AddAppend? && th.Appending? && th.list != [] {
      StoreOne(s.certs, th.list);
    }
    assert Carries(s'.threads[a.t]) <= known';
    assert forall t :: 0 <= t < |s.threads| && t != a.t ==> s'.threads[t] == s.threads[t];
  }

  /** In every run what is stored, and every pool that is built or returned, was asked for or is the system's. */
  lemma {:induction false} NothingInvented(system: set<Content>, errors: bool, r: Run)
    requires After(system, errors, r).Some?
    ensures Sourced(system + AllAsked(r), After(system, errors, r).value)
  {
    match r
    case Begin(n) => assert Contents([]) == {};
    case Then(r', a) =>
      NothingInvented(system, errors, r');
      hide Step, Sourced, Asked;
      StepSourced(system, errors, system + AllAsked(r'), After(system, errors, r').value, a);
      assert system + AllAsked(r) ==
             system + AllAsked(r') + (if a.AddFilter? then Asked(a.ins) else {});
  }

  /** No thread filters, rebuilds or reads while another is storing, and no two threads store at once. */
  lemma {:induction false} Exclusion(system: set<Content>, r: Run, a: Action, t: nat, u: nat)
    requires After(system, false, r).Some? && t < |After(system, false, r).value.threads|
    requires Holds(After(system, false, r).value.threads[t])
    ensures a.AddFilter? || a.AddLock? || a.GetRebuild? || a.GetRead? ==> After(system, false, Then(r, a)).None?
    ensures var s := After(system, false, r).value; u < |s.threads| && Holds(s.threads[u]) ==> u == t
  {
    hide Contents, Indexed, Pending, Covered, Upheld, Distinct, Unknown, Asked;
    RunInvariant(system, r);
    var s := After(system, false, r).value;
    assert Holds(s.threads[t]) <==> s.lock == Some(t);
    if u < |s.threads| { assert Holds(s.threads[u]) <==> s.lock == Some(u); }
  }
}
