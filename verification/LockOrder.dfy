/** Concurrent batches lock leaf rows in hash order and keep them until they end: no set of them waits in a circle. */
module LockOrder {
  import opened Bytes
  import opened LogTables

  /** A batch: its hashes in insertion order, how many it has treated, the locks it holds, and whether it has ended. */
  datatype Batch = Batch(order: seq<Hash>, done: nat, held: set<Hash>, ended: bool)

  datatype Action =
    | Insert(t: nat)  // inserts the next row and locks it
    | Skip(t: nat)    // finds the next row committed by someone else: a duplicate, no lock
    | Commit(t: nat)  // all rows treated: releases all locks
    | Abort(t: nat)   // rolled back at any point: releases all locks

  predicate Ordered(order: seq<Hash>) {
    forall i, j :: 0 <= i < j < |order| ==> !Less(order[j], order[i])
  }

  /** The order that sortLeavesForInsert gives a batch. */
  function HashesInOrder(leaves: seq<Leaf>, ord: seq<nat>): (hs: seq<Hash>)
    requires IsInsertOrder(leaves, ord)
    ensures |hs| == |leaves| && Ordered(hs)
  {
    seq(|ord|, k requires 0 <= k < |ord| => leaves[ord[k]].identity)
  }

  predicate HeldByOther(bs: seq<Batch>, t: nat, h: Hash) {
    exists u :: 0 <= u < |bs| && u != t && h in bs[u].held
  }

  /** One step; an insert whose row another batch has locked has to wait. */
  function Step(bs: seq<Batch>, a: Action): (r: Option<seq<Batch>>) {
    if a.t >= |bs| || bs[a.t].ended then None else
    var t, b := a.t, bs[a.t];
    match a
    case Insert(_) =>
      if b.done >= |b.order| || HeldByOther(bs, t, b.order[b.done]) then None
      else Some(bs[t := b.(done := b.done + 1, held := b.held + {b.order[b.done]})])
    case Skip(_) =>
      if b.done >= |b.order| || HeldByOther(bs, t, b.order[b.done]) then None
      else Some(bs[t := b.(done := b.done + 1)])
    case Commit(_) =>
      if b.done < |b.order| then None else Some(bs[t := b.(held := {}, ended := true)])
    case Abort(_) =>
      Some(bs[t := b.(held := {}, ended := true)])
  }

  datatype Run = Begin(orders: seq<seq<Hash>>) | Then(before: Run, a: Action)

  function After(r: Run): (bs: Option<seq<Batch>>) {
    match r
    case Begin(orders) => Some(seq(|orders|, i requires 0 <= i < |orders| => Batch(orders[i], 0, {}, false)))
    case Then(r', a) =>
      var bs := After(r');
      if bs.None? then None else Step(bs.value, a)
  }

  predicate AllOrdered(r: Run) {
    match r
    case Begin(orders) => forall i :: 0 <= i < |orders| ==> Ordered(orders[i])
    case Then(r', _) => AllOrdered(r')
  }

  /** Batch t cannot insert its next row because u holds it. */
  predicate Waits(bs: seq<Batch>, t: nat, u: nat) {
    && t < |bs| && u < |bs| && t != u
    && !bs[t].ended && bs[t].done < |bs[t].order|
    && bs[t].order[bs[t].done] in bs[u].held
  }

  // ----- the invariant -----

  predicate Proper(b: Batch) {
    && Ordered(b.order) && b.done <= |b.order|
    && (forall h :: h in b.held ==> h in b.order[..b.done])
    && (b.ended ==> b.held == {})
  }

  predicate Invariant(bs: seq<Batch>) {
    && (forall t :: 0 <= t < |bs| ==> Proper(bs[t]))
    && (forall t, u :: 0 <= t < u < |bs| ==> bs[t].held !! bs[u].held)
  }

  lemma {:induction false} StepInvariant(bs: seq<Batch>, a: Action)
    requires Invariant(bs) && Step(bs, a).Some?
    ensures Invariant(Step(bs, a).value)
  {
    var bs', b := Step(bs, a).value, bs[a.t];
    assert Proper(b);
    if a.Insert? || a.Skip? {
      assert b.order[..b.done + 1] == b.order[..b.done] + [b.order[b.done]];
      assert forall u :: 0 <= u < |bs| && u != a.t ==> b.order[b.done] !in bs[u].held;
    }
    assert Proper(bs'[a.t]);
  }

  lemma {:induction false} RunInvariant(r: Run)
    requires AllOrdered(r) && After(r).Some?
    ensures Invariant(After(r).value)
  {
    if r.Then? {
      RunInvariant(r.before);
      StepInvariant(After(r.before).value, r.a);
    }
  }

  // ----- no circle -----

  function Wanted(bs: seq<Batch>, t: nat): (h: Hash)
    requires t < |bs| && bs[t].done < |bs[t].order|
  {
    bs[t].order[bs[t].done]
  }

  /** What a batch holds is never above what it wants next. */
  lemma {:induction false} HeldBelow(bs: seq<Batch>, u: nat, h: Hash)
    requires Invariant(bs) && u < |bs| && bs[u].done < |bs[u].order|
    ensures h in bs[u].held ==> !Less(Wanted(bs, u), h)
  {
    assert Proper(bs[u]);
    var locked := bs[u].order[..bs[u].done];
    if i :| 0 <= i < |locked| && locked[i] == h {
      assert bs[u].order[i] == h;
    }
  }

  /** A batch that is blocked does not itself hold what it waits for. */
  lemma {:induction false} WaitsForOthers(bs: seq<Batch>, t: nat, u: nat)
    requires Invariant(bs) && Waits(bs, t, u)
    ensures Wanted(bs, t) !in bs[t].held
  {
    if t < u { assert bs[t].held !! bs[u].held; } else { assert bs[u].held !! bs[t].held; }
  }

  /** u has a next row that it does not hold yet. */
  predicate Unfinished(bs: seq<Batch>, u: nat) {
    u < |bs| && bs[u].done < |bs[u].order| && Wanted(bs, u) !in bs[u].held
  }

  lemma {:induction false} WaitingClimbs(bs: seq<Batch>, t: nat, u: nat)
    requires Invariant(bs) && Waits(bs, t, u) && Unfinished(bs, u)
    ensures Less(Wanted(bs, t), Wanted(bs, u))
  {
    HeldBelow(bs, u, Wanted(bs, t));
    LessTotal(Wanted(bs, t), Wanted(bs, u));
  }

  predicate WaitingChain(bs: seq<Batch>, c: seq<nat>) {
    forall i :: 0 <= i < |c| - 1 ==> Waits(bs, c[i], c[i + 1])
  }

  /** Along a chain of waiting batches the wanted hashes grow strictly. */
  lemma {:induction false} ChainClimbs(bs: seq<Batch>, c: seq<nat>)
    requires Invariant(bs) && |c| >= 2 && WaitingChain(bs, c) && Unfinished(bs, c[|c| - 1])
    ensures Waits(bs, c[0], c[1]) && Less(Wanted(bs, c[0]), Wanted(bs, c[|c| - 1]))
    decreases |c|
  {
    assert Waits(bs, c[0], c[1]);
    if |c| == 2 {
      WaitingClimbs(bs, c[0], c[1]);
    } else {
      var d := c[1..];
      forall i | 0 <= i < |d| - 1
        ensures Waits(bs, d[i], d[i + 1])
      {
        assert Waits(bs, c[i + 1], c[i + 2]);
      }
      ChainClimbs(bs, d);
      WaitsForOthers(bs, d[0], d[1]);
      WaitingClimbs(bs, c[0], c[1]);
      LessTransitive(Wanted(bs, c[0]), Wanted(bs, c[1]), Wanted(bs, c[|c| - 1]));
    }
  }

  /** In no reachable state do batches wait for each other in a circle. */
  lemma {:induction false} NoCircularWait(r: Run, c: seq<nat>)
    requires AllOrdered(r) && After(r).Some? && c != [] && WaitingChain(After(r).value, c)
    ensures !Waits(After(r).value, c[|c| - 1], c[0])
  {
    RunInvariant(r);
    var bs, last := After(r).value, c[|c| - 1];
    if |c| >= 2 && last < |bs| {
      if Unfinished(bs, last) {
        ChainClimbs(bs, c);
        HeldBelow(bs, c[0], Wanted(bs, last));
      } else if bs[last].done < |bs[last].order| && c[0] < |bs| && c[0] != last {
        assert bs[c[0]].held !! bs[last].held by { Disjoint(bs, c[0], last); }
      }
    }
  }

  lemma {:induction false} Disjoint(bs: seq<Batch>, t: nat, u: nat)
    requires Invariant(bs) && t < |bs| && u < |bs| && t != u
    ensures bs[t].held !! bs[u].held
  {
    if u < t { assert bs[u].held !! bs[t].held; }
  }

  /** Sorting is what prevents it: two batches over the same hashes in opposite orders can block each other. */
  lemma {:induction false} UnorderedCanBlock(a: Hash, b: Hash) returns (r: Run)
    requires a != b
    ensures After(r).Some? && Waits(After(r).value, 0, 1) && Waits(After(r).value, 1, 0)
  {
    var r0 := Begin([[a, b], [b, a]]);
    var b0, b1 := Batch([a, b], 0, {}, false), Batch([b, a], 0, {}, false);
    var s0 := After(r0).value;
    assert |s0| == 2 && s0[0] == b0 && s0[1] == b1;
    assert s0 == [b0, b1];
    var r1 := Then(r0, Insert(0));
    assert !HeldByOther([b0, b1], 0, a) && b0.held + {a} == {a};
    var c0 := Batch([a, b], 1, {a}, false);
    assert [b0, b1][0 := c0] == [c0, b1];
    assert After(r1) == Some([c0, b1]);
    r := Then(r1, Insert(1));
    assert !HeldByOther([c0, b1], 1, b) && b1.held + {b} == {b};
    var c1 := Batch([b, a], 1, {b}, false);
    assert [c0, b1][1 := c1] == [c0, c1];
    assert After(r) == Some([c0, c1]);
  }

  // ----- no deadlock -----

  /** The next step of a batch, which has not ended. */
  function Onward(b: Batch, t: nat): (a: Action) {
    if b.done < |b.order| then Insert(t) else Commit(t)
  }

  /** Batch t can go on. */
  predicate CanStep(bs: seq<Batch>, t: nat) {
    t < |bs| && !bs[t].ended && Step(bs, Onward(bs[t], t)).Some?
  }

  /** From a batch that has not ended a chain of waiting batches leads to one that can go on. */
  lemma {:induction false} ChainEnds(bs: seq<Batch>, t: nat, above: set<nat>) returns (u: nat)
    requires Invariant(bs) && t < |bs| && !bs[t].ended && t !in above
    requires above <= Below(|bs|)
    requires forall i :: i in above ==> i < |bs| && bs[i].done < |bs[i].order|
    requires forall i :: i in above && bs[t].done < |bs[t].order| && Wanted(bs, t) !in bs[t].held ==>
               Less(Wanted(bs, i), Wanted(bs, t))
    ensures CanStep(bs, u)
    decreases |bs| - |above|
  {
    BoundedSet(above, |bs|, t);
    if CanStep(bs, t) {
      u := t;
    } else {
      var v :| 0 <= v < |bs| && v != t && bs[t].order[bs[t].done] in bs[v].held;
      assert Waits(bs, t, v);
      assert Proper(bs[v]);
      WaitsForOthers(bs, t, v);
      if v in above {
        HeldBelow(bs, v, Wanted(bs, t));
        LessAsymmetric(Wanted(bs, v), Wanted(bs, t));
      }
      forall i | i in above + {t} && Unfinished(bs, v)
        ensures Less(Wanted(bs, i), Wanted(bs, v))
      {
        WaitingClimbs(bs, t, v);
        if i != t { LessTransitive(Wanted(bs, i), Wanted(bs, t), Wanted(bs, v)); }
      }
      u := ChainEnds(bs, v, above + {t});
    }
  }

  lemma {:induction false} BoundedSet(above: set<nat>, n: nat, t: nat)
    requires above <= Below(n) && t < n && t !in above
    ensures |above| < n
  {
    SubsetSize(above + {t}, Below(n));
  }

  /** In every reachable state, unless all batches have ended, some batch can go on. */
  lemma {:induction false} NoDeadlock(r: Run, t: nat) returns (u: nat)
    requires AllOrdered(r) && After(r).Some? && t < |After(r).value| && !After(r).value[t].ended
    ensures CanStep(After(r).value, u)
  {
    RunInvariant(r);
    u := ChainEnds(After(r).value, t, {});
  }

  // ----- what is locked, as the run says -----

  /** The hashes that the run let batch t insert. */
  function Inserted(r: Run, t: nat): (hs: set<Hash>) {
    match r
    case Begin(_) => {}
    case Then(r', a) =>
      var bs := After(r');
      if a == Insert(t) && bs.Some? && t < |bs.value| && bs.value[t].done < |bs.value[t].order|
      then Inserted(r', t) + {Wanted(bs.value, t)} else Inserted(r', t)
  }

  /** A batch holds exactly the rows it has inserted until it ends, and treats its hashes one at a time. */
  lemma {:induction false} HeldExactly(r: Run, t: nat)
    requires After(r).Some? && t < |After(r).value|
    ensures var b := After(r).value[t]; b.held == (if b.ended then {} else Inserted(r, t)) && b.done == Treated(r, t)
  {
    if r.Then? {
      assert |After(r.before).value| == |After(r).value|;
      HeldExactly(r.before, t);
      hide HeldByOther;
    }
  }

  /** How many hashes batch t has inserted or found to be there. */
  function Treated(r: Run, t: nat): (n: nat) {
    match r
    case Begin(_) => 0
    case Then(r', a) => Treated(r', t) + if a == Insert(t) || a == Skip(t) then 1 else 0
  }

  /** The run lets batch t commit. */
  predicate Commits(r: Run, t: nat) {
    r.Then? && (r.a == Commit(t) || Commits(r.before, t))
  }

  /** A batch that commits has treated all of its hashes. */
  lemma {:induction false} CommitTreatsAll(r: Run, t: nat)
    requires After(r).Some? && t < |After(r).value| && Commits(r, t)
    ensures After(r).value[t].ended && Treated(r, t) >= |After(r).value[t].order|
  {
    assert |After(r.before).value| == |After(r).value|;
    HeldExactly(r.before, t);
    if r.a != Commit(t) { CommitTreatsAll(r.before, t); }
    hide HeldByOther;
  }
}
