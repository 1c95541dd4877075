/** Revisioned subtrees: a commit writes at its own revision, and a read sees the latest one not above its revision. */
module SubtreeStorage {
  import opened Bytes

  type Id = bytes
  type Nodes = bytes

  datatype RowKey = RowKey(id: Id, revision: int)

  type Subtrees = map<RowKey, Nodes>

  // ----- reading -----

  /** The row the query selects for an id: greatest revision not above the one asked for. */
  ghost predicate IsLatest(t: Subtrees, id: Id, revision: int, v: int) {
    && v <= revision && RowKey(id, v) in t
    && forall w :: v < w <= revision ==> RowKey(id, w) !in t
  }

  /** Revisions are never negative. */
  function ReadAt(t: Subtrees, id: Id, revision: int): (r: Option<Nodes>)
    decreases revision
  {
    if revision < 0 then None
    else if RowKey(id, revision) in t then Some(t[RowKey(id, revision)])
    else ReadAt(t, id, revision - 1)
  }

  lemma {:induction false} ReadIsLatest(t: Subtrees, id: Id, revision: int, v: int)
    requires 0 <= v && IsLatest(t, id, revision, v)
    ensures ReadAt(t, id, revision) == Some(t[RowKey(id, v)])
    decreases revision
  {
    if v < revision { ReadIsLatest(t, id, revision - 1, v); }
  }

  /** Nothing is read exactly when no row of the id has a revision up to the one asked for. */
  lemma {:induction false} ReadsNothing(t: Subtrees, id: Id, revision: int)
    ensures ReadAt(t, id, revision).None? <==> forall v :: 0 <= v <= revision ==> RowKey(id, v) !in t
    decreases revision
  {
    if revision >= 0 { ReadsNothing(t, id, revision - 1); }
  }

  /** One row for each requested id that has a subtree at the revision; no row for the others. */
  method GetSubtrees(t: Subtrees, revision: int, ids: seq<Id>) returns (rows: seq<(Id, Nodes)>)
    ensures forall i, j :: 0 <= i < j < |rows| ==> rows[i].0 != rows[j].0
    ensures forall i :: 0 <= i < |rows| ==> rows[i].0 in ids && ReadAt(t, rows[i].0, revision) == Some(rows[i].1)
    ensures forall id :: id in ids && ReadAt(t, id, revision).Some? ==> exists i :: 0 <= i < |rows| && rows[i].0 == id
  {
    rows := [];
    var left := SetOf(ids);
    while left != {}
      invariant left <= SetOf(ids)
      invariant forall i, j :: 0 <= i < j < |rows| ==> rows[i].0 != rows[j].0
      invariant forall i :: 0 <= i < |rows| ==>
                  rows[i].0 in ids && rows[i].0 !in left && ReadAt(t, rows[i].0, revision) == Some(rows[i].1)
      invariant forall id :: id in ids && id !in left && ReadAt(t, id, revision).Some? ==>
                  exists i :: 0 <= i < |rows| && rows[i].0 == id
      decreases left
    {
      var id :| id in left;
      left := left - {id};
      var r := ReadAt(t, id, revision);
      if r.Some? {
        ghost var before := rows;
        rows := rows + [(id, r.value)];
        assert rows[|before|].0 == id && forall i :: 0 <= i < |before| ==> rows[i] == before[i];
      }
    }
  }

  // ----- transactions -----

  /** A transaction that will store a new root; base is the revision of the root it read when it began. */
  datatype Tx = NotBegun | Open(base: int) | Committed(base: int) | Failed

  /** log is bookkeeping: the subtrees written by the commits so far, in order. */
  datatype State = State(subtrees: Subtrees, heads: set<int>, revision: int, txs: seq<Tx>, log: seq<map<Id, Nodes>>)

  datatype Action = Begin(t: nat) | Commit(t: nat, writes: map<Id, Nodes>) | Rollback(t: nat)

  function Write(t: Subtrees, revision: int, writes: map<Id, Nodes>): (r: Subtrees) {
    t + map id | id in writes :: RowKey(id, revision) := writes[id]
  }

  /** Some row of the multi-row insert is already there. */
  predicate Collides(t: Subtrees, revision: int, writes: map<Id, Nodes>) {
    exists id :: id in writes && RowKey(id, revision) in t
  }

  /** One step; a commit writes its head and its subtrees at the revision after its base, or fails on a primary key. */
  function Step(s: State, a: Action): (r: Option<State>) {
    if a.t >= |s.txs| then None else
    match a
    case Begin(t) =>
      if s.txs[t].NotBegun? then Some(s.(txs := s.txs[t := Open(s.revision)])) else None
    case Commit(t, writes) =>
      if !s.txs[t].Open? then None
      else
        var base := s.txs[t].base;
        if base + 1 in s.heads || Collides(s.subtrees, base + 1, writes) then Some(s.(txs := s.txs[t := Failed]))
        else Some(State(Write(s.subtrees, base + 1, writes), s.heads + {base + 1}, base + 1,
            s.txs[t := Committed(base)], s.log + [writes]))
    case Rollback(t) =>
      if s.txs[t].Open? then Some(s.(txs := s.txs[t := Failed])) else None
  }

  datatype Run = Start(n: nat) | Then(before: Run, a: Action)

  function After(r: Run): (s: Option<State>) {
    match r
    case Start(n) => Some(State(map[], {0}, 0, seq(n, i => NotBegun), []))
    case Then(r', a) =>
      var s := After(r');
      if s.None? then None else Step(s.value, a)
  }

  // ----- what every history keeps -----

  /** The table holds exactly what the commits wrote, the i-th one at revision i + 1. */
  ghost predicate Faithful(s: State) {
    && |s.log| == s.revision
    && (forall k :: k in s.subtrees <==> 1 <= k.revision <= |s.log| && k.id in s.log[k.revision - 1])
    && (forall k :: k in s.subtrees ==> s.subtrees[k] == s.log[k.revision - 1][k.id])
  }

  ghost predicate OneEach(s: State) {
    && s.revision >= 0
    && (forall v :: v in s.heads <==> 0 <= v <= s.revision)
    && (forall t :: 0 <= t < |s.txs| && s.txs[t].Open? ==> 0 <= s.txs[t].base <= s.revision)
    && (forall t :: 0 <= t < |s.txs| && s.txs[t].Committed? ==> 0 <= s.txs[t].base < s.revision)
    && (forall t, u :: 0 <= t < u < |s.txs| && s.txs[t].Committed? && s.txs[u].Committed? ==>
        s.txs[t].base != s.txs[u].base)
  }

  lemma {:induction false} StepKeeps(s: State, a: Action)
    requires Faithful(s) && OneEach(s) && Step(s, a).Some?
    ensures Faithful(Step(s, a).value) && OneEach(Step(s, a).value)
  {
    hide Write;
    if a.Commit? {
      var base := s.txs[a.t].base;
      var s' := Step(s, a).value;
      if s'.txs[a.t].Committed? {
        assert base == s.revision;
        WriteRows(s.subtrees, base + 1, a.writes);
        assert forall i :: 0 <= i < |s.log| ==> s'.log[i] == s.log[i];
      }
    }
  }

  lemma {:induction false} WriteRows(t: Subtrees, revision: int, writes: map<Id, Nodes>)
    ensures var r := Write(t, revision, writes);
            && (forall k :: k in r <==> k in t || (k.revision == revision && k.id in writes))
            && (forall k :: k in r ==> r[k] == if k.revision == revision && k.id in writes then writes[k.id] else t[k])
  {
    var r := Write(t, revision, writes);
    forall k: RowKey | k.revision == revision && k.id in writes
      ensures k in r && r[k] == writes[k.id]
    {
      assert k == RowKey(k.id, revision);
    }
  }

  lemma {:induction false} RunKeeps(r: Run)
    requires After(r).Some?
    ensures Faithful(After(r).value) && OneEach(After(r).value)
  {
    if r.Then? {
      RunKeeps(r.before);
      StepKeeps(After(r.before).value, r.a);
    }
  }

  /** Two transactions that began from the same root never both commit. */
  lemma {:induction false} OneCommitPerRoot(r: Run, t: nat, u: nat)
    requires After(r).Some? && t < u < |After(r).value.txs|
    requires After(r).value.txs[t].Committed? && After(r).value.txs[u].Committed?
    ensures After(r).value.txs[t].base != After(r).value.txs[u].base
  {
    RunKeeps(r);
  }

  /** What the last commit at or below a revision wrote for an id. */
  function LastWritten(log: seq<map<Id, Nodes>>, id: Id, revision: int): (r: Option<Nodes>)
    decreases revision
  {
    if revision <= 0 then None
    else if revision <= |log| && id in log[revision - 1] then Some(log[revision - 1][id])
    else LastWritten(log, id, revision - 1)
  }

  lemma {:induction false} ReadsTheLog(s: State, id: Id, revision: int)
    requires Faithful(s)
    ensures ReadAt(s.subtrees, id, revision) == LastWritten(s.log, id, revision)
    decreases revision
  {
    if revision >= 0 {
      assert RowKey(id, revision) in s.subtrees <==> 1 <= revision <= |s.log| && id in s.log[revision - 1];
      ReadsTheLog(s, id, revision - 1);
    }
  }

  /** The subtrees written by the commits of a run that succeeded, in order, as the actions of the run say. */
  function Writes(r: Run): (log: seq<map<Id, Nodes>>) {
    match r
    case Start(_) => []
    case Then(r', a) => if a.Commit? && Succeeds(r', a) then Writes(r') + [a.writes] else Writes(r')
  }

  /** The commit belongs to an open transaction that ends committed. */
  predicate Succeeds(r: Run, a: Action) {
    var s, s' := After(r), After(Then(r, a));
    && s.Some? && s'.Some? && a.t < |s.value.txs| && a.t < |s'.value.txs|
    && s.value.txs[a.t].Open? && s'.value.txs[a.t].Committed?
  }

  /** A commit succeeds exactly when no other one has succeeded since its transaction began. */
  lemma {:induction false} CommitExactly(r: Run, t: nat, writes: map<Id, Nodes>)
    requires After(r).Some? && t < |After(r).value.txs| && After(r).value.txs[t].Open?
    ensures After(Then(r, Commit(t, writes))).Some?
    ensures Succeeds(r, Commit(t, writes)) <==> After(r).value.txs[t].base == After(r).value.revision
  {
    RunKeeps(r);
    var s := After(r).value;
    if s.txs[t].base == s.revision {
      assert s.revision + 1 !in s.heads;
      assert !Collides(s.subtrees, s.revision + 1, writes);
    }
  }

  /** A transaction begins from the current revision, which is the number of commits that succeeded. */
  lemma {:induction false} BeginsFromLatest(r: Run, t: nat)
    requires After(Then(r, Begin(t))).Some?
    ensures t < |After(Then(r, Begin(t))).value.txs| && After(Then(r, Begin(t))).value.txs[t] == Open(|Writes(r)|)
  {
    LogIsWrites(r);
    RunKeeps(r);
  }

  /** The bookkeeping holds exactly the writes of the run. */
  lemma {:induction false} LogIsWrites(r: Run)
    requires After(r).Some?
    ensures After(r).value.log == Writes(r)
  {
    if r.Then? {
      LogIsWrites(r.before);
      RunKeeps(r.before);
    }
  }

  /** In every history a read at a revision gives what the latest successful commit not above it wrote. */
  lemma {:induction false} SnapshotRead(r: Run, id: Id, revision: int)
    requires After(r).Some?
    ensures ReadAt(After(r).value.subtrees, id, revision) == LastWritten(Writes(r), id, revision)
  {
    RunKeeps(r);
    ReadsTheLog(After(r).value, id, revision);
    LogIsWrites(r);
  }

  /** After a successful commit its own revision reads what it wrote, and for other ids what was read before. */
  lemma {:induction false} ReadsOwnCommit(r: Run, t: nat, writes: map<Id, Nodes>, id: Id)
    requires After(r).Some? && After(Then(r, Commit(t, writes))).Some? && Succeeds(r, Commit(t, writes))
    ensures var s, s' := After(r).value, After(Then(r, Commit(t, writes))).value;
            && s'.revision == s.revision + 1
            && ReadAt(s'.subtrees, id, s'.revision) ==
                 if id in writes then Some(writes[id]) else ReadAt(s.subtrees, id, s.revision)
  {
    hide After, Step, ReadAt, Succeeds;
    var r' := Then(r, Commit(t, writes));
    RevisionCounts(r);
    RevisionCounts(r');
    SnapshotRead(r, id, |Writes(r)|);
    SnapshotRead(r', id, |Writes(r')|);
    LastAppend(Writes(r), writes, id);
  }

  lemma {:induction false} RevisionCounts(r: Run)
    requires After(r).Some?
    ensures After(r).value.revision == |Writes(r)|
  {
    RunKeeps(r);
    LogIsWrites(r);
  }

  lemma {:induction false} LastAppend(log: seq<map<Id, Nodes>>, w: map<Id, Nodes>, id: Id)
    ensures LastWritten(log + [w], id, |log| + 1) == if id in w then Some(w[id]) else LastWritten(log, id, |log|)
  {
    OldWritesStay(log, log + [w], id, |log|);
  }

  predicate StartsWith(r': Run, r: Run) {
    r' == r || (r'.Then? && StartsWith(r'.before, r))
  }

  lemma {:induction false} LogGrows(r: Run, r': Run)
    requires StartsWith(r', r) && After(r').Some?
    ensures After(r).Some? && After(r).value.log <= After(r').value.log
    decreases r'
  {
    if r' != r { LogGrows(r, r'.before); }
  }

  lemma {:induction false} OldWritesStay(log: seq<map<Id, Nodes>>, log': seq<map<Id, Nodes>>, id: Id, revision: int)
    requires log <= log' && revision <= |log|
    ensures LastWritten(log', id, revision) == LastWritten(log, id, revision)
    decreases revision
  {
    if revision > 0 {
      assert log'[revision - 1] == log[revision - 1];
      OldWritesStay(log, log', id, revision - 1);
    }
  }

  /** Later commits never change what is read at a revision that was current before them. */
  lemma {:induction false} SnapshotStable(r: Run, r': Run, id: Id, revision: int)
    requires StartsWith(r', r) && After(r').Some?
    ensures After(r).Some?
    ensures revision <= After(r).value.revision ==>
              ReadAt(After(r').value.subtrees, id, revision) == ReadAt(After(r).value.subtrees, id, revision)
  {
    LogGrows(r, r');
    RunKeeps(r);
    SnapshotRead(r, id, revision);
    SnapshotRead(r', id, revision);
    LogIsWrites(r);
    LogIsWrites(r');
    if revision <= After(r).value.revision {
      OldWritesStay(Writes(r), Writes(r'), id, revision);
    }
  }
}
