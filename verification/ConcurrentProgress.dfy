/** Signers and batches that nobody stands in the way of finish, and some signer can always go on. */
module ConcurrentProgress {
  import opened Bytes
  import opened LogTables
  import opened LogStorage
  import opened LogQueue
  import History = LogHistory
  import opened ConcurrentLog

  lemma {:induction false} StartsFurther(c: Run, b: Run, a: Run)
    requires StartsWith(c, b) && StartsWith(b, a)
    ensures StartsWith(c, a)
  {
    if c != b { StartsFurther(c.before, b, a); }
  }

  // ----- a signer alone -----

  /** Nobody else holds a lock that signer p could wait for. */
  ghost predicate Unobstructed(s: State, p: nat) {
    forall q :: 0 <= q < |s.signers| && q != p ==>
      Locked(s.signers[q]) == {} && Written(s.signers[q]) == {} && !s.signers[q].Storing?
  }

  /** The state with signer p replaced. */
  function With(s: State, p: nat, g: Signer): (r: State)
    requires p < |s.signers|
  {
    s.(signers := s.signers[p := g])
  }

  lemma {:induction false} SameSigner(s: State, p: nat, g: Signer, h: Signer)
    requires p < |s.signers|
    ensures With(With(s, p, g), p, h) == With(s, p, h) && With(s, p, g).signers[p] == g
    ensures s.signers[p] == g ==> With(s, p, g) == s
    ensures Unobstructed(s, p) ==> Unobstructed(With(s, p, g), p)
  {
    assert s.signers[p := g][p := h] == s.signers[p := h];
    if s.signers[p] == g { assert s.signers[p := g] == s.signers; }
  }

  lemma {:induction false} DeleteGoes(s: State, p: nat, pass: Pass, n: nat)
    requires p < |s.signers| && Unobstructed(s, p) && s.signers[p] == Deleting(pass, n)
    requires n < |pass.batch| && pass.batch[n] in s.db.unsequenced
    ensures Step(s, Delete(p)) == Some(With(s, p, Deleting(pass, n + 1)))
  {
    hide Locked, Written;
  }

  lemma {:induction false} RecordGoes(s: State, p: nat, pass: Pass, n: nat, rows: map<int, SequencedRow>)
    requires p < |s.signers| && Unobstructed(s, p) && s.signers[p] == Recording(pass, n, rows)
    requires n < |pass.batch| && pass.root.size + n !in s.db.sequenced
    requires pass.batch[n].hash in s.db.leafData && pass.batch[n] in pass.seen
    ensures var k := pass.batch[n];
            var row := SequencedRow(k.hash, pass.seen[k], pass.integrateTs);
            Step(s, Record(p)) == Some(With(s, p, Recording(pass, n + 1, rows[pass.root.size + n := row])))
  {
    hide Locked, Written;
  }

  lemma {:induction false} DeleteAll(r: Run, p: nat, pass: Pass, n: nat) returns (r': Run)
    requires After(r).Some?
    requires var s := After(r).value;
             && p < |s.signers| && Unobstructed(s, p) && s.signers[p] == Deleting(pass, n) && n <= |pass.batch|
             && forall i :: 0 <= i < |pass.batch| ==> pass.batch[i] in s.db.unsequenced
    ensures StartsWith(r', r) && After(r') == Some(With(After(r).value, p, Deleting(pass, |pass.batch|)))
    decreases |pass.batch| - n
  {
    hide Step, Unobstructed;
    var s := After(r).value;
    if n == |pass.batch| {
      r' := r;
      SameSigner(s, p, Deleting(pass, n), Deleting(pass, n));
    } else {
      DeleteGoes(s, p, pass, n);
      SameSigner(s, p, Deleting(pass, n + 1), Deleting(pass, |pass.batch|));
      r' := DeleteAll(Then(r, Delete(p)), p, pass, n + 1);
      StartsFurther(r', Then(r, Delete(p)), r);
    }
  }

  lemma {:induction false} RecordAll(r: Run, p: nat, pass: Pass, n: nat, rows: map<int, SequencedRow>)
    returns (r': Run, rows': map<int, SequencedRow>)
    requires After(r).Some?
    requires var s := After(r).value;
             && p < |s.signers| && Unobstructed(s, p) && s.signers[p] == Recording(pass, n, rows) && n <= |pass.batch|
             && (forall i :: 0 <= i < |pass.batch| ==>
                   pass.batch[i].hash in s.db.leafData && pass.batch[i] in pass.seen)
             && (forall i :: i in s.db.sequenced ==> i < pass.root.size)
    ensures StartsWith(r', r) && After(r') == Some(With(After(r).value, p, Recording(pass, |pass.batch|, rows')))
    decreases |pass.batch| - n
  {
    hide Step, Unobstructed;
    var s := After(r).value;
    if n == |pass.batch| {
      r', rows' := r, rows;
      SameSigner(s, p, Recording(pass, n, rows), Recording(pass, n, rows));
    } else {
      RecordGoes(s, p, pass, n, rows);
      var k := pass.batch[n];
      var more := rows[pass.root.size + n := SequencedRow(k.hash, pass.seen[k], pass.integrateTs)];
      SameSigner(s, p, Recording(pass, n + 1, more), Recording(pass, n + 1, more));
      r', rows' := RecordAll(Then(r, Record(p)), p, pass, n + 1, more);
      StartsFurther(r', Then(r, Record(p)), r);
      SameSigner(s, p, Recording(pass, n + 1, more), Recording(pass, |pass.batch|, rows'));
    }
  }

  lemma {:induction false} SelectGoes(r: Run, p: nat, limit: nat, cutoff: int, batch: seq<QueueKey>, integrateTs: int)
    returns (r': Run)
    requires After(r).Some? && p < |After(r).value.signers| && After(r).value.signers[p].Idle?
    requires After(r).value.db.root.Some?
    requires IsSmallest(Eligible(After(r).value.db.unsequenced, cutoff), limit, batch)
    ensures var db := After(r).value.db;
            var pass := Pass(db.root.value, limit, cutoff, db.unsequenced, batch, integrateTs);
            StartsWith(r', r) && After(r') == Some(With(After(r).value, p, Deleting(pass, 0)))
  {
    hide IsSmallest, Eligible;
    var s := After(r).value;
    var pass := Pass(s.db.root.value, limit, cutoff, s.db.unsequenced, batch, integrateTs);
    SameSigner(s, p, Begun(s.db.root.value), Deleting(pass, 0));
    var r1 := Then(r, Begin(p));
    assert After(r1) == Some(With(s, p, Begun(s.db.root.value)));
    r' := Then(r1, Select(p, limit, cutoff, batch, integrateTs));
    assert StartsWith(r1, r);
  }

  lemma {:induction false} UpdateGoes(r: Run, p: nat, pass: Pass) returns (r': Run)
    requires After(r).Some? && p < |After(r).value.signers|
    requires After(r).value.signers[p] == Deleting(pass, |pass.batch|)
    ensures StartsWith(r', r) && After(r') == Some(With(After(r).value, p, Recording(pass, 0, map[])))
  {
    r' := Then(r, Update(p));
  }

  lemma {:induction false} StoreGoes(r: Run, p: nat, pass: Pass, rows: map<int, SequencedRow>, timestamp: int,
      rootHash: bytes)
    returns (r': Run)
    requires After(r).Some? && p < |After(r).value.signers| && Unobstructed(After(r).value, p)
    requires After(r).value.signers[p] == Recording(pass, |pass.batch|, rows)
    requires pass.root.revision + 1 !in After(r).value.db.heads
    ensures var root := pass.root;
            var head := Root(root.size + |pass.batch|, root.revision + 1, timestamp, rootHash, []);
            StartsWith(r', r) && After(r') == Some(With(After(r).value, p, Storing(pass, rows, head)))
  {
    hide Locked, Written;
    r' := Then(r, Store(p, timestamp, rootHash));
  }

  /** The whole of a signer's work, up to its commit. */
  lemma {:induction false} WorkGoes(r: Run, p: nat, pass: Pass, timestamp: int, rootHash: bytes)
    returns (r': Run, rows: map<int, SequencedRow>)
    requires After(r).Some? && p < |After(r).value.signers| && Unobstructed(After(r).value, p)
    requires After(r).value.signers[p] == Deleting(pass, 0)
    requires var db := After(r).value.db;
             && History.Sound(db) && db.root == Some(pass.root) && pass.seen == db.unsequenced
             && IsSmallest(Eligible(db.unsequenced, pass.cutoff), pass.limit, pass.batch)
    ensures var root := pass.root;
            var head := Root(root.size + |pass.batch|, root.revision + 1, timestamp, rootHash, []);
            StartsWith(r', r) && After(r') == Some(With(After(r).value, p, Storing(pass, rows, head)))
  {
    var s := After(r).value;
    assert forall i :: 0 <= i < |pass.batch| ==> pass.batch[i] in Eligible(s.db.unsequenced, pass.cutoff);
    assert forall i :: i in s.db.sequenced ==> i < pass.root.size;
    assert pass.root.revision + 1 !in s.db.heads;
    hide After, IsSmallest, Unobstructed, History.Partition, History.Conserved, SequencedOnce;
    var r1 := DeleteAll(r, p, pass, 0);
    SameSigner(s, p, Deleting(pass, |pass.batch|), Recording(pass, 0, map[]));
    var r2 := UpdateGoes(r1, p, pass);
    SameSigner(s, p, Recording(pass, 0, map[]), Recording(pass, 0, map[]));
    var r3;
    r3, rows := RecordAll(r2, p, pass, 0, map[]);
    var head := Root(pass.root.size + |pass.batch|, pass.root.revision + 1, timestamp, rootHash, []);
    SameSigner(s, p, Recording(pass, 0, map[]), Recording(pass, |pass.batch|, rows));
    SameSigner(s, p, Recording(pass, |pass.batch|, rows), Storing(pass, rows, head));
    r' := StoreGoes(r3, p, pass, rows, timestamp, rootHash);
    StartsFurther(r2, r1, r);
    StartsFurther(r3, r2, r);
    StartsFurther(r', r3, r);
  }

  /** A signer that nobody stands in the way of commits, and what it commits is one pass over the oldest entries. */
  lemma {:induction false} SignerCompletes(r: Run, p: nat, tx: History.Tx) returns (r': Run)
    requires After(r).Some? && p < |After(r).value.signers| && After(r).value.signers[p].Idle?
    requires Unobstructed(After(r).value, p) && tx.Sequence?
    requires IsSmallest(Eligible(After(r).value.db.unsequenced, tx.cutoff), tx.limit, tx.batch)
    ensures StartsWith(r', r) && After(r').Some?
    ensures p < |After(r').value.signers| && After(r').value.signers[p].Committed?
    ensures After(r').value.batches == After(r).value.batches
    ensures After(r).value.db.root.Some? && History.Sequenced(After(r).value.db, tx, After(r').value.db)
  {
    var s := After(r).value;
    RunInvariant(r);
    hide After, IsSmallest, Unobstructed, History.Sequenced, SignersSound, BatchesSound, Accounted, Known, Integrated;
    var pass := Pass(s.db.root.value, tx.limit, tx.cutoff, s.db.unsequenced, tx.batch, tx.integrateTs);
    var r1 := SelectGoes(r, p, tx.limit, tx.cutoff, tx.batch, tx.integrateTs);
    SameSigner(s, p, Deleting(pass, 0), Deleting(pass, 0));
    var r2, rows := WorkGoes(r1, p, pass, tx.timestamp, tx.rootHash);
    var head := Root(pass.root.size + |pass.batch|, pass.root.revision + 1, tx.timestamp, tx.rootHash, []);
    SameSigner(s, p, Deleting(pass, 0), Storing(pass, rows, head));
    SameSigner(s, p, Storing(pass, rows, head), Storing(pass, rows, head));
    r' := CommitGoes(r2, p, pass, rows, head);
    StartsFurther(r2, r1, r);
    StartsFurther(r', r2, r);
  }

  lemma {:induction false} Rooted(db: Db)
    requires History.Sound(db)
    ensures db.root.Some?
  {
  }

  lemma {:induction false} CommitStep(s: State, p: nat)
    requires p < |s.signers| && s.signers[p].Storing?
    ensures var g := s.signers[p];
            Step(s, Commit(p)) == Some(State(Integrated(s.db, g), s.signers[p := Committed(g.pass)], s.batches))
  {
    hide Integrated;
  }

  lemma {:induction false} CommitGoes(r: Run, p: nat, pass: Pass, rows: map<int, SequencedRow>, head: Root)
    returns (r': Run)
    requires After(r).Some? && p < |After(r).value.signers| && After(r).value.signers[p] == Storing(pass, rows, head)
    ensures StartsWith(r', r) && After(r').Some? && After(r').value.batches == After(r).value.batches
    ensures p < |After(r').value.signers| && After(r').value.signers[p].Committed?
    ensures After(r).value.db.root.Some?
    ensures History.Sequenced(After(r).value.db, PassOf(Storing(pass, rows, head)), After(r').value.db)
  {
    hide SignersSound, BatchesSound, Accounted, Known, Integrated, History.Sequenced, Consistent, Ascending, Step,
         History.Sound;
    RunInvariant(r);
    CommitStep(After(r).value, p);
    r' := Then(r, Commit(p));
    Rooted(After(r).value.db);
    OneConsistent(After(r).value, p);
    CommitIsPass(After(r).value.db, Storing(pass, rows, head));
  }

  // ----- a batch alone -----

  /** The leaves of a list whose hashes are neither stored nor earlier in the list. */
  function Fresh(db: Db, leaves: seq<Leaf>): (news: seq<Leaf>) {
    if leaves == [] then []
    else
      var n := |leaves| - 1;
      var news := Fresh(db, leaves[..n]);
      if leaves[n].identity in db.leafData || HasIdentity(news, leaves[n].identity) then news
      else news + [leaves[n]]
  }

  lemma {:induction false} PrefixQueues(db: Db, leaves: seq<Leaf>, more: seq<Leaf>, ord: seq<nat>, ts: int)
    requires forall k :: 0 <= k < |ord| ==> ord[k] < |leaves|
    ensures QueueAll(db, leaves + more, ord, ts) == QueueAll(db, leaves, ord, ts)
    decreases |ord|
  {
    if ord != [] { PrefixQueues(db, leaves, more, ord[..|ord| - 1], ts); }
  }

  lemma {:induction false} QueueLast(db: Db, leaves: seq<Leaf>, leaf: Leaf, ts: int)
    ensures QueueAll(db, leaves + [leaf], InOrder(|leaves| + 1), ts) ==
            QueueOne(QueueAll(db, leaves, InOrder(|leaves|), ts), leaf, ts)
  {
    hide QueueOne;
    var ord := InOrder(|leaves| + 1);
    assert ord[..|leaves|] == InOrder(|leaves|);
    PrefixQueues(db, leaves, [leaf], InOrder(|leaves|), ts);
  }

  lemma {:induction false} QueueNoMore(db: Db, leaves: seq<Leaf>, leaf: Leaf, ts: int)
    requires leaf.identity in db.leafData || HasIdentity(leaves, leaf.identity)
    ensures var d := QueueAll(db, leaves, InOrder(|leaves|), ts); QueueOne(d, leaf, ts) == d
  {
    hide QueueAll, HasIdentity;
    CloseGrows(db, Queuing(ts, leaves));
  }

  /** Queueing the fresh leaves is queueing them all. */
  lemma {:induction false} FreshQueues(db: Db, leaves: seq<Leaf>, ts: int)
    ensures QueueAll(db, Fresh(db, leaves), InOrder(|Fresh(db, leaves)|), ts) ==
            QueueAll(db, leaves, InOrder(|leaves|), ts)
    decreases |leaves|
  {
    hide QueueAll, QueueOne, HasIdentity;
    if leaves == [] {
      assert Fresh(db, leaves) == leaves;
    } else {
      var n := |leaves| - 1;
      var news := Fresh(db, leaves[..n]);
      FreshQueues(db, leaves[..n], ts);
      assert leaves == leaves[..n] + [leaves[n]];
      QueueLast(db, leaves[..n], leaves[n], ts);
      if leaves[n].identity in db.leafData || HasIdentity(news, leaves[n].identity) {
        QueueNoMore(db, news, leaves[n], ts);
      } else {
        QueueLast(db, news, leaves[n], ts);
      }
    }
  }

  function WithBatch(s: State, b: nat, g: Batch): (r: State)
    requires b < |s.batches|
  {
    s.(batches := s.batches[b := g])
  }

  lemma {:induction false} SameBatch(s: State, b: nat, g: Batch, h: Batch)
    requires b < |s.batches|
    ensures WithBatch(WithBatch(s, b, g), b, h) == WithBatch(s, b, h)
    ensures forall x :: AddedByOther(WithBatch(s, b, g), b, x) <==> AddedByOther(s, b, x)
  {
    assert s.batches[b := g][b := h] == s.batches[b := h];
    forall x
      ensures AddedByOther(WithBatch(s, b, g), b, x) <==> AddedByOther(s, b, x)
    {
      if c :| 0 <= c < |s.batches| && c != b && s.batches[c].Queuing? && HasIdentity(s.batches[c].added, x) {
        assert s.batches[b := g][c] == s.batches[c];
      }
    }
  }

  lemma {:induction false} PutGoes(s: State, b: nat, ts: int, added: seq<Leaf>, leaf: Leaf)
    requires b < |s.batches| && !AddedByOther(s, b, leaf.identity)
    ensures var skip := leaf.identity in s.db.leafData || HasIdentity(added, leaf.identity);
            var more := if skip then added else added + [leaf];
            Step(WithBatch(s, b, Queuing(ts, added)), Put(b, leaf)) == Some(WithBatch(s, b, Queuing(ts, more)))
  {
    var skip := leaf.identity in s.db.leafData || HasIdentity(added, leaf.identity);
    var more := if skip then added else added + [leaf];
    SameBatch(s, b, Queuing(ts, added), Queuing(ts, more));
    hide AddedByOther, HasIdentity;
  }

  lemma {:induction false} PutAll(r: Run, s: State, b: nat, ts: int, leaves: seq<Leaf>) returns (r': Run)
    requires b < |s.batches| && After(r) == Some(WithBatch(s, b, Queuing(ts, [])))
    requires forall i :: 0 <= i < |leaves| ==> !AddedByOther(s, b, leaves[i].identity)
    ensures StartsWith(r', r) && After(r') == Some(WithBatch(s, b, Queuing(ts, Fresh(s.db, leaves))))
    decreases |leaves|
  {
    hide Step, AddedByOther, HasIdentity;
    if leaves == [] {
      r' := r;
    } else {
      var n := |leaves| - 1;
      var r1 := PutAll(r, s, b, ts, leaves[..n]);
      PutGoes(s, b, ts, Fresh(s.db, leaves[..n]), leaves[n]);
      r' := Then(r1, Put(b, leaves[n]));
    }
  }

  /** A batch whose hashes nobody else has added commits, and does what the same batch does as one transaction. */
  lemma {:induction false} BatchCompletes(r: Run, b: nat, leaves: seq<Leaf>, ts: int) returns (r': Run)
    requires After(r).Some? && b < |After(r).value.batches| && After(r).value.batches[b].Unopened?
    requires forall i :: 0 <= i < |leaves| ==> !AddedByOther(After(r).value, b, leaves[i].identity)
    ensures StartsWith(r', r) && After(r').Some?
    ensures b < |After(r').value.batches| && After(r').value.batches[b].Queued?
    ensures After(r').value.signers == After(r).value.signers
    ensures After(r').value.db == QueueAll(After(r).value.db, leaves, InOrder(|leaves|), ts)
  {
    hide AddedByOther, QueueAll;
    var s := After(r).value;
    var r1 := Then(r, Open(b, ts));
    var r2 := PutAll(r1, s, b, ts, leaves);
    FreshQueues(s.db, leaves, ts);
    r' := Then(r2, Close(b));
    StartsFurther(r2, r1, r);
  }

  // ----- some signer can always go on -----

  predicate Active(g: Signer) {
    g.Deleting? || g.Recording? || g.Storing?
  }

  /** The next statement of a signer that has selected. */
  function Ahead(g: Signer, p: nat): (a: Action) {
    match g
    case Deleting(pass, n) => if n < |pass.batch| then Delete(p) else Update(p)
    case Recording(pass, n, _) => if n < |pass.batch| then Record(p) else Store(p, 0, [])
    case _ => Commit(p)
  }

  predicate CanGo(s: State, p: nat) {
    p < |s.signers| && Active(s.signers[p]) && Step(s, Ahead(s.signers[p], p)).Some?
  }

  /** The number a recording signer is about to take. */
  function Reach(g: Signer): (n: int) {
    if g.Recording? then g.pass.root.size + g.n else 0
  }

  /** What a signer has written is below the number it is about to take. */
  predicate WritesBelow(g: Signer) {
    g.Recording? ==> forall m :: m in g.rows ==> m < Reach(g)
  }

  lemma {:induction false} NextWritesBelow(s: State, a: Action)
    requires Step(s, a).Some? && forall p :: 0 <= p < |s.signers| ==> WritesBelow(s.signers[p])
    ensures var s' := Step(s, a).value; forall p :: 0 <= p < |s'.signers| ==> WritesBelow(s'.signers[p])
  {
    hide IsSmallest, Eligible, BatchStep, LockedByOther, WrittenByOther, OtherStoring, Integrated, Extended;
    if OfSigner(a) { assert WritesBelow(s.signers[a.p]); }
  }

  lemma {:induction false} RunWritesBelow(r: Run)
    requires After(r).Some?
    ensures var s := After(r).value; forall p :: 0 <= p < |s.signers| ==> WritesBelow(s.signers[p])
  {
    if r.Then? {
      RunWritesBelow(r.before);
      hide Step, WritesBelow;
      NextWritesBelow(After(r.before).value, r.a);
    }
  }

  /** Among the first m signers the recording one that is furthest. */
  lemma {:induction false} TopRecorder(signers: seq<Signer>, m: nat, q: nat) returns (u: nat)
    requires q < m <= |signers| && signers[q].Recording?
    ensures u < m && signers[u].Recording?
    ensures forall v :: 0 <= v < m && signers[v].Recording? ==> Reach(signers[v]) <= Reach(signers[u])
  {
    hide Reach;
    u := q;
    for i := 0 to m
      invariant u < m && signers[u].Recording?
      invariant forall v :: 0 <= v < i && signers[v].Recording? ==> Reach(signers[v]) <= Reach(signers[u])
    {
      if signers[i].Recording? && Reach(signers[u]) < Reach(signers[i]) { u := i; }
    }
  }

  predicate MidDelete(g: Signer) {
    g.Deleting? && g.n < |g.pass.batch|
  }

  function Wants(g: Signer): (k: QueueKey)
    requires MidDelete(g)
  {
    g.pass.batch[g.n]
  }

  /** Among the first m signers the deleting one that wants the greatest entry. */
  lemma {:induction false} TopDeleter(signers: seq<Signer>, m: nat, q: nat) returns (u: nat)
    requires q < m <= |signers| && MidDelete(signers[q])
    ensures u < m && MidDelete(signers[u])
    ensures forall v :: 0 <= v < m && MidDelete(signers[v]) ==> !KeyLess(Wants(signers[u]), Wants(signers[v]))
  {
    hide MidDelete, Wants, KeyLess;
    u := q;
    for i := 0 to m
      invariant u < m && MidDelete(signers[u])
      invariant forall v :: 0 <= v < i && MidDelete(signers[v]) ==> !KeyLess(Wants(signers[u]), Wants(signers[v]))
    {
      if MidDelete(signers[i]) {
        var k := Wants(signers[i]);
        KeyLessOrder(k, k, k);
        if KeyLess(Wants(signers[u]), k) {
          forall v | 0 <= v < i && MidDelete(signers[v])
            ensures !KeyLess(k, Wants(signers[v]))
          {
            KeyLessOrder(Wants(signers[u]), k, Wants(signers[v]));
          }
          u := i;
        }
      }
    }
  }

  /** What a signer has deleted comes before what it wants next. */
  lemma {:induction false} LockedBefore(db: Db, g: Signer, k: QueueKey)
    requires Consistent(db, g) && MidDelete(g) && k in Locked(g)
    ensures KeyLess(k, Wants(g))
  {
    var done := g.pass.batch[..g.n];
    var i :| 0 <= i < |done| && done[i] == k;
    assert g.pass.batch[i] == k;
  }

  lemma {:induction false} RecorderGoes(s: State, u: nat)
    requires u < |s.signers| && s.signers[u].Recording?
    requires forall q :: 0 <= q < |s.signers| ==> !s.signers[q].Storing? && WritesBelow(s.signers[q])
    requires forall v :: 0 <= v < |s.signers| && s.signers[v].Recording? ==> Reach(s.signers[v]) <= Reach(s.signers[u])
    ensures CanGo(s, u)
  {
    var g := s.signers[u];
    assert !WrittenByOther(s, u, Reach(g)) && !OtherStoring(s, u);
    hide WrittenByOther, OtherStoring;
  }

  lemma {:induction false} DeleterGoes(s: State, u: nat)
    requires Invariant(s) && u < |s.signers| && MidDelete(s.signers[u])
    requires forall q :: 0 <= q < |s.signers| && Active(s.signers[q]) ==> MidDelete(s.signers[q])
    requires forall v :: 0 <= v < |s.signers| && MidDelete(s.signers[v]) ==>
               !KeyLess(Wants(s.signers[u]), Wants(s.signers[v]))
    ensures CanGo(s, u)
  {
    hide History.Sound, Known, Accounted, BatchesSound, Exclusive, KeyLess, Consistent;
    var k := Wants(s.signers[u]);
    forall q | 0 <= q < |s.signers| && q != u
      ensures k !in Locked(s.signers[q])
    {
      if k in Locked(s.signers[q]) {
        assert Active(s.signers[q]);
        OneConsistent(s, q);
        LockedBefore(s.db, s.signers[q], k);
        assert false;
      }
    }
    hide Locked;
    assert !LockedByOther(s, u, k);
    hide LockedByOther;
  }

  /** In no reachable state are all signers that have selected stuck: one of them can execute its next statement. */
  lemma {:induction false} SignersNeverStuck(r: Run, p: nat) returns (u: nat)
    requires After(r).Some? && p < |After(r).value.signers| && Active(After(r).value.signers[p])
    ensures CanGo(After(r).value, u)
  {
    RunInvariant(r);
    RunWritesBelow(r);
    hide After, Invariant, WritesBelow, Reach, Wants, KeyLess, Step, CanGo;
    var s := After(r).value;
    if q: nat :| q < |s.signers| && s.signers[q].Storing? {
      u := q;
      StorerGoes(s, u);
    } else if q: nat :| q < |s.signers| && s.signers[q].Recording? {
      u := TopRecorder(s.signers, |s.signers|, q);
      RecorderGoes(s, u);
    } else if q: nat :| q < |s.signers| && s.signers[q].Deleting? && !MidDelete(s.signers[q]) {
      u := q;
      UpdaterGoes(s, u);
    } else {
      u := TopDeleter(s.signers, |s.signers|, p);
      DeleterGoes(s, u);
    }
  }

  lemma {:induction false} StorerGoes(s: State, u: nat)
    requires u < |s.signers| && s.signers[u].Storing?
    ensures CanGo(s, u)
  {
  }

  lemma {:induction false} UpdaterGoes(s: State, u: nat)
    requires Invariant(s) && u < |s.signers| && s.signers[u].Deleting? && !MidDelete(s.signers[u])
    ensures CanGo(s, u)
  {
    hide History.Sound, Known, Accounted, BatchesSound, Exclusive, Picked, SetOf;
    OneConsistent(s, u);
  }

  // ----- why a signer gives up -----

  /** Its own rollback, an entry that is gone from the queue, or a root that is not the latest any more. */
  predicate GivesUp(s: State, a: Action, g: Signer) {
    || a.Abort?
    || (a.Delete? && MidDelete(g) && Wants(g) !in s.db.unsequenced)
    || (a.Store? && g.Recording? && Some(g.pass.root) != s.db.root)
  }

  /** In every reachable state a step ends a signer's transaction without a commit exactly for one of these reasons. */
  lemma {:induction false} AbortsExactly(r: Run, a: Action)
    requires After(r).Some? && OfSigner(a) && Step(After(r).value, a).Some?
    ensures var s := After(r).value;
            Step(s, a).value.signers[a.p].Aborted? <==> GivesUp(s, a, s.signers[a.p])
  {
    hide After;
    RunInvariant(r);
    var s := After(r).value;
    OneConsistent(s, a.p);
    AbortReasons(s, a, s.signers[a.p]);
  }

  lemma {:induction false} AbortReasons(s: State, a: Action, g: Signer)
    requires History.Sound(s.db) && Known(s.db, s.db.root.value) && Consistent(s.db, g)
    requires OfSigner(a) && SignerStep(s, a, g).Some?
    ensures SignerStep(s, a, g).value.Aborted? <==> GivesUp(s, a, g)
  {
    hide IsSmallest, Eligible, SetOf, LockedByOther, WrittenByOther, OtherStoring, SequencedOnce,
         History.Partition, History.Conserved, Exact;
    if a.Record? {
      RecordGoesOn(s.db, g);
    } else if a.Store? && g.pass.root.revision + 1 !in s.db.heads {
      LatestRoot(s.db, g.pass.root);
    }
  }

  /** What a signer is about to record has data and was seen. */
  lemma {:induction false} RecordGoesOn(db: Db, g: Signer)
    requires Consistent(db, g) && g.Recording? && g.n < |g.pass.batch|
    ensures g.pass.batch[g.n].hash in db.leafData && g.pass.batch[g.n] in g.pass.seen
  {
    hide Exact, Known;
    assert g.pass.batch[g.n] in Eligible(g.pass.seen, g.pass.cutoff);
  }

  // ----- no number is written twice -----

  predicate Writing(g: Signer) {
    g.Recording? || g.Storing?
  }

  predicate RowsApart(g: Signer, h: Signer) {
    Writing(g) && Writing(h) ==> g.rows.Keys !! h.rows.Keys
  }

  lemma {:induction false} NextRowsApart(s: State, a: Action, p: nat, q: nat)
    requires Step(s, a).Some? && p < |s.signers| && q < |s.signers| && p != q
    requires RowsApart(s.signers[p], s.signers[q])
    ensures var s' := Step(s, a).value;
            |s'.signers| == |s.signers| && RowsApart(s'.signers[p], s'.signers[q])
  {
    hide IsSmallest, Eligible, BatchStep, LockedByOther, OtherStoring, Integrated, Extended;
  }

  /** In every interleaving no two open signers have written the same sequence number. */
  lemma {:induction false} NumbersApart(r: Run, p: nat, q: nat)
    requires After(r).Some? && p < |After(r).value.signers| && q < |After(r).value.signers| && p != q
    ensures RowsApart(After(r).value.signers[p], After(r).value.signers[q])
  {
    if r.Then? {
      assert |After(r.before).value.signers| == |After(r).value.signers|;
      NumbersApart(r.before, p, q);
      hide Step, RowsApart;
      NextRowsApart(After(r.before).value, r.a, p, q);
    }
  }
}
