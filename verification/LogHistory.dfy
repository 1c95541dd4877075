/** Whole histories of a log: what every run of committed transactions keeps. */
module LogHistory {
  import opened Bytes
  import opened LogTables
  import opened LogStorage
  import opened LogRange
  import opened LogQueue

  /**
   A committed transaction.  Queue carries the order its sort chose.  Sequence is one pass of the signer, which is not
   part of this repository: it dequeues a batch, numbers it consecutively from the tree size, records the numbers and
   stores a root grown by that many leaves at the next revision.
   */
  datatype Tx =
    | Queue(leaves: seq<Leaf>, ts: int, ord: seq<nat>)
    | Sequence(limit: nat, cutoff: int, batch: seq<QueueKey>, integrateTs: int, timestamp: int, rootHash: bytes)

  /** The log just after its initialisation. */
  function Empty(root: Root): (db: Db) {
    Db(map[], map[], map[], map[0 := root.(size := 0, revision := 0)], Some(root.(size := 0, revision := 0)))
  }

  /** The numbered leaves of a batch. */
  function Numbered(db: Db, batch: seq<QueueKey>, first: int, integrateTs: int): (leaves: seq<Leaf>)
    requires SetOf(batch) <= db.unsequenced.Keys
    ensures |leaves| == |batch|
    ensures forall i :: 0 <= i < |batch| ==>
              && batch[i] in db.unsequenced
              && leaves[i] == Leaf(batch[i].hash, db.unsequenced[batch[i]], [], [], first + i, batch[i].ts, integrateTs)
  {
    assert forall i :: 0 <= i < |batch| ==> batch[i] in SetOf(batch);
    seq(|batch|, i requires 0 <= i < |batch| =>
      Leaf(batch[i].hash, db.unsequenced[batch[i]], [], [], first + i, batch[i].ts, integrateTs))
  }

  function SequenceStep(db: Db, tx: Tx): (r: Option<Db>)
    requires tx.Sequence?
  {
    if db.root.None? || !IsSmallest(Eligible(db.unsequenced, tx.cutoff), tx.limit, tx.batch)
        || !(SetOf(tx.batch) <= db.unsequenced.Keys) then None
    else
      var root := db.root.value;
      var dequeued := db.(unsequenced := db.unsequenced - SetOf(tx.batch));
      var updated := UpdateAll(dequeued, Numbered(db, tx.batch, root.size, tx.integrateTs));
      if updated.Failure? then None
      else
        var head := Root(root.size + |tx.batch|, root.revision + 1, tx.timestamp, tx.rootHash, []);
        var stored := StoreRoot(updated.value, head);
        if stored.Failure? then None else Some(stored.value)
  }

  /** The tables after a transaction, if it commits. */
  function Step(hashSize: nat, db: Db, tx: Tx): (r: Option<Db>) {
    match tx
    case Queue(leaves, ts, ord) =>
      if IsInsertOrder(leaves, ord) && Accepted(hashSize, db, leaves) then Some(QueueAll(db, leaves, ord, ts))
      else None
    case Sequence(_, _, _, _, _, _) => SequenceStep(db, tx)
  }

  datatype Run = Begin(root: Root) | Then(before: Run, tx: Tx)

  function After(hashSize: nat, r: Run): (db: Option<Db>) {
    match r
    case Begin(root) => Some(Empty(root))
    case Then(r', tx) =>
      var db := After(hashSize, r');
      if db.None? then None else Step(hashSize, db.value, tx)
  }

  // ----- the invariant -----

  ghost predicate IsSequenced(db: Db, h: Hash) {
    exists n :: n in db.sequenced && db.sequenced[n].hash == h
  }

  predicate IsQueued(db: Db, h: Hash)
    requires h in db.leafData
  {
    QueueKey(db.leafData[h].queueTs, h) in db.unsequenced
  }

  /** Queue entries belong to stored leaves and carry their timestamps. */
  ghost predicate QueueSound(db: Db) {
    forall k :: k in db.unsequenced ==> k.hash in db.leafData && db.leafData[k.hash].queueTs == k.ts
  }

  /** Sequence numbers are exactly 0 .. size-1, one row to a leaf; revisions have one head each, up to the root's. */
  ghost predicate Dense(db: Db) {
    && db.root.Some? && db.root.value.size >= 0 && db.root.value.revision >= 0
    && (forall n :: n in db.sequenced <==> 0 <= n < db.root.value.size)
    && (forall n :: n in db.sequenced ==> db.sequenced[n].hash in db.leafData)
    && SequencedOnce(db)
    && (forall v :: v in db.heads <==> 0 <= v <= db.root.value.revision)
  }

  /** Every stored leaf is either queued or sequenced, never both. */
  ghost predicate Partition(db: Db) {
    forall h :: h in db.leafData ==> (IsQueued(db, h) <==> !IsSequenced(db, h))
  }

  /** No leaf is lost or made up: leaves stored are leaves queued plus leaves sequenced. */
  ghost predicate Conserved(db: Db) {
    db.root.Some? && |db.leafData| == |db.unsequenced| + db.root.value.size
  }

  ghost predicate Sound(db: Db) {
    QueueSound(db) && Dense(db) && Partition(db) && Conserved(db)
  }

  // ----- queueing -----

  lemma {:induction false} QueueOneKeys(db: Db, leaf: Leaf, ts: int)
    requires QueueSound(db) && leaf.identity !in db.leafData
    ensures InsertUnsequenced(InsertLeafData(db, leaf, ts).0, leaf, ts).1
    ensures var d, k := QueueOne(db, leaf, ts), QueueKey(ts, leaf.identity);
            && d.unsequenced.Keys == db.unsequenced.Keys + {k} && k !in db.unsequenced
            && d.leafData.Keys == db.leafData.Keys + {leaf.identity}
            && |d.leafData| == |db.leafData| + 1 && |d.unsequenced| == |db.unsequenced| + 1
  {
    var k := QueueKey(ts, leaf.identity);
    assert k !in db.unsequenced;
    MapGrows(db.unsequenced, k, leaf.merkle);
    MapGrows(db.leafData, leaf.identity, LeafRow(leaf.value, leaf.extra, ts));
  }

  lemma {:induction false} MapGrows<K, V>(m: map<K, V>, k: K, v: V)
    requires k !in m
    ensures m[k := v].Keys == m.Keys + {k} && |m[k := v]| == |m| + 1
  {
    var m' := m[k := v];
    assert m'.Keys == m.Keys + {k};
    assert |m'| == |m'.Keys| && |m| == |m.Keys|;
  }

  lemma {:induction false} QueueOnePartition(db: Db, leaf: Leaf, ts: int)
    requires QueueSound(db) && Partition(db) && leaf.identity !in db.leafData
    requires forall n :: n in db.sequenced ==> db.sequenced[n].hash in db.leafData
    ensures Partition(QueueOne(db, leaf, ts))
  {
    var d := QueueOne(db, leaf, ts);
    forall h | h in d.leafData
      ensures IsQueued(d, h) <==> !IsSequenced(d, h)
    {
      assert IsSequenced(d, h) <==> IsSequenced(db, h);
      if h != leaf.identity { assert IsQueued(d, h) <==> IsQueued(db, h); }
    }
  }

  lemma {:induction false} QueueOneSound(db: Db, leaf: Leaf, ts: int)
    requires Sound(db)
    ensures Sound(QueueOne(db, leaf, ts))
  {
    if leaf.identity !in db.leafData {
      QueueOneKeys(db, leaf, ts);
      QueueOnePartition(db, leaf, ts);
      hide Partition, QueueOne;
      QueueOneDense(db, leaf, ts);
    }
  }

  lemma {:induction false} QueueOneDense(db: Db, leaf: Leaf, ts: int)
    requires QueueSound(db) && Dense(db)
    ensures QueueSound(QueueOne(db, leaf, ts)) && Dense(QueueOne(db, leaf, ts))
            && QueueOne(db, leaf, ts).root == db.root
  {
  }

  lemma {:induction false} QueueAllSound(db: Db, leaves: seq<Leaf>, ord: seq<nat>, ts: int)
    requires Sound(db) && forall k :: 0 <= k < |ord| ==> ord[k] < |leaves|
    ensures Sound(QueueAll(db, leaves, ord, ts))
    decreases |ord|
  {
    if ord != [] {
      QueueAllSound(db, leaves, ord[..|ord| - 1], ts);
      QueueOneSound(QueueAll(db, leaves, ord[..|ord| - 1], ts), leaves[ord[|ord| - 1]], ts);
    }
  }

  /** In every step of a batch the insert into the queue, whose answer is ignored, inserts: no new leaf is dropped. */
  lemma {:induction false} QueueNeverDrops(db: Db, leaves: seq<Leaf>, ord: seq<nat>, ts: int, k: nat)
    requires Sound(db) && k < |ord| && forall j :: 0 <= j < |ord| ==> ord[j] < |leaves|
    ensures var d, leaf := QueueAll(db, leaves, ord[..k], ts), leaves[ord[k]];
            leaf.identity !in d.leafData ==> InsertUnsequenced(InsertLeafData(d, leaf, ts).0, leaf, ts).1
  {
    QueueAllSound(db, leaves, ord[..k], ts);
    var d, leaf := QueueAll(db, leaves, ord[..k], ts), leaves[ord[k]];
    if leaf.identity !in d.leafData { QueueOneKeys(d, leaf, ts); }
  }

  // ----- sequencing -----

  /** What recording a numbered batch does when no number is taken and every leaf has data. */
  ghost predicate Recorded(d: Db, leaves: seq<Leaf>, first: int, r: Db) {
    && r == d.(sequenced := r.sequenced)
    && (forall n :: n in r.sequenced <==> n in d.sequenced || first <= n < first + |leaves|)
    && (forall n :: n in d.sequenced ==> r.sequenced[n] == d.sequenced[n])
    && (forall i :: 0 <= i < |leaves| ==>
          && first + i in r.sequenced
          && r.sequenced[first + i] == SequencedRow(leaves[i].identity, leaves[i].merkle, leaves[i].integrateTs))
  }

  ghost predicate Consecutive(d: Db, leaves: seq<Leaf>, first: int) {
    && (forall i :: 0 <= i < |leaves| ==> leaves[i].index == first + i && leaves[i].identity in d.leafData)
    && (forall n :: n in d.sequenced ==> n < first)
  }

  /** Consecutive numbers above those in use are all inserted: every ignored answer is "inserted". */
  lemma {:induction false} UpdateNeverDrops(d: Db, leaves: seq<Leaf>, first: int)
    requires Consecutive(d, leaves, first)
    ensures UpdateAll(d, leaves).Success? && Recorded(d, leaves, first, UpdateAll(d, leaves).value)
    ensures leaves != [] ==>
              var n := |leaves| - 1;
              var r := UpdateAll(d, leaves[..n]);
              r.Success? && InsertSequenced(r.value, leaves[n], leaves[n].integrateTs).Success?
                  && InsertSequenced(r.value, leaves[n], leaves[n].integrateTs).value.1
    decreases |leaves|
  {
    if leaves != [] {
      var n := |leaves| - 1;
      assert forall i :: 0 <= i < n ==> leaves[..n][i] == leaves[i];
      UpdateNeverDrops(d, leaves[..n], first);
      hide Recorded;
      RecordOne(d, leaves, first, UpdateAll(d, leaves[..n]).value);
    }
  }

  lemma {:induction false} RecordOne(d: Db, leaves: seq<Leaf>, first: int, r: Db)
    requires Consecutive(d, leaves, first) && leaves != [] && Recorded(d, leaves[..|leaves| - 1], first, r)
    ensures var n := |leaves| - 1;
            var i := InsertSequenced(r, leaves[n], leaves[n].integrateTs);
            i.Success? && i.value.1 && Recorded(d, leaves, first, i.value.0)
  {
    var n := |leaves| - 1;
    assert leaves[n].index == first + n && leaves[n].identity in r.leafData;
    assert forall i :: 0 <= i < n ==> leaves[..n][i] == leaves[i];
  }

  lemma {:induction false} BatchNumbered(db: Db, batch: seq<QueueKey>, integrateTs: int)
    requires QueueSound(db) && Dense(db) && SetOf(batch) <= db.unsequenced.Keys
    ensures Consecutive(db.(unsequenced := db.unsequenced - SetOf(batch)), Numbered(db, batch, db.root.value.size,
            integrateTs), db.root.value.size)
  {
  }

  /** The tables after a signer's pass, stated directly. */
  ghost predicate Sequenced(db: Db, tx: Tx, r: Db)
    requires tx.Sequence? && db.root.Some?
  {
    var root := db.root.value;
    && SetOf(tx.batch) <= db.unsequenced.Keys
    && r.leafData == db.leafData
    && r.unsequenced == db.unsequenced - SetOf(tx.batch)
    && Recorded(db, Numbered(db, tx.batch, root.size, tx.integrateTs), root.size, db.(sequenced := r.sequenced))
    && r.root == Some(Root(root.size + |tx.batch|, root.revision + 1, tx.timestamp, tx.rootHash, []))
    && r.heads == db.heads[root.revision + 1 := r.root.value]
  }

  /** A signer's pass over the right batch always commits, and does exactly this. */
  lemma {:induction false} SequenceCommits(db: Db, tx: Tx)
    requires Sound(db) && tx.Sequence? && IsSmallest(Eligible(db.unsequenced, tx.cutoff), tx.limit, tx.batch)
    ensures SequenceStep(db, tx).Some? && Sequenced(db, tx, SequenceStep(db, tx).value)
  {
    hide UpdateAll, Partition, Conserved, Numbered, SequencedOnce, Recorded, Consecutive;
    var root := db.root.value;
    assert SetOf(tx.batch) <= db.unsequenced.Keys;
    assert root.revision + 1 !in db.heads;
    hide IsSmallest, Dense, QueueSound, Eligible, SetOf;
    var dequeued := db.(unsequenced := db.unsequenced - SetOf(tx.batch));
    var leaves := Numbered(db, tx.batch, root.size, tx.integrateTs);
    BatchNumbered(db, tx.batch, tx.integrateTs);
    UpdateNeverDrops(dequeued, leaves, root.size);
    RecordedElsewhere(dequeued, db, leaves, root.size, UpdateAll(dequeued, leaves).value);
  }

  /** A committed pass is over the smallest eligible entries, and does exactly what is stated above. */
  lemma {:induction false} StepCommitted(db: Db, tx: Tx)
    requires Sound(db) && tx.Sequence? && SequenceStep(db, tx).Some?
    ensures Sequenced(db, tx, SequenceStep(db, tx).value) && Ascending(tx.batch)
    ensures IsSmallest(Eligible(db.unsequenced, tx.cutoff), tx.limit, tx.batch)
    ensures QueueSound(db) && Dense(db)
  {
    SequenceCommits(db, tx);
  }

  lemma {:induction false} RecordedElsewhere(d: Db, db: Db, leaves: seq<Leaf>, first: int, r: Db)
    requires d == db.(unsequenced := d.unsequenced) && Recorded(d, leaves, first, r)
    ensures Recorded(db, leaves, first, db.(sequenced := r.sequenced))
    ensures r.leafData == db.leafData && r.unsequenced == d.unsequenced && r.heads == db.heads && r.root == db.root
  {
  }

  /** Rows at old numbers are the old rows; the row at size + i holds the hash of entry i. */
  lemma {:induction false} RowsOf(db: Db, tx: Tx, r: Db, n: int)
    requires Dense(db) && tx.Sequence? && Sequenced(db, tx, r)
    ensures n in r.sequenced <==> 0 <= n < db.root.value.size + |tx.batch|
    ensures n in db.sequenced ==> r.sequenced[n] == db.sequenced[n]
    ensures n in r.sequenced && n !in db.sequenced ==>
              var i := n - db.root.value.size;
              && 0 <= i < |tx.batch| && tx.batch[i] in db.unsequenced
              && r.sequenced[n] == SequencedRow(tx.batch[i].hash, db.unsequenced[tx.batch[i]], tx.integrateTs)
  {
    var i := n - db.root.value.size;
    if 0 <= i < |tx.batch| {
      assert n == db.root.value.size + i;
      assert tx.batch[i] in SetOf(tx.batch);
    }
  }

  /** A pass keeps leaf data, and takes entries out of the queue without changing the others. */
  lemma {:induction false} QueueShrinks(db: Db, tx: Tx, r: Db)
    requires db.root.Some? && tx.Sequence? && Sequenced(db, tx, r)
    ensures r.leafData == db.leafData
    ensures forall k :: k in r.unsequenced ==> k in db.unsequenced && r.unsequenced[k] == db.unsequenced[k]
  {
    hide Numbered, Recorded;
  }

  /** The entry of a leaf that is taken by the batch at position i, and only by it. */
  lemma {:induction false} EntryTaken(db: Db, tx: Tx, i: nat, h: Hash)
    requires QueueSound(db) && tx.Sequence? && i < |tx.batch| && tx.batch[i] in db.unsequenced && h in db.leafData
    ensures tx.batch[i].hash == h <==> tx.batch[i] == QueueKey(db.leafData[h].queueTs, h)
  {
  }

  lemma {:induction false} SequenceOnce(db: Db, tx: Tx, r: Db, m: int, n: int)
    requires QueueSound(db) && Dense(db) && Partition(db) && tx.Sequence? && Sequenced(db, tx, r) && Ascending(tx.batch)
    requires m in r.sequenced && n in r.sequenced && m < n
    ensures r.sequenced[m].hash != r.sequenced[n].hash
  {
    hide Sequenced;
    RowsOf(db, tx, r, m);
    RowsOf(db, tx, r, n);
    if n !in db.sequenced {
      var j := n - db.root.value.size;
      var h := tx.batch[j].hash;
      EntryTaken(db, tx, j, h);
      if m in db.sequenced {
        assert IsQueued(db, h);
        assert db.sequenced[m].hash == h ==> IsSequenced(db, h);
      } else {
        var i := m - db.root.value.size;
        EntryTaken(db, tx, i, h);
        KeyLessOrder(tx.batch[i], tx.batch[i], tx.batch[i]);
      }
    }
  }

  lemma {:induction false} SequenceDense(db: Db, tx: Tx, r: Db)
    requires QueueSound(db) && Dense(db) && Partition(db) && tx.Sequence? && Sequenced(db, tx, r) && Ascending(tx.batch)
    ensures QueueSound(r) && Dense(r)
  {
    assert r.leafData == db.leafData && r.root.value.size == db.root.value.size + |tx.batch|;
    assert forall v :: v in r.heads <==> 0 <= v <= r.root.value.revision;
    assert QueueSound(r);
    hide Sequenced;
    forall n
      ensures n in r.sequenced <==> 0 <= n < r.root.value.size
      ensures n in r.sequenced ==> r.sequenced[n].hash in r.leafData
    {
      RowsOf(db, tx, r, n);
    }
    forall m, n | m in r.sequenced && n in r.sequenced && r.sequenced[m].hash == r.sequenced[n].hash
      ensures m == n
    {
      if m < n { SequenceOnce(db, tx, r, m, n); }
      if n < m { SequenceOnce(db, tx, r, n, m); }
    }
  }

  lemma {:induction false} SequencePartition(db: Db, tx: Tx, r: Db)
    requires QueueSound(db) && Dense(db) && Partition(db) && tx.Sequence? && Sequenced(db, tx, r)
    ensures Partition(r)
  {
    forall h | h in r.leafData
      ensures IsQueued(r, h) <==> !IsSequenced(r, h)
    {
      PartitionAt(db, tx, r, h);
    }
  }

  lemma {:induction false} PartitionAt(db: Db, tx: Tx, r: Db, h: Hash)
    requires QueueSound(db) && Dense(db) && Partition(db) && tx.Sequence? && Sequenced(db, tx, r) && h in r.leafData
    ensures IsQueued(r, h) <==> !IsSequenced(r, h)
  {
    var k, size := QueueKey(db.leafData[h].queueTs, h), db.root.value.size;
    assert r.leafData == db.leafData && (k in r.unsequenced <==> k in db.unsequenced && k !in SetOf(tx.batch));
    hide Sequenced;
    if k in SetOf(tx.batch) {
      var i :| 0 <= i < |tx.batch| && tx.batch[i] == k;
      RowsOf(db, tx, r, size + i);
      assert r.sequenced[size + i].hash == h;
    } else if IsSequenced(db, h) {
      var n :| n in db.sequenced && db.sequenced[n].hash == h;
      RowsOf(db, tx, r, n);
      assert r.sequenced[n].hash == h;
    } else if IsSequenced(r, h) {
      var n :| n in r.sequenced && r.sequenced[n].hash == h;
      RowsOf(db, tx, r, n);
    }
  }

  lemma {:induction false} SequenceConserved(db: Db, tx: Tx, r: Db)
    requires Conserved(db) && tx.Sequence? && Sequenced(db, tx, r) && Ascending(tx.batch)
    ensures Conserved(r)
  {
    hide Recorded, Numbered, SetOf, Ascending;
    BatchSize(tx.batch);
    Removed(db.unsequenced, SetOf(tx.batch));
  }

  lemma {:induction false} Removed<K, V>(m: map<K, V>, taken: set<K>)
    requires taken <= m.Keys
    ensures |m - taken| + |taken| == |m|
  {
    var all := m.Keys;
    assert (m - taken).Keys == all - taken;
    assert all == (all - taken) + taken;
    assert |m - taken| == |(m - taken).Keys| && |m| == |all|;
  }

  lemma {:induction false} StepSound(hashSize: nat, db: Db, tx: Tx)
    requires Sound(db) && Step(hashSize, db, tx).Some?
    ensures Sound(Step(hashSize, db, tx).value)
  {
    match tx
    case Queue(leaves, ts, ord) =>
      QueueAllSound(db, leaves, ord, ts);
    case Sequence(_, _, _, _, _, _) =>
      var r := SequenceStep(db, tx).value;
      assert Ascending(tx.batch);
      SequenceCommits(db, tx);
      hide SequenceStep, Sequenced;
      SequenceDense(db, tx, r);
      SequencePartition(db, tx, r);
      SequenceConserved(db, tx, r);
  }

  /** In every run each stored leaf is queued or sequenced, never both and only once, and numbers are 0 .. size-1. */
  lemma {:induction false} RunSound(hashSize: nat, r: Run)
    requires After(hashSize, r).Some?
    ensures Sound(After(hashSize, r).value)
  {
    match r
    case Begin(root) =>
      EmptySound(root);
    case Then(r', tx) =>
      hide Sound, Step;
      RunSound(hashSize, r');
      StepSound(hashSize, After(hashSize, r').value, tx);
  }

  lemma {:induction false} EmptySound(root: Root)
    ensures Sound(Empty(root))
  {
    var db := Empty(root);
    assert db.leafData == map[] && db.unsequenced == map[] && db.sequenced == map[];
    assert QueueSound(db) && Partition(db) && SequencedOnce(db);
    hide QueueSound, Partition, SequencedOnce;
    assert forall v :: v in db.heads <==> v == 0;
  }

  // ----- the storage call of a batch -----

  /** Queueing a batch of leaves as one transaction, rolled back when it fails: one Queue step. */
  method QueueBatch(tx: LogTx, leaves: seq<Leaf>, ts: int) returns (ok: bool, ghost ord: seq<nat>)
    requires Sound(tx.db)
    modifies tx`db
    ensures ok <==> Accepted(tx.hashSize, old(tx.db), leaves)
    ensures ok ==> Step(tx.hashSize, old(tx.db), Queue(leaves, ts, ord)) == Some(tx.db)
    ensures !ok ==> tx.db == old(tx.db) && forall o :: Step(tx.hashSize, tx.db, Queue(leaves, ts, o)).None?
    ensures Sound(tx.db)
  {
    hide IsInsertOrder, Retrievable, Aligned, Duplicates, SequencedOnce, Accepted, Unrepeated, AllNew, SizesOk,
         QueueAll;
    var before := tx.db;
    assert SequencedOnce(before) by { SoundOnce(before); }
    var r;
    r, ord := tx.QueueLeaves(leaves, ts);
    ok := r.Success?;
    if ok {
      AcceptedSizes(tx.hashSize, before, leaves);
      StepSound(tx.hashSize, before, Queue(leaves, ts, ord));
    } else {
      tx.db := before;
    }
  }

  lemma {:induction false} SoundOnce(db: Db)
    requires Sound(db)
    ensures SequencedOnce(db)
  {
  }

  lemma {:induction false} AcceptedSizes(hashSize: nat, db: Db, leaves: seq<Leaf>)
    ensures Accepted(hashSize, db, leaves) ==> SizesOk(hashSize, leaves)
  {
  }

  // ----- the storage calls of a signer's pass -----

  method Number(leaves: seq<Leaf>, first: int, integrateTs: int) returns (numbered: seq<Leaf>)
    ensures |numbered| == |leaves|
    ensures forall i :: 0 <= i < |leaves| ==> numbered[i] == leaves[i].(index := first + i, integrateTs := integrateTs)
  {
    numbered := [];
    for i := 0 to |leaves|
      invariant |numbered| == i
      invariant forall j :: 0 <= j < i ==> numbered[j] == leaves[j].(index := first + j, integrateTs := integrateTs)
    {
      numbered := numbered + [leaves[i].(index := first + i, integrateTs := integrateTs)];
    }
  }

  /** Dequeue, update and store, as the signer calls them in one transaction: together they are one Sequence step. */
  method IntegrateBatch(tx: LogTx, limit: nat, cutoff: int, integrateTs: int, timestamp: int, rootHash: bytes)
    returns (ok: bool, ghost pass: Tx)
    requires Int64(limit) && 0 <= tx.root.size <= MAX_INT64 && !tx.preordered
    requires Sound(tx.db) && tx.db.root == Some(tx.root)
    modifies tx`db
    ensures pass.Sequence? && IsSmallest(Eligible(old(tx.db.unsequenced), cutoff), limit, pass.batch)
    ensures ok <==> forall i :: 0 <= i < |pass.batch| ==> |pass.batch[i].hash| == tx.hashSize
    ensures ok ==> SequenceStep(old(tx.db), pass) == Some(tx.db) && Sound(tx.db)
  {
    hide IsSmallest, Eligible, SetOf, Sound, SequenceStep, Numbered, Dequeued, UpdateAll, StoreRoot, SizesOk,
         RunLength, StoredLeaf, Wrap64;
    ghost var db := tx.db;
    var dequeued, batch := DequeueLeaves(tx, limit, cutoff);
    pass := Sequence(limit, cutoff, batch, integrateTs, timestamp, rootHash);
    if dequeued.Failure? {
      return false, pass;
    }
    var leaves := Number(dequeued.value, tx.root.size, integrateTs);
    PassSound(db, pass);
    PassSteps(db, pass, tx.hashSize, leaves);
    ok := UpdateSequencedLeaves(tx, leaves);
    ok := StoreSignedLogRoot(tx, Root(tx.root.size + |leaves|, tx.root.revision + 1, timestamp, rootHash, []));
  }

  lemma {:induction false} PassSound(db: Db, pass: Tx)
    requires Sound(db) && pass.Sequence? && IsSmallest(Eligible(db.unsequenced, pass.cutoff), pass.limit, pass.batch)
    ensures SequenceStep(db, pass).Some? && Sound(SequenceStep(db, pass).value)
  {
    hide IsSmallest, Eligible, Sound, SequenceStep;
    SequenceCommits(db, pass);
    StepSound(0, db, pass);
  }

  /** What the two later calls are given and do. */
  lemma {:induction false} PassSteps(db: Db, pass: Tx, hashSize: nat, leaves: seq<Leaf>)
    requires pass.Sequence? && SequenceStep(db, pass).Some? && |leaves| == |pass.batch|
    requires forall i :: 0 <= i < |leaves| ==>
               && pass.batch[i] in db.unsequenced && |pass.batch[i].hash| == hashSize
               && leaves[i] == Dequeued(db.unsequenced, pass.batch[i]).(index := db.root.value.size + i,
                   integrateTs := pass.integrateTs)
    ensures var root, d := db.root.value, db.(unsequenced := db.unsequenced - SetOf(pass.batch));
            && SizesOk(hashSize, leaves)
            && UpdateAll(d, leaves).Success?
            && var head := Root(root.size + |leaves|, root.revision + 1, pass.timestamp, pass.rootHash, []);
            StoreRoot(UpdateAll(d, leaves).value, head) == Success(SequenceStep(db, pass).value)
  {
    assert leaves == Numbered(db, pass.batch, db.root.value.size, pass.integrateTs);
  }

  // ----- append-only -----

  /** Nothing recorded in db is different in later. */
  ghost predicate Extends(db: Db, later: Db) {
    && (forall h :: h in db.leafData ==> h in later.leafData && later.leafData[h] == db.leafData[h])
    && (forall n :: n in db.sequenced ==> n in later.sequenced && later.sequenced[n] == db.sequenced[n])
    && (forall v :: v in db.heads ==> v in later.heads && later.heads[v] == db.heads[v])
  }

  lemma {:induction false} StepExtends(hashSize: nat, db: Db, tx: Tx)
    requires Sound(db) && Step(hashSize, db, tx).Some?
    ensures Extends(db, Step(hashSize, db, tx).value)
  {
    match tx
    case Queue(leaves, ts, ord) =>
      QueueAllKeys(db, leaves, ord, ts);
    case Sequence(_, _, _, _, _, _) =>
      var r := SequenceStep(db, tx).value;
      SequenceCommits(db, tx);
      assert db.root.value.revision + 1 !in db.heads;
  }

  /** r is a beginning of r'. */
  predicate StartsWith(r': Run, r: Run) {
    r' == r || (r'.Then? && StartsWith(r'.before, r))
  }

  /** Along every run a stored leaf, a sequenced entry and a tree head never change. */
  lemma {:induction false} AppendOnly(hashSize: nat, r: Run, r': Run)
    requires StartsWith(r', r) && After(hashSize, r').Some?
    ensures After(hashSize, r).Some? && Extends(After(hashSize, r).value, After(hashSize, r').value)
    decreases r'
  {
    if r' != r {
      AppendOnly(hashSize, r, r'.before);
      var d := After(hashSize, r'.before).value;
      RunSound(hashSize, r'.before);
      StepExtends(hashSize, d, r'.tx);
    }
  }
}
