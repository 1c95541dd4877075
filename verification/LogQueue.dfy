/** The work queue: which entries a signer takes, how it removes them, and how it records their sequence numbers. */
module LogQueue {
  import opened Bytes
  import opened LogTables
  import opened LogStorage
  import opened LogRange

  // ----- the order of the queue -----

  /** By queue timestamp, then by hash. */
  predicate KeyLess(a: QueueKey, b: QueueKey) {
    a.ts < b.ts || (a.ts == b.ts && Less(a.hash, b.hash))
  }

  lemma {:induction false} KeyLessOrder(a: QueueKey, b: QueueKey, c: QueueKey)
    ensures !KeyLess(a, a)
    ensures KeyLess(a, b) && KeyLess(b, c) ==> KeyLess(a, c)
    ensures a == b || KeyLess(a, b) || KeyLess(b, a)
  {
    LessIrreflexive(a.hash);
    if Less(a.hash, b.hash) && Less(b.hash, c.hash) { LessTransitive(a.hash, b.hash, c.hash); }
    LessTotal(a.hash, b.hash);
  }

  predicate Ascending(batch: seq<QueueKey>) {
    forall i, j :: 0 <= i < j < |batch| ==> KeyLess(batch[i], batch[j])
  }

  function Eligible(unsequenced: map<QueueKey, bytes>, cutoff: int): (ks: set<QueueKey>) {
    set k | k in unsequenced && k.ts <= cutoff
  }

  /** The limit smallest eligible entries, in order. */
  predicate IsSmallest(eligible: set<QueueKey>, limit: nat, batch: seq<QueueKey>) {
    && Ascending(batch)
    && |batch| == (if limit <= |eligible| then limit else |eligible|)
    && (forall i :: 0 <= i < |batch| ==> batch[i] in eligible)
    && (forall k, i :: k in eligible && k !in batch && 0 <= i < |batch| ==> KeyLess(batch[i], k))
  }

  /**
   The oldest entries come first: a batch is in order of time, holds no entry after the cutoff, and an entry up to the
   cutoff is left behind only if the batch is full of entries that are older, or as old with a smaller hash.
   */
  lemma {:induction false} OldestFirst(unsequenced: map<QueueKey, bytes>, limit: nat, cutoff: int, batch: seq<QueueKey>)
    requires IsSmallest(Eligible(unsequenced, cutoff), limit, batch)
    ensures |batch| <= limit
    ensures forall i, j :: 0 <= i < j < |batch| ==> batch[i].ts <= batch[j].ts && batch[i] != batch[j]
    ensures forall i :: 0 <= i < |batch| ==> batch[i] in unsequenced && batch[i].ts <= cutoff
    ensures forall k, i :: k in unsequenced && k !in batch && k.ts <= cutoff && 0 <= i < |batch| ==>
              batch[i].ts < k.ts || (batch[i].ts == k.ts && Less(batch[i].hash, k.hash))
    ensures (exists k :: k in unsequenced && k !in batch && k.ts <= cutoff) ==> |batch| == limit
  {
    var eligible := Eligible(unsequenced, cutoff);
    forall i, j | 0 <= i < j < |batch|
      ensures batch[i].ts <= batch[j].ts && batch[i] != batch[j]
    {
      KeyLessOrder(batch[i], batch[i], batch[i]);
    }
    if k :| k in unsequenced && k !in batch && k.ts <= cutoff {
      BatchSize(batch);
      assert SetOf(batch) <= eligible - {k};
      SubsetSize(SetOf(batch), eligible - {k});
    }
  }

  lemma {:induction false} BatchSize(batch: seq<QueueKey>)
    requires Ascending(batch)
    ensures |SetOf(batch)| == |batch|
    decreases |batch|
  {
    if batch != [] {
      var n := |batch| - 1;
      BatchSize(batch[..n]);
      NotEarlier(batch, n);
      assert SetOf(batch) == SetOf(batch[..n]) + {batch[n]};
    } else {
      assert SetOf(batch) == {};
    }
  }

  /** There is only one such batch. */
  lemma {:induction false} SmallestUnique(eligible: set<QueueKey>, limit: nat, a: seq<QueueKey>, b: seq<QueueKey>)
    requires IsSmallest(eligible, limit, a) && IsSmallest(eligible, limit, b)
    ensures a == b
  {
    forall i | 0 <= i < |a|
      ensures a[i] == b[i]
    {
      SmallestAgree(eligible, limit, a, b, i);
    }
  }

  lemma {:induction false} SmallestAgree(eligible: set<QueueKey>, limit: nat, a: seq<QueueKey>, b: seq<QueueKey>,
      i: nat)
    requires IsSmallest(eligible, limit, a) && IsSmallest(eligible, limit, b) && i < |a|
    ensures a[i] == b[i]
    decreases i
  {
    forall j | 0 <= j < i
      ensures a[j] == b[j]
    {
      SmallestAgree(eligible, limit, a, b, j);
    }
    KeyLessOrder(a[i], b[i], a[i]);
    if KeyLess(a[i], b[i]) { NotSmaller(eligible, limit, a, b, i); }
    if KeyLess(b[i], a[i]) { NotSmaller(eligible, limit, b, a, i); }
  }

  lemma {:induction false} NotSmaller(eligible: set<QueueKey>, limit: nat, a: seq<QueueKey>, b: seq<QueueKey>, i: nat)
    requires IsSmallest(eligible, limit, a) && IsSmallest(eligible, limit, b) && i < |a|
    requires forall j :: 0 <= j < i ==> a[j] == b[j]
    ensures !KeyLess(a[i], b[i])
  {
    if KeyLess(a[i], b[i]) {
      KeyLessOrder(a[i], b[i], a[i]);
    }
  }

  method MinKey(keys: set<QueueKey>) returns (m: QueueKey)
    requires keys != {}
    ensures m in keys && forall k :: k in keys && k != m ==> KeyLess(m, k)
  {
    m :| m in keys;
    var left := keys - {m};
    while left != {}
      invariant m in keys && left <= keys
      invariant forall k :: k in keys && k !in left && k != m ==> KeyLess(m, k)
      decreases left
    {
      var k :| k in left;
      left := left - {k};
      KeyLessOrder(m, k, m);
      if KeyLess(k, m) {
        forall x | x in keys && x !in left && x != k
          ensures KeyLess(k, x)
        {
          KeyLessOrder(k, m, x);
        }
        m := k;
      }
    }
  }

  /** What the queue query returns: entries up to the cutoff, ordered, at most limit of them. */
  method SelectQueued(unsequenced: map<QueueKey, bytes>, limit: nat, cutoff: int) returns (batch: seq<QueueKey>)
    ensures IsSmallest(Eligible(unsequenced, cutoff), limit, batch)
  {
    var eligible := Eligible(unsequenced, cutoff);
    var left := eligible;
    batch := [];
    while |batch| < limit && left != {}
      invariant left <= eligible && |batch| + |left| == |eligible| && |batch| <= limit
      invariant Ascending(batch)
      invariant forall k :: k in eligible <==> k in left || k in batch
      invariant forall k, i :: k in left && 0 <= i < |batch| ==> KeyLess(batch[i], k)
      decreases left
    {
      var m := MinKey(left);
      batch := batch + [m];
      left := left - {m};
      KeyLessOrder(m, m, m);
    }
  }

  // ----- transactions of the signer -----

  /** Deletes the entries one by one; each delete must hit exactly one row. */
  method RemoveSequencedLeaves(tx: LogTx, batch: seq<QueueKey>) returns (ok: bool)
    requires Ascending(batch)
    modifies tx`db
    ensures ok <==> SetOf(batch) <= old(tx.db.unsequenced.Keys)
    ensures ok ==> tx.db == old(tx.db).(unsequenced := old(tx.db.unsequenced) - SetOf(batch))
  {
    for i := 0 to |batch|
      invariant SetOf(batch[..i]) <= old(tx.db.unsequenced.Keys)
      invariant tx.db == old(tx.db).(unsequenced := old(tx.db.unsequenced) - SetOf(batch[..i]))
    {
      assert SetOf(batch[..i + 1]) == SetOf(batch[..i]) + {batch[i]};
      NotEarlier(batch, i);
      if batch[i] !in tx.db.unsequenced {
        assert batch[i] in SetOf(batch);
        return false;
      }
      tx.db := tx.db.(unsequenced := tx.db.unsequenced - {batch[i]});
    }
    assert batch[..|batch|] == batch;
    ok := true;
  }

  lemma {:induction false} NotEarlier(batch: seq<QueueKey>, i: nat)
    requires Ascending(batch) && i < |batch|
    ensures batch[i] !in batch[..i]
  {
    forall j | 0 <= j < i
      ensures batch[j] != batch[i]
    {
      KeyLessOrder(batch[i], batch[i], batch[i]);
    }
  }

  /** The leaf a signer is given for a queue entry. */
  function Dequeued(unsequenced: map<QueueKey, bytes>, k: QueueKey): (leaf: Leaf)
    requires k in unsequenced
  {
    Leaf(k.hash, unsequenced[k], [], [], 0, k.ts, 0)
  }

  /** Takes the oldest entries off the queue; a pre-ordered log has none, and answers the leaves after its tree. */
  method DequeueLeaves(tx: LogTx, limit: nat, cutoff: int) returns (r: Result<seq<Leaf>>, ghost batch: seq<QueueKey>)
    requires Int64(limit) && 0 <= tx.root.size <= MAX_INT64
    modifies tx`db
    ensures !tx.preordered ==>
              && IsSmallest(Eligible(old(tx.db.unsequenced), cutoff), limit, batch)
              && (r.Success? <==> forall i :: 0 <= i < |batch| ==> |batch[i].hash| == tx.hashSize)
              && (r.Success? ==>
                    && tx.db == old(tx.db).(unsequenced := old(tx.db.unsequenced) - SetOf(batch))
                    && |r.value| == |batch|
                    && forall i :: 0 <= i < |batch| ==>
                         batch[i] in old(tx.db.unsequenced) && r.value[i] == Dequeued(old(tx.db.unsequenced), batch[i]))
    ensures tx.preordered ==>
              var size := tx.root.size;
              var k := RunLength(tx.db, size, Wrap64(size + limit));
              && tx.db == old(tx.db)
              && (r.Success? <==> limit > 0)
              && (r.Success? ==> |r.value| == k && forall i :: 0 <= i < k ==> r.value[i] == StoredLeaf(tx.db, size + i))
  {
    if tx.preordered {
      batch := [];
      r := GetLeavesByRange(tx, tx.root.size, limit);
    } else {
      r, batch := TakeQueued(tx, limit, cutoff);
    }
  }

  /** The queue branch: selects, checks sizes, and deletes what it selected. */
  method TakeQueued(tx: LogTx, limit: nat, cutoff: int) returns (r: Result<seq<Leaf>>, ghost batch: seq<QueueKey>)
    modifies tx`db
    ensures IsSmallest(Eligible(old(tx.db.unsequenced), cutoff), limit, batch)
    ensures r.Success? <==> forall i :: 0 <= i < |batch| ==> |batch[i].hash| == tx.hashSize
    ensures r.Success? ==> tx.db == old(tx.db).(unsequenced := old(tx.db.unsequenced) - SetOf(batch))
    ensures r.Success? ==> |r.value| == |batch| && forall i :: 0 <= i < |batch| ==>
            r.value[i] == Dequeued(old(tx.db.unsequenced), batch[i])
  {
    var keys := SelectQueued(tx.db.unsequenced, limit, cutoff);
    batch := keys;
    var leaves := [];
    for i := 0 to |keys|
      invariant |leaves| == i && tx.db == old(tx.db)
      invariant forall j :: 0 <= j < i ==>
                  leaves[j] == Dequeued(tx.db.unsequenced, keys[j]) && |keys[j].hash| == tx.hashSize
    {
      var leaf := Dequeued(tx.db.unsequenced, keys[i]);
      if |leaf.identity| != tx.hashSize {
        return Failure, batch;
      }
      leaves := leaves + [leaf];
    }
    var ok := RemoveSequencedLeaves(tx, keys);
    assert ok;
    r := Success(leaves);
  }

  /** Rows for numbered leaves, one after the other; whether a row was a duplicate is not looked at. */
  function UpdateAll(db: Db, leaves: seq<Leaf>): (r: Result<Db>) {
    if leaves == [] then Success(db)
    else
      var n := |leaves| - 1;
      var d := UpdateAll(db, leaves[..n]);
      if d.Failure? then Failure
      else
        var i := InsertSequenced(d.value, leaves[n], leaves[n].integrateTs);
        if i.Failure? then Failure else Success(i.value.0)
  }

  method UpdateSequencedLeaves(tx: LogTx, leaves: seq<Leaf>) returns (ok: bool)
    modifies tx`db
    ensures ok ==> SizesOk(tx.hashSize, leaves) && UpdateAll(old(tx.db), leaves) == Success(tx.db)
    ensures SizesOk(tx.hashSize, leaves) && UpdateAll(old(tx.db), leaves).Success? ==> ok
  {
    for i := 0 to |leaves|
      invariant SizesOk(tx.hashSize, leaves[..i]) && UpdateAll(old(tx.db), leaves[..i]) == Success(tx.db)
    {
      assert leaves[..i + 1][..i] == leaves[..i];
      if |leaves[i].identity| != tx.hashSize {
        return false;
      }
      var inserted := InsertSequenced(tx.db, leaves[i], leaves[i].integrateTs);
      if inserted.Failure? {
        UpdateStops(old(tx.db), leaves, i + 1);
        return false;
      }
      tx.db := inserted.value.0;
    }
    assert leaves[..|leaves|] == leaves;
    ok := true;
  }

  lemma {:induction false} UpdateStops(db: Db, leaves: seq<Leaf>, k: nat)
    requires k <= |leaves| && UpdateAll(db, leaves[..k]).Failure?
    ensures UpdateAll(db, leaves).Failure?
    decreases |leaves|
  {
    if k < |leaves| {
      var n := |leaves| - 1;
      assert leaves[..n][..k] == leaves[..k];
      UpdateStops(db, leaves[..n], k);
    } else {
      assert leaves[..k] == leaves;
    }
  }

  /** A new tree head; the primary key allows one head for each revision. */
  function StoreRoot(db: Db, root: Root): (r: Result<Db>) {
    if root.metadata != [] || root.revision in db.heads then Failure
    else Success(db.(root := Some(root), heads := db.heads[root.revision := root]))
  }

  method StoreSignedLogRoot(tx: LogTx, root: Root) returns (ok: bool)
    modifies tx`db
    ensures ok <==> StoreRoot(old(tx.db), root).Success?
    ensures ok ==> StoreRoot(old(tx.db), root) == Success(tx.db)
  {
    if root.metadata != [] {
      return false;
    }
    tx.db := tx.db.(root := Some(root));
    if root.revision in tx.db.heads {
      return false;
    }
    tx.db := tx.db.(heads := tx.db.heads[root.revision := root]);
    ok := true;
  }
}
