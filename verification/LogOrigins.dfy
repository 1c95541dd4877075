/** Where everything in a log comes from: the leaf that was first queued for an identity hash. */
module LogOrigins {
  import opened Bytes
  import opened LogTables
  import opened LogStorage
  import opened LogRange
  import opened LogQueue
  import opened LogHistory

  /** The first leaf with a hash in the order of a batch. */
  function FirstIn(leaves: seq<Leaf>, ord: seq<nat>, h: Hash): (leaf: Option<Leaf>)
    requires forall k :: 0 <= k < |ord| ==> ord[k] < |leaves|
  {
    if ord == [] then None
    else
      var n := |ord| - 1;
      var first := FirstIn(leaves, ord[..n], h);
      if first.Some? then first else if leaves[ord[n]].identity == h then Some(leaves[ord[n]]) else None
  }

  /** The hash is at position k of the order, and at no earlier one. */
  predicate FirstAt(leaves: seq<Leaf>, ord: seq<nat>, h: Hash, k: nat)
    requires forall k :: 0 <= k < |ord| ==> ord[k] < |leaves|
  {
    k < |ord| && leaves[ord[k]].identity == h && forall j :: 0 <= j < k ==> leaves[ord[j]].identity != h
  }

  /** It is the leaf at the first position of the order that holds the hash. */
  lemma {:induction false} FirstInMeaning(leaves: seq<Leaf>, ord: seq<nat>, h: Hash)
    requires forall k :: 0 <= k < |ord| ==> ord[k] < |leaves|
    ensures FirstIn(leaves, ord, h).Some? <==> Listed(leaves, ord, h)
    ensures forall k: nat :: FirstAt(leaves, ord, h, k) ==> FirstIn(leaves, ord, h) == Some(leaves[ord[k]])
    decreases |ord|
  {
    if ord != [] {
      var n := |ord| - 1;
      assert forall k :: 0 <= k < n ==> ord[..n][k] == ord[k];
      FirstInMeaning(leaves, ord[..n], h);
      ListedStep(leaves, ord, h);
      forall k: nat | FirstAt(leaves, ord, h, k)
        ensures FirstIn(leaves, ord, h) == Some(leaves[ord[k]])
      {
        if k < n {
          assert FirstAt(leaves, ord[..n], h, k);
        } else {
          assert !Listed(leaves, ord[..n], h);
        }
      }
    }
  }

  lemma {:induction false} FirstHasHash(leaves: seq<Leaf>, ord: seq<nat>, h: Hash)
    requires forall k :: 0 <= k < |ord| ==> ord[k] < |leaves|
    ensures FirstIn(leaves, ord, h).Some? ==> FirstIn(leaves, ord, h).value.identity == h
    decreases |ord|
  {
    if ord != [] { FirstHasHash(leaves, ord[..|ord| - 1], h); }
  }

  /** The row and the queue entry that a leaf queued at a time has. */
  predicate Holds(db: Db, leaf: Leaf, ts: int) {
    leaf.identity in db.leafData && db.leafData[leaf.identity] == LeafRow(leaf.value, leaf.extra, ts)
  }

  /** The entries for one hash after a batch: as before if it was stored, else those of its first leaf in the order. */
  lemma {:induction false} QueueAllOrigin(db: Db, leaves: seq<Leaf>, ord: seq<nat>, ts: int, h: Hash)
    requires QueueSound(db) && forall k :: 0 <= k < |ord| ==> ord[k] < |leaves|
    ensures var d, first := QueueAll(db, leaves, ord, ts), FirstIn(leaves, ord, h);
            && QueueSound(d)
            && (h in d.leafData <==> h in db.leafData || first.Some?)
            && (h in db.leafData ==>
                  && d.leafData[h] == db.leafData[h]
                  && forall t :: var k := QueueKey(t, h);
                       (k in d.unsequenced <==> k in db.unsequenced) &&
                       (k in db.unsequenced ==> d.unsequenced[k] == db.unsequenced[k]))
            && (h !in db.leafData && first.Some? ==>
                  && first.value.identity == h && Holds(d, first.value, ts)
                  && QueueKey(ts, h) in d.unsequenced && d.unsequenced[QueueKey(ts, h)] == first.value.merkle)
    decreases |ord|
  {
    if ord != [] {
      var n := |ord| - 1;
      QueueAllOrigin(db, leaves, ord[..n], ts, h);
      FirstHasHash(leaves, ord, h);
      QueueOneOrigin(QueueAll(db, leaves, ord[..n], ts), leaves[ord[n]], ts, h);
      hide QueueOne, QueueSound;
    }
  }

  lemma {:induction false} QueueOneOrigin(db: Db, leaf: Leaf, ts: int, h: Hash)
    requires QueueSound(db)
    ensures var d := QueueOne(db, leaf, ts);
            && QueueSound(d)
            && (h in db.leafData || leaf.identity != h ==>
                  && (h in d.leafData <==> h in db.leafData)
                  && (h in db.leafData ==> d.leafData[h] == db.leafData[h])
                  && forall t :: var k := QueueKey(t, h);
                       (k in d.unsequenced <==> k in db.unsequenced) &&
                       (k in db.unsequenced ==> d.unsequenced[k] == db.unsequenced[k]))
            && (h !in db.leafData && leaf.identity == h ==>
                  && Holds(d, leaf, ts)
                  && QueueKey(ts, h) in d.unsequenced && d.unsequenced[QueueKey(ts, h)] == leaf.merkle)
  {
  }

  // ----- along runs -----

  /** The leaf that a run queued first for a hash, and when. */
  function Origin(r: Run, h: Hash): (o: Option<(Leaf, int)>) {
    match r
    case Begin(_) => None
    case Then(r', tx) =>
      var o := Origin(r', h);
      if o.Some? then o
      else if tx.Queue? && forall k :: 0 <= k < |tx.ord| ==> tx.ord[k] < |tx.leaves| then
        var first := FirstIn(tx.leaves, tx.ord, h);
        if first.Some? then Some((first.value, tx.ts)) else None
      else None
  }

  /** Everything stored for a hash is that of its origin; without an origin nothing is stored. */
  ghost predicate Traced(db: Db, h: Hash, o: Option<(Leaf, int)>) {
    && (h in db.leafData <==> o.Some?)
    && (o.Some? ==>
          && o.value.0.identity == h && Holds(db, o.value.0, o.value.1)
          && (forall k :: k in db.unsequenced && k.hash == h ==>
                k.ts == o.value.1 && db.unsequenced[k] == o.value.0.merkle)
          && (forall n :: n in db.sequenced && db.sequenced[n].hash == h ==>
                db.sequenced[n].merkle == o.value.0.merkle))
  }

  lemma {:induction false} QueueTraced(db: Db, leaves: seq<Leaf>, ord: seq<nat>, ts: int, h: Hash,
      o: Option<(Leaf, int)>)
    requires QueueSound(db) && (forall n :: n in db.sequenced ==> db.sequenced[n].hash in db.leafData)
    requires Traced(db, h, o) && forall k :: 0 <= k < |ord| ==> ord[k] < |leaves|
    ensures var first := FirstIn(leaves, ord, h);
            var o' := if o.Some? then o else if first.Some? then Some((first.value, ts)) else None;
            Traced(QueueAll(db, leaves, ord, ts), h, o')
  {
    hide FirstIn, QueueAll, Listed;
    var d := QueueAll(db, leaves, ord, ts);
    QueueAllOrigin(db, leaves, ord, ts, h);
    QueueAllKeys(db, leaves, ord, ts);
    assert forall k :: k in d.unsequenced && k.hash == h ==> k == QueueKey(k.ts, h);
  }

  lemma {:induction false} PassTraced(db: Db, tx: Tx, d: Db, h: Hash, o: Option<(Leaf, int)>)
    requires Dense(db) && tx.Sequence? && Sequenced(db, tx, d) && Traced(db, h, o)
    ensures Traced(d, h, o)
  {
    hide Sequenced, QueueSound, SequencedOnce;
    QueueShrinks(db, tx, d);
    if o.Some? {
      forall n | n in d.sequenced && d.sequenced[n].hash == h
        ensures d.sequenced[n].merkle == o.value.0.merkle
      {
        RowsOf(db, tx, d, n);
      }
    }
  }

  lemma {:induction false} SoundRoot(db: Db)
    requires Sound(db)
    ensures db.root.Some? && QueueSound(db) && forall n :: n in db.sequenced ==> db.sequenced[n].hash in db.leafData
  {
  }

  /** In every run what is stored, queued and sequenced for a hash is that of the leaf first queued for it. */
  lemma {:induction false} RunTraced(hashSize: nat, r: Run, h: Hash)
    requires After(hashSize, r).Some?
    ensures Traced(After(hashSize, r).value, h, Origin(r, h))
  {
    match r
    case Begin(_) =>
    case Then(r', tx) =>
      RunTraced(hashSize, r', h);
      RunSound(hashSize, r');
      hide Sound, Traced, QueueAll, SequenceStep;
      var db := After(hashSize, r').value;
      if tx.Queue? {
        SoundRoot(db);
        QueueTraced(db, tx.leaves, tx.ord, tx.ts, h, Origin(r', h));
      } else {
        StepCommitted(db, tx);
        PassTraced(db, tx, SequenceStep(db, tx).value, h, Origin(r', h));
      }
  }

  /** What is read at a position is the leaf that was first queued for its hash, with its own Merkle hash and time. */
  lemma {:induction false} ReadsWhatWasQueued(hashSize: nat, r: Run, n: int)
    requires After(hashSize, r).Some? && Present(After(hashSize, r).value, n)
    ensures var leaf := StoredLeaf(After(hashSize, r).value, n);
            var o := Origin(r, leaf.identity);
            && o.Some?
            && leaf == o.value.0.(index := n, queueTs := o.value.1, integrateTs := leaf.integrateTs)
  {
    RunTraced(hashSize, r, StoredLeaf(After(hashSize, r).value, n).identity);
  }
}
