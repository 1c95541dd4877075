/** The tables of one log tree and the statements run against them. */
module LogTables {
  import opened Bytes

  type Hash = bytes

  /** A leaf as callers pass it and as queries return it. */
  datatype Leaf = Leaf(identity: Hash, merkle: bytes, value: bytes, extra: bytes, index: int, queueTs: int,
      integrateTs: int)

  datatype LeafRow = LeafRow(value: bytes, extra: bytes, queueTs: int)

  datatype QueueKey = QueueKey(ts: int, hash: Hash)

  datatype SequencedRow = SequencedRow(hash: Hash, merkle: bytes, integrateTs: int)

  datatype Root = Root(size: int, revision: int, timestamp: int, rootHash: bytes, metadata: bytes)

  /** Each table is a map from its primary key; root is the copy of the latest tree head in the trees table. */
  datatype Db = Db(
    leafData: map<Hash, LeafRow>,
    unsequenced: map<QueueKey, bytes>,
    sequenced: map<int, SequencedRow>,
    heads: map<int, Root>,
    root: Option<Root>)

  datatype Result<+T> = Success(value: T) | Failure

  // ----- the three inserts that report duplicates -----

  /** Reports whether the row was inserted. */
  function InsertLeafData(db: Db, leaf: Leaf, ts: int): (r: (Db, bool)) {
    if leaf.identity in db.leafData then (db, false)
    else (db.(leafData := db.leafData[leaf.identity := LeafRow(leaf.value, leaf.extra, ts)]), true)
  }

  function InsertUnsequenced(db: Db, leaf: Leaf, ts: int): (r: (Db, bool)) {
    var k := QueueKey(ts, leaf.identity);
    if k in db.unsequenced then (db, false)
    else (db.(unsequenced := db.unsequenced[k := leaf.merkle]), true)
  }

  /** A duplicate is reported; a row for a leaf that has no data violates the foreign key and is an error. */
  function InsertSequenced(db: Db, leaf: Leaf, ts: int): (r: Result<(Db, bool)>) {
    if leaf.index in db.sequenced then Success((db, false))
    else if leaf.identity !in db.leafData then Failure
    else Success((db.(sequenced := db.sequenced[leaf.index := SequencedRow(leaf.identity, leaf.merkle, ts)]), true))
  }

  // ----- the order of a batch -----

  /** ord lists every position of a batch of n once. */
  predicate IsPermutation(n: nat, ord: seq<nat>) {
    && |ord| == n
    && (forall k :: 0 <= k < n ==> ord[k] < n)
    && (forall j, k :: 0 <= j < k < n ==> ord[j] != ord[k])
  }

  /** ord lists the positions of a batch by identity hash; ties may come in any order. */
  predicate IsInsertOrder(leaves: seq<Leaf>, ord: seq<nat>) {
    && IsPermutation(|leaves|, ord)
    && forall j, k :: 0 <= j < k < |ord| ==> !Less(leaves[ord[k]].identity, leaves[ord[j]].identity)
  }

  /** Every position is listed. */
  lemma {:induction false} PermutationCovers(n: nat, ord: seq<nat>, p: nat)
    requires IsPermutation(n, ord) && p < n
    ensures p in ord
  {
    var hit := SetOf(ord);
    DistinctSize(ord);
    if p !in ord {
      assert hit <= Below(n) - {p};
      SubsetSize(hit, Below(n) - {p});
    }
  }

  ghost function Below(n: nat): (s: set<int>)
    ensures |s| == n
    ensures forall k :: k in s <==> 0 <= k < n
  {
    if n == 0 then {} else Below(n - 1) + {n - 1}
  }

  lemma {:induction false} DistinctSize(s: seq<nat>)
    requires forall j, k :: 0 <= j < k < |s| ==> s[j] != s[k]
    ensures |SetOf(s)| == |s|
  {
    if s != [] {
      DistinctSize(s[1..]);
      assert SetOf(s) == {s[0]} + SetOf(s[1..]);
      assert s[0] !in s[1..];
    }
  }

  lemma {:induction false} SubsetSize<T>(a: set<T>, b: set<T>)
    requires a <= b
    ensures |a| <= |b|
  {
    assert b == a + (b - a);
  }

  // ----- queueing -----

  /** One leaf of a batch: its data and, when that is new, its queue entry, whose answer is not looked at. */
  function QueueOne(db: Db, leaf: Leaf, ts: int): (r: Db) {
    var (d, isNew) := InsertLeafData(db, leaf, ts);
    if isNew then InsertUnsequenced(d, leaf, ts).0 else db
  }

  function QueueAll(db: Db, leaves: seq<Leaf>, ord: seq<nat>, ts: int): (r: Db)
    requires forall k :: 0 <= k < |ord| ==> ord[k] < |leaves|
  {
    if ord == [] then db
    else
      var n := |ord| - 1;
      QueueOne(QueueAll(db, leaves, ord[..n], ts), leaves[ord[n]], ts)
  }

  /** The k-th leaf inserted is new: its hash is neither stored nor earlier in the order. */
  predicate NewAt(db: Db, leaves: seq<Leaf>, ord: seq<nat>, k: nat)
    requires k < |ord| && forall j :: 0 <= j < |ord| ==> ord[j] < |leaves|
  {
    && leaves[ord[k]].identity !in db.leafData
    && forall j :: 0 <= j < k ==> leaves[ord[j]].identity != leaves[ord[k]].identity
  }

  /** The position p of a batch is the one that is inserted. */
  ghost predicate InsertedAt(db: Db, leaves: seq<Leaf>, ord: seq<nat>, p: nat)
    requires forall j :: 0 <= j < |ord| ==> ord[j] < |leaves|
  {
    exists k :: 0 <= k < |ord| && ord[k] == p && NewAt(db, leaves, ord, k)
  }

  ghost predicate Listed(leaves: seq<Leaf>, ord: seq<nat>, h: Hash)
    requires forall j :: 0 <= j < |ord| ==> ord[j] < |leaves|
  {
    exists k :: 0 <= k < |ord| && leaves[ord[k]].identity == h
  }

  /** A batch adds exactly its hashes, changes no old row and touches only two tables. */
  lemma {:induction false} QueueAllKeys(db: Db, leaves: seq<Leaf>, ord: seq<nat>, ts: int)
    requires forall k :: 0 <= k < |ord| ==> ord[k] < |leaves|
    ensures var d := QueueAll(db, leaves, ord, ts);
            && d.sequenced == db.sequenced && d.heads == db.heads && d.root == db.root
            && (forall h :: h in d.leafData <==> h in db.leafData || Listed(leaves, ord, h))
            && (forall h :: h in db.leafData ==> d.leafData[h] == db.leafData[h])
    decreases |ord|
  {
    if ord != [] {
      var n := |ord| - 1;
      QueueAllKeys(db, leaves, ord[..n], ts);
      var last := leaves[ord[n]].identity;
      forall h
        ensures Listed(leaves, ord, h) <==> Listed(leaves, ord[..n], h) || h == last
      {
        ListedStep(leaves, ord, h);
      }
      hide Listed;
    }
  }

  lemma {:induction false} ListedStep(leaves: seq<Leaf>, ord: seq<nat>, h: Hash)
    requires ord != [] && forall k :: 0 <= k < |ord| ==> ord[k] < |leaves|
    ensures var n := |ord| - 1; Listed(leaves, ord, h) <==> Listed(leaves, ord[..n], h) || h == leaves[ord[n]].identity
  {
    var n := |ord| - 1;
    if Listed(leaves, ord, h) && h != leaves[ord[n]].identity {
      var k :| 0 <= k < |ord| && leaves[ord[k]].identity == h;
      assert ord[..n][k] == ord[k];
    }
    if Listed(leaves, ord[..n], h) {
      var k :| 0 <= k < |ord[..n]| && leaves[ord[..n][k]].identity == h;
      assert ord[..n][k] == ord[k];
    }
  }

  lemma {:induction false} NewMeansUnlisted(db: Db, leaves: seq<Leaf>, ord: seq<nat>, k: nat)
    requires k < |ord| && forall j :: 0 <= j < |ord| ==> ord[j] < |leaves|
    ensures NewAt(db, leaves, ord, k) <==>
            leaves[ord[k]].identity !in db.leafData && !Listed(leaves, ord[..k], leaves[ord[k]].identity)
  {
    assert forall j :: 0 <= j < k ==> ord[..k][j] == ord[j];
  }

  /** A new hash gets the row of its first leaf in the order. */
  lemma {:induction false} QueueAllNewRow(db: Db, leaves: seq<Leaf>, ord: seq<nat>, ts: int, k: nat)
    requires k < |ord| && forall j :: 0 <= j < |ord| ==> ord[j] < |leaves|
    requires NewAt(db, leaves, ord, k)
    ensures var d, leaf := QueueAll(db, leaves, ord, ts), leaves[ord[k]];
            leaf.identity in d.leafData && d.leafData[leaf.identity] == LeafRow(leaf.value, leaf.extra, ts)
    decreases |ord|
  {
    var n := |ord| - 1;
    QueueAllKeys(db, leaves, ord[..n], ts);
    if k == n {
      NewMeansUnlisted(db, leaves, ord, n);
    } else {
      assert forall j :: 0 <= j < n ==> ord[..n][j] == ord[j];
      QueueAllNewRow(db, leaves, ord[..n], ts, k);
    }
  }
}
