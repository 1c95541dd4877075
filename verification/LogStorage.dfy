/** Transactions of the log storage: queueing a batch of leaves and reading stored leaves back by hash. */
module LogStorage {
  import opened Bytes
  import opened LogTables

  /** The query by identity hash returns 32 zero digits in place of a Merkle leaf hash. */
  const DUMMY_MERKLE_LEAF_HASH: bytes := [
    0x30, 0x30, 0x30, 0x30, 0x30, 0x30, 0x30, 0x30, 0x30, 0x30, 0x30, 0x30, 0x30, 0x30, 0x30, 0x30,
    0x30, 0x30, 0x30, 0x30, 0x30, 0x30, 0x30, 0x30, 0x30, 0x30, 0x30, 0x30, 0x30, 0x30, 0x30, 0x30]

  // ----- duplicates of a batch -----

  /** Each hash has at most one row in the sequenced table, as in a log that refuses duplicates. */
  ghost predicate SequencedOnce(db: Db) {
    forall m, n :: m in db.sequenced && n in db.sequenced && db.sequenced[m].hash == db.sequenced[n].hash ==> m == n
  }

  /** No hash is a duplicate at two positions: a batch may hold a stored hash once and a new one twice. */
  predicate Unrepeated(db: Db, leaves: seq<Leaf>) {
    && (forall i, j :: 0 <= i < j < |leaves| && leaves[i].identity == leaves[j].identity ==>
        leaves[i].identity !in db.leafData)
    && (forall i, j, k :: 0 <= i < j < k < |leaves| && leaves[i].identity == leaves[j].identity ==>
        leaves[j].identity != leaves[k].identity)
  }

  /** No leaf of the batch is a duplicate. */
  predicate AllNew(db: Db, leaves: seq<Leaf>) {
    && (forall i :: 0 <= i < |leaves| ==> leaves[i].identity !in db.leafData)
    && (forall i, j :: 0 <= i < j < |leaves| ==> leaves[i].identity != leaves[j].identity)
  }

  /** Batches that are queued: duplicates can be read back only where hashes are as long as the dummy Merkle hash. */
  predicate Accepted(hashSize: nat, db: Db, leaves: seq<Leaf>) {
    SizesOk(hashSize, leaves) && Unrepeated(db, leaves) && (hashSize == |DUMMY_MERKLE_LEAF_HASH| || AllNew(db, leaves))
  }

  /** A stored leaf listed twice is refused; a new leaf may be listed twice, but not three times. */
  lemma {:induction false} RepeatedLeaf(db: Db, leaf: Leaf, hashSize: nat)
    requires |leaf.identity| == hashSize == |DUMMY_MERKLE_LEAF_HASH|
    ensures Accepted(hashSize, db, [leaf])
    ensures Accepted(hashSize, db, [leaf, leaf]) <==> leaf.identity !in db.leafData
    ensures !Accepted(hashSize, db, [leaf, leaf, leaf])
  {
    var two, three := [leaf, leaf], [leaf, leaf, leaf];
    assert two[0].identity == two[1].identity;
    assert three[0].identity == three[1].identity == three[2].identity;
  }

  predicate SizesOk(hashSize: nat, leaves: seq<Leaf>) {
    forall i :: 0 <= i < |leaves| ==> |leaves[i].identity| == hashSize
  }

  /** No two positions that were not inserted share a hash. */
  ghost predicate DuplicatesDiffer(db: Db, leaves: seq<Leaf>, ord: seq<nat>)
    requires IsPermutation(|leaves|, ord)
  {
    forall i, j :: 0 <= i < j < |leaves| && !InsertedAt(db, leaves, ord, i) && !InsertedAt(db, leaves, ord, j) ==>
      leaves[i].identity != leaves[j].identity
  }

  /** Of the positions that hold a new hash exactly one is inserted. */
  lemma {:induction false} SomeInserted(db: Db, leaves: seq<Leaf>, ord: seq<nat>, p: nat) returns (q: nat)
    requires IsPermutation(|leaves|, ord) && p < |leaves| && leaves[p].identity !in db.leafData
    ensures q < |leaves| && leaves[q].identity == leaves[p].identity && InsertedAt(db, leaves, ord, q)
  {
    PermutationCovers(|leaves|, ord, p);
    var k :| 0 <= k < |ord| && ord[k] == p;
    q := FirstOf(db, leaves, ord, k);
  }

  lemma {:induction false} FirstOf(db: Db, leaves: seq<Leaf>, ord: seq<nat>, k: nat) returns (q: nat)
    requires IsPermutation(|leaves|, ord) && k < |ord| && leaves[ord[k]].identity !in db.leafData
    ensures q < |leaves| && leaves[q].identity == leaves[ord[k]].identity && InsertedAt(db, leaves, ord, q)
    decreases k
  {
    if j :| 0 <= j < k && leaves[ord[j]].identity == leaves[ord[k]].identity {
      q := FirstOf(db, leaves, ord, j);
    } else {
      q := ord[k];
      assert NewAt(db, leaves, ord, k);
    }
  }

  lemma {:induction false} InsertedOnce(db: Db, leaves: seq<Leaf>, ord: seq<nat>, p: nat, q: nat)
    requires IsPermutation(|leaves|, ord) && p < |leaves| && q < |leaves|
    requires InsertedAt(db, leaves, ord, p) && InsertedAt(db, leaves, ord, q)
             && leaves[p].identity == leaves[q].identity
    ensures p == q && leaves[p].identity !in db.leafData
  {
    var j :| 0 <= j < |ord| && ord[j] == p && NewAt(db, leaves, ord, j);
    var k :| 0 <= k < |ord| && ord[k] == q && NewAt(db, leaves, ord, k);
  }

  /** Whatever the order of equal hashes, duplicates differ exactly when the batch holds no hash too often. */
  lemma {:induction false} DuplicatesDifferExactly(db: Db, leaves: seq<Leaf>, ord: seq<nat>)
    requires IsPermutation(|leaves|, ord)
    ensures DuplicatesDiffer(db, leaves, ord) <==> Unrepeated(db, leaves)
  {
    hide InsertedAt;
    if Unrepeated(db, leaves) {
      forall i, j | 0 <= i < j < |leaves| && !InsertedAt(db, leaves, ord, i) && !InsertedAt(db, leaves, ord, j)
        ensures leaves[i].identity != leaves[j].identity
      {
        if leaves[i].identity == leaves[j].identity {
          var q := SomeInserted(db, leaves, ord, i);
        }
      }
    }
    if DuplicatesDiffer(db, leaves, ord) {
      forall i, j | 0 <= i < j < |leaves| && leaves[i].identity == leaves[j].identity
        ensures leaves[i].identity !in db.leafData
      {
        StoredNotInserted(db, leaves, ord, i);
        StoredNotInserted(db, leaves, ord, j);
      }
      forall i, j, k | 0 <= i < j < k < |leaves| && leaves[i].identity == leaves[j].identity
        ensures leaves[j].identity != leaves[k].identity
      {
        if leaves[j].identity == leaves[k].identity {
          if InsertedAt(db, leaves, ord, i) && InsertedAt(db, leaves, ord, j) { InsertedOnce(db, leaves, ord, i, j); }
          if InsertedAt(db, leaves, ord, i) && InsertedAt(db, leaves, ord, k) { InsertedOnce(db, leaves, ord, i, k); }
          if InsertedAt(db, leaves, ord, j) && InsertedAt(db, leaves, ord, k) { InsertedOnce(db, leaves, ord, j, k); }
        }
      }
    }
  }

  lemma {:induction false} StoredNotInserted(db: Db, leaves: seq<Leaf>, ord: seq<nat>, p: nat)
    requires IsPermutation(|leaves|, ord) && p < |leaves|
    ensures InsertedAt(db, leaves, ord, p) ==> leaves[p].identity !in db.leafData
  {
  }

  // ----- reading leaves by identity hash -----

  predicate Unsequenced(db: Db, h: Hash) {
    forall n :: n in db.sequenced ==> db.sequenced[n].hash != h
  }

  /** The left join of leaf data and sequenced rows: a row for each pair, and one for data without a sequenced row. */
  function Joined(db: Db, hs: set<Hash>): (j: set<(Hash, Option<int>)>) {
    (set h, n | h in hs && h in db.leafData && n in db.sequenced && db.sequenced[n].hash == h :: (h, Some(n))) +
    (set h | h in hs && h in db.leafData && Unsequenced(db, h) :: (h, None))
  }

  predicate IsJoined(db: Db, hs: set<Hash>, x: (Hash, Option<int>)) {
    && x.0 in hs && x.0 in db.leafData
    && if x.1.Some? then x.1.value in db.sequenced && db.sequenced[x.1.value].hash == x.0 else Unsequenced(db, x.0)
  }

  /** The leaf made of a joined row; a missing integrate timestamp is 0. */
  function JoinedLeaf(db: Db, x: (Hash, Option<int>)): (leaf: Leaf)
    requires x.0 in db.leafData && (x.1.Some? ==> x.1.value in db.sequenced)
  {
    var row := db.leafData[x.0];
    Leaf(x.0, DUMMY_MERKLE_LEAF_HASH, row.value, row.extra, -1, row.queueTs,
         if x.1.Some? then db.sequenced[x.1.value].integrateTs else 0)
  }

  /** A leaf as the query by identity hash returns it: the stored data, and the time of its sequenced row if any. */
  ghost predicate IsStored(db: Db, leaf: Leaf) {
    && leaf.identity in db.leafData && db.leafData[leaf.identity] == LeafRow(leaf.value, leaf.extra, leaf.queueTs)
    && leaf.merkle == DUMMY_MERKLE_LEAF_HASH && leaf.index == -1
    && if Unsequenced(db, leaf.identity) then leaf.integrateTs == 0
       else IntegratedAt(db, leaf.identity, leaf.integrateTs)
  }

  ghost predicate IntegratedAt(db: Db, h: Hash, ts: int) {
    exists n :: n in db.sequenced && db.sequenced[n].hash == h && db.sequenced[n].integrateTs == ts
  }

  lemma {:induction false} JoinedIsStored(db: Db, hs: set<Hash>, x: (Hash, Option<int>))
    requires IsJoined(db, hs, x)
    ensures IsStored(db, JoinedLeaf(db, x))
  {
    var (h, o) := x;
    match o
    case Some(n) =>
      assert n in db.sequenced && db.sequenced[n].hash == h;
      assert db.sequenced[n].integrateTs == JoinedLeaf(db, (h, Some(n))).integrateTs;
    case None =>
      assert Unsequenced(db, h);
  }

  lemma {:induction false} JoinedMembers(db: Db, hs: set<Hash>)
    ensures forall x :: x in Joined(db, hs) <==> IsJoined(db, hs, x)
  {
    forall x: (Hash, Option<int>) | IsJoined(db, hs, x)
      ensures x in Joined(db, hs)
    {
      var (h, o) := x;
      match o
      case Some(n) => assert (h, Some(n)) in Joined(db, hs);
      case None => assert (h, None) in Joined(db, hs);
    }
  }

  lemma {:induction false} JoinedSize(db: Db, hs: set<Hash>)
    requires SequencedOnce(db) && hs <= db.leafData.Keys
    ensures |Joined(db, hs)| == |hs|
    decreases hs
  {
    hide Joined;
    JoinedMembers(db, hs);
    if hs != {} {
      var h :| h in hs;
      var rest := hs - {h};
      JoinedSize(db, rest);
      JoinedMembers(db, rest);
      var x := JoinedOne(db, h);
      assert Joined(db, hs) == Joined(db, rest) + {x};
      assert x !in Joined(db, rest);
    } else {
      assert Joined(db, hs) == {};
    }
  }

  /** A stored hash joins to exactly one row. */
  lemma {:induction false} JoinedOne(db: Db, h: Hash) returns (x: (Hash, Option<int>))
    requires SequencedOnce(db) && h in db.leafData
    ensures x.0 == h && forall y: (Hash, Option<int>), hs :: y.0 == h && IsJoined(db, hs, y) ==> y == x
    ensures forall hs :: h in hs ==> IsJoined(db, hs, x)
  {
    if n :| n in db.sequenced && db.sequenced[n].hash == h {
      x := (h, Some(n));
    } else {
      x := (h, None);
    }
    forall y: (Hash, Option<int>), hs | y.0 == h && IsJoined(db, hs, y)
      ensures y == x
    {
      var (g, o) := y;
      assert g == h;
      match o
      case Some(m) => assert x.1.Some? && x.1.value == m;
      case None => assert x.1.None?;
    }
  }

  ghost predicate AllDifferent(hs: seq<Hash>) {
    forall i, j :: 0 <= i < j < |hs| ==> hs[i] != hs[j]
  }

  /** A list is as long as its set of elements exactly when it repeats none. */
  lemma {:induction false} DifferentSize(hs: seq<Hash>)
    ensures |SetOf(hs)| <= |hs|
    ensures |SetOf(hs)| == |hs| <==> AllDifferent(hs)
    decreases |hs|
  {
    hide AllDifferent;
    if hs == [] {
      assert SetOf(hs) == {};
      NoneRepeated(hs);
    } else {
      var init, h := hs[..|hs| - 1], hs[|hs| - 1];
      DifferentSize(init);
      DifferentAppend(init, h);
      assert hs == init + [h];
      assert SetOf(hs) == SetOf(init) + {h};
      assert h in init <==> h in SetOf(init);
    }
  }

  lemma {:induction false} NoneRepeated(hs: seq<Hash>)
    requires hs == []
    ensures AllDifferent(hs)
  {
  }

  // ----- transactions -----

  /** Sorts a batch by identity hash, keeping original positions. */
  method SortLeavesForInsert(leaves: seq<Leaf>) returns (ord: seq<nat>)
    ensures IsInsertOrder(leaves, ord)
  {
    ord := [];
    for i := 0 to |leaves|
      invariant IsInsertOrder(leaves[..i], ord)
    {
      var h := leaves[i].identity;
      var at := 0;
      while at < |ord| && !Less(h, leaves[ord[at]].identity)
        invariant 0 <= at <= |ord|
        invariant forall k :: 0 <= k < at ==> !Less(h, leaves[ord[k]].identity)
      {
        at := at + 1;
      }
      OrderInsert(leaves, ord, i, at);
      ord := ord[..at] + [i] + ord[at..];
    }
    assert leaves[..|leaves|] == leaves;
  }

  lemma {:induction false} OrderInsert(leaves: seq<Leaf>, ord: seq<nat>, i: nat, at: nat)
    requires i < |leaves| && IsInsertOrder(leaves[..i], ord) && at <= |ord|
    requires forall k :: 0 <= k < at ==> !Less(leaves[i].identity, leaves[ord[k]].identity)
    requires at < |ord| ==> Less(leaves[i].identity, leaves[ord[at]].identity)
    ensures IsInsertOrder(leaves[..i + 1], ord[..at] + [i] + ord[at..])
  {
    hide Less, IsPermutation;
    var r := ord[..at] + [i] + ord[at..];
    InsertPermutation(ord, i, at);
    forall j, k | 0 <= j < k < |r|
      ensures !Less(leaves[..i + 1][r[k]].identity, leaves[..i + 1][r[j]].identity)
    {
      OrderedPair(leaves, ord, i, at, j, k);
    }
  }

  lemma {:induction false} OrderedPair(leaves: seq<Leaf>, ord: seq<nat>, i: nat, at: nat, j: nat, k: nat)
    requires i < |leaves| && IsInsertOrder(leaves[..i], ord) && at <= |ord| && j < k <= |ord|
    requires forall k :: 0 <= k < at ==> !Less(leaves[i].identity, leaves[ord[k]].identity)
    requires at < |ord| ==> Less(leaves[i].identity, leaves[ord[at]].identity)
    ensures var r := ord[..at] + [i] + ord[at..]; !Less(leaves[r[k]].identity, leaves[r[j]].identity)
  {
    hide Less;
    if j == at {
      LaterIsLarger(leaves, ord, leaves[i].identity, at, k - 1);
    } else if k != at {
      var j', k' := if j < at then j else j - 1, if k < at then k else k - 1;
      assert !Less(leaves[..i][ord[k']].identity, leaves[..i][ord[j']].identity);
    }
  }

  /** A new last position may be put anywhere. */
  lemma {:induction false} InsertPermutation(ord: seq<nat>, i: nat, at: nat)
    requires IsPermutation(i, ord) && at <= |ord|
    ensures |ord| == i && forall k :: 0 <= k < i ==> ord[k] < i
    ensures IsPermutation(i + 1, ord[..at] + [i] + ord[at..])
    ensures forall k :: 0 <= k <= i ==> (ord[..at] + [i] + ord[at..])[k] <= i
  {
    var r := ord[..at] + [i] + ord[at..];
    assert forall k :: 0 <= k < |r| ==> r[k] == if k < at then ord[k] else if k == at then i else ord[k - 1];
  }

  lemma {:induction false} LaterIsLarger(leaves: seq<Leaf>, ord: seq<nat>, h: Hash, at: nat, k: nat)
    requires forall j :: 0 <= j < |ord| ==> ord[j] < |leaves|
    requires at <= k < |ord| && Less(h, leaves[ord[at]].identity)
    requires at < k ==> !Less(leaves[ord[k]].identity, leaves[ord[at]].identity)
    ensures !Less(leaves[ord[k]].identity, h)
  {
    var a, b := leaves[ord[at]].identity, leaves[ord[k]].identity;
    if Less(b, h) {
      LessTransitive(b, h, a);
      LessIrreflexive(b);
    }
  }

  /** The elements of a set in some order. */
  method Enumerate<T(==)>(s: set<T>) returns (q: seq<T>)
    ensures |q| == |s| && forall x :: x in q <==> x in s
  {
    q := [];
    var left := s;
    while left != {}
      invariant left <= s && |q| + |left| == |s|
      invariant forall x :: x in s <==> x in q || x in left
      decreases left
    {
      var x :| x in left;
      q, left := q + [x], left - {x};
    }
  }

  /** The hashes at the positions of a batch that are not inserted, in the order of positions. */
  ghost function Duplicates(db: Db, leaves: seq<Leaf>, ord: seq<nat>): seq<Hash>
    requires forall j :: 0 <= j < |ord| ==> ord[j] < |leaves|
  {
    Hashes(seq(|leaves|, p requires 0 <= p < |leaves| => if InsertedAt(db, leaves, ord, p) then None
        else Some(leaves[p])))
  }

  /** The query for these hashes yields as many rows as were asked for, of the right size. */
  ghost predicate Retrievable(hashSize: nat, db: Db, hs: seq<Hash>) {
    hs == [] || (hashSize == |DUMMY_MERKLE_LEAF_HASH| && |Joined(db, SetOf(hs))| == |hs|)
  }

  lemma {:induction false} NothingJoined(db: Db, hs: seq<Hash>)
    ensures hs == [] ==> |Joined(db, SetOf(hs))| == 0
    ensures (forall h :: h in hs ==> h in db.leafData) && hs != [] ==> Joined(db, SetOf(hs)) != {}
  {
    hide Joined;
    JoinedMembers(db, SetOf(hs));
    if hs == [] {
      assert Joined(db, SetOf(hs)) == {};
    } else if forall h :: h in hs ==> h in db.leafData {
      assert hs[0] in hs;
      var x := SomeJoined(db, SetOf(hs), hs[0]);
    }
  }

  lemma {:induction false} RowsStored(db: Db, hashes: seq<Hash>, pairs: seq<(Hash, Option<int>)>, rows: seq<Leaf>)
    requires forall x :: x in pairs <==> IsJoined(db, SetOf(hashes), x)
    requires |rows| == |pairs| && forall i :: 0 <= i < |pairs| ==>
               IsJoined(db, SetOf(hashes), pairs[i]) && rows[i] == JoinedLeaf(db, pairs[i])
    ensures forall i :: 0 <= i < |rows| ==> rows[i].identity in hashes && IsStored(db, rows[i])
    ensures forall x :: IsJoined(db, SetOf(hashes), x) ==> JoinedLeaf(db, x) in rows
  {
    forall i | 0 <= i < |rows|
      ensures rows[i].identity in hashes && IsStored(db, rows[i])
    {
      JoinedIsStored(db, SetOf(hashes), pairs[i]);
    }
    forall x | IsJoined(db, SetOf(hashes), x)
      ensures JoinedLeaf(db, x) in rows
    {
      var i :| 0 <= i < |pairs| && pairs[i] == x;
      assert rows[i] == JoinedLeaf(db, x);
    }
  }

  lemma {:induction false} RowsForAll(db: Db, hashes: seq<Hash>, rows: seq<Leaf>)
    requires forall x :: IsJoined(db, SetOf(hashes), x) ==> JoinedLeaf(db, x) in rows
    ensures forall h :: h in hashes && h in db.leafData ==> HasRow(rows, h)
  {
    forall h | h in hashes && h in db.leafData
      ensures HasRow(rows, h)
    {
      var x := SomeJoined(db, SetOf(hashes), h);
      JoinedMembers(db, SetOf(hashes));
      var i :| 0 <= i < |rows| && rows[i] == JoinedLeaf(db, x);
    }
  }

  /** Where hashes are sequenced at most once, they are retrieved exactly when they differ and have the right size. */
  lemma {:induction false} RetrievableExactly(hashSize: nat, db: Db, existing: seq<Option<Leaf>>)
    requires forall p :: 0 <= p < |existing| && existing[p].Some? ==> existing[p].value.identity in db.leafData
    ensures Hashes(existing) == [] <==> forall p :: 0 <= p < |existing| ==> existing[p].None?
    ensures SequencedOnce(db) ==>
              (Retrievable(hashSize, db, Hashes(existing)) <==>
               ExistingDiffer(existing)
                   && ((forall p :: 0 <= p < |existing| ==> existing[p].None?) || hashSize == |DUMMY_MERKLE_LEAF_HASH|))
  {
    hide Joined, Hashes, AllDifferent;
    var hs := Hashes(existing);
    CollatedHashes(existing, hs);
    DifferentSize(hs);
    if SequencedOnce(db) { JoinedSize(db, SetOf(hs)); }
    assert forall p :: 0 <= p < |existing| && existing[p].Some? ==> existing[p].value.identity in hs;
    assert hs != [] ==> hs[0] in hs;
  }

  /** Answers of a batch: none where the position was inserted, otherwise the stored leaf of the same hash. */
  ghost predicate Aligned(before: Db, after: Db, leaves: seq<Leaf>, ord: seq<nat>, answers: seq<Option<Leaf>>)
    requires IsPermutation(|leaves|, ord)
  {
    && |answers| == |leaves|
    && (forall p :: 0 <= p < |leaves| ==> (answers[p].None? <==> InsertedAt(before, leaves, ord, p)))
    && (forall p :: 0 <= p < |leaves| && answers[p].Some? ==>
          answers[p].value.identity == leaves[p].identity && IsStored(after, answers[p].value))
  }

  class LogTx {
    var db: Db
    var savepoints: seq<Db>
    const root: Root
    const preordered: bool
    const hashSize: nat

    constructor (tables: Db, latest: Root, isPreordered: bool, size: nat)
      ensures db == tables && savepoints == [] && root == latest && preordered == isPreordered && hashSize == size
    {
      db, savepoints, root, preordered, hashSize := tables, [], latest, isPreordered, size;
    }

    /** The joined rows of the hashes, in an order the database chooses; the dummy hash must have the right size. */
    method SelectByIdentityHash(hashes: seq<Hash>) returns (r: Result<seq<Leaf>>)
      ensures r.Failure? <==> Joined(db, SetOf(hashes)) != {} && hashSize != |DUMMY_MERKLE_LEAF_HASH|
      ensures r.Success? ==>
                && |r.value| == |Joined(db, SetOf(hashes))|
                && (forall i :: 0 <= i < |r.value| ==> r.value[i].identity in hashes && IsStored(db, r.value[i]))
                && (forall x :: IsJoined(db, SetOf(hashes), x) ==> JoinedLeaf(db, x) in r.value)
    {
      hide Joined, IsStored;
      JoinedMembers(db, SetOf(hashes));
      var joined := Enumerate(Joined(db, SetOf(hashes)));
      var rows: seq<Leaf> := [];
      for i := 0 to |joined|
        invariant |rows| == i && (i > 0 ==> hashSize == |DUMMY_MERKLE_LEAF_HASH|)
        invariant forall k :: 0 <= k < i ==>
                    IsJoined(db, SetOf(hashes), joined[k]) && rows[k] == JoinedLeaf(db, joined[k])
      {
        assert joined[i] in joined;
        var leaf := JoinedLeaf(db, joined[i]);
        if |leaf.merkle| != hashSize {
          return Failure;
        }
        rows := rows + [leaf];
      }
      RowsStored(db, hashes, joined, rows);
      r := Success(rows);
    }

    /** Inserts a batch in hash order; a leaf whose hash is already stored is remembered at its position. */
    method InsertBatch(leaves: seq<Leaf>, ord: seq<nat>, ts: int)
      returns (existing: seq<Option<Leaf>>, existingCount: nat)
      requires IsPermutation(|leaves|, ord)
      modifies this`db
      ensures db == QueueAll(old(db), leaves, ord, ts)
      ensures Remembered(old(db), leaves, ord, existing)
      ensures existingCount == 0 <==> forall p :: 0 <= p < |existing| ==> existing[p].None?
    {
      hide NewAt, QueueAll, Remembered, InsertedAt, InsertLeafData, InsertUnsequenced;
      existing := seq(|leaves|, i => None);
      existingCount := 0;
      NothingQueued(db, leaves, ord, ts);
      for k := 0 to |ord|
        invariant db == QueueAll(old(db), leaves, ord[..k], ts)
        invariant RememberedUpto(old(db), leaves, ord, k, existing)
        invariant existingCount == 0 <==> forall p :: 0 <= p < |existing| ==> existing[p].None?
      {
        var i, leaf := ord[k], leaves[ord[k]];
        QueueStep(old(db), leaves, ord, ts, k);
        var (inserted, isNew) := InsertLeafData(db, leaf, ts);
        if !isNew {
          existing := existing[i := Some(leaf)];
          existingCount := existingCount + 1;
          assert existing[i].Some?;
        } else {
          db := InsertUnsequenced(inserted, leaf, ts).0;
        }
      }
      assert ord[..|ord|] == ord;
      RememberedAll(old(db), leaves, ord, existing);
    }

    /** The answers for the leaves that were already stored. */
    method RetrieveExisting(existing: seq<Option<Leaf>>) returns (r: Result<seq<Option<Leaf>>>)
      requires forall p :: 0 <= p < |existing| && existing[p].Some? ==> existing[p].value.identity in db.leafData
      ensures r.Success? ==> Replaced(db, existing, r.value)
      ensures r.Success? <==> Retrievable(hashSize, db, Hashes(existing))
    {
      hide Joined, IsJoined, Replaced, IsStored, Hashes;
      var toRetrieve := Collate(existing);
      var results := SelectByIdentityHash(toRetrieve);
      CollatedHashes(existing, toRetrieve);
      NothingJoined(db, toRetrieve);
      if results.Failure? || |results.value| != |toRetrieve| {
        return Failure;
      }
      RowsForAll(db, toRetrieve, results.value);
      r := ReplaceExisting(db, existing, results.value);
    }

    /** Queues a batch.  The order of equal hashes is the sort's choice, so it is a ghost result. */
    method QueueLeaves(leaves: seq<Leaf>, queueTimestamp: int)
      returns (r: Result<seq<Option<Leaf>>>, ghost ord: seq<nat>)
      modifies this`db
      ensures SizesOk(hashSize, leaves) ==>
                IsInsertOrder(leaves, ord) && db == QueueAll(old(db), leaves, ord, queueTimestamp)
      ensures r.Success? <==> SizesOk(hashSize, leaves) && Retrievable(hashSize, db, Duplicates(old(db), leaves, ord))
      ensures r.Success? ==> Aligned(old(db), db, leaves, ord, r.value)
      ensures SequencedOnce(old(db)) ==> (r.Success? <==> Accepted(hashSize, old(db), leaves))
    {
      hide Less, AllNew, QueueAll, InsertedAt, DuplicatesDiffer, ExistingDiffer, Unrepeated, SequencedOnce,
           Remembered, Replaced, SizesOk, Aligned, Joined, Hashes, Duplicates;
      ord := [];
      var valid := CheckSizes(hashSize, leaves);
      if !valid {
        return Failure, ord;
      }
      var ordLeaves := SortLeavesForInsert(leaves);
      ord := ordLeaves;
      var existing, existingCount := InsertBatch(leaves, ordLeaves, queueTimestamp);
      DuplicatesDifferExactly(old(db), leaves, ord);
      RememberedDiffer(old(db), leaves, ord, existing);
      RememberedNone(old(db), leaves, ord, existing);
      SameSequenced(old(db), leaves, ord, queueTimestamp);
      RememberedHashes(old(db), leaves, ord, existing);
      ExistingStored(old(db), leaves, ord, queueTimestamp, existing);
      RetrievableExactly(hashSize, db, existing);
      if existingCount == 0 {
        NothingReplaced(db, existing);
        AlignedAnswers(old(db), db, leaves, ord, existing, existing);
        return Success(existing), ord;
      }
      r := RetrieveExisting(existing);
      if r.Success? {
        AlignedAnswers(old(db), db, leaves, ord, existing, r.value);
      }
    }
  }

  method CheckSizes(hashSize: nat, leaves: seq<Leaf>) returns (ok: bool)
    ensures ok == SizesOk(hashSize, leaves)
  {
    for i := 0 to |leaves|
      invariant SizesOk(hashSize, leaves[..i])
    {
      assert leaves[..i + 1] == leaves[..i] + [leaves[i]];
      if |leaves[i].identity| != hashSize {
        return false;
      }
    }
    assert leaves[..|leaves|] == leaves;
    ok := true;
  }

  lemma {:induction false} NothingReplaced(db: Db, existing: seq<Option<Leaf>>)
    requires forall p :: 0 <= p < |existing| ==> existing[p].None?
    ensures Replaced(db, existing, existing)
  {
  }

  lemma {:induction false} AlignedAnswers(before: Db, after: Db, leaves: seq<Leaf>, ord: seq<nat>,
      existing: seq<Option<Leaf>>, answers: seq<Option<Leaf>>)
    requires IsPermutation(|leaves|, ord) && Remembered(before, leaves, ord, existing)
             && Replaced(after, existing, answers)
    ensures Aligned(before, after, leaves, ord, answers)
  {
  }

  lemma {:induction false} SameSequenced(db: Db, leaves: seq<Leaf>, ord: seq<nat>, ts: int)
    requires forall k :: 0 <= k < |ord| ==> ord[k] < |leaves|
    ensures SequencedOnce(QueueAll(db, leaves, ord, ts)) <==> SequencedOnce(db)
  {
    QueueAllKeys(db, leaves, ord, ts);
  }

  /** The requested leaves replaced by the stored leaves of the same hashes. */
  ghost predicate Replaced(db: Db, existing: seq<Option<Leaf>>, answers: seq<Option<Leaf>>) {
    && |answers| == |existing|
    && forall p :: 0 <= p < |existing| ==>
         (answers[p].None? <==> existing[p].None?) &&
         (answers[p].Some? ==>
              answers[p].value.identity == existing[p].value.identity && IsStored(db, answers[p].value))
  }

  method ReplaceExisting(db: Db, existing: seq<Option<Leaf>>, results: seq<Leaf>) returns (r: Result<seq<Option<Leaf>>>)
    requires forall i :: 0 <= i < |results| ==> IsStored(db, results[i])
    ensures r.Success? ==> Replaced(db, existing, r.value)
    ensures (forall p :: 0 <= p < |existing| && existing[p].Some? ==> HasRow(results, existing[p].value.identity)) ==>
            r.Success?
  {
    var answers := [];
    for i := 0 to |existing|
      invariant Replaced(db, existing[..i], answers)
    {
      if existing[i].Some? {
        var found := FindRow(results, existing[i].value.identity);
        if found.None? {
          return Failure;
        }
        answers := answers + [found];
      } else {
        answers := answers + [None];
      }
    }
    assert existing[..|existing|] == existing;
    r := Success(answers);
  }

  /** The remembered leaf at each position: that of the batch where the hash was a duplicate. */
  ghost predicate Remembered(db: Db, leaves: seq<Leaf>, ord: seq<nat>, existing: seq<Option<Leaf>>)
    requires IsPermutation(|leaves|, ord)
  {
    && |existing| == |leaves|
    && forall p :: 0 <= p < |leaves| ==> existing[p] == if InsertedAt(db, leaves, ord, p) then None else Some(leaves[p])
  }

  /** The remembered leaves after the first k insertions. */
  predicate RememberedUpto(db: Db, leaves: seq<Leaf>, ord: seq<nat>, k: nat, existing: seq<Option<Leaf>>)
    requires IsPermutation(|leaves|, ord)
  {
    && |existing| == |leaves|
    && forall j :: 0 <= j < |ord| ==>
         existing[ord[j]] == if j < k && !NewAt(db, leaves, ord, j) then Some(leaves[ord[j]]) else None
  }

  lemma {:induction false} NothingQueued(db: Db, leaves: seq<Leaf>, ord: seq<nat>, ts: int)
    requires forall j :: 0 <= j < |ord| ==> ord[j] < |leaves|
    ensures QueueAll(db, leaves, ord[..0], ts) == db
  {
  }

  /** The k-th insert reports a new row exactly when its leaf is new, and the batch goes on from there. */
  lemma {:induction false} QueueStep(db: Db, leaves: seq<Leaf>, ord: seq<nat>, ts: int, k: nat)
    requires k < |ord| && forall j :: 0 <= j < |ord| ==> ord[j] < |leaves|
    ensures var d, leaf := QueueAll(db, leaves, ord[..k], ts), leaves[ord[k]];
            var (inserted, isNew) := InsertLeafData(d, leaf, ts);
            && (isNew <==> NewAt(db, leaves, ord, k))
            && QueueAll(db, leaves, ord[..k + 1], ts) == if isNew then InsertUnsequenced(inserted, leaf, ts).0 else d
  {
    hide NewAt, Listed;
    assert ord[..k + 1][..k] == ord[..k];
    QueueAllKeys(db, leaves, ord[..k], ts);
    NewMeansUnlisted(db, leaves, ord, k);
  }

  lemma {:induction false} RememberedAll(db: Db, leaves: seq<Leaf>, ord: seq<nat>, existing: seq<Option<Leaf>>)
    requires IsPermutation(|leaves|, ord) && RememberedUpto(db, leaves, ord, |ord|, existing)
    ensures Remembered(db, leaves, ord, existing)
  {
    forall p | 0 <= p < |leaves|
      ensures existing[p] == if InsertedAt(db, leaves, ord, p) then None else Some(leaves[p])
    {
      PermutationCovers(|leaves|, ord, p);
      var j :| 0 <= j < |ord| && ord[j] == p;
    }
  }

  ghost predicate ExistingDiffer(existing: seq<Option<Leaf>>) {
    forall i, j :: 0 <= i < j < |existing| && existing[i].Some? && existing[j].Some? ==>
      existing[i].value.identity != existing[j].value.identity
  }

  lemma {:induction false} RememberedDiffer(db: Db, leaves: seq<Leaf>, ord: seq<nat>, existing: seq<Option<Leaf>>)
    requires IsPermutation(|leaves|, ord) && Remembered(db, leaves, ord, existing)
    ensures ExistingDiffer(existing) <==> DuplicatesDiffer(db, leaves, ord)
    ensures (forall p :: 0 <= p < |existing| ==> existing[p].None?) ==> ExistingDiffer(existing)
  {
  }

  lemma {:induction false} RememberedHashes(db: Db, leaves: seq<Leaf>, ord: seq<nat>, existing: seq<Option<Leaf>>)
    requires IsPermutation(|leaves|, ord) && Remembered(db, leaves, ord, existing)
    ensures Hashes(existing) == Duplicates(db, leaves, ord)
  {
    hide Hashes, InsertedAt;
    assert existing == seq(|leaves|, p requires 0 <= p < |leaves| => if InsertedAt(db, leaves, ord, p) then None
        else Some(leaves[p]));
  }

  /** Nothing is remembered exactly when every leaf is new. */
  lemma {:induction false} RememberedNone(db: Db, leaves: seq<Leaf>, ord: seq<nat>, existing: seq<Option<Leaf>>)
    requires IsPermutation(|leaves|, ord) && Remembered(db, leaves, ord, existing)
    ensures (forall p :: 0 <= p < |existing| ==> existing[p].None?) <==> AllNew(db, leaves)
  {
    hide InsertedAt, IsPermutation;
    if AllNew(db, leaves) {
      forall p | 0 <= p < |existing|
        ensures existing[p].None?
      {
        var q := SomeInserted(db, leaves, ord, p);
      }
    }
    if forall p :: 0 <= p < |existing| ==> existing[p].None? {
      forall i | 0 <= i < |leaves|
        ensures leaves[i].identity !in db.leafData && forall j :: i < j < |leaves| ==>
                leaves[i].identity != leaves[j].identity
      {
        assert existing[i].None?;
        StoredNotInserted(db, leaves, ord, i);
        forall j | i < j < |leaves|
          ensures leaves[i].identity != leaves[j].identity
        {
          assert existing[j].None?;
          if leaves[i].identity == leaves[j].identity { InsertedOnce(db, leaves, ord, i, j); }
        }
      }
    }
  }

  lemma {:induction false} ExistingStored(db: Db, leaves: seq<Leaf>, ord: seq<nat>, ts: int,
      existing: seq<Option<Leaf>>)
    requires IsPermutation(|leaves|, ord) && Remembered(db, leaves, ord, existing)
    ensures var d := QueueAll(db, leaves, ord, ts);
            forall p :: 0 <= p < |existing| && existing[p].Some? ==> existing[p].value.identity in d.leafData
  {
    QueueAllKeys(db, leaves, ord, ts);
    forall p | 0 <= p < |existing| && existing[p].Some?
      ensures Listed(leaves, ord, existing[p].value.identity)
    {
      PermutationCovers(|leaves|, ord, p);
      var j :| 0 <= j < |ord| && ord[j] == p;
    }
  }

  // The hashes of the remembered leaves, in the order of their positions.
  ghost function Hashes(existing: seq<Option<Leaf>>): seq<Hash> {
    if existing == [] then []
    else
      var n := |existing| - 1;
      Hashes(existing[..n]) + if existing[n].Some? then [existing[n].value.identity] else []
  }

  method Collate(existing: seq<Option<Leaf>>) returns (hashes: seq<Hash>)
    ensures hashes == Hashes(existing)
  {
    hashes := [];
    for i := 0 to |existing|
      invariant hashes == Hashes(existing[..i])
    {
      assert existing[..i + 1][..i] == existing[..i];
      if existing[i].Some? {
        hashes := hashes + [existing[i].value.identity];
      }
    }
    assert existing[..|existing|] == existing;
  }

  lemma {:induction false} CollatedHashes(existing: seq<Option<Leaf>>, hashes: seq<Hash>)
    requires hashes == Hashes(existing)
    ensures forall h :: h in hashes <==>
              exists p :: 0 <= p < |existing| && existing[p].Some? && existing[p].value.identity == h
    ensures AllDifferent(hashes) <==> ExistingDiffer(existing)
    decreases |existing|
  {
    if existing != [] {
      var n := |existing| - 1;
      var e, hs := existing[..n], Hashes(existing[..n]);
      CollatedHashes(e, hs);
      assert forall p :: 0 <= p < n ==> e[p] == existing[p];
      if existing[n].None? {
        assert hashes == hs;
      } else {
        var h := existing[n].value.identity;
        assert hashes == hs + [h];
        DifferentAppend(hs, h);
      }
    }
  }

  lemma {:induction false} DifferentAppend(hs: seq<Hash>, h: Hash)
    ensures AllDifferent(hs + [h]) <==> AllDifferent(hs) && h !in hs
  {
    var all := hs + [h];
    assert forall i :: 0 <= i < |hs| ==> all[i] == hs[i];
    if h in hs {
      var i :| 0 <= i < |hs| && hs[i] == h;
      assert all[i] == all[|hs|];
    }
    if AllDifferent(all) {
      assert forall i, j :: 0 <= i < j < |hs| ==> all[i] != all[j];
    }
  }

  method FindRow(results: seq<Leaf>, h: Hash) returns (found: Option<Leaf>)
    ensures found.Some? <==> HasRow(results, h)
    ensures found.Some? ==> found.value in results && found.value.identity == h
  {
    for i := 0 to |results|
      invariant forall k :: 0 <= k < i ==> results[k].identity != h
    {
      if results[i].identity == h {
        return Some(results[i]);
      }
    }
    found := None;
  }

  ghost predicate HasRow(rows: seq<Leaf>, h: Hash) {
    exists i :: 0 <= i < |rows| && rows[i].identity == h
  }

  lemma {:induction false} SomeJoined(db: Db, hs: set<Hash>, h: Hash) returns (x: (Hash, Option<int>))
    requires h in hs && h in db.leafData
    ensures x.0 == h && x in Joined(db, hs)
  {
    if n :| n in db.sequenced && db.sequenced[n].hash == h {
      x := (h, Some(n));
    } else {
      x := (h, None);
    }
    JoinedMembers(db, hs);
  }
}
