/** Adding leaves that come with their sequence numbers: each leaf goes into two tables or into neither. */
module PreorderedLog {
  import opened Bytes
  import opened LogTables
  import opened LogStorage

  // ----- savepoints, all of one name: the latest one is meant -----

  method Savepoint(tx: LogTx)
    modifies tx`savepoints
    ensures tx.savepoints == old(tx.savepoints) + [tx.db]
  {
    tx.savepoints := tx.savepoints + [tx.db];
  }

  method RollbackToSavepoint(tx: LogTx)
    requires tx.savepoints != []
    modifies tx`db
    ensures tx.db == tx.savepoints[|tx.savepoints| - 1]
  {
    tx.db := tx.savepoints[|tx.savepoints| - 1];
  }

  method ReleaseSavepoint(tx: LogTx)
    requires tx.savepoints != []
    modifies tx`savepoints
    ensures tx.savepoints == old(tx.savepoints)[..|old(tx.savepoints)| - 1]
  {
    tx.savepoints := tx.savepoints[..|tx.savepoints| - 1];
  }

  // ----- what a batch does -----

  function AddOne(db: Db, leaf: Leaf, ts: int): (r: Db) {
    if leaf.index in db.sequenced then db
    else
      var d := InsertLeafData(db, leaf, ts).0;
      d.(sequenced := d.sequenced[leaf.index := SequencedRow(leaf.identity, leaf.merkle, 0)])
  }

  function AddAll(db: Db, leaves: seq<Leaf>, ord: seq<nat>, ts: int): (r: Db)
    requires forall k :: 0 <= k < |ord| ==> ord[k] < |leaves|
  {
    if ord == [] then db
    else
      var n := |ord| - 1;
      AddOne(AddAll(db, leaves, ord[..n], ts), leaves[ord[n]], ts)
  }

  /** The index of the k-th leaf is free when its turn comes. */
  predicate FreeAt(db: Db, leaves: seq<Leaf>, ord: seq<nat>, ts: int, k: nat)
    requires k < |ord| && forall j :: 0 <= j < |ord| ==> ord[j] < |leaves|
  {
    leaves[ord[k]].index !in AddAll(db, leaves, ord[..k], ts).sequenced
  }

  ghost predicate IndexListed(leaves: seq<Leaf>, ord: seq<nat>, n: int)
    requires forall j :: 0 <= j < |ord| ==> ord[j] < |leaves|
  {
    exists k :: 0 <= k < |ord| && leaves[ord[k]].index == n
  }

  /** The index table afterwards: the old numbers and every number asked for; old rows of both tables are untouched. */
  lemma {:induction false} AddAllNumbers(db: Db, leaves: seq<Leaf>, ord: seq<nat>, ts: int)
    requires forall k :: 0 <= k < |ord| ==> ord[k] < |leaves|
    ensures var d := AddAll(db, leaves, ord, ts);
            && d == db.(leafData := d.leafData, sequenced := d.sequenced)
            && (forall n :: n in d.sequenced <==> n in db.sequenced || IndexListed(leaves, ord, n))
            && (forall n :: n in db.sequenced ==> d.sequenced[n] == db.sequenced[n])
            && (forall h :: h in db.leafData ==> h in d.leafData && d.leafData[h] == db.leafData[h])
    decreases |ord|
  {
    if ord != [] {
      var n := |ord| - 1;
      AddAllNumbers(db, leaves, ord[..n], ts);
      assert forall j :: 0 <= j < n ==> ord[..n][j] == ord[j];
      forall i
        ensures IndexListed(leaves, ord, i) <==> IndexListed(leaves, ord[..n], i) || i == leaves[ord[n]].index
      {
        if k :| 0 <= k < |ord| && leaves[ord[k]].index == i {
          assert k < n ==> leaves[ord[..n][k]].index == i;
        }
        if k :| 0 <= k < n && leaves[ord[..n][k]].index == i {
          assert leaves[ord[k]].index == i;
        }
      }
    }
  }

  /** An index is free exactly when it was not in use and no leaf before in the order asked for it. */
  lemma {:induction false} FreeExactly(db: Db, leaves: seq<Leaf>, ord: seq<nat>, ts: int, k: nat)
    requires k < |ord| && forall j :: 0 <= j < |ord| ==> ord[j] < |leaves|
    ensures FreeAt(db, leaves, ord, ts, k) <==>
            leaves[ord[k]].index !in db.sequenced && forall j :: 0 <= j < k ==>
                leaves[ord[j]].index != leaves[ord[k]].index
  {
    AddAllNumbers(db, leaves, ord[..k], ts);
    assert forall j :: 0 <= j < k ==> ord[..k][j] == ord[j];
    if j :| 0 <= j < k && leaves[ord[j]].index == leaves[ord[k]].index {
      assert leaves[ord[..k][j]].index == leaves[ord[k]].index;
    }
  }

  /** A leaf whose index was free is in both tables afterwards. */
  lemma {:induction false} FreeIsAdded(db: Db, leaves: seq<Leaf>, ord: seq<nat>, ts: int, k: nat)
    requires k < |ord| && forall j :: 0 <= j < |ord| ==> ord[j] < |leaves|
    requires FreeAt(db, leaves, ord, ts, k)
    ensures var d, leaf := AddAll(db, leaves, ord, ts), leaves[ord[k]];
            && leaf.index in d.sequenced && d.sequenced[leaf.index] == SequencedRow(leaf.identity, leaf.merkle, 0)
            && leaf.identity in d.leafData
    decreases |ord|
  {
    var n := |ord| - 1;
    if k < n {
      assert ord[..n][..k] == ord[..k];
      assert forall j :: 0 <= j < n ==> ord[..n][j] == ord[j];
      FreeIsAdded(db, leaves, ord[..n], ts, k);
    }
  }

  ghost predicate AddedHash(db: Db, leaves: seq<Leaf>, ord: seq<nat>, ts: int, h: Hash)
    requires forall j :: 0 <= j < |ord| ==> ord[j] < |leaves|
  {
    exists k :: 0 <= k < |ord| && leaves[ord[k]].identity == h && FreeAt(db, leaves, ord, ts, k)
  }

  /** Leaf data is added only for leaves whose index was free: a conflicting leaf leaves no row in either table. */
  lemma {:induction false} ConflictAddsNothing(db: Db, leaves: seq<Leaf>, ord: seq<nat>, ts: int, h: Hash)
    requires forall k :: 0 <= k < |ord| ==> ord[k] < |leaves|
    ensures h in AddAll(db, leaves, ord, ts).leafData <==> h in db.leafData || AddedHash(db, leaves, ord, ts, h)
    decreases |ord|
  {
    if ord != [] {
      var n := |ord| - 1;
      ConflictAddsNothing(db, leaves, ord[..n], ts, h);
      AddedStep(db, leaves, ord, ts, h);
      hide AddedHash;
    }
  }

  lemma {:induction false} FreePrefix(db: Db, leaves: seq<Leaf>, ord: seq<nat>, ts: int, m: nat, k: nat)
    requires k < m <= |ord| && forall j :: 0 <= j < |ord| ==> ord[j] < |leaves|
    ensures FreeAt(db, leaves, ord[..m], ts, k) <==> FreeAt(db, leaves, ord, ts, k)
  {
    assert ord[..m][..k] == ord[..k];
  }

  lemma {:induction false} AddedStep(db: Db, leaves: seq<Leaf>, ord: seq<nat>, ts: int, h: Hash)
    requires ord != [] && forall k :: 0 <= k < |ord| ==> ord[k] < |leaves|
    ensures var n := |ord| - 1;
            AddedHash(db, leaves, ord, ts, h) <==>
            AddedHash(db, leaves, ord[..n], ts, h) || (leaves[ord[n]].identity == h && FreeAt(db, leaves, ord, ts, n))
  {
    hide AddAll, FreeAt;
    var n := |ord| - 1;
    if AddedHash(db, leaves, ord[..n], ts, h) {
      var k :| 0 <= k < n && leaves[ord[..n][k]].identity == h && FreeAt(db, leaves, ord[..n], ts, k);
      FreePrefix(db, leaves, ord, ts, n, k);
      assert leaves[ord[k]].identity == h && FreeAt(db, leaves, ord, ts, k);
    }
    if AddedHash(db, leaves, ord, ts, h) {
      var k :| 0 <= k < |ord| && leaves[ord[k]].identity == h && FreeAt(db, leaves, ord, ts, k);
      if k < n {
        FreePrefix(db, leaves, ord, ts, n, k);
        assert leaves[ord[..n][k]].identity == h && FreeAt(db, leaves, ord[..n], ts, k);
      }
    }
  }

  // ----- the transaction -----

  /** One leaf of a batch; a conflicting index undoes this leaf's inserts and nothing before it. */
  method AddLeaf(tx: LogTx, leaf: Leaf, ts: int) returns (ok: bool)
    modifies tx`db, tx`savepoints
    ensures tx.db == AddOne(old(tx.db), leaf, ts) && ok == (leaf.index !in old(tx.db).sequenced)
    ensures tx.savepoints == old(tx.savepoints) + [old(tx.db)]
  {
    Savepoint(tx);
    tx.db := InsertLeafData(tx.db, leaf, ts).0;
    var inserted := InsertSequenced(tx.db, leaf, 0);
    assert inserted.Success?;
    tx.db := inserted.value.0;
    ok := inserted.value.1;
    if !ok {
      RollbackToSavepoint(tx);
    }
  }

  /** Answers a status for each position: true for OK, false for a conflicting index. */
  method AddSequencedLeaves(tx: LogTx, leaves: seq<Leaf>, ts: int) returns (r: Result<seq<bool>>, ghost ord: seq<nat>)
    modifies tx`db, tx`savepoints
    ensures r.Success? <==> SizesOk(tx.hashSize, leaves)
    ensures IsInsertOrder(leaves, ord)
    ensures r.Success? ==>
              && tx.db == AddAll(old(tx.db), leaves, ord, ts)
              && |r.value| == |leaves|
              && forall k :: 0 <= k < |ord| ==> r.value[ord[k]] == FreeAt(old(tx.db), leaves, ord, ts, k)
  {
    var res := seq(|leaves|, i => true);
    Savepoint(tx);
    var ordLeaves := SortLeavesForInsert(leaves);
    ord := ordLeaves;
    hide AddAll, IsInsertOrder, Less, FreeAt, Answered, AddOne;
    assert IsPermutation(|leaves|, ordLeaves) by { OrderIsPermutation(leaves, ordLeaves); }
    AddNothing(tx.db, leaves, ordLeaves, ts);
    NoAnswers(tx.db, leaves, ordLeaves, ts, res);
    for k := 0 to |ordLeaves|
      invariant tx.db == AddAll(old(tx.db), leaves, ordLeaves[..k], ts)
      invariant |tx.savepoints| > 0
      invariant forall j :: 0 <= j < k ==> |leaves[ordLeaves[j]].identity| == tx.hashSize
      invariant Answered(old(tx.db), leaves, ordLeaves, ts, k, res)
    {
      var i, leaf := ordLeaves[k], leaves[ordLeaves[k]];
      if |leaf.identity| != tx.hashSize {
        return Failure, ord;
      }
      AddStep(old(tx.db), leaves, ordLeaves, ts, k);
      var ok := AddLeaf(tx, leaf, ts);
      AnswerStep(old(tx.db), leaves, ordLeaves, ts, k, res, ok);
      if !ok {
        res := res[i := false];
      }
    }
    AnswersDone(old(tx.db), leaves, ordLeaves, ts, res);
    ReleaseSavepoint(tx);
    assert ordLeaves[..|ordLeaves|] == ordLeaves;
    AllSizes(tx.hashSize, leaves, ordLeaves);
    r := Success(res);
  }

  /** The statuses after k leaves: those of the leaves treated so far; the others are still OK. */
  predicate Answered(db: Db, leaves: seq<Leaf>, ord: seq<nat>, ts: int, k: nat, res: seq<bool>)
    requires IsPermutation(|leaves|, ord)
  {
    && |res| == |leaves|
    && forall j :: 0 <= j < |ord| ==> res[ord[j]] == (j < k ==> FreeAt(db, leaves, ord, ts, j))
  }

  lemma {:induction false} NoAnswers(db: Db, leaves: seq<Leaf>, ord: seq<nat>, ts: int, res: seq<bool>)
    requires IsPermutation(|leaves|, ord) && |res| == |leaves| && forall i :: 0 <= i < |res| ==> res[i]
    ensures Answered(db, leaves, ord, ts, 0, res)
  {
  }

  lemma {:induction false} AnswerStep(db: Db, leaves: seq<Leaf>, ord: seq<nat>, ts: int, k: nat, res: seq<bool>,
      ok: bool)
    requires IsPermutation(|leaves|, ord) && k < |ord| && Answered(db, leaves, ord, ts, k, res)
    requires ok == (leaves[ord[k]].index !in AddAll(db, leaves, ord[..k], ts).sequenced)
    ensures Answered(db, leaves, ord, ts, k + 1, if ok then res else res[ord[k] := false])
  {
    assert ok == FreeAt(db, leaves, ord, ts, k);
    hide FreeAt, AddAll;
  }

  lemma {:induction false} AnswersDone(db: Db, leaves: seq<Leaf>, ord: seq<nat>, ts: int, res: seq<bool>)
    requires IsPermutation(|leaves|, ord) && Answered(db, leaves, ord, ts, |ord|, res)
    ensures |res| == |leaves| && forall k :: 0 <= k < |ord| ==> res[ord[k]] == FreeAt(db, leaves, ord, ts, k)
  {
  }

  lemma {:induction false} OrderIsPermutation(leaves: seq<Leaf>, ord: seq<nat>)
    requires IsInsertOrder(leaves, ord)
    ensures IsPermutation(|leaves|, ord)
  {
  }

  lemma {:induction false} AddNothing(db: Db, leaves: seq<Leaf>, ord: seq<nat>, ts: int)
    requires IsPermutation(|leaves|, ord)
    ensures AddAll(db, leaves, ord[..0], ts) == db
  {
  }

  lemma {:induction false} AddStep(db: Db, leaves: seq<Leaf>, ord: seq<nat>, ts: int, k: nat)
    requires k < |ord| && forall j :: 0 <= j < |ord| ==> ord[j] < |leaves|
    ensures AddAll(db, leaves, ord[..k + 1], ts) == AddOne(AddAll(db, leaves, ord[..k], ts), leaves[ord[k]], ts)
  {
    assert ord[..k + 1][..k] == ord[..k];
  }

  lemma {:induction false} AllSizes(hashSize: nat, leaves: seq<Leaf>, ord: seq<nat>)
    requires IsPermutation(|leaves|, ord)
    requires forall j :: 0 <= j < |ord| ==> |leaves[ord[j]].identity| == hashSize
    ensures SizesOk(hashSize, leaves)
  {
    forall p | 0 <= p < |leaves|
      ensures |leaves[p].identity| == hashSize
    {
      PermutationCovers(|leaves|, ord, p);
      var j :| 0 <= j < |ord| && ord[j] == p;
    }
  }

  /** An OK leaf whose hash is new, first of its hash among the OK leaves, is stored with its own data. */
  lemma {:induction false} FreeStoresData(db: Db, leaves: seq<Leaf>, ord: seq<nat>, ts: int, k: nat)
    requires k < |ord| && forall j :: 0 <= j < |ord| ==> ord[j] < |leaves|
    requires FreeAt(db, leaves, ord, ts, k) && leaves[ord[k]].identity !in db.leafData
    requires !AddedHash(db, leaves, ord[..k], ts, leaves[ord[k]].identity)
    ensures var d, leaf := AddAll(db, leaves, ord, ts), leaves[ord[k]];
            leaf.identity in d.leafData && d.leafData[leaf.identity] == LeafRow(leaf.value, leaf.extra, ts)
    decreases |ord|
  {
    var n := |ord| - 1;
    if k < n {
      assert ord[..n][..k] == ord[..k];
      assert forall j :: 0 <= j < n ==> ord[..n][j] == ord[j];
      FreeStoresData(db, leaves, ord[..n], ts, k);
      hide AddedHash;
    } else {
      ConflictAddsNothing(db, leaves, ord[..k], ts, leaves[ord[k]].identity);
      hide AddedHash;
    }
  }
}
