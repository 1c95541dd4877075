/** The get-entries command over a range read of the log. */
module LogReads {
  import opened Bytes
  import opened LogTables
  import opened LogStorage
  import opened LogRange
  import opened LogHistory
  import Origins = LogOrigins

  const MAX_RANGE: int := 1000

  datatype LeafEntry = LeafEntry(leafInput: bytes, extraData: bytes)

  predicate ValidRequest(start: int, end: int) {
    0 <= start <= end
  }

  /** The end of the range that is asked of the log: at most MAX_RANGE entries. */
  function LimitedEnd(start: int, end: int): (e: int) {
    if Wrap64(Wrap64(end - start) + 1) > MAX_RANGE then Wrap64(Wrap64(start + MAX_RANGE) - 1) else end
  }

  function RequestCount(start: int, end: int): (c: int) {
    Wrap64(Wrap64(end + 1) - start)
  }

  /** The length of a valid range wraps for one request only; for all others the count is the limited length. */
  lemma {:induction false} CountExactly(start: int, end: int)
    requires Int64(start) && Int64(end) && ValidRequest(start, end)
    ensures var c := RequestCount(start, LimitedEnd(start, end));
            if start == 0 && end == MAX_INT64 then c == -TWO_63
            else c == if end - start + 1 > MAX_RANGE then MAX_RANGE else end - start + 1
  {
    assert Wrap64(end + 1) == if end == MAX_INT64 then -TWO_63 else end + 1;
    assert Wrap64(-TWO_63 - start) == if start == 0 then -TWO_63 else TWO_63 - start;
    if !(start == 0 && end == MAX_INT64) && end - start + 1 > MAX_RANGE {
      assert LimitedEnd(start, end) == start + MAX_RANGE - 1;
    }
  }

  function EntryAt(db: Db, n: int): (e: LeafEntry)
    requires Present(db, n)
  {
    LeafEntry(StoredLeaf(db, n).value, StoredLeaf(db, n).extra)
  }

  function Min(a: int, b: int): (m: int) {
    if a <= b then a else b
  }

  lemma {:induction false} DenseRun(db: Db, lo: int, hi: int)
    requires forall n :: lo <= n < hi ==> Present(db, n)
    ensures RunLength(db, lo, hi) == if lo < hi then hi - lo else 0
    decreases hi - lo
  {
    if lo < hi { DenseRun(db, lo + 1, hi); }
  }

  /** In a dense log nothing is missing between start and the end of what is asked for. */
  lemma {:induction false} DenseAnswer(db: Db, root: Root, start: int, count: int)
    requires Dense(db) && db.root == Some(root) && 0 <= start < root.size <= MAX_INT64 && 0 < count
    ensures var stop := start + Clip(false, root.size, start, count);
            && Wrap64(stop) == stop && stop == Min(start + count, root.size)
            && RunLength(db, start, stop) == stop - start && !SomePresent(db, stop, stop)
            && forall n :: start <= n < stop ==> Present(db, n)
  {
    DenseRun(db, start, start + Clip(false, root.size, start, count));
  }

  /** Where an answer to a valid request ends at the latest. */
  function Stop(preordered: bool, size: int, start: int, end: int): (stop: int) {
    Wrap64(start + Clip(preordered, size, start, Min(end - start + 1, MAX_RANGE)))
  }

  /** The request is valid, begins inside the tree and is not the one whose length wraps. */
  predicate Servable(size: int, start: int, end: int) {
    ValidRequest(start, end) && start < size && !(start == 0 && end == MAX_INT64)
  }

  /** A row is missing inside the tree although a later one is there. */
  ghost predicate HasGap(db: Db, size: int, start: int, stop: int) {
    var k := RunLength(db, start, stop);
    start + k < size && SomePresent(db, start + k, stop)
  }

  /** The command over the storage of one log, read in a transaction tx; permissions and the network are left out. */
  method GetEntries(tx: LogTx, start: int, end: int) returns (r: Result<seq<LeafEntry>>)
    requires Int64(start) && Int64(end) && 0 <= tx.root.size <= MAX_INT64
    ensures var stop := Stop(tx.preordered, tx.root.size, start, end);
            && (r.Success? <==> Servable(tx.root.size, start, end) && !HasGap(tx.db, tx.root.size, start, stop))
            && (r.Success? ==>
                  && |r.value| == RunLength(tx.db, start, stop)
                  && forall i :: 0 <= i < |r.value| ==>
                       Present(tx.db, start + i) && r.value[i] == EntryAt(tx.db, start + i))
    ensures !tx.preordered && Dense(tx.db) && tx.db.root == Some(tx.root) ==>
              && (r.Success? <==> Servable(tx.root.size, start, end))
              && (r.Success? ==> start + |r.value| == Min(Min(end + 1, start + MAX_RANGE), tx.root.size))
  {
    hide LimitedEnd, RequestCount, Wrap64, SomePresent, RunLength, Dense, Present;
    if start < 0 || end < 0 {
      return Failure;
    }
    if start > end {
      return Failure;
    }
    var last := LimitedEnd(start, end);
    var count := RequestCount(start, last);
    CountExactly(start, end);
    var leaves := GetLeavesByRange(tx, start, count);
    if !tx.preordered && Dense(tx.db) && tx.db.root == Some(tx.root) && count > 0 && start < tx.root.size {
      DenseAnswer(tx.db, tx.root, start, count);
    }
    if leaves.Failure? || tx.root.size <= start || |leaves.value| > count {
      return Failure;
    }
    for i := 0 to |leaves.value|
    {
      if leaves.value[i].index != start + i {
        return Failure;
      }
    }
    var entries := [];
    for i := 0 to |leaves.value|
      invariant |entries| == i
      invariant forall j :: 0 <= j < i ==> entries[j] == LeafEntry(leaves.value[j].value, leaves.value[j].extra)
    {
      entries := entries + [LeafEntry(leaves.value[i].value, leaves.value[i].extra)];
    }
    r := Success(entries);
  }

  /** In every run the entry at a position is the value and extra data of the leaf queued first for its hash. */
  lemma {:induction false} EntriesAreQueued(hashSize: nat, r: Run, n: int)
    requires After(hashSize, r).Some? && Present(After(hashSize, r).value, n)
    ensures var db := After(hashSize, r).value;
            var o := Origins.Origin(r, StoredLeaf(db, n).identity);
            o.Some? && EntryAt(db, n) == LeafEntry(o.value.0.value, o.value.0.extra)
  {
    Origins.ReadsWhatWasQueued(hashSize, r, n);
  }

  /** Along every run the entry that get-entries returns for a position never changes. */
  lemma {:induction false} EntriesNeverChange(hashSize: nat, r: Run, r': Run, n: int)
    requires StartsWith(r', r) && After(hashSize, r').Some?
    ensures After(hashSize, r).Some?
    ensures var db, later := After(hashSize, r).value, After(hashSize, r').value;
            Present(db, n) ==> Present(later, n) && EntryAt(later, n) == EntryAt(db, n)
  {
    AppendOnly(hashSize, r, r');
  }
}
