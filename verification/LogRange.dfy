/** Leaves by position: the consecutive rows from a start on. */
module LogRange {
  import opened Bytes
  import opened LogTables
  import opened LogStorage

  const TWO_63: int := 0x8000_0000_0000_0000
  const MAX_INT64: int := TWO_63 - 1

  predicate Int64(x: int) {
    -TWO_63 <= x < TWO_63
  }

  /** Signed 64-bit arithmetic keeps the low 64 bits. */
  function Wrap64(x: int): (y: int)
    ensures Int64(y) && (Int64(x) ==> y == x) && (x - y) % (TWO_63 + TWO_63) == 0
  {
    (x + TWO_63) % (TWO_63 + TWO_63) - TWO_63
  }

  // ----- the query -----

  /** A sequenced row whose leaf data is stored: what the join of the two tables yields. */
  predicate Present(db: Db, n: int) {
    n in db.sequenced && db.sequenced[n].hash in db.leafData
  }

  function StoredLeaf(db: Db, n: int): (leaf: Leaf)
    requires Present(db, n)
  {
    var s := db.sequenced[n];
    var l := db.leafData[s.hash];
    Leaf(s.hash, s.merkle, l.value, l.extra, n, l.queueTs, s.integrateTs)
  }

  /** The numbers of the rows in a range, in order. */
  function RangeRows(db: Db, lo: int, hi: int): (ns: seq<int>)
    ensures forall i :: 0 <= i < |ns| ==> lo <= ns[i] < hi && Present(db, ns[i])
    decreases hi - lo
  {
    if lo >= hi then []
    else if Present(db, lo) then [lo] + RangeRows(db, lo + 1, hi)
    else RangeRows(db, lo + 1, hi)
  }

  /** How many consecutive rows there are from lo on. */
  function RunLength(db: Db, lo: int, hi: int): (k: nat)
    ensures lo < hi ==> lo + k <= hi
    ensures lo >= hi ==> k == 0
    ensures forall n :: lo <= n < lo + k ==> Present(db, n)
    ensures lo + k < hi ==> !Present(db, lo + k)
    decreases hi - lo
  {
    if lo < hi && Present(db, lo) then 1 + RunLength(db, lo + 1, hi) else 0
  }

  /** The rows start with k consecutive ones from lo on, and any further row comes after a gap. */
  predicate StartsWithRun(ns: seq<int>, lo: int, k: nat) {
    && k <= |ns|
    && (forall i :: 0 <= i < k ==> ns[i] == lo + i)
    && (k < |ns| ==> ns[k] != lo + k)
  }

  lemma {:induction false} RunGrows(ns: seq<int>, lo: int, k: nat)
    requires StartsWithRun(ns, lo + 1, k)
    ensures StartsWithRun([lo] + ns, lo, k + 1)
  {
    assert forall i :: 1 <= i <= |ns| ==> ([lo] + ns)[i] == ns[i - 1];
  }

  lemma {:induction false} AfterGap(db: Db, lo: int, hi: int)
    requires !Present(db, lo)
    ensures StartsWithRun(RangeRows(db, lo, hi), lo, 0)
  {
    hide Present;
    var ns := RangeRows(db, lo, hi);
    if ns != [] { assert Present(db, ns[0]); }
  }

  lemma {:induction false} RowsStep(db: Db, lo: int, hi: int)
    requires lo < hi && Present(db, lo)
    ensures RangeRows(db, lo, hi) == [lo] + RangeRows(db, lo + 1, hi)
    ensures RunLength(db, lo, hi) == 1 + RunLength(db, lo + 1, hi)
  {
    hide Present;
  }

  lemma {:induction false} NoRun(db: Db, lo: int, hi: int)
    requires lo >= hi || !Present(db, lo)
    ensures RunLength(db, lo, hi) == 0 && (lo >= hi ==> RangeRows(db, lo, hi) == [])
  {
    hide Present;
  }

  /** The rows of a range are the run from its start and then the rows past the gap. */
  lemma {:induction false} RunThenGap(db: Db, lo: int, hi: int)
    ensures var ns, k := RangeRows(db, lo, hi), RunLength(db, lo, hi);
            StartsWithRun(ns, lo, k) && (k < |ns| <==> RangeRows(db, lo + k, hi) != [])
    decreases hi - lo
  {
    hide RangeRows, RunLength, Present, StartsWithRun;
    if lo >= hi {
      NoRun(db, lo, hi);
      EmptyRun(lo);
    } else if Present(db, lo) {
      RunThenGap(db, lo + 1, hi);
      RowsStep(db, lo, hi);
      RunGrows(RangeRows(db, lo + 1, hi), lo, RunLength(db, lo + 1, hi));
      assert lo + 1 + RunLength(db, lo + 1, hi) == lo + RunLength(db, lo, hi);
    } else {
      NoRun(db, lo, hi);
      AfterGap(db, lo, hi);
      assert lo + 0 == lo;
    }
  }

  lemma {:induction false} EmptyRun(lo: int)
    ensures StartsWithRun([], lo, 0)
  {
  }

  ghost predicate SomePresent(db: Db, lo: int, hi: int) {
    exists n :: lo <= n < hi && Present(db, n)
  }

  /** The query returns each row of the range once, in order. */
  lemma {:induction false} RangeRowsExactly(db: Db, lo: int, hi: int)
    ensures var ns := RangeRows(db, lo, hi);
            && (forall n :: n in ns <==> lo <= n < hi && Present(db, n))
            && (forall i, j :: 0 <= i < j < |ns| ==> ns[i] < ns[j])
            && (ns != [] <==> SomePresent(db, lo, hi))
    decreases hi - lo
  {
    hide Present;
    if lo < hi {
      RangeRowsExactly(db, lo + 1, hi);
      var ns := RangeRows(db, lo, hi);
      assert ns != [] ==> ns[0] in ns;
    }
  }

  /** How many leaves the storage looks for: never beyond the tree of a log that is not pre-ordered. */
  function Clip(preordered: bool, size: int, start: int, count: int): (c: int) {
    if !preordered && count > size - start then size - start else count
  }

  /** The arguments are refused. */
  predicate Refused(preordered: bool, size: int, start: int, count: int) {
    count <= 0 || start < 0 || (!preordered && (size <= 0 || start >= size))
  }

  /** The consecutive leaves from start on; a gap inside the tree is an error, a gap beyond it ends the answer. */
  method GetLeavesByRange(tx: LogTx, start: int, count: int) returns (r: Result<seq<Leaf>>)
    requires Int64(start) && Int64(count) && 0 <= tx.root.size <= MAX_INT64
    ensures var end := Wrap64(start + Clip(tx.preordered, tx.root.size, start, count));
            var k := RunLength(tx.db, start, end);
            && (r.Failure? <==>
                  || Refused(tx.preordered, tx.root.size, start, count)
                  || (start + k < tx.root.size && SomePresent(tx.db, start + k, end)))
            && (r.Success? ==> |r.value| == k && forall i :: 0 <= i < k ==> r.value[i] == StoredLeaf(tx.db, start + i))
  {
    hide RangeRows, RunLength, Wrap64, Present, StoredLeaf, SomePresent;
    var want := count;
    if count <= 0 || start < 0 {
      return Failure;
    }
    if !tx.preordered {
      if tx.root.size <= 0 || start >= tx.root.size {
        return Failure;
      }
      if want > tx.root.size - start {
        want := tx.root.size - start;
      }
    }
    var end := Wrap64(start + want);
    var rows := RangeRows(tx.db, start, end);
    RunThenGap(tx.db, start, end);
    ghost var k := RunLength(tx.db, start, end);
    RangeRowsExactly(tx.db, start + k, end);
    var ret := [];
    for i := 0 to |rows|
      invariant |ret| == i <= k
      invariant forall j :: 0 <= j < i ==> ret[j] == StoredLeaf(tx.db, start + j)
    {
      if rows[i] != start + i {
        if start + i < tx.root.size {
          return Failure;
        }
        break;
      }
      ret := ret + [StoredLeaf(tx.db, rows[i])];
    }
    r := Success(ret);
  }
}
