/**
 Signers and batches over one log at the same time.  Each statement of a transaction is a step; transactions see what
 has been committed and wait for rows that others have locked.  A signer may work from a root that is not the latest.
 */
module ConcurrentLog {
  import opened Bytes
  import opened LogTables
  import opened LogStorage
  import opened LogQueue
  import History = LogHistory

  /** What a signer works on: the root it began from, the queue as its select read it, and the batch it selected. */
  datatype Pass = Pass(
    root: Root, limit: nat, cutoff: int, seen: map<QueueKey, bytes>, batch: seq<QueueKey>, integrateTs: int)

  datatype Signer =
    | Idle
    | Begun(root: Root)                                              // has read the latest root
    | Deleting(pass: Pass, n: nat)                                   // has selected, and deleted n entries
    | Recording(pass: Pass, n: nat, rows: map<int, SequencedRow>)    // has deleted all, and tried to record n leaves
    | Storing(pass: Pass, rows: map<int, SequencedRow>, head: Root)  // has stored its root; holds the row of the tree
    | Committed(pass: Pass)
    | Aborted

  /** A batch of leaves being queued; added are those it inserted, whose rows it has locked. */
  datatype Batch =
    | Unopened
    | Queuing(ts: int, added: seq<Leaf>)
    | Queued(ts: int, added: seq<Leaf>)
    | Dropped

  /** db is what has been committed. */
  datatype State = State(db: Db, signers: seq<Signer>, batches: seq<Batch>)

  datatype Action =
    | Begin(p: nat)
    | Select(p: nat, limit: nat, cutoff: int, batch: seq<QueueKey>, integrateTs: int)
    | Delete(p: nat)
    | Update(p: nat)
    | Record(p: nat)
    | Store(p: nat, timestamp: int, rootHash: bytes)
    | Commit(p: nat)
    | Abort(p: nat)
    | Open(b: nat, ts: int)
    | Put(b: nat, leaf: Leaf)
    | Close(b: nat)
    | Drop(b: nat)

  predicate OfSigner(a: Action) {
    !a.Open? && !a.Put? && !a.Close? && !a.Drop?
  }

  // ----- steps of a signer -----

  /** Queue entries a signer has deleted but not committed. */
  function Locked(g: Signer): (ks: set<QueueKey>) {
    match g
    case Deleting(pass, n) => if n <= |pass.batch| then SetOf(pass.batch[..n]) else {}
    case Recording(pass, _, _) => SetOf(pass.batch)
    case Storing(pass, _, _) => SetOf(pass.batch)
    case _ => {}
  }

  /** Sequence numbers a signer has written but not committed. */
  function Written(g: Signer): (ns: set<int>) {
    if g.Recording? || g.Storing? then g.rows.Keys else {}
  }

  predicate LockedByOther(s: State, p: nat, k: QueueKey) {
    exists q :: 0 <= q < |s.signers| && q != p && k in Locked(s.signers[q])
  }

  predicate WrittenByOther(s: State, p: nat, n: int) {
    exists q :: 0 <= q < |s.signers| && q != p && n in Written(s.signers[q])
  }

  predicate OtherStoring(s: State, p: nat) {
    exists q :: 0 <= q < |s.signers| && q != p && s.signers[q].Storing?
  }

  /** A delete must affect one row. */
  function DeleteStep(s: State, p: nat, g: Signer): (r: Option<Signer>)
    requires g.Deleting?
  {
    if g.n >= |g.pass.batch| then None
    else
      var k := g.pass.batch[g.n];
      if LockedByOther(s, p, k) then None
      else if k !in s.db.unsequenced then Some(Aborted)
      else Some(Deleting(g.pass, g.n + 1))
  }

  /** A number that is taken is silently left alone; whether the row was inserted is not looked at. */
  function RecordStep(s: State, p: nat, g: Signer): (r: Option<Signer>)
    requires g.Recording?
  {
    if g.n >= |g.pass.batch| then None
    else
      var k, number := g.pass.batch[g.n], g.pass.root.size + g.n;
      if WrittenByOther(s, p, number) then None
      else if number in s.db.sequenced then Some(Recording(g.pass, g.n + 1, g.rows))
      else if k.hash !in s.db.leafData || k !in g.pass.seen then Some(Aborted)
      else
        var row := SequencedRow(k.hash, g.pass.seen[k], g.pass.integrateTs);
        Some(Recording(g.pass, g.n + 1, g.rows[number := row]))
  }

  /** The root goes into the row of the tree and, as a head, under the revision after the one the signer began from. */
  function StoreStep(s: State, p: nat, g: Signer, timestamp: int, rootHash: bytes): (r: Option<Signer>)
    requires g.Recording?
  {
    if g.n < |g.pass.batch| || OtherStoring(s, p) then None
    else if g.pass.root.revision + 1 in s.db.heads then Some(Aborted)
    else
      var root := g.pass.root;
      Some(Storing(g.pass, g.rows, Root(root.size + |g.pass.batch|, root.revision + 1, timestamp, rootHash, [])))
  }

  function SignerStep(s: State, a: Action, g: Signer): (r: Option<Signer>)
    requires OfSigner(a)
  {
    match a
    case Begin(p) => if g.Idle? && s.db.root.Some? then Some(Begun(s.db.root.value)) else None
    case Select(p, limit, cutoff, batch, ts) =>
      if g.Begun? && IsSmallest(Eligible(s.db.unsequenced, cutoff), limit, batch)
      then Some(Deleting(Pass(g.root, limit, cutoff, s.db.unsequenced, batch, ts), 0)) else None
    case Delete(p) => if g.Deleting? then DeleteStep(s, p, g) else None
    case Update(p) => if g.Deleting? && g.n == |g.pass.batch| then Some(Recording(g.pass, 0, map[])) else None
    case Record(p) => if g.Recording? then RecordStep(s, p, g) else None
    case Store(p, timestamp, rootHash) => if g.Recording? then StoreStep(s, p, g, timestamp, rootHash) else None
    case Commit(p) => if g.Storing? then Some(Committed(g.pass)) else None
    case Abort(p) => if g.Idle? || g.Committed? then None else Some(Aborted)
  }

  /** The tables after a signer has committed. */
  function Integrated(db: Db, g: Signer): (r: Db)
    requires g.Storing?
  {
    Db(db.leafData,
       db.unsequenced - SetOf(g.pass.batch),
       db.sequenced + g.rows,
       db.heads[g.head.revision := g.head],
       Some(g.head))
  }

  // ----- steps of a batch -----

  predicate AddedByOther(s: State, b: nat, h: Hash) {
    exists c :: 0 <= c < |s.batches| && c != b && s.batches[c].Queuing? && HasIdentity(s.batches[c].added, h)
  }

  predicate HasIdentity(leaves: seq<Leaf>, h: Hash) {
    exists i :: 0 <= i < |leaves| && leaves[i].identity == h
  }

  function InOrder(n: nat): (ord: seq<nat>)
    ensures |ord| == n && forall i :: 0 <= i < n ==> ord[i] == i
  {
    seq(n, i requires 0 <= i < n => i)
  }

  /** Queue entries go in beside the leaf data, as in a batch that runs alone. */
  function Extended(db: Db, g: Batch): (r: Db)
    requires g.Queuing?
  {
    QueueAll(db, g.added, InOrder(|g.added|), g.ts)
  }

  function BatchStep(s: State, a: Action, g: Batch): (r: Option<Batch>)
    requires !OfSigner(a)
  {
    match a
    case Open(_, ts) => if g.Unopened? then Some(Queuing(ts, [])) else None
    case Put(b, leaf) =>
      if !g.Queuing? || AddedByOther(s, b, leaf.identity) then None
      else if leaf.identity in s.db.leafData || HasIdentity(g.added, leaf.identity) then Some(g)
      else Some(Queuing(g.ts, g.added + [leaf]))
    case Close(_) => if g.Queuing? then Some(Queued(g.ts, g.added)) else None
    case Drop(_) => if g.Queuing? then Some(Dropped) else None
  }

  function Step(s: State, a: Action): (r: Option<State>) {
    if OfSigner(a) then
      if a.p >= |s.signers| then None
      else
        var g := SignerStep(s, a, s.signers[a.p]);
        if g.None? then None
        else Some(State(if a.Commit? && s.signers[a.p].Storing? then Integrated(s.db, s.signers[a.p]) else s.db,
                        s.signers[a.p := g.value], s.batches))
    else if a.b >= |s.batches| then None
    else
      var g := BatchStep(s, a, s.batches[a.b]);
      if g.None? then None
      else Some(State(if a.Close? && s.batches[a.b].Queuing? then Extended(s.db, s.batches[a.b]) else s.db,
                      s.signers, s.batches[a.b := g.value]))
  }

  datatype Run = Start(root: Root, signers: nat, batches: nat) | Then(before: Run, a: Action)

  function After(r: Run): (s: Option<State>) {
    match r
    case Start(root, n, m) => Some(State(History.Empty(root), seq(n, i => Idle), seq(m, i => Unopened)))
    case Then(r', a) =>
      var s := After(r');
      if s.None? then None else Step(s.value, a)
  }

  // ----- what a signer knows -----

  ghost predicate Known(db: Db, root: Root) {
    root.revision in db.heads && db.heads[root.revision] == root
  }

  /** Entries once seen belong to stored leaves, and are unchanged while they are queued. */
  ghost predicate SeenSound(db: Db, seen: map<QueueKey, bytes>) {
    forall k :: k in seen ==> k.hash in db.leafData && (k in db.unsequenced ==> db.unsequenced[k] == seen[k])
  }

  ghost predicate Picked(db: Db, pass: Pass) {
    && Known(db, pass.root) && SeenSound(db, pass.seen)
    && IsSmallest(Eligible(pass.seen, pass.cutoff), pass.limit, pass.batch)
  }

  /** The first n leaves of the batch are recorded from the tree size on, and nothing else. */
  ghost predicate Exact(pass: Pass, n: nat, rows: map<int, SequencedRow>) {
    && n <= |pass.batch|
    && (forall m :: m in rows <==> pass.root.size <= m < pass.root.size + n)
    && (forall i :: 0 <= i < n ==>
          && pass.root.size + i in rows && pass.batch[i] in pass.seen
          && rows[pass.root.size + i] == SequencedRow(pass.batch[i].hash, pass.seen[pass.batch[i]], pass.integrateTs))
  }

  predicate PlacedAt(db: Db, pass: Pass, i: nat) {
    && i < |pass.batch| && pass.root.size + i in db.sequenced && pass.batch[i] in pass.seen
    && db.sequenced[pass.root.size + i] == SequencedRow(pass.batch[i].hash, pass.seen[pass.batch[i]], pass.integrateTs)
  }

  /** Every leaf of the batch has its row at its number. */
  ghost predicate InPlace(db: Db, pass: Pass) {
    forall i :: 0 <= i < |pass.batch| ==> PlacedAt(db, pass, i)
  }

  ghost predicate Consistent(db: Db, g: Signer) {
    Locked(g) <= db.unsequenced.Keys &&
    match g
    case Begun(root) => Known(db, root)
    case Deleting(pass, n) => Picked(db, pass) && n <= |pass.batch|
    case Recording(pass, n, rows) => Picked(db, pass) && (Some(pass.root) == db.root ==> Exact(pass, n, rows))
    case Storing(pass, rows, head) =>
      && Picked(db, pass) && Some(pass.root) == db.root && Exact(pass, |pass.batch|, rows)
      && head == Root(pass.root.size + |pass.batch|, pass.root.revision + 1, head.timestamp, head.rootHash, [])
    case Committed(pass) =>
      && Picked(db, pass) && SetOf(pass.batch) !! db.unsequenced.Keys && InPlace(db, pass)
      && db.root.Some? && pass.root.revision < db.root.value.revision
    case _ => true
  }

  function Taken(g: Signer): (ks: set<QueueKey>) {
    if g.Committed? then SetOf(g.pass.batch) else Locked(g)
  }

  /** No two signers have taken the same entry, are storing, or have committed from the same root. */
  predicate Apart(g: Signer, h: Signer) {
    && Taken(g) !! Taken(h)
    && !(g.Storing? && h.Storing?)
    && (g.Committed? && h.Committed? ==> g.pass.root.revision != h.pass.root.revision)
  }

  predicate Exclusive(signers: seq<Signer>) {
    forall p, q :: 0 <= p < q < |signers| ==> Apart(signers[p], signers[q])
  }

  ghost predicate HandedOut(s: State, k: QueueKey) {
    exists p :: 0 <= p < |s.signers| && s.signers[p].Committed? && k in s.signers[p].pass.batch
  }

  /** A leaf that is no longer queued was handed out by a committed signer. */
  ghost predicate Accounted(s: State) {
    forall h :: h in s.db.leafData && !History.IsQueued(s.db, h) ==> HandedOut(s, QueueKey(s.db.leafData[h].queueTs, h))
  }

  // ----- what a batch knows -----

  ghost predicate BatchConsistent(db: Db, g: Batch) {
    match g
    case Queuing(_, added) =>
      && (forall i :: 0 <= i < |added| ==> added[i].identity !in db.leafData)
      && (forall i, j :: 0 <= i < j < |added| ==> added[i].identity != added[j].identity)
    case Queued(ts, added) =>
      forall i :: 0 <= i < |added| ==>
        && added[i].identity in db.leafData
        && db.leafData[added[i].identity] == LeafRow(added[i].value, added[i].extra, ts)
    case _ => true
  }

  predicate BatchesApart(g: Batch, h: Batch) {
    g.Queuing? && h.Queuing? ==>
      forall i, j :: 0 <= i < |g.added| && 0 <= j < |h.added| ==> g.added[i].identity != h.added[j].identity
  }

  ghost predicate BatchesSound(db: Db, batches: seq<Batch>) {
    && (forall b :: 0 <= b < |batches| ==> BatchConsistent(db, batches[b]))
    && (forall b, c :: 0 <= b < c < |batches| ==> BatchesApart(batches[b], batches[c]))
  }

  ghost predicate SignersSound(db: Db, signers: seq<Signer>) {
    && (forall p :: 0 <= p < |signers| ==> Consistent(db, signers[p]))
    && Exclusive(signers)
  }

  ghost predicate Invariant(s: State) {
    && History.Sound(s.db) && Known(s.db, s.db.root.value)
    && SignersSound(s.db, s.signers) && Accounted(s) && BatchesSound(s.db, s.batches)
  }

  // ----- a signer's step that commits nothing -----

  /** A known root whose next revision is free is the latest one. */
  lemma {:induction false} LatestRoot(db: Db, root: Root)
    requires History.Dense(db) && Known(db, db.root.value) && Known(db, root) && root.revision + 1 !in db.heads
    ensures Some(root) == db.root
  {
    assert 0 <= root.revision <= db.root.value.revision;
  }

  lemma {:induction false} LockedGrows(pass: Pass, n: nat)
    requires n < |pass.batch|
    ensures Locked(Deleting(pass, n + 1)) == Locked(Deleting(pass, n)) + {pass.batch[n]}
  {
    assert pass.batch[..n + 1] == pass.batch[..n] + [pass.batch[n]];
  }

  lemma {:induction false} LockedAll(pass: Pass)
    ensures Locked(Deleting(pass, |pass.batch|)) == SetOf(pass.batch) && Locked(Deleting(pass, 0)) == {}
  {
    assert pass.batch[..|pass.batch|] == pass.batch && pass.batch[..0] == [];
  }

  /** Recording at the latest root takes the next free number. */
  lemma {:induction false} RecordExact(s: State, p: nat, g: Signer)
    requires History.Sound(s.db) && Consistent(s.db, g) && g.Recording? && RecordStep(s, p, g).Some?
    ensures Consistent(s.db, RecordStep(s, p, g).value)
  {
    hide SeenSound, Known, SetOf, History.Partition, History.Conserved, History.QueueSound, SequencedOnce;
    if Some(g.pass.root) == s.db.root {
      var k, number := g.pass.batch[g.n], g.pass.root.size + g.n;
      assert number !in s.db.sequenced;
      assert k in Eligible(g.pass.seen, g.pass.cutoff);
    }
  }

  lemma {:induction false} StoreExact(s: State, p: nat, g: Signer, timestamp: int, rootHash: bytes)
    requires History.Sound(s.db) && Known(s.db, s.db.root.value) && Consistent(s.db, g) && g.Recording?
    requires StoreStep(s, p, g, timestamp, rootHash).Some?
    ensures Consistent(s.db, StoreStep(s, p, g, timestamp, rootHash).value)
  {
    hide SeenSound, SetOf, History.Partition, History.Conserved, History.QueueSound, SequencedOnce, IsSmallest;
    if g.pass.root.revision + 1 !in s.db.heads {
      LatestRoot(s.db, g.pass.root);
    }
  }

  lemma {:induction false} SelectConsistent(db: Db, root: Root, limit: nat, cutoff: int, batch: seq<QueueKey>,
      integrateTs: int)
    requires History.QueueSound(db) && Known(db, root) && IsSmallest(Eligible(db.unsequenced, cutoff), limit, batch)
    ensures Consistent(db, Deleting(Pass(root, limit, cutoff, db.unsequenced, batch, integrateTs), 0))
  {
    LockedAll(Pass(root, limit, cutoff, db.unsequenced, batch, integrateTs));
  }

  lemma {:induction false} NextConsistent(s: State, a: Action, g: Signer)
    requires History.Sound(s.db) && Known(s.db, s.db.root.value) && Consistent(s.db, g)
    requires OfSigner(a) && !a.Commit? && SignerStep(s, a, g).Some?
    ensures Consistent(s.db, SignerStep(s, a, g).value)
  {
    hide SeenSound, SetOf, History.Partition, History.Conserved, History.Dense, IsSmallest,
         RecordStep, StoreStep, Known;
    match a
    case Begin(_) =>
    case Select(_, limit, cutoff, batch, ts) => SelectConsistent(s.db, g.root, limit, cutoff, batch, ts);
    case Delete(_) => if g.n < |g.pass.batch| { LockedGrows(g.pass, g.n); }
    case Update(_) => LockedAll(g.pass);
    case Record(p) => RecordExact(s, p, g);
    case Store(p, timestamp, rootHash) => StoreExact(s, p, g, timestamp, rootHash);
    case Abort(_) =>
  }

  /** A step takes at most an entry that nobody else has taken. */
  lemma {:induction false} NextApart(s: State, a: Action, q: nat)
    requires Invariant(s) && OfSigner(a) && a.p < |s.signers| && q < |s.signers| && q != a.p
    requires SignerStep(s, a, s.signers[a.p]).Some? && !a.Commit?
    requires Apart(s.signers[a.p], s.signers[q])
    ensures Apart(SignerStep(s, a, s.signers[a.p]).value, s.signers[q])
  {
    hide SeenSound, SetOf, History.Sound, IsSmallest, Accounted, BatchesSound, Known, Picked, Exact;
    var g := s.signers[a.p];
    assert Consistent(s.db, s.signers[q]);
    match a
    case Begin(_) =>
    case Select(_, limit, cutoff, batch, ts) => LockedAll(Pass(g.root, limit, cutoff, s.db.unsequenced, batch, ts));
    case Delete(p) =>
      if g.n < |g.pass.batch| {
        LockedGrows(g.pass, g.n);
        assert !LockedByOther(s, p, g.pass.batch[g.n]) ==> g.pass.batch[g.n] !in Locked(s.signers[q]);
      }
    case Update(_) => LockedAll(g.pass);
    case Record(_) =>
    case Store(_, _, _) =>
    case Abort(_) =>
  }

  lemma {:induction false} ApartBothWays(g: Signer, h: Signer)
    ensures Apart(g, h) <==> Apart(h, g)
  {
  }

  lemma {:induction false} PairApart(signers: seq<Signer>, p: nat, q: nat)
    requires Exclusive(signers) && p < |signers| && q < |signers| && p != q
    ensures Apart(signers[p], signers[q])
  {
    hide Apart;
    if q < p { ApartBothWays(signers[q], signers[p]); }
  }

  lemma {:induction false} ReplaceExclusive(signers: seq<Signer>, p: nat, g: Signer)
    requires Exclusive(signers) && p < |signers|
    requires forall q :: 0 <= q < |signers| && q != p ==> Apart(g, signers[q])
    ensures Exclusive(signers[p := g])
  {
    hide Apart;
    forall q | 0 <= q < p
      ensures Apart(signers[q], g)
    {
      ApartBothWays(signers[q], g);
    }
  }

  // ----- a signer commits -----

  function PassOf(g: Signer): (tx: History.Tx)
    requires g.Storing?
  {
    History.Sequence(g.pass.limit, g.pass.cutoff, g.pass.batch, g.pass.integrateTs, g.head.timestamp, g.head.rootHash)
  }

  /** What a signer that holds the latest root commits is exactly a pass over its batch. */
  lemma {:induction false} CommitIsPass(db: Db, g: Signer)
    requires History.Sound(db) && g.Storing? && Consistent(db, g)
    ensures Ascending(g.pass.batch) && History.Sequenced(db, PassOf(g), Integrated(db, g))
  {
    hide History.Partition, History.Conserved, SequencedOnce, Known, History.Recorded;
    var r := db.(sequenced := db.sequenced + g.rows);
    assert forall i :: 0 <= i < |g.pass.batch| ==> g.pass.batch[i] in SetOf(g.pass.batch);
    var leaves := History.Numbered(db, g.pass.batch, g.pass.root.size, g.pass.integrateTs);
    assert History.Recorded(db, leaves, g.pass.root.size, r) by { CommitRecords(db, g, leaves); }
  }

  lemma {:induction false} CommitRecords(db: Db, g: Signer, leaves: seq<Leaf>)
    requires History.Dense(db) && g.Storing? && Consistent(db, g) && SetOf(g.pass.batch) <= db.unsequenced.Keys
    requires leaves == History.Numbered(db, g.pass.batch, g.pass.root.size, g.pass.integrateTs)
    ensures History.Recorded(db, leaves, g.pass.root.size, db.(sequenced := db.sequenced + g.rows))
  {
    hide IsSmallest, Known, SequencedOnce;
    assert forall i :: 0 <= i < |g.pass.batch| ==> g.pass.batch[i] in SetOf(g.pass.batch);
  }

  lemma {:induction false} CommitSound(db: Db, g: Signer)
    requires History.Sound(db) && g.Storing? && Consistent(db, g)
    ensures History.Sound(Integrated(db, g)) && Known(Integrated(db, g), g.head)
  {
    hide History.QueueSound, History.Dense, History.Partition, History.Conserved, History.Sequenced, Consistent,
         Ascending;
    CommitIsPass(db, g);
    var r := Integrated(db, g);
    History.SequenceDense(db, PassOf(g), r);
    History.SequencePartition(db, PassOf(g), r);
    History.SequenceConserved(db, PassOf(g), r);
  }

  lemma {:induction false} KnownStays(db: Db, g: Signer, root: Root)
    requires History.Dense(db) && g.Storing? && Consistent(db, g) && Known(db, root)
    ensures Known(Integrated(db, g), root) && Some(root) != Integrated(db, g).root
  {
    hide SequencedOnce, IsSmallest, SeenSound, Exact, SetOf;
  }

  lemma {:induction false} SeenStays(db: Db, g: Signer, seen: map<QueueKey, bytes>)
    requires g.Storing? && SeenSound(db, seen)
    ensures SeenSound(Integrated(db, g), seen)
  {
  }

  lemma {:induction false} PlacesStay(db: Db, g: Signer, pass: Pass)
    requires History.Dense(db) && g.Storing? && Consistent(db, g) && InPlace(db, pass)
    ensures InPlace(Integrated(db, g), pass)
  {
    hide SequencedOnce, IsSmallest, SeenSound, SetOf, Known;
    forall i | 0 <= i < |pass.batch|
      ensures PlacedAt(Integrated(db, g), pass, i)
    {
      assert PlacedAt(db, pass, i);
    }
  }

  lemma {:induction false} CommitPlaces(db: Db, g: Signer)
    requires g.Storing? && Consistent(db, g)
    ensures InPlace(Integrated(db, g), g.pass)
  {
    hide IsSmallest, SeenSound, SetOf, Known;
  }

  lemma {:induction false} CommitOthers(db: Db, g: Signer, h: Signer)
    requires History.Sound(db) && g.Storing? && Consistent(db, g) && Consistent(db, h) && Apart(g, h)
    ensures Consistent(Integrated(db, g), h)
  {
    hide SequencedOnce, IsSmallest, SeenSound, Exact, SetOf, Known, InPlace, History.QueueSound, History.Dense,
         History.Partition, History.Conserved;
    if h.Committed? { PlacesStay(db, g, h.pass); }
    if h.Begun? { KnownStays(db, g, h.root); }
    if h.Deleting? || h.Recording? || h.Storing? || h.Committed? {
      KnownStays(db, g, h.pass.root);
      SeenStays(db, g, h.pass.seen);
    }
  }

  lemma {:induction false} CommitOwn(db: Db, g: Signer)
    requires History.Sound(db) && g.Storing? && Consistent(db, g)
    ensures Consistent(Integrated(db, g), Committed(g.pass))
  {
    hide SequencedOnce, IsSmallest, SeenSound, Exact, SetOf, Known, InPlace, History.QueueSound, History.Dense,
         History.Partition, History.Conserved;
    CommitPlaces(db, g);
    KnownStays(db, g, g.pass.root);
    SeenStays(db, g, g.pass.seen);
  }

  lemma {:induction false} CommitApart(db: Db, g: Signer, h: Signer)
    requires g.Storing? && Consistent(db, g) && Consistent(db, h) && Apart(g, h)
    ensures Apart(Committed(g.pass), h)
  {
    hide IsSmallest, SeenSound, Exact, SetOf, Known;
  }

  lemma {:induction false} CommitSigners(s: State, p: nat)
    requires Invariant(s) && p < |s.signers| && s.signers[p].Storing?
    ensures var g := s.signers[p]; SignersSound(Integrated(s.db, g), s.signers[p := Committed(g.pass)])
  {
    hide History.Sound, Consistent, Apart, Accounted, BatchesSound, Known, Integrated;
    var g := s.signers[p];
    var db' := Integrated(s.db, g);
    CommitOwn(s.db, g);
    forall q | 0 <= q < |s.signers| && q != p
      ensures Consistent(db', s.signers[q]) && Apart(Committed(g.pass), s.signers[q])
    {
      PairApart(s.signers, p, q);
      CommitOthers(s.db, g, s.signers[q]);
      CommitApart(s.db, g, s.signers[q]);
    }
    ReplaceExclusive(s.signers, p, Committed(g.pass));
  }

  lemma {:induction false} CommitAccounted(s: State, p: nat)
    requires Accounted(s) && p < |s.signers| && s.signers[p].Storing?
    ensures var g := s.signers[p]; Accounted(State(Integrated(s.db, g), s.signers[p := Committed(g.pass)], s.batches))
  {
    var g := s.signers[p];
    var s' := State(Integrated(s.db, g), s.signers[p := Committed(g.pass)], s.batches);
    forall h | h in s'.db.leafData && !History.IsQueued(s'.db, h)
      ensures HandedOut(s', QueueKey(s'.db.leafData[h].queueTs, h))
    {
      var k := QueueKey(s.db.leafData[h].queueTs, h);
      if k in s.db.unsequenced {
        assert s'.signers[p].Committed? && k in s'.signers[p].pass.batch;
      } else {
        var q :| 0 <= q < |s.signers| && s.signers[q].Committed? && k in s.signers[q].pass.batch;
        assert s'.signers[q] == s.signers[q];
      }
    }
  }

  // ----- a batch commits -----

  lemma {:induction false} QueueAllEntries(db: Db, leaves: seq<Leaf>, ord: seq<nat>, ts: int)
    requires forall k :: 0 <= k < |ord| ==> ord[k] < |leaves|
    ensures var d := QueueAll(db, leaves, ord, ts);
            && (forall k :: k in db.unsequenced ==> k in d.unsequenced && d.unsequenced[k] == db.unsequenced[k])
            && (forall k :: k in d.unsequenced && k !in db.unsequenced ==> k.hash !in db.leafData)
    decreases |ord|
  {
    if ord != [] {
      var n := |ord| - 1;
      QueueAllEntries(db, leaves, ord[..n], ts);
      QueueAllKeys(db, leaves, ord[..n], ts);
      hide Listed;
      QueueOneEntries(QueueAll(db, leaves, ord[..n], ts), leaves[ord[n]], ts);
      hide QueueOne;
    }
  }

  lemma {:induction false} QueueOneEntries(db: Db, leaf: Leaf, ts: int)
    ensures var d := QueueOne(db, leaf, ts);
            && (forall k :: k in db.unsequenced ==> k in d.unsequenced && d.unsequenced[k] == db.unsequenced[k])
            && (forall k :: k in d.unsequenced && k !in db.unsequenced ==> k.hash !in db.leafData)
  {
  }

  /** Queueing more leaves changes nothing that is recorded and adds entries for new leaves only. */
  ghost predicate Grown(db: Db, d: Db) {
    && d.sequenced == db.sequenced && d.heads == db.heads && d.root == db.root
    && (forall h :: h in db.leafData ==> h in d.leafData && d.leafData[h] == db.leafData[h])
    && (forall k :: k in db.unsequenced ==> k in d.unsequenced && d.unsequenced[k] == db.unsequenced[k])
    && (forall k :: k in d.unsequenced && k !in db.unsequenced ==> k.hash !in db.leafData)
  }

  lemma {:induction false} CloseGrows(db: Db, g: Batch)
    requires g.Queuing?
    ensures Grown(db, Extended(db, g))
    ensures forall h :: h in Extended(db, g).leafData <==> h in db.leafData || HasIdentity(g.added, h)
  {
    var ord := InOrder(|g.added|);
    QueueAllKeys(db, g.added, ord, g.ts);
    QueueAllEntries(db, g.added, ord, g.ts);
    forall h
      ensures Listed(g.added, ord, h) <==> HasIdentity(g.added, h)
    {
      if Listed(g.added, ord, h) {
        var k :| 0 <= k < |ord| && g.added[ord[k]].identity == h;
        assert g.added[k].identity == h;
      }
      if HasIdentity(g.added, h) {
        var k :| 0 <= k < |g.added| && g.added[k].identity == h;
        assert g.added[ord[k]].identity == h;
      }
    }
  }

  lemma {:induction false} GrownConsistent(db: Db, d: Db, g: Signer)
    requires Grown(db, d) && Consistent(db, g)
    ensures Consistent(d, g)
  {
    hide IsSmallest, Exact, SetOf, Locked, InPlace;
    if g.Committed? {
      GrownDisjoint(db, d, g.pass);
      GrownPlaces(db, d, g.pass);
    }
  }

  lemma {:induction false} GrownPlaces(db: Db, d: Db, pass: Pass)
    requires d.sequenced == db.sequenced && InPlace(db, pass)
    ensures InPlace(d, pass)
  {
    forall i | 0 <= i < |pass.batch|
      ensures PlacedAt(d, pass, i)
    {
      assert PlacedAt(db, pass, i);
    }
  }

  lemma {:induction false} GrownDisjoint(db: Db, d: Db, pass: Pass)
    requires Grown(db, d) && SeenSound(db, pass.seen)
             && IsSmallest(Eligible(pass.seen, pass.cutoff), pass.limit, pass.batch)
    requires SetOf(pass.batch) !! db.unsequenced.Keys
    ensures SetOf(pass.batch) !! d.unsequenced.Keys
  {
    forall k | k in SetOf(pass.batch)
      ensures k !in d.unsequenced
    {
      var i :| 0 <= i < |pass.batch| && pass.batch[i] == k;
      assert k in Eligible(pass.seen, pass.cutoff);
    }
  }

  lemma {:induction false} GrownAccounted(s: State, d: Db, batches: seq<Batch>)
    requires Accounted(s) && Grown(s.db, d) && History.Sound(s.db) && History.Sound(d)
    ensures Accounted(State(d, s.signers, batches))
  {
    var s' := State(d, s.signers, batches);
    forall h | h in d.leafData && !History.IsQueued(d, h)
      ensures HandedOut(s', QueueKey(d.leafData[h].queueTs, h))
    {
      assert History.IsSequenced(d, h);
      var n :| n in d.sequenced && d.sequenced[n].hash == h;
      assert h in s.db.leafData;
      var k := QueueKey(s.db.leafData[h].queueTs, h);
      assert HandedOut(s, k);
      var q :| 0 <= q < |s.signers| && s.signers[q].Committed? && k in s.signers[q].pass.batch;
      assert s'.signers[q].Committed?;
    }
  }

  /** Every leaf that a batch added is stored with its own data when the batch commits. */
  lemma {:induction false} CloseStores(db: Db, g: Batch)
    requires g.Queuing? && BatchConsistent(db, g)
    ensures BatchConsistent(Extended(db, g), Queued(g.ts, g.added))
  {
    var ord := InOrder(|g.added|);
    forall i | 0 <= i < |g.added|
      ensures var d, leaf := Extended(db, g), g.added[i];
              leaf.identity in d.leafData && d.leafData[leaf.identity] == LeafRow(leaf.value, leaf.extra, g.ts)
    {
      assert NewAt(db, g.added, ord, i);
      QueueAllNewRow(db, g.added, ord, g.ts, i);
    }
  }

  lemma {:induction false} CloseOtherBatch(db: Db, g: Batch, h: Batch)
    requires g.Queuing? && BatchConsistent(db, h) && BatchesApart(g, h)
    ensures BatchConsistent(Extended(db, g), h)
  {
    hide Extended;
    CloseGrows(db, g);
  }

  lemma {:induction false} BatchesApartBothWays(g: Batch, h: Batch)
    ensures BatchesApart(g, h) <==> BatchesApart(h, g)
  {
  }

  lemma {:induction false} PairBatchesApart(db: Db, batches: seq<Batch>, b: nat, c: nat)
    requires BatchesSound(db, batches) && b < |batches| && c < |batches| && b != c
    ensures BatchesApart(batches[b], batches[c])
  {
    hide BatchesApart;
    if c < b { BatchesApartBothWays(batches[c], batches[b]); }
  }

  lemma {:induction false} ReplaceBatch(db: Db, d: Db, batches: seq<Batch>, b: nat, g: Batch)
    requires BatchesSound(db, batches) && b < |batches| && BatchConsistent(d, g)
    requires forall c :: 0 <= c < |batches| && c != b ==> BatchConsistent(d, batches[c]) && BatchesApart(g, batches[c])
    ensures BatchesSound(d, batches[b := g])
  {
    hide BatchesApart, BatchConsistent;
    forall c | 0 <= c < b
      ensures BatchesApart(batches[c], g)
    {
      BatchesApartBothWays(batches[c], g);
    }
  }

  // ----- every step -----

  lemma {:induction false} SignerStepKeeps(s: State, a: Action)
    requires Invariant(s) && OfSigner(a) && !a.Commit? && Step(s, a).Some?
    ensures Invariant(Step(s, a).value)
  {
    hide History.Sound, Known, Consistent, Apart, BatchesSound, SignerStep, Accounted, BatchStep;
    var s', g := Step(s, a).value, SignerStep(s, a, s.signers[a.p]).value;
    assert Consistent(s.db, s.signers[a.p]);
    NextConsistent(s, a, s.signers[a.p]);
    forall q | 0 <= q < |s.signers| && q != a.p
      ensures Apart(g, s.signers[q])
    {
      PairApart(s.signers, a.p, q);
      NextApart(s, a, q);
    }
    ReplaceExclusive(s.signers, a.p, g);
    SignerAccounted(s, a);
  }

  lemma {:induction false} SignerAccounted(s: State, a: Action)
    requires Accounted(s) && OfSigner(a) && !a.Commit? && Step(s, a).Some?
    ensures Accounted(Step(s, a).value)
  {
    hide BatchStep, RecordStep, StoreStep, DeleteStep, IsSmallest, Eligible;
    var s' := Step(s, a).value;
    forall k | HandedOut(s, k)
      ensures HandedOut(s', k)
    {
      var q :| 0 <= q < |s.signers| && s.signers[q].Committed? && k in s.signers[q].pass.batch;
      assert s'.signers[q] == s.signers[q];
    }
  }

  lemma {:induction false} CommitKeeps(s: State, a: Action)
    requires Invariant(s) && a.Commit? && Step(s, a).Some?
    ensures Invariant(Step(s, a).value)
  {
    hide History.Sound, Known, Consistent, Apart, SignersSound, BatchesSound, Accounted, Integrated;
    var g := s.signers[a.p];
    assert Consistent(s.db, g) by { OneConsistent(s, a.p); }
    CommitSound(s.db, g);
    CommitSigners(s, a.p);
    CommitAccounted(s, a.p);
    CommitBatches(s.db, g, s.batches);
    assert Integrated(s.db, g).root == Some(g.head) by { IntegratedRoot(s.db, g); }
  }

  lemma {:induction false} OneConsistent(s: State, p: nat)
    requires SignersSound(s.db, s.signers) && p < |s.signers|
    ensures Consistent(s.db, s.signers[p])
  {
  }

  lemma {:induction false} IntegratedRoot(db: Db, g: Signer)
    requires g.Storing?
    ensures Integrated(db, g).root == Some(g.head) && Integrated(db, g).leafData == db.leafData
  {
  }

  lemma {:induction false} CommitBatches(db: Db, g: Signer, batches: seq<Batch>)
    requires g.Storing? && BatchesSound(db, batches)
    ensures BatchesSound(Integrated(db, g), batches)
  {
  }

  lemma {:induction false} BatchNext(s: State, a: Action)
    requires Invariant(s) && !OfSigner(a) && !a.Close? && Step(s, a).Some?
    ensures BatchesSound(s.db, Step(s, a).value.batches)
  {
    hide History.Sound, Known, SignersSound, Accounted, SignerStep;
    var g, g' := s.batches[a.b], BatchStep(s, a, s.batches[a.b]).value;
    assert BatchConsistent(s.db, g);
    forall c | 0 <= c < |s.batches| && c != a.b
      ensures BatchConsistent(s.db, s.batches[c]) && BatchesApart(g', s.batches[c])
    {
      PairBatchesApart(s.db, s.batches, a.b, c);
      if a.Put? { PutApart(s, a.b, a.leaf, c); }
    }
    hide BatchStep;
    assert BatchConsistent(s.db, g') by { BatchNextConsistent(s, a, g); }
    ReplaceBatch(s.db, s.db, s.batches, a.b, g');
  }

  lemma {:induction false} PutApart(s: State, b: nat, leaf: Leaf, c: nat)
    requires b < |s.batches| && c < |s.batches| && c != b && BatchStep(s, Put(b, leaf), s.batches[b]).Some?
    requires BatchesApart(s.batches[b], s.batches[c])
    ensures BatchesApart(BatchStep(s, Put(b, leaf), s.batches[b]).value, s.batches[c])
  {
    var h := s.batches[c];
    if h.Queuing? {
      forall j | 0 <= j < |h.added|
        ensures h.added[j].identity != leaf.identity
      {
        assert HasIdentity(h.added, h.added[j].identity);
      }
    }
  }

  lemma {:induction false} BatchNextConsistent(s: State, a: Action, g: Batch)
    requires !OfSigner(a) && !a.Close? && BatchConsistent(s.db, g) && BatchStep(s, a, g).Some?
    ensures BatchConsistent(s.db, BatchStep(s, a, g).value)
  {
  }

  lemma {:induction false} CloseKeeps(s: State, a: Action)
    requires Invariant(s) && a.Close? && Step(s, a).Some?
    ensures Invariant(Step(s, a).value)
  {
    hide History.Sound, Known, Consistent, Accounted, Extended, BatchConsistent, BatchesApart, Exclusive;
    var g := s.batches[a.b];
    var d := Extended(s.db, g);
    CloseSound(s.db, g);
    CloseGrows(s.db, g);
    forall p | 0 <= p < |s.signers|
      ensures Consistent(d, s.signers[p])
    {
      GrownConsistent(s.db, d, s.signers[p]);
    }
    GrownAccounted(s, d, s.batches[a.b := Queued(g.ts, g.added)]);
    CloseStores(s.db, g);
    forall c | 0 <= c < |s.batches| && c != a.b
      ensures BatchConsistent(d, s.batches[c]) && BatchesApart(Queued(g.ts, g.added), s.batches[c])
    {
      PairBatchesApart(s.db, s.batches, a.b, c);
      CloseOtherBatch(s.db, g, s.batches[c]);
      QueuedApart(g.ts, g.added, s.batches[c]);
    }
    ReplaceBatch(s.db, d, s.batches, a.b, Queued(g.ts, g.added));
    KnownGrown(s.db, d);
  }

  lemma {:induction false} QueuedApart(ts: int, added: seq<Leaf>, h: Batch)
    ensures BatchesApart(Queued(ts, added), h)
  {
  }

  lemma {:induction false} KnownGrown(db: Db, d: Db)
    requires Grown(db, d) && History.Sound(db) && Known(db, db.root.value)
    ensures Known(d, d.root.value)
  {
  }

  lemma {:induction false} CloseSound(db: Db, g: Batch)
    requires History.Sound(db) && g.Queuing?
    ensures History.Sound(Extended(db, g))
  {
    hide History.Sound, QueueAll;
    History.QueueAllSound(db, g.added, InOrder(|g.added|), g.ts);
  }

  lemma {:induction false} StepKeeps(s: State, a: Action)
    requires Invariant(s) && Step(s, a).Some?
    ensures Invariant(Step(s, a).value)
  {
    if a.Commit? {
      CommitKeeps(s, a);
    } else if a.Close? {
      CloseKeeps(s, a);
    } else if OfSigner(a) {
      SignerStepKeeps(s, a);
    } else {
      hide History.Sound, Known, SignersSound, SignerStep, BatchStep, BatchesSound, HandedOut;
      BatchNext(s, a);
    }
  }

  lemma {:induction false} StartInvariant(root: Root, n: nat, m: nat)
    ensures Invariant(After(Start(root, n, m)).value)
  {
    hide History.Sound;
    History.EmptySound(root);
  }

  lemma {:induction false} RunInvariant(r: Run)
    requires After(r).Some?
    ensures Invariant(After(r).value)
  {
    hide Invariant, Step;
    match r
    case Start(root, n, m) => StartInvariant(root, n, m);
    case Then(r', a) =>
      RunInvariant(r');
      StepKeeps(After(r').value, a);
  }

  // ----- main results -----

  /**
   In every interleaving, stale roots included, the committed tables are sound: each stored leaf is queued or sequenced
   and never both, numbers are dense, no leaf is lost; and the leaves of committed passes and batches are in place.
   */
  lemma {:induction false} CommittedSound(r: Run, p: nat, b: nat)
    requires After(r).Some?
    ensures var s := After(r).value;
            && History.Sound(s.db)
            && (p < |s.signers| && s.signers[p].Committed? ==> InPlace(s.db, s.signers[p].pass))
            && (b < |s.batches| && s.batches[b].Queued? ==> BatchConsistent(s.db, s.batches[b]))
  {
    hide History.Sound, Accounted;
    RunInvariant(r);
    if p < |After(r).value.signers| { OneConsistent(After(r).value, p); }
  }

  /**
   No entry is handed out by two committed signers; a stored leaf has left the queue exactly when one has handed it out;
   and each committed batch is the smallest entries of the queue its select read.
   */
  lemma {:induction false} HandedOutOnce(r: Run, p: nat, q: nat, k: QueueKey)
    requires After(r).Some?
    ensures var s := After(r).value;
            && (p < q < |s.signers| && s.signers[p].Committed? && s.signers[q].Committed? ==>
                  k in s.signers[p].pass.batch ==>
                  k !in s.signers[q].pass.batch)
            && (k.hash in s.db.leafData && s.db.leafData[k.hash].queueTs == k.ts ==>
                (k in s.db.unsequenced <==> !HandedOut(s, k)))
            && (p < |s.signers| && s.signers[p].Committed? ==>
                  var pass := s.signers[p].pass; IsSmallest(Eligible(pass.seen, pass.cutoff), pass.limit, pass.batch))
  {
    hide History.Sound, BatchesSound, IsSmallest, SeenSound, Known, InPlace;
    RunInvariant(r);
    var s := After(r).value;
    if p < |s.signers| { OneConsistent(s, p); }
    if p < q < |s.signers| {
      PairApart(s.signers, p, q);
      if s.signers[p].Committed? && s.signers[q].Committed? && k in s.signers[p].pass.batch {
        assert k in Taken(s.signers[p]);
        assert Taken(s.signers[q]) == SetOf(s.signers[q].pass.batch);
      }
    }
    if HandedOut(s, k) {
      var g :| 0 <= g < |s.signers| && s.signers[g].Committed? && k in s.signers[g].pass.batch;
      OneConsistent(s, g);
      assert k in SetOf(s.signers[g].pass.batch);
    }
  }

  /** Two signers that began from the same root never both commit. */
  lemma {:induction false} OnePassPerRoot(r: Run, p: nat, q: nat)
    requires After(r).Some? && p < q < |After(r).value.signers|
    requires After(r).value.signers[p].Committed? && After(r).value.signers[q].Committed?
    ensures After(r).value.signers[p].pass.root.revision != After(r).value.signers[q].pass.root.revision
  {
    RunInvariant(r);
    PairApart(After(r).value.signers, p, q);
  }

  predicate StartsWith(r': Run, r: Run) {
    r' == r || (r'.Then? && StartsWith(r'.before, r))
  }

  lemma {:induction false} StepExtends(s: State, a: Action)
    requires Invariant(s) && Step(s, a).Some?
    ensures History.Extends(s.db, Step(s, a).value.db)
  {
    hide Accounted, BatchesSound, RecordStep, StoreStep, DeleteStep, IsSmallest, Integrated, Extended, Consistent,
         Exclusive;
    if a.Commit? {
      OneConsistent(s, a.p);
      CommitExtends(s.db, s.signers[a.p]);
    } else if a.Close? {
      CloseGrows(s.db, s.batches[a.b]);
    }
  }

  lemma {:induction false} CommitExtends(db: Db, g: Signer)
    requires History.Sound(db) && g.Storing? && Consistent(db, g)
    ensures History.Extends(db, Integrated(db, g))
  {
    hide IsSmallest, SeenSound, SetOf, SequencedOnce, History.QueueSound, History.Partition, History.Conserved;
  }

  /** Whatever interleaves, a committed leaf, sequenced entry or tree head never changes. */
  lemma {:induction false} NothingChanges(r: Run, r': Run)
    requires StartsWith(r', r) && After(r').Some?
    ensures After(r).Some? && History.Extends(After(r).value.db, After(r').value.db)
    decreases r'
  {
    hide Step, Invariant, History.Extends;
    if r' == r {
      ExtendsFurther(After(r).value.db, After(r).value.db, After(r).value.db);
    } else {
      NothingChanges(r, r'.before);
      RunInvariant(r'.before);
      StepExtends(After(r'.before).value, r'.a);
      ExtendsFurther(After(r).value.db, After(r'.before).value.db, After(r').value.db);
    }
  }

  lemma {:induction false} ExtendsFurther(a: Db, b: Db, d: Db)
    ensures History.Extends(a, a)
    ensures History.Extends(a, b) && History.Extends(b, d) ==> History.Extends(a, d)
  {
  }
}
