/** Where everything in a log comes from when signers and batches run at the same time. */
module ConcurrentOrigins {
  import opened Bytes
  import opened LogTables
  import opened LogStorage
  import opened LogQueue
  import History = LogHistory
  import Origins = LogOrigins
  import opened ConcurrentLog

  // ----- what the actions of a run say -----

  /** The first leaf with a hash that a run put into batch b. */
  function FirstPut(r: Run, b: nat, h: Hash): (leaf: Option<Leaf>) {
    match r
    case Start(_, _, _) => None
    case Then(r', a) =>
      var first := FirstPut(r', b, h);
      if first.Some? then first
      else if a.Put? && a.b == b && a.leaf.identity == h then Some(a.leaf)
      else None
  }

  /** When batch b was opened. */
  function OpenedAt(r: Run, b: nat): (ts: int) {
    match r
    case Start(_, _, _) => 0
    case Then(r', a) => if a.Open? && a.b == b then a.ts else OpenedAt(r', b)
  }

  /** The first leaf with a hash of the batch that first committed one, and when that batch was opened. */
  function Origin(r: Run, h: Hash): (o: Option<(Leaf, int)>) {
    match r
    case Start(_, _, _) => None
    case Then(r', a) =>
      var o := Origin(r', h);
      if o.Some? then o
      else if a.Close? && FirstPut(r', a.b, h).Some? then Some((FirstPut(r', a.b, h).value, OpenedAt(r', a.b)))
      else None
  }

  // ----- open batches hold what the run put into them -----

  /** A batch has its own opening time, and for each hash that is not stored the first leaf put with it. */
  ghost predicate Faithful(r: Run, db: Db, b: nat, g: Batch, h: Hash) {
    g.Queuing? ==>
      && g.ts == OpenedAt(r, b)
      && (forall i :: 0 <= i < |g.added| && g.added[i].identity == h ==> FirstPut(r, b, h) == Some(g.added[i]))
      && (FirstPut(r, b, h).Some? && h !in db.leafData ==> HasIdentity(g.added, h))
  }

  /** A batch that is not open yet has been given nothing, and one that has committed has lost nothing. */
  ghost predicate Settled(r: Run, db: Db, b: nat, g: Batch, h: Hash) {
    (g.Unopened? ==> FirstPut(r, b, h).None?) && (g.Queued? && FirstPut(r, b, h).Some? ==> h in db.leafData)
  }

  lemma {:induction false} PutFaithful(r: Run, s: State, b: nat, leaf: Leaf, h: Hash)
    requires b < |s.batches| && Faithful(r, s.db, b, s.batches[b], h) && BatchConsistent(s.db, s.batches[b])
    requires BatchStep(s, Put(b, leaf), s.batches[b]).Some?
    ensures Faithful(Then(r, Put(b, leaf)), s.db, b, BatchStep(s, Put(b, leaf), s.batches[b]).value, h)
  {
    hide AddedByOther;
    var g := s.batches[b];
    var g' := BatchStep(s, Put(b, leaf), g).value;
    if g'.added != g.added {
      assert g'.added == g.added + [leaf] && g'.added[|g.added|] == leaf;
      assert forall i :: 0 <= i < |g.added| ==> g'.added[i] == g.added[i];
    }
    if FirstPut(r, b, h).Some? && h !in s.db.leafData {
      var i :| 0 <= i < |g.added| && g.added[i].identity == h;
      assert g'.added[i] == g.added[i];
    }
  }

  /** What a step leaves alone in the batch it is about, or in all batches when it is a signer's. */
  lemma {:induction false} OtherFaithful(r: Run, a: Action, db: Db, d: Db, b: nat, g: Batch, h: Hash)
    requires Faithful(r, db, b, g, h) && Settled(r, db, b, g, h) && (h in db.leafData ==> h in d.leafData)
    requires OfSigner(a) || a.b != b
    ensures Faithful(Then(r, a), d, b, g, h) && Settled(Then(r, a), d, b, g, h)
  {
  }

  lemma {:induction false} OwnFaithful(r: Run, s: State, a: Action, h: Hash)
    requires !OfSigner(a) && a.b < |s.batches| && BatchStep(s, a, s.batches[a.b]).Some?
    requires var g := s.batches[a.b];
             Faithful(r, s.db, a.b, g, h) && Settled(r, s.db, a.b, g, h) && BatchConsistent(s.db, g)
    ensures var g' := BatchStep(s, a, s.batches[a.b]).value;
            Faithful(Then(r, a), s.db, a.b, g', h) && (!a.Close? ==> Settled(Then(r, a), s.db, a.b, g', h))
  {
    if a.Put? {
      PutFaithful(r, s, a.b, a.leaf, h);
    }
  }

  /** All batches hold what the run put into them, and everything stored for the hash is that of its origin. */
  ghost predicate TracedState(r: Run, s: State, h: Hash) {
    && (forall b :: 0 <= b < |s.batches| ==>
          Faithful(r, s.db, b, s.batches[b], h) && Settled(r, s.db, b, s.batches[b], h))
    && Origins.Traced(s.db, h, Origin(r, h))
  }

  /** The first leaf of a hash in the order of a closing batch is the first one the run put into it. */
  lemma {:induction false} ClosingFirst(r: Run, db: Db, b: nat, g: Batch, h: Hash)
    requires g.Queuing? && BatchConsistent(db, g) && Faithful(r, db, b, g, h) && h !in db.leafData
    ensures Origins.FirstIn(g.added, InOrder(|g.added|), h) == FirstPut(r, b, h)
  {
    var ord := InOrder(|g.added|);
    Origins.FirstInMeaning(g.added, ord, h);
    hide Origins.FirstIn, FirstPut;
    if HasIdentity(g.added, h) {
      var i :| 0 <= i < |g.added| && g.added[i].identity == h;
      assert Origins.FirstAt(g.added, ord, h, i);
    } else {
      assert forall k :: 0 <= k < |ord| ==> g.added[ord[k]] == g.added[k];
      assert !Listed(g.added, ord, h);
    }
  }

  lemma {:induction false} CloseTraced(r: Run, s: State, b: nat, h: Hash)
    requires Invariant(s) && b < |s.batches| && s.batches[b].Queuing? && TracedState(r, s, h)
    ensures Origins.Traced(Extended(s.db, s.batches[b]), h, Origin(Then(r, Close(b)), h))
  {
    hide History.Sound, Known, SignersSound, Accounted, FirstPut, OpenedAt, Origins.Traced;
    var g := s.batches[b];
    var ord := InOrder(|g.added|);
    assert BatchConsistent(s.db, g);
    Origins.SoundRoot(s.db);
    Origins.QueueTraced(s.db, g.added, ord, g.ts, h, Origin(r, h));
    if Origin(r, h).None? {
      assert h !in s.db.leafData by { UntracedMissing(s.db, h); }
      ClosingFirst(r, s.db, b, g, h);
    }
  }

  lemma {:induction false} UntracedMissing(db: Db, h: Hash)
    requires Origins.Traced(db, h, None)
    ensures h !in db.leafData
  {
  }

  lemma {:induction false} CommitTraced(s: State, p: nat, h: Hash, o: Option<(Leaf, int)>)
    requires Invariant(s) && p < |s.signers| && s.signers[p].Storing? && Origins.Traced(s.db, h, o)
    ensures Origins.Traced(Integrated(s.db, s.signers[p]), h, o)
  {
    hide Known, Accounted, BatchesSound, Exclusive, Consistent, Origins.Traced, Integrated, Ascending;
    OneConsistent(s, p);
    CommitIsPass(s.db, s.signers[p]);
    hide History.Sequenced;
    Origins.PassTraced(s.db, PassOf(s.signers[p]), Integrated(s.db, s.signers[p]), h, o);
  }

  lemma {:induction false} StepTraced(r: Run, s: State, a: Action, h: Hash)
    requires Invariant(s) && TracedState(r, s, h) && Step(s, a).Some?
    ensures TracedState(Then(r, a), Step(s, a).value, h)
  {
    hide Origins.Traced, Faithful, Settled, FirstPut, OpenedAt, Step, Invariant;
    var s' := Step(s, a).value;
    StoredTraced(r, s, a, h);
    forall b | 0 <= b < |s'.batches|
      ensures Faithful(Then(r, a), s'.db, b, s'.batches[b], h) && Settled(Then(r, a), s'.db, b, s'.batches[b], h)
    {
      StepFaithful(r, s, a, b, h);
    }
  }

  lemma {:induction false} StoredTraced(r: Run, s: State, a: Action, h: Hash)
    requires Invariant(s) && TracedState(r, s, h) && Step(s, a).Some?
    ensures Origins.Traced(Step(s, a).value.db, h, Origin(Then(r, a), h))
    ensures |Step(s, a).value.batches| == |s.batches|
  {
    hide Origins.Traced, Faithful, Settled, FirstPut, OpenedAt, SignerStep, BatchStep, Integrated, Extended, Invariant;
    if a.Commit? {
      assert s.signers[a.p].Storing? by { CommitsFromStoring(s, a); }
      CommitTraced(s, a.p, h, Origin(r, h));
    } else if a.Close? {
      assert s.batches[a.b].Queuing? by { ClosesFromQueuing(s, a); }
      CloseTraced(r, s, a.b, h);
    }
  }

  lemma {:induction false} StepFaithful(r: Run, s: State, a: Action, b: nat, h: Hash)
    requires Invariant(s) && TracedState(r, s, h) && Step(s, a).Some? && b < |s.batches|
    ensures var s' := Step(s, a).value;
            && |s'.batches| == |s.batches|
            && Faithful(Then(r, a), s'.db, b, s'.batches[b], h) && Settled(Then(r, a), s'.db, b, s'.batches[b], h)
  {
    StepExtends(s, a);
    hide Origins.Traced, Faithful, Settled, FirstPut, OpenedAt, SignerStep, BatchStep, Integrated, Extended, Known,
         Accounted, SignersSound;
    var s' := Step(s, a).value;
    if OfSigner(a) || a.b != b {
      OtherFaithful(r, a, s.db, s'.db, b, s.batches[b], h);
    } else {
      assert BatchConsistent(s.db, s.batches[b]);
      OwnFaithful(r, s, a, h);
      if a.Close? { ClosedFaithful(r, s, a, h); }
    }
  }

  lemma {:induction false} CommitsFromStoring(s: State, a: Action)
    requires a.Commit? && Step(s, a).Some?
    ensures s.signers[a.p].Storing?
  {
  }

  lemma {:induction false} ClosesFromQueuing(s: State, a: Action)
    requires a.Close? && Step(s, a).Some?
    ensures s.batches[a.b].Queuing?
  {
  }

  lemma {:induction false} ClosedFaithful(r: Run, s: State, a: Action, h: Hash)
    requires a.Close? && Step(s, a).Some? && Faithful(r, s.db, a.b, s.batches[a.b], h)
    ensures var s' := Step(s, a).value;
            var g := s'.batches[a.b];
            Faithful(Then(r, a), s'.db, a.b, g, h) && Settled(Then(r, a), s'.db, a.b, g, h)
  {
    CloseGrows(s.db, s.batches[a.b]);
    hide Extended;
  }

  /**
   In every interleaving a hash is stored exactly when a batch that was given a leaf with it has committed; its data,
   its queue entry and every sequenced row then are those of the first such leaf, Merkle hash and queueing time
   included.
   */
  lemma {:induction false} RunTraced(r: Run, h: Hash)
    requires After(r).Some?
    ensures TracedState(r, After(r).value, h)
  {
    match r
    case Start(_, _, _) =>
    case Then(r', a) =>
      RunTraced(r', h);
      RunInvariant(r');
      hide Invariant, TracedState, Step;
      StepTraced(r', After(r').value, a, h);
  }

  predicate WasPut(r: Run, b: nat, leaf: Leaf) {
    r.Then? && (r.a == Put(b, leaf) || WasPut(r.before, b, leaf))
  }

  lemma {:induction false} PutHasFirst(r: Run, b: nat, leaf: Leaf)
    requires WasPut(r, b, leaf)
    ensures FirstPut(r, b, leaf.identity).Some?
  {
    if r.a != Put(b, leaf) { PutHasFirst(r.before, b, leaf); }
  }

  /** No leaf that was put into a batch is lost when the batch commits: its hash is stored, with its origin. */
  lemma {:induction false} NothingPutIsLost(r: Run, b: nat, leaf: Leaf)
    requires After(r).Some? && b < |After(r).value.batches| && After(r).value.batches[b].Queued? && WasPut(r, b, leaf)
    ensures leaf.identity in After(r).value.db.leafData && Origin(r, leaf.identity).Some?
  {
    hide FirstPut, WasPut, After, Origin;
    RunTraced(r, leaf.identity);
    PutHasFirst(r, b, leaf);
    assert Settled(r, After(r).value.db, b, After(r).value.batches[b], leaf.identity);
  }

  // ----- what signers work on -----

  /** The latest root when signer p began. */
  function RootSeen(r: Run, p: nat): (root: Option<Root>) {
    match r
    case Start(_, _, _) => None
    case Then(r', a) =>
      if a.Begin? && a.p == p && After(r').Some? then After(r').value.db.root else RootSeen(r', p)
  }

  /** What signer p selected: the arguments of its select, and the queue at that moment. */
  function Selected(r: Run, p: nat): (pass: Option<Pass>) {
    match r
    case Start(_, _, _) => None
    case Then(r', a) =>
      if a.Select? && a.p == p && After(r').Some? && RootSeen(r', p).Some? then
        Some(Pass(RootSeen(r', p).value, a.limit, a.cutoff, After(r').value.db.unsequenced, a.batch, a.integrateTs))
      else Selected(r', p)
  }

  /** A signer works from the root it saw and on what it selected. */
  predicate Works(r: Run, p: nat, g: Signer) {
    match g
    case Idle => RootSeen(r, p).None? && Selected(r, p).None?
    case Begun(root) => RootSeen(r, p) == Some(root) && Selected(r, p).None?
    case Deleting(pass, _) => Selected(r, p) == Some(pass)
    case Recording(pass, _, _) => Selected(r, p) == Some(pass)
    case Storing(pass, _, _) => Selected(r, p) == Some(pass)
    case Committed(pass) => Selected(r, p) == Some(pass)
    case Aborted => true
  }

  lemma {:induction false} NextWorks(r: Run, s: State, a: Action, p: nat)
    requires After(r) == Some(s) && Step(s, a).Some? && p < |s.signers| && Works(r, p, s.signers[p])
    ensures |Step(s, a).value.signers| == |s.signers| && Works(Then(r, a), p, Step(s, a).value.signers[p])
  {
    hide IsSmallest, Eligible, BatchStep, LockedByOther, WrittenByOther, OtherStoring, Integrated, Extended, After;
  }

  /** In every run a signer's pass is the root it saw, the queue its select read and the batch that select returned. */
  lemma {:induction false} PassIsSelected(r: Run, p: nat)
    requires After(r).Some? && p < |After(r).value.signers|
    ensures Works(r, p, After(r).value.signers[p])
  {
    match r
    case Start(_, _, _) =>
    case Then(r', a) =>
      assert |After(r').value.signers| == |After(r).value.signers|;
      PassIsSelected(r', p);
      hide Step, Works;
      NextWorks(r', After(r').value, a, p);
  }
}
