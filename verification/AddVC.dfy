/** Adding a credential: the leaf that is queued, the promise that is signed, and what a client rebuilds. */
module AddVC {
  import opened Bytes
  import opened JsonValue
  import opened LeafJson
  import opened LogTables
  import opened LogStorage
  import opened LogQueue
  import LogHistory

  const V1: nat := 0
  const TIMESTAMPED_ENTRY_LEAF_TYPE: nat := 100
  const VC_LOG_ENTRY_TYPE: nat := 100
  const VC_TIMESTAMP_SIGNATURE_TYPE: nat := 100

  /** Foreign code and encodings: canonical documents, the JSON of leaves and signatures, and hashes. */
  datatype Codec = Codec(
    canonicalDocument: bytes -> Option<bytes>,
    marshalLeaf: MerkleTreeLeaf -> Option<bytes>,
    unmarshalLeaf: bytes -> Option<MerkleTreeLeaf>,
    marshalSignature: VCTimestampSignature -> Option<bytes>,
    unmarshalSignature: bytes -> Option<VCTimestampSignature>,
    identityHash: bytes -> bytes,
    leafHash: bytes -> bytes)

  /** Leaves as add-vc makes them, and the payloads of their signatures, read back as written. */
  ghost predicate ValidCodec(c: Codec) {
    forall t: nat, d :: t < TWO_53 ==> Readable(c, LeafFor(t, d))
  }

  predicate Readable(c: Codec, l: MerkleTreeLeaf) {
    && c.marshalLeaf(l).Some? && c.unmarshalLeaf(c.marshalLeaf(l).value) == Some(l)
    && var v := CreateVCTimestampSignature(l);
    c.marshalSignature(v).Some? && c.unmarshalSignature(c.marshalSignature(v).value) == Some(v)
  }

  lemma {:induction false} OneReadable(c: Codec, t: nat, d: bytes)
    requires ValidCodec(c) && t < TWO_53
    ensures Readable(c, LeafFor(t, d))
  {
  }

  /** The encoding of the service: canonical JSON, with number spelling and base64 as parameters. */
  function JsonCodec(sp: Spelling, b: Base64, canonicalDocument: bytes -> Option<bytes>,
                     identityHash: bytes -> bytes, leafHash: bytes -> bytes): (c: Codec)
  {
    Codec(canonicalDocument, l => MarshalLeaf(sp, b, l), s => UnmarshalLeaf(sp, b, s),
          v => MarshalSignature(sp, b, v), s => UnmarshalSignature(sp, b, s), identityHash, leafHash)
  }

  /** It is valid when integers below 2^53 keep their spelling and byte strings survive base64. */
  lemma {:induction false} JsonCodecValid(sp: Spelling, b: Base64, canonicalDocument: bytes -> Option<bytes>,
                       identityHash: bytes -> bytes, leafHash: bytes -> bytes)
    requires ExactSpelling(sp) && forall s :: b.decode(b.encode(s)) == Some(s)
    ensures ValidCodec(JsonCodec(sp, b, canonicalDocument, identityHash, leafHash))
  {
    hide MarshalLeaf, UnmarshalLeaf, MarshalSignature, UnmarshalSignature, ExactSpelling;
    var c := JsonCodec(sp, b, canonicalDocument, identityHash, leafHash);
    forall t: nat, d | t < TWO_53
      ensures Readable(c, LeafFor(t, d))
    {
      LeafReadsBack(sp, b, LeafFor(t, d));
      SignatureReadsBack(sp, b, CreateVCTimestampSignature(LeafFor(t, d)));
    }
  }

  /** No two of these documents have the same identity hash. */
  ghost predicate CollisionFree(c: Codec, docs: set<bytes>) {
    forall a, b :: a in docs && b in docs && c.identityHash(a) == c.identityHash(b) ==> a == b
  }

  function LeafFor(timestamp: nat, document: bytes): (l: MerkleTreeLeaf) {
    MerkleTreeLeaf(V1, TIMESTAMPED_ENTRY_LEAF_TYPE, TimestampedEntry(timestamp, VC_LOG_ENTRY_TYPE, document, []))
  }

  function CreateLeaf(c: Codec, timestamp: nat, vc: bytes): (l: Option<MerkleTreeLeaf>) {
    var d := c.canonicalDocument(vc);
    if d.None? then None else Some(LeafFor(timestamp, d.value))
  }

  function CreateVCTimestampSignature(l: MerkleTreeLeaf): (s: VCTimestampSignature) {
    var e := l.entry;
    VCTimestampSignature(V1, VC_TIMESTAMP_SIGNATURE_TYPE, e.timestamp, e.entryType, e.vcEntry, e.extensions)
  }

  /** A call of add-vc: the credential, its proofs, the clock of the service and the clock of the log server. */
  datatype Call = Call(vc: bytes, proofs: bytes, now: nat, queueTs: int)

  /** The answer; payload is what the signature covers. */
  datatype Response = Response(timestamp: nat, extensions: bytes, payload: bytes)

  function LeafOf(c: Codec, call: Call, document: bytes, value: bytes): (leaf: Leaf) {
    Leaf(c.identityHash(document), c.leafHash(value), value, call.proofs, 0, call.queueTs, 0)
  }

  function ResponseTo(c: Codec, stored: bytes): (r: Option<Response>) {
    var logged := c.unmarshalLeaf(stored);
    if logged.None? then None
    else
      var payload := c.marshalSignature(CreateVCTimestampSignature(logged.value));
      if payload.None? then None
      else Some(Response(logged.value.entry.timestamp, logged.value.entry.extensions, payload.value))
  }

  /** The row of a stored leaf can be read back: one row, whose dummy Merkle hash has the right size. */
  predicate ReadsBack(hashSize: nat, db: Db, h: Hash) {
    hashSize == |DUMMY_MERKLE_LEAF_HASH| && |Joined(db, {h})| == 1
  }

  /** The tables after a call, and its answer. */
  function Respond(c: Codec, hashSize: nat, db: Db, call: Call): (r: (Db, Option<Response>)) {
    var l := CreateLeaf(c, call.now, call.vc);
    if l.None? || c.marshalLeaf(l.value).None? then (db, None)
    else
      var leaf := LeafOf(c, call, l.value.entry.vcEntry, c.marshalLeaf(l.value).value);
      if |leaf.identity| != hashSize then (db, None)
      else if leaf.identity in db.leafData && !ReadsBack(hashSize, db, leaf.identity) then (db, None)
      else
        var d := QueueOne(db, leaf, call.queueTs);
        (d, ResponseTo(c, if leaf.identity in db.leafData then db.leafData[leaf.identity].value else leaf.value))
  }

  /** The command over the storage of one log; a transaction that fails is not committed. */
  method Add(tx: LogTx, c: Codec, call: Call) returns (r: Option<Response>)
    modifies tx`db
    ensures (tx.db, r) == Respond(c, tx.hashSize, old(tx.db), call)
  {
    hide QueueOne, QueueAll, InsertedAt, Joined, ResponseTo, Less, Duplicates, IsStored;
    var l := CreateLeaf(c, call.now, call.vc);
    if l.None? {
      return None;
    }
    var value := c.marshalLeaf(l.value);
    if value.None? {
      return None;
    }
    var leaf, before := LeafOf(c, call, l.value.entry.vcEntry, value.value), tx.db;
    var queued, ord := tx.QueueLeaves([leaf], call.queueTs);
    assert [leaf][0] == leaf;
    if |leaf.identity| == tx.hashSize {
      OneLeafOrder(leaf, ord, before, call.queueTs);
    }
    if queued.Failure? {
      tx.db := before;
      return None;
    }
    if queued.value[0].Some? { StoredValue(tx.db, queued.value[0].value); }
    var stored := if queued.value[0].None? then leaf.value else queued.value[0].value.value;
    r := ResponseTo(c, stored);
  }

  lemma {:induction false} StoredValue(db: Db, leaf: Leaf)
    requires IsStored(db, leaf)
    ensures leaf.identity in db.leafData && leaf.value == db.leafData[leaf.identity].value
  {
  }

  /** A batch of one has one order; it is new exactly when its hash is, and otherwise changes nothing. */
  lemma {:induction false} OneLeafOrder(leaf: Leaf, ord: seq<nat>, db: Db, ts: int)
    requires IsInsertOrder([leaf], ord)
    ensures QueueAll(db, [leaf], ord, ts) == QueueOne(db, leaf, ts)
    ensures leaf.identity in db.leafData ==> QueueOne(db, leaf, ts) == db
    ensures InsertedAt(db, [leaf], ord, 0) <==> leaf.identity !in db.leafData
    ensures var hs := Duplicates(db, [leaf], ord);
            && hs == (if leaf.identity in db.leafData then [leaf.identity] else [])
            && SetOf([leaf.identity]) == {leaf.identity}
  {
    assert ord[..0] == [];
    assert QueueAll(db, [leaf], ord[..0], ts) == db;
    if leaf.identity !in db.leafData { assert NewAt(db, [leaf], ord, 0); }
    hide QueueAll, QueueOne;
    OneHash(leaf, InsertedAt(db, [leaf], ord, 0));
    assert Duplicates(db, [leaf], ord) == Hashes([if InsertedAt(db, [leaf], ord, 0) then None else Some(leaf)]) by {
      var e := seq(1, p requires 0 <= p < 1 => if InsertedAt(db, [leaf], ord, p) then None else Some([leaf][p]));
      assert e == [if InsertedAt(db, [leaf], ord, 0) then None else Some(leaf)];
    }
  }

  lemma {:induction false} OneHash(leaf: Leaf, inserted: bool)
    ensures Hashes([if inserted then None else Some(leaf)]) == if inserted then [] else [leaf.identity]
  {
    var e := [if inserted then None else Some(leaf)];
    assert e[..0] == [];
  }

  // ----- histories of a log whose leaves all come from add-vc -----

  datatype Event = Added(call: Call) | Pass(tx: LogHistory.Tx)

  datatype Run = Begin(root: Root) | Then(before: Run, e: Event)

  function After(c: Codec, hashSize: nat, r: Run): (db: Option<Db>) {
    match r
    case Begin(root) => Some(LogHistory.Empty(root))
    case Then(r', e) =>
      var db := After(c, hashSize, r');
      if db.None? then None
      else
        match e
        case Added(call) => Some(Respond(c, hashSize, db.value, call).0)
        case Pass(tx) => if tx.Sequence? then LogHistory.SequenceStep(db.value, tx) else None
  }

  /** Timestamps stay exact as JSON numbers. */
  predicate SmallClocks(r: Run) {
    r.Begin? || (SmallClocks(r.before) && (r.e.Added? ==> r.e.call.now < TWO_53))
  }

  /** The canonical documents of the calls of a run. */
  function Documents(c: Codec, r: Run): (docs: set<bytes>) {
    match r
    case Begin(_) => {}
    case Then(r', e) =>
      if e.Added? && c.canonicalDocument(e.call.vc).Some? then Documents(c, r') + {c.canonicalDocument(e.call.vc).value}
      else Documents(c, r')
  }

  /** These bytes are the canonical JSON of a leaf for one of the documents, which has this identity hash. */
  ghost predicate LeafStored(c: Codec, docs: set<bytes>, h: Hash, value: bytes) {
    exists t: nat, d ::
      t < TWO_53 && d in docs && c.identityHash(d) == h
      && c.marshalLeaf(LeafFor(t, d)) == Some(value) && c.unmarshalLeaf(value) == Some(LeafFor(t, d))
  }

  ghost predicate WellStored(c: Codec, docs: set<bytes>, db: Db) {
    && (forall h :: h in db.leafData ==> LeafStored(c, docs, h, db.leafData[h].value))
    && WellHashed(c, db)
  }

  /** Queue entries and sequenced rows carry the Merkle leaf hash of the stored bytes. */
  ghost predicate WellHashed(c: Codec, db: Db) {
    && (forall k :: k in db.unsequenced ==>
          k.hash in db.leafData && db.unsequenced[k] == c.leafHash(db.leafData[k.hash].value))
    && (forall n :: n in db.sequenced ==>
          && db.sequenced[n].hash in db.leafData
          && db.sequenced[n].merkle == c.leafHash(db.leafData[db.sequenced[n].hash].value))
  }

  lemma {:induction false} NewLeafStored(c: Codec, docs: set<bytes>, t: nat, d: bytes)
    requires ValidCodec(c) && t < TWO_53 && d in docs
    ensures c.marshalLeaf(LeafFor(t, d)).Some?
            && LeafStored(c, docs, c.identityHash(d), c.marshalLeaf(LeafFor(t, d)).value)
  {
    OneReadable(c, t, d);
  }

  lemma {:induction false} AddedKeeps(c: Codec, docs: set<bytes>, hashSize: nat, db: Db, call: Call)
    requires ValidCodec(c) && WellStored(c, docs, db) && LogHistory.Sound(db) && call.now < TWO_53
    requires c.canonicalDocument(call.vc).Some? ==> c.canonicalDocument(call.vc).value in docs
    ensures var d := Respond(c, hashSize, db, call).0;
            WellStored(c, docs, d) && LogHistory.Sound(d) && LogHistory.Extends(db, d)
  {
    hide WellStored, LogHistory.Sound, LogHistory.Extends, QueueOne, ValidCodec, ResponseTo, ReadsBack,
         LeafStored;
    var l := CreateLeaf(c, call.now, call.vc);
    Unchanged(db);
    if l.Some? {
      NewLeafStored(c, docs, call.now, l.value.entry.vcEntry);
      var leaf := LeafOf(c, call, l.value.entry.vcEntry, c.marshalLeaf(l.value).value);
      LogHistory.QueueOneSound(db, leaf, call.queueTs);
      QueuedKeeps(c, docs, db, leaf, call.queueTs);
    }
  }

  lemma {:induction false} Unchanged(db: Db)
    ensures LogHistory.Extends(db, db)
  {
  }

  lemma {:induction false} QueuedKeeps(c: Codec, docs: set<bytes>, db: Db, leaf: Leaf, ts: int)
    requires WellStored(c, docs, db) && LeafStored(c, docs, leaf.identity, leaf.value)
    requires leaf.merkle == c.leafHash(leaf.value)
    ensures WellStored(c, docs, QueueOne(db, leaf, ts)) && LogHistory.Extends(db, QueueOne(db, leaf, ts))
  {
    hide LeafStored, WellHashed, LogHistory.Extends;
    QueuedHashed(c, db, leaf, ts);
    RowAdded(db, leaf, ts);
  }

  lemma {:induction false} RowAdded(db: Db, leaf: Leaf, ts: int)
    ensures LogHistory.Extends(db, QueueOne(db, leaf, ts))
  {
  }

  lemma {:induction false} QueuedHashed(c: Codec, db: Db, leaf: Leaf, ts: int)
    requires WellHashed(c, db) && leaf.merkle == c.leafHash(leaf.value)
    ensures WellHashed(c, QueueOne(db, leaf, ts))
  {
  }

  lemma {:induction false} RootExists(db: Db)
    requires LogHistory.Sound(db)
    ensures db.root.Some?
  {
  }

  lemma {:induction false} PassHashed(c: Codec, db: Db, tx: LogHistory.Tx)
    requires WellHashed(c, db) && LogHistory.Sound(db) && tx.Sequence? && LogHistory.SequenceStep(db, tx).Some?
    ensures WellHashed(c, LogHistory.SequenceStep(db, tx).value)
  {
    hide LogHistory.SequenceStep, LogHistory.Sequenced, LogHistory.QueueSound, LogHistory.Dense, LogHistory.Partition,
         LogHistory.Conserved, IsSmallest, Ascending;
    var d := LogHistory.SequenceStep(db, tx).value;
    LogHistory.StepCommitted(db, tx);
    RootExists(db);
    LogHistory.QueueShrinks(db, tx, d);
    forall n | n in d.sequenced
      ensures d.sequenced[n].hash in d.leafData
      ensures d.sequenced[n].merkle == c.leafHash(d.leafData[d.sequenced[n].hash].value)
    {
      LogHistory.RowsOf(db, tx, d, n);
    }
  }

  lemma {:induction false} PassKeeps(c: Codec, docs: set<bytes>, db: Db, tx: LogHistory.Tx)
    requires WellStored(c, docs, db) && LogHistory.Sound(db) && tx.Sequence? && LogHistory.SequenceStep(db, tx).Some?
    ensures var d := LogHistory.SequenceStep(db, tx).value;
            WellStored(c, docs, d) && LogHistory.Sound(d) && LogHistory.Extends(db, d)
  {
    hide LeafStored, WellHashed, LogHistory.SequenceStep, LogHistory.Sound, LogHistory.Extends, LogHistory.Recorded,
         LogHistory.Numbered;
    SequenceData(db, tx);
    PassHashed(c, db, tx);
  }

  lemma {:induction false} SequenceData(db: Db, tx: LogHistory.Tx)
    requires LogHistory.Sound(db) && tx.Sequence? && LogHistory.SequenceStep(db, tx).Some?
    ensures var d := LogHistory.SequenceStep(db, tx).value;
            d.leafData == db.leafData && LogHistory.Sound(d) && LogHistory.Extends(db, d)
  {
    LogHistory.SequenceCommits(db, tx);
    LogHistory.StepSound(0, db, tx);
    LogHistory.StepExtends(0, db, tx);
    hide LogHistory.SequenceStep, LogHistory.Sound, LogHistory.Extends;
  }

  /** In every history each stored leaf is the canonical JSON of a leaf for a document of the history with its hash. */
  lemma {:induction false} RunKeeps(c: Codec, docs: set<bytes>, hashSize: nat, r: Run)
    requires ValidCodec(c) && SmallClocks(r) && After(c, hashSize, r).Some? && Documents(c, r) <= docs
    ensures WellStored(c, docs, After(c, hashSize, r).value) && LogHistory.Sound(After(c, hashSize, r).value)
  {
    match r
    case Begin(root) =>
      LogHistory.EmptySound(root);
    case Then(r', e) =>
      hide WellStored, LogHistory.Sound, ValidCodec, Respond, LogHistory.SequenceStep;
      RunKeeps(c, docs, hashSize, r');
      var db := After(c, hashSize, r').value;
      if e.Added? { AddedKeeps(c, docs, hashSize, db, e.call); } else { PassKeeps(c, docs, db, e.tx); }
  }

  predicate StartsWith(r': Run, r: Run) {
    r' == r || (r'.Then? && StartsWith(r'.before, r))
  }

  lemma {:induction false} RunExtends(c: Codec, hashSize: nat, r: Run, r': Run)
    requires ValidCodec(c) && SmallClocks(r') && StartsWith(r', r) && After(c, hashSize, r').Some?
    ensures SmallClocks(r) && After(c, hashSize, r).Some? && Documents(c, r) <= Documents(c, r')
    ensures LogHistory.Extends(After(c, hashSize, r).value, After(c, hashSize, r').value)
    decreases r'
  {
    hide WellStored, LogHistory.Sound, ValidCodec, Respond, LogHistory.SequenceStep, LogHistory.Extends;
    if r' == r {
      Unchanged(After(c, hashSize, r).value);
    } else {
      RunExtends(c, hashSize, r, r'.before);
      var docs, db := Documents(c, r'), After(c, hashSize, r'.before).value;
      RunKeeps(c, docs, hashSize, r'.before);
      if r'.e.Added? { AddedKeeps(c, docs, hashSize, db, r'.e.call); } else { PassKeeps(c, docs, db, r'.e.tx); }
      ExtendsFurther(After(c, hashSize, r).value, db, After(c, hashSize, r').value);
    }
  }

  lemma {:induction false} ExtendsFurther(a: Db, b: Db, d: Db)
    requires LogHistory.Extends(a, b) && LogHistory.Extends(b, d)
    ensures LogHistory.Extends(a, d)
  {
  }

  // ----- main results -----

  /** What the client rebuilds from a timestamp and a credential: the signed payload and the leaf bytes. */
  function ClientPayload(c: Codec, timestamp: nat, vc: bytes): (p: Option<bytes>) {
    var l := CreateLeaf(c, timestamp, vc);
    if l.None? then None else c.marshalSignature(CreateVCTimestampSignature(l.value))
  }

  function ClientLeaf(c: Codec, timestamp: nat, vc: bytes): (p: Option<bytes>) {
    var l := CreateLeaf(c, timestamp, vc);
    if l.None? then None else c.marshalLeaf(l.value)
  }

  /** The bytes stored under the hash of a document are those of a leaf for that document. */
  lemma {:induction false} StoredFor(c: Codec, docs: set<bytes>, d: bytes, value: bytes) returns (t: nat)
    requires CollisionFree(c, docs) && d in docs && LeafStored(c, docs, c.identityHash(d), value)
    ensures t < TWO_53 && c.marshalLeaf(LeafFor(t, d)) == Some(value) && c.unmarshalLeaf(value) == Some(LeafFor(t, d))
  {
    var t0: nat, d0 :|
      t0 < TWO_53 && d0 in docs && c.identityHash(d0) == c.identityHash(d)
      && c.marshalLeaf(LeafFor(t0, d0)) == Some(value) && c.unmarshalLeaf(value) == Some(LeafFor(t0, d0));
    t := t0;
  }

  /** A successful answer agrees with the stored leaf, and a client holding any copy of the credential rebuilds both. */
  lemma {:induction false} ClientAgrees(c: Codec, docs: set<bytes>, hashSize: nat, db: Db, call: Call, vc: bytes)
    requires ValidCodec(c) && CollisionFree(c, docs) && WellStored(c, docs, db) && call.now < TWO_53
    requires Respond(c, hashSize, db, call).1.Some? && c.canonicalDocument(vc) == c.canonicalDocument(call.vc)
    requires c.canonicalDocument(vc).value in docs
    ensures var (d, r) := Respond(c, hashSize, db, call);
            var h := c.identityHash(c.canonicalDocument(vc).value);
            && ClientPayload(c, r.value.timestamp, vc) == Some(r.value.payload)
            && h in d.leafData && ClientLeaf(c, r.value.timestamp, vc) == Some(d.leafData[h].value)
            && r == ResponseTo(c, d.leafData[h].value)
            && (h !in db.leafData ==>
                  && r.value.timestamp == call.now
                  && d.leafData[h] == LeafRow(d.leafData[h].value, call.proofs, call.queueTs))
  {
    hide ValidCodec, CollisionFree, ReadsBack, LeafStored, WellHashed;
    var doc := c.canonicalDocument(vc).value;
    var h := c.identityHash(doc);
    if h in db.leafData {
      var t := StoredFor(c, docs, doc, db.leafData[h].value);
    } else {
      OneReadable(c, call.now, doc);
    }
  }

  /** The Merkle leaf hash that a client computes is the one under which the leaf is queued and sequenced. */
  lemma {:induction false} ClientFindsLeaf(c: Codec, docs: set<bytes>, hashSize: nat, db: Db, call: Call, vc: bytes)
    requires ValidCodec(c) && CollisionFree(c, docs) && WellStored(c, docs, db) && LogHistory.Sound(db)
    requires call.now < TWO_53 && Respond(c, hashSize, db, call).1.Some?
    requires c.canonicalDocument(vc) == c.canonicalDocument(call.vc) && c.canonicalDocument(vc).value in docs
    ensures var (d, r) := Respond(c, hashSize, db, call);
            var h, leaf := c.identityHash(c.canonicalDocument(vc).value), ClientLeaf(c, r.value.timestamp, vc);
            && leaf.Some?
            && (forall k :: k in d.unsequenced && k.hash == h ==> d.unsequenced[k] == c.leafHash(leaf.value))
            && (forall n :: n in d.sequenced && d.sequenced[n].hash == h ==>
                  d.sequenced[n].merkle == c.leafHash(leaf.value))
  {
    hide ValidCodec, CollisionFree, LogHistory.Sound, Respond, ClientLeaf, LeafStored;
    AddedKeeps(c, docs, hashSize, db, call);
    ClientAgrees(c, docs, hashSize, db, call, vc);
  }

  /** A verifier reads from the payload exactly the version, types, time and document that are promised. */
  lemma {:induction false} PayloadReads(c: Codec, docs: set<bytes>, hashSize: nat, db: Db, call: Call)
    requires ValidCodec(c) && CollisionFree(c, docs) && WellStored(c, docs, db) && call.now < TWO_53
    requires Respond(c, hashSize, db, call).1.Some? && c.canonicalDocument(call.vc).value in docs
    ensures var r := Respond(c, hashSize, db, call).1.value;
            && c.unmarshalSignature(r.payload) ==
                 Some(VCTimestampSignature(0, 100, r.timestamp, 100, c.canonicalDocument(call.vc).value, []))
            && r.timestamp < TWO_53 && r.extensions == []
  {
    hide ValidCodec, CollisionFree, ReadsBack, LeafStored, WellHashed;
    var doc := c.canonicalDocument(call.vc).value;
    var h := c.identityHash(doc);
    OneReadable(c, call.now, doc);
    if h in db.leafData {
      var t := StoredFor(c, docs, doc, db.leafData[h].value);
      OneReadable(c, t, doc);
    }
  }

  /** A payload binds its contents: equal payloads promise the same document at the same time. */
  lemma {:induction false} PayloadBinds(c: Codec, docs: set<bytes>, hashSize: nat, db: Db, call: Call, db': Db,
      call': Call)
    requires ValidCodec(c) && CollisionFree(c, docs) && WellStored(c, docs, db) && WellStored(c, docs, db')
    requires call.now < TWO_53 && call'.now < TWO_53
    requires Respond(c, hashSize, db, call).1.Some? && c.canonicalDocument(call.vc).value in docs
    requires Respond(c, hashSize, db', call').1.Some? && c.canonicalDocument(call'.vc).value in docs
    requires Respond(c, hashSize, db, call).1.value.payload == Respond(c, hashSize, db', call').1.value.payload
    ensures Respond(c, hashSize, db, call).1.value.timestamp == Respond(c, hashSize, db', call').1.value.timestamp
    ensures c.canonicalDocument(call.vc) == c.canonicalDocument(call'.vc)
  {
    hide ValidCodec, CollisionFree, WellStored;
    Answered(c, hashSize, db, call);
    Answered(c, hashSize, db', call');
    hide Respond;
    PayloadReads(c, docs, hashSize, db, call);
    PayloadReads(c, docs, hashSize, db', call');
  }

  /** On a sound log with hashes of the right size every credential that has a canonical document is answered. */
  lemma {:induction false} AlwaysAnswered(c: Codec, docs: set<bytes>, hashSize: nat, db: Db, call: Call)
    requires ValidCodec(c) && CollisionFree(c, docs) && WellStored(c, docs, db) && SequencedOnce(db)
             && call.now < TWO_53
    requires c.canonicalDocument(call.vc).Some? ==>
               var d := c.canonicalDocument(call.vc).value;
               d in docs && |c.identityHash(d)| == hashSize == |DUMMY_MERKLE_LEAF_HASH|
    ensures Respond(c, hashSize, db, call).1.Some? <==> c.canonicalDocument(call.vc).Some?
  {
    hide ValidCodec, CollisionFree, LeafStored, WellHashed, Joined, QueueOne;
    if c.canonicalDocument(call.vc).Some? {
      var doc := c.canonicalDocument(call.vc).value;
      var h := c.identityHash(doc);
      OneReadable(c, call.now, doc);
      if h in db.leafData {
        var t := StoredFor(c, docs, doc, db.leafData[h].value);
        OneReadable(c, t, doc);
        JoinedSize(db, {h});
      }
    }
  }

  /** In every history all successful answers for one canonical credential are the answer given for its first leaf. */
  lemma {:induction false} StablePromise(c: Codec, hashSize: nat, r: Run, r': Run, call: Call, call': Call)
    requires ValidCodec(c) && CollisionFree(c, Documents(c, Then(r', Added(call'))))
    requires SmallClocks(r') && call'.now < TWO_53
    requires StartsWith(r', Then(r, Added(call))) && After(c, hashSize, r').Some? && After(c, hashSize, r).Some?
    requires c.canonicalDocument(call.vc) == c.canonicalDocument(call'.vc)
    requires Respond(c, hashSize, After(c, hashSize, r).value, call).1.Some?
    requires Respond(c, hashSize, After(c, hashSize, r').value, call').1.Some?
    ensures Respond(c, hashSize, After(c, hashSize, r').value, call').1 ==
            Respond(c, hashSize, After(c, hashSize, r).value, call).1
  {
    hide WellStored, LogHistory.Sound, ValidCodec, CollisionFree, QueueOne, ReadsBack;
    var first, docs := Then(r, Added(call)), Documents(c, Then(r', Added(call')));
    RunExtends(c, hashSize, first, r');
    RunKeeps(c, docs, hashSize, r);
    RunKeeps(c, docs, hashSize, r');
    var db, db' := After(c, hashSize, r).value, After(c, hashSize, r').value;
    Answered(c, hashSize, db, call);
    ClientAgrees(c, docs, hashSize, db, call, call.vc);
    ClientAgrees(c, docs, hashSize, db', call', call.vc);
    FirstAdded(c, hashSize, r, call);
    SameRow(c, hashSize, db', call');
  }

  lemma {:induction false} Answered(c: Codec, hashSize: nat, db: Db, call: Call)
    ensures Respond(c, hashSize, db, call).1.Some? ==> c.canonicalDocument(call.vc).Some?
  {
  }

  lemma {:induction false} FirstAdded(c: Codec, hashSize: nat, r: Run, call: Call)
    requires After(c, hashSize, r).Some?
    ensures After(c, hashSize, Then(r, Added(call))) == Some(Respond(c, hashSize, After(c, hashSize, r).value, call).0)
  {
  }

  /** A call leaves the rows of stored hashes as they are. */
  lemma {:induction false} SameRow(c: Codec, hashSize: nat, db: Db, call: Call)
    ensures var d := Respond(c, hashSize, db, call).0;
            forall h :: h in db.leafData ==> h in d.leafData && d.leafData[h] == db.leafData[h]
  {
    hide ResponseTo, ReadsBack;
  }
}
