/** The JSON of a log leaf: written in field order, canonicalized, and read back field by field. */
module LeafJson {
  import opened Bytes
  import Unicode
  import opened JsonValue
  import opened JsonParser
  import opened JsonCanonicalForm

  const TWO_53: nat := 0x20_0000_0000_0000
  const TWO_64: nat := 0x1_0000_0000_0000_0000

  datatype TimestampedEntry = TimestampedEntry(timestamp: nat, entryType: nat, vcEntry: bytes, extensions: bytes)

  datatype MerkleTreeLeaf = MerkleTreeLeaf(version: nat, leafType: nat, entry: TimestampedEntry)

  datatype VCTimestampSignature = VCTimestampSignature(
    version: nat, signatureType: nat, timestamp: nat, entryType: nat, vcEntry: bytes, extensions: bytes)

  /** How the standard library writes byte strings. */
  datatype Base64 = Base64(encode: bytes -> bytes, decode: bytes -> Option<bytes>)

  // ----- numbers -----

  function Decimal(n: nat): (t: bytes) {
    if n < 10 then [0x30 + n] else Decimal(n / 10) + [0x30 + n % 10]
  }

  predicate Digits(t: bytes) {
    t != [] && forall i :: 0 <= i < |t| ==> 0x30 <= t[i] < 0x3A
  }

  function DecimalValue(t: bytes): (n: int) {
    if t == [] then 0
    else
      var last: int := t[|t| - 1];
      DecimalValue(t[..|t| - 1]) * 10 + last - 0x30
  }

  lemma {:induction false} DecimalReadsBack(n: nat)
    ensures Digits(Decimal(n)) && DecimalValue(Decimal(n)) == n
  {
    if n >= 10 {
      DecimalReadsBack(n / 10);
      var t := Decimal(n / 10);
      assert (t + [0x30 + n % 10])[..|t|] == t;
    } else {
      assert [0x30 + n][..0] == [];
    }
  }

  /** Number spelling is valid, and exact for integers that a double holds exactly. */
  ghost predicate ExactSpelling(sp: Spelling) {
    ValidSpelling(sp) && forall n: nat :: n < TWO_53 ==> sp(Decimal(n)) == Some(Decimal(n))
  }

  // ----- field names -----

  datatype FieldName =
    | Version | LeafType | Entry | Timestamp | EntryType | VcEntry | Extensions | SvctVersion | SignatureType

  /** Small letters and underscores. */
  predicate PlainName(s: string) {
    forall i :: 0 <= i < |s| ==> '_' <= s[i] <= 'z'
  }

  function LeafName(f: FieldName): (s: string)
    requires f.Version? || f.LeafType? || f.Entry?
    ensures PlainName(s)
  {
    match f
    case Version => "version"
    case LeafType => "leaf_type"
    case Entry => "timestamped_entry"
  }

  function EntryName(f: FieldName): (s: string)
    requires f.Timestamp? || f.EntryType? || f.VcEntry? || f.Extensions?
    ensures PlainName(s)
  {
    match f
    case Timestamp => "timestamp"
    case EntryType => "entry_type"
    case VcEntry => "vc_entry"
    case Extensions => "extensions"
  }

  function SignatureName(f: FieldName): (s: string)
    requires f.SvctVersion? || f.SignatureType?
    ensures PlainName(s)
  {
    match f
    case SvctVersion => "svct_version"
    case SignatureType => "signature_type"
  }

  function Spelled(f: FieldName): (s: string)
    ensures PlainName(s) && IsAscii(s)
  {
    match f
    case Version => LeafName(f)
    case LeafType => LeafName(f)
    case Entry => LeafName(f)
    case SvctVersion => SignatureName(f)
    case SignatureType => SignatureName(f)
    case _ => EntryName(f)
  }

  function NameOf(f: FieldName): (s: bytes) {
    Ascii(Spelled(f))
  }

  /** The names that the payload of a signature uses beside those of an entry. */
  lemma {:induction false} SignatureNames()
    ensures NameOf(SvctVersion) == Ascii("svct_version") && NameOf(SignatureType) == Ascii("signature_type")
  {
  }

  lemma {:induction false} NamesDiffer(f: FieldName, g: FieldName)
    requires f != g
    ensures NameOf(f) != NameOf(g)
  {
    var s, t := Spelled(f), Spelled(g);
    if |s| == |t| {
      // Names of equal length differ in their first or second letter.
      assert s[1] != t[1] || s[0] != t[0];
      assert NameOf(f)[0] == s[0] as int && NameOf(g)[0] == t[0] as int;
      assert NameOf(f)[1] == s[1] as int && NameOf(g)[1] == t[1] as int;
    }
  }

  lemma {:induction false} AsciiWellFormed(s: bytes)
    requires forall i :: 0 <= i < |s| ==> s[i] < 128
    ensures Unicode.AllScalar(s) && Unicode.Encode(s) == s
    ensures Unicode.WellFormed(s)
    decreases |s|
  {
    if s != [] {
      AsciiWellFormed(s[1..]);
      assert s == [s[0]] + s[1..];
    }
  }

  /** Members with the names of different fields have different keys. */
  lemma {:induction false} FieldsDiffer(ms: seq<Member>, fs: seq<FieldName>)
    requires |ms| == |fs| && forall i :: 0 <= i < |ms| ==> ms[i].name == NameOf(fs[i])
    requires forall i, j :: 0 <= i < j < |fs| ==> fs[i] != fs[j]
    ensures DistinctKeys(ms)
  {
    forall i | 0 <= i < |ms|
      ensures Unicode.WellFormed(ms[i].name)
    {
      AsciiWellFormed(NameOf(fs[i]));
    }
    forall i, j | 0 <= i < j < |ms|
      ensures ms[i].name != ms[j].name
    {
      NamesDiffer(fs[i], fs[j]);
    }
    hide NameOf;
    DistinctKeysAreNames(ms);
  }

  // ----- writing -----

  function Number(f: FieldName, n: nat): (m: Member) {
    Member(NameOf(f), Simple(Decimal(n)))
  }

  function Binary(b: Base64, f: FieldName, s: bytes): (m: Member) {
    Member(NameOf(f), Str(b.encode(s)))
  }

  /** A byte string that is not set is written as null. */
  function Optional(b: Base64, f: FieldName, s: bytes): (m: Member) {
    Member(NameOf(f), if s == [] then Simple(NULL) else Str(b.encode(s)))
  }

  function EntryMembers(b: Base64, e: TimestampedEntry): (ms: seq<Member>) {
    [Number(Timestamp, e.timestamp), Number(EntryType, e.entryType), Binary(b, VcEntry, e.vcEntry),
     Optional(b, Extensions, e.extensions)]
  }

  function LeafMembers(b: Base64, l: MerkleTreeLeaf): (ms: seq<Member>) {
    [Number(Version, l.version), Number(LeafType, l.leafType), Member(NameOf(Entry), Obj(EntryMembers(b, l.entry)))]
  }

  function SignatureMembers(b: Base64, s: VCTimestampSignature): (ms: seq<Member>) {
    [Number(SvctVersion, s.version), Number(SignatureType, s.signatureType), Number(Timestamp, s.timestamp),
     Number(EntryType, s.entryType), Binary(b, VcEntry, s.vcEntry), Optional(b, Extensions, s.extensions)]
  }

  /** The standard library writes the members in field order without white space; the text is then canonicalized. */
  function MarshalCanonical(sp: Spelling, ms: seq<Member>): (s: Option<bytes>) {
    Canonicalize(sp, Print(Obj(ms)))
  }

  function MarshalLeaf(sp: Spelling, b: Base64, l: MerkleTreeLeaf): (s: Option<bytes>) {
    MarshalCanonical(sp, LeafMembers(b, l))
  }

  function MarshalSignature(sp: Spelling, b: Base64, v: VCTimestampSignature): (s: Option<bytes>) {
    MarshalCanonical(sp, SignatureMembers(b, v))
  }

  // ----- reading -----

  function Find(ms: seq<Member>, name: bytes): (v: Option<Json>) {
    if ms == [] then None else if ms[0].name == name then Some(ms[0].value) else Find(ms[1..], name)
  }

  /** An unsigned number below a bound; missing and null mean zero. */
  function ReadNumber(v: Option<Json>, bound: nat): (n: Option<nat>) {
    if v.None? || v.value == Simple(NULL) then Some(0)
    else if !v.value.Simple? || !Digits(v.value.token) then None
    else
      var n := DecimalValue(v.value.token);
      if 0 <= n < bound then Some(n) else None
  }

  function ReadBinary(b: Base64, v: Option<Json>): (s: Option<bytes>) {
    if v.None? || v.value == Simple(NULL) then Some([])
    else if !v.value.Str? then None
    else b.decode(v.value.text)
  }

  function ReadEntry(b: Base64, ms: seq<Member>): (e: Option<TimestampedEntry>) {
    var t := ReadNumber(Find(ms, NameOf(Timestamp)), TWO_64);
    var y := ReadNumber(Find(ms, NameOf(EntryType)), TWO_64);
    var d := ReadBinary(b, Find(ms, NameOf(VcEntry)));
    var x := ReadBinary(b, Find(ms, NameOf(Extensions)));
    if t.None? || y.None? || d.None? || x.None? then None
    else Some(TimestampedEntry(t.value, y.value, d.value, x.value))
  }

  /** A leaf without an entry object cannot be used. */
  function ReadLeaf(b: Base64, ms: seq<Member>): (l: Option<MerkleTreeLeaf>) {
    var v := ReadNumber(Find(ms, NameOf(Version)), 256);
    var y := ReadNumber(Find(ms, NameOf(LeafType)), TWO_64);
    var e := Find(ms, NameOf(Entry));
    if v.None? || y.None? || e.None? || !e.value.Obj? then None
    else
      var entry := ReadEntry(b, e.value.members);
      if entry.None? then None else Some(MerkleTreeLeaf(v.value, y.value, entry.value))
  }

  function ReadSignature(b: Base64, ms: seq<Member>): (v: Option<VCTimestampSignature>) {
    var w := ReadNumber(Find(ms, NameOf(SvctVersion)), 256);
    var y := ReadNumber(Find(ms, NameOf(SignatureType)), TWO_64);
    var e := ReadEntry(b, ms);
    if w.None? || y.None? || e.None? then None
    else
      var e := e.value;
      Some(VCTimestampSignature(w.value, y.value, e.timestamp, e.entryType, e.vcEntry, e.extensions))
  }

  /** What a verifier that reads the signed payload finds in it. */
  function UnmarshalSignature(sp: Spelling, b: Base64, s: bytes): (v: Option<VCTimestampSignature>) {
    var v := Document(sp, s);
    if v.None? || !v.value.Obj? then None else ReadSignature(b, v.value.members)
  }

  function UnmarshalLeaf(sp: Spelling, b: Base64, s: bytes): (l: Option<MerkleTreeLeaf>) {
    var v := Document(sp, s);
    if v.None? || !v.value.Obj? then None else ReadLeaf(b, v.value.members)
  }

  // ----- what is written is read back -----

  /** An object with fixed tokens and without repeated keys is written in normal form, and reads back as that form. */
  lemma {:induction false} MarshalReadsBack(sp: Spelling, ms: seq<Member>)
    requires ValidSpelling(sp) && FixedTokens(sp, Obj(ms)) && Unique(Obj(ms))
    ensures MarshalCanonical(sp, ms) == Some(Print(Norm(Obj(ms))))
    ensures Document(sp, Print(Norm(Obj(ms)))) == Some(Norm(Obj(ms))) && Norm(Obj(ms)).Obj?
  {
    var v := Obj(ms);
    assert Norm(v).Obj?;
    hide Document, Print, Norm, FixedTokens, Unique, CanonicalTree;
    PrintIsLegal(sp, v);
    IsRecord(ms);
    var d := Doc([], CanonicalTree(v), []);
    assert DocText(d) == Print(v);
    DocumentComplete(sp, d);
    NormIsCanonical(sp, v);
    PrintRoundTrip(sp, Norm(v));
  }

  lemma {:induction false} IsRecord(ms: seq<Member>)
    ensures CanonicalTree(Obj(ms)).Record?
  {
  }

  lemma {:induction false} FindOnly(ms: seq<Member>, m: Member)
    requires m in ms && DistinctKeys(ms)
    ensures Find(ms, m.name) == Some(m.value)
    decreases |ms|
  {
    if ms[0] != m {
      var i :| 0 <= i < |ms| && ms[i] == m;
      assert Key(ms[0]) != Key(ms[i]);
      assert ms[1..][i - 1] == m;
      FindOnly(ms[1..], m);
    }
  }

  /** Each field is found in the normal form, with its value normalised. */
  lemma {:induction false} FindNorm(ms: seq<Member>, i: nat)
    requires DistinctKeys(ms) && i < |ms|
    ensures Find(Norm(Obj(ms)).members, ms[i].name) == Some(Norm(ms[i].value))
  {
    var ns := Norm(Obj(ms)).members;
    var m := NormMembers(ms)[i];
    NormObject(ms);
    SameElements(ns, NormMembers(ms));
    SortedDistinct(ns);
    hide Norm;
    FindOnly(ns, m);
  }

  lemma {:induction false} NumberFixed(sp: Spelling, n: nat)
    requires ExactSpelling(sp) && n < TWO_53
    ensures FixedTokens(sp, Simple(Decimal(n))) && Simple(Decimal(n)) != Simple(NULL)
    ensures ReadNumber(Some(Simple(Decimal(n))), TWO_64) == Some(n)
    ensures n < 256 ==> ReadNumber(Some(Simple(Decimal(n))), 256) == Some(n)
  {
    DecimalReadsBack(n);
    assert NULL[0] == 0x6E;
  }

  /** A member whose value has fixed tokens and repeats no key. */
  ghost predicate Fine(sp: Spelling, m: Member) {
    FixedTokens(sp, m.value) && Unique(m.value)
  }

  lemma {:induction false} NumberFine(sp: Spelling, f: FieldName, n: nat)
    requires ExactSpelling(sp) && n < TWO_53
    ensures Fine(sp, Number(f, n)) && Number(f, n).name == NameOf(f)
  {
    NumberFixed(sp, n);
    hide NameOf, Decimal, ExactSpelling;
  }

  lemma {:induction false} BinaryFine(sp: Spelling, b: Base64, f: FieldName, s: bytes)
    ensures Fine(sp, Binary(b, f, s)) && Binary(b, f, s).name == NameOf(f)
    ensures Fine(sp, Optional(b, f, s)) && Optional(b, f, s).name == NameOf(f)
  {
    hide NameOf;
  }

  lemma {:induction false} ObjectFine(sp: Spelling, ms: seq<Member>, fs: seq<FieldName>)
    requires |ms| == |fs| && forall i :: 0 <= i < |ms| ==> ms[i].name == NameOf(fs[i])
    requires forall i, j :: 0 <= i < j < |fs| ==> fs[i] != fs[j]
    requires forall i :: 0 <= i < |ms| ==> Fine(sp, ms[i])
    ensures FixedTokens(sp, Obj(ms)) && Unique(Obj(ms)) && DistinctKeys(ms)
  {
    hide NameOf, DistinctKeys;
    FieldsDiffer(ms, fs);
  }

  lemma {:induction false} EntryWritten(sp: Spelling, b: Base64, e: TimestampedEntry)
    requires ExactSpelling(sp) && e.timestamp < TWO_53 && e.entryType < TWO_53
    ensures FixedTokens(sp, Obj(EntryMembers(b, e))) && Unique(Obj(EntryMembers(b, e)))
            && DistinctKeys(EntryMembers(b, e))
  {
    hide NameOf, Number, Binary, Optional, ExactSpelling, Fine, FixedTokens, Unique, DistinctKeys;
    NumberFine(sp, Timestamp, e.timestamp);
    NumberFine(sp, EntryType, e.entryType);
    BinaryFine(sp, b, VcEntry, e.vcEntry);
    BinaryFine(sp, b, Extensions, e.extensions);
    ObjectFine(sp, EntryMembers(b, e), [Timestamp, EntryType, VcEntry, Extensions]);
  }

  lemma {:induction false} NumberRead(sp: Spelling, f: FieldName, n: nat)
    requires ExactSpelling(sp) && n < TWO_53
    ensures Number(f, n).name == NameOf(f) && ReadNumber(Some(Norm(Number(f, n).value)), TWO_64) == Some(n)
    ensures n < 256 ==> ReadNumber(Some(Norm(Number(f, n).value)), 256) == Some(n)
  {
    NumberFixed(sp, n);
    hide NameOf, Decimal, ExactSpelling, ReadNumber;
  }

  lemma {:induction false} BinaryRead(b: Base64, f: FieldName, s: bytes)
    requires b.decode(b.encode(s)) == Some(s)
    ensures Binary(b, f, s).name == NameOf(f) && ReadBinary(b, Some(Norm(Binary(b, f, s).value))) == Some(s)
    ensures Optional(b, f, s).name == NameOf(f) && ReadBinary(b, Some(Norm(Optional(b, f, s).value))) == Some(s)
  {
    hide NameOf;
  }

  lemma {:induction false} EntryReadsBack(sp: Spelling, b: Base64, e: TimestampedEntry)
    requires ExactSpelling(sp) && e.timestamp < TWO_53 && e.entryType < TWO_53
    requires b.decode(b.encode(e.vcEntry)) == Some(e.vcEntry) && b.decode(b.encode(e.extensions)) == Some(e.extensions)
    ensures Norm(Obj(EntryMembers(b, e))).Obj? && ReadEntry(b, Norm(Obj(EntryMembers(b, e))).members) == Some(e)
  {
    hide NameOf, Number, Binary, Optional, ExactSpelling, FixedTokens, Unique, DistinctKeys, Find, ReadNumber,
         ReadBinary, Norm;
    var ms := EntryMembers(b, e);
    ObjectNorm(ms);
    EntryWritten(sp, b, e);
    NumberRead(sp, Timestamp, e.timestamp);
    NumberRead(sp, EntryType, e.entryType);
    BinaryRead(b, VcEntry, e.vcEntry);
    BinaryRead(b, Extensions, e.extensions);
    FindNorm(ms, 0);
    FindNorm(ms, 1);
    FindNorm(ms, 2);
    FindNorm(ms, 3);
  }

  lemma {:induction false} LeafWritten(sp: Spelling, b: Base64, l: MerkleTreeLeaf)
    requires ExactSpelling(sp)
    requires l.version < 256 && l.leafType < TWO_53 && l.entry.timestamp < TWO_53 && l.entry.entryType < TWO_53
    ensures FixedTokens(sp, Obj(LeafMembers(b, l))) && Unique(Obj(LeafMembers(b, l))) && DistinctKeys(LeafMembers(b, l))
  {
    hide NameOf, Number, ExactSpelling, EntryMembers, FixedTokens, Unique, DistinctKeys;
    NumberFine(sp, Version, l.version);
    NumberFine(sp, LeafType, l.leafType);
    EntryWritten(sp, b, l.entry);
    assert Fine(sp, Member(NameOf(Entry), Obj(EntryMembers(b, l.entry))));
    hide Fine;
    ObjectFine(sp, LeafMembers(b, l), [Version, LeafType, Entry]);
  }

  lemma {:induction false} LeafRead(sp: Spelling, b: Base64, l: MerkleTreeLeaf)
    requires ExactSpelling(sp)
    requires l.version < 256 && l.leafType < TWO_53 && l.entry.timestamp < TWO_53 && l.entry.entryType < TWO_53
    requires b.decode(b.encode(l.entry.vcEntry)) == Some(l.entry.vcEntry)
    requires b.decode(b.encode(l.entry.extensions)) == Some(l.entry.extensions)
    ensures Norm(Obj(LeafMembers(b, l))).Obj? && ReadLeaf(b, Norm(Obj(LeafMembers(b, l))).members) == Some(l)
  {
    hide NameOf, Number, ExactSpelling, EntryMembers, FixedTokens, Unique, DistinctKeys, Find, ReadNumber, ReadEntry,
         Norm;
    var ms := LeafMembers(b, l);
    ObjectNorm(ms);
    LeafWritten(sp, b, l);
    NumberRead(sp, Version, l.version);
    NumberRead(sp, LeafType, l.leafType);
    EntryReadsBack(sp, b, l.entry);
    FindNorm(ms, 0);
    FindNorm(ms, 1);
    FindNorm(ms, 2);
  }

  /** A leaf read from its canonical JSON is the leaf that was written, while its numbers are exact. */
  lemma {:induction false} LeafReadsBack(sp: Spelling, b: Base64, l: MerkleTreeLeaf)
    requires ExactSpelling(sp)
    requires l.version < 256 && l.leafType < TWO_53 && l.entry.timestamp < TWO_53 && l.entry.entryType < TWO_53
    requires b.decode(b.encode(l.entry.vcEntry)) == Some(l.entry.vcEntry)
    requires b.decode(b.encode(l.entry.extensions)) == Some(l.entry.extensions)
    ensures MarshalLeaf(sp, b, l).Some? && UnmarshalLeaf(sp, b, MarshalLeaf(sp, b, l).value) == Some(l)
  {
    hide LeafMembers, FixedTokens, Unique, DistinctKeys, ReadLeaf, Norm, Document, Print, MarshalCanonical;
    LeafWritten(sp, b, l);
    LeafRead(sp, b, l);
    hide ExactSpelling;
    assert ValidSpelling(sp) by { SpellingIsValid(sp); }
    hide ValidSpelling;
    MarshalReadsBack(sp, LeafMembers(b, l));
  }

  predicate SmallSignature(v: VCTimestampSignature) {
    v.version < 256 && v.signatureType < TWO_53 && v.timestamp < TWO_53 && v.entryType < TWO_53
  }

  lemma {:induction false} SignatureWritten(sp: Spelling, b: Base64, v: VCTimestampSignature)
    requires ExactSpelling(sp) && SmallSignature(v)
    ensures var ms := SignatureMembers(b, v); FixedTokens(sp, Obj(ms)) && Unique(Obj(ms)) && DistinctKeys(ms)
  {
    hide NameOf, Number, Binary, Optional, ExactSpelling, Fine, FixedTokens, Unique, DistinctKeys;
    NumberFine(sp, SvctVersion, v.version);
    NumberFine(sp, SignatureType, v.signatureType);
    NumberFine(sp, Timestamp, v.timestamp);
    NumberFine(sp, EntryType, v.entryType);
    BinaryFine(sp, b, VcEntry, v.vcEntry);
    BinaryFine(sp, b, Extensions, v.extensions);
    ObjectFine(sp, SignatureMembers(b, v), [SvctVersion, SignatureType, Timestamp, EntryType, VcEntry, Extensions]);
  }

  lemma {:induction false} SignatureRead(sp: Spelling, b: Base64, v: VCTimestampSignature)
    requires ExactSpelling(sp) && SmallSignature(v)
    requires b.decode(b.encode(v.vcEntry)) == Some(v.vcEntry) && b.decode(b.encode(v.extensions)) == Some(v.extensions)
    ensures var n := Norm(Obj(SignatureMembers(b, v))); n.Obj? && ReadSignature(b, n.members) == Some(v)
  {
    hide NameOf, Number, Binary, Optional, ExactSpelling, FixedTokens, Unique, DistinctKeys, Find, ReadNumber,
         ReadBinary, Norm;
    var ms := SignatureMembers(b, v);
    ObjectNorm(ms);
    SignatureWritten(sp, b, v);
    NumberRead(sp, SvctVersion, v.version);
    NumberRead(sp, SignatureType, v.signatureType);
    NumberRead(sp, Timestamp, v.timestamp);
    NumberRead(sp, EntryType, v.entryType);
    BinaryRead(b, VcEntry, v.vcEntry);
    BinaryRead(b, Extensions, v.extensions);
    FindNorm(ms, 0);
    FindNorm(ms, 1);
    FindNorm(ms, 2);
    FindNorm(ms, 3);
    FindNorm(ms, 4);
    FindNorm(ms, 5);
  }

  /** Everything in a signature's payload is read back from it, while its numbers are exact. */
  lemma {:induction false} SignatureReadsBack(sp: Spelling, b: Base64, v: VCTimestampSignature)
    requires ExactSpelling(sp) && SmallSignature(v)
    requires b.decode(b.encode(v.vcEntry)) == Some(v.vcEntry) && b.decode(b.encode(v.extensions)) == Some(v.extensions)
    ensures MarshalSignature(sp, b, v).Some? && UnmarshalSignature(sp, b, MarshalSignature(sp, b, v).value) == Some(v)
  {
    hide SignatureMembers, FixedTokens, Unique, DistinctKeys, ReadSignature, Norm, Document, Print, MarshalCanonical;
    SignatureWritten(sp, b, v);
    SignatureRead(sp, b, v);
    hide ExactSpelling;
    assert ValidSpelling(sp) by { SpellingIsValid(sp); }
    hide ValidSpelling;
    MarshalReadsBack(sp, SignatureMembers(b, v));
  }

  lemma {:induction false} SpellingIsValid(sp: Spelling)
    requires ExactSpelling(sp)
    ensures ValidSpelling(sp)
  {
  }

  lemma {:induction false} ObjectNorm(ms: seq<Member>)
    ensures Norm(Obj(ms)).Obj?
  {
  }

  // ----- the text of a leaf -----

  lemma {:induction false} AsciiKey(s: bytes)
    requires forall i :: 0 <= i < |s| ==> s[i] < 128
    ensures Unicode.AllScalar(s) && Unicode.Utf16(s) == s
    decreases |s|
  {
    if s != [] {
      AsciiKey(s[1..]);
      assert s == [s[0]] + s[1..];
    }
  }

  /** The sort key of a field is its name. */
  lemma {:induction false} KeyOfField(m: Member, f: FieldName)
    requires m.name == NameOf(f)
    ensures Key(m) == NameOf(f)
  {
    AsciiWellFormed(NameOf(f));
    AsciiKey(NameOf(f));
    hide NameOf;
    Unicode.SortKeyOfEncode(m.name);
  }

  /** A field as the text writes it before its value. */
  function Tag(s: string): (t: bytes)
    requires IsAscii(s)
  {
    [JsonString.QUOTE] + Ascii(s) + [JsonString.QUOTE, COLON]
  }

  lemma {:induction false} PlainBody(s: bytes)
    requires forall i :: 0 <= i < |s| ==> 0x20 <= s[i] && s[i] != JsonString.QUOTE && s[i] != JsonString.BACKSLASH
    ensures JsonString.Body(s) == s
    decreases |s|
  {
    if s != [] {
      PlainBody(s[1..]);
      assert s == [s[0]] + s[1..];
    }
  }

  lemma {:induction false} NamesArePlain(f: FieldName)
    ensures var s := NameOf(f);
            forall i :: 0 <= i < |s| ==> 0x20 <= s[i] && s[i] != JsonString.QUOTE && s[i] != JsonString.BACKSLASH
  {
    hide Spelled;
  }

  lemma {:induction false} FieldPrinted(m: Member, f: FieldName)
    requires m.name == NameOf(f)
    ensures PrintMember(m) == Tag(Spelled(f)) + Print(m.value)
  {
    NamesArePlain(f);
    hide Print, Spelled;
    PlainBody(m.name);
    assert JsonString.Quote(m.name) + [COLON] == Tag(Spelled(f));
  }

  /** Which of two fields comes first, by the first or second letter. */
  lemma {:induction false} FieldOrder(f: FieldName, g: FieldName)
    requires var s, t := Spelled(f), Spelled(g);
             || (|s| > 0 && |t| > 0 && s[0] < t[0])
             || (|s| > 1 && |t| > 1 && s[0] == t[0] && s[1] < t[1])
    ensures Less(NameOf(f), NameOf(g))
  {
    var a, b := NameOf(f), NameOf(g);
    LessMeaning(a, b);
    if Spelled(f)[0] < Spelled(g)[0] {
      assert SmallerAt(a, b, 0);
    } else {
      assert a[..1] == [a[0]] && b[..1] == [b[0]];
      assert SmallerAt(a, b, 1);
    }
  }

  /** The members of an object, listed in another order that is sorted, are its normal form. */
  lemma {:induction false} NormIs(ms: seq<Member>, ns: seq<Member>)
    requires DistinctKeys(ms) && Sorted(ns) && multiset(ns) == multiset(NormMembers(ms))
    ensures Norm(Obj(ms)) == Obj(ns)
  {
    NormObject(ms);
    SameElements(Norm(Obj(ms)).members, ns);
    SortedUnique(Norm(Obj(ms)).members, ns);
  }

  lemma {:induction false} SortedFields(ns: seq<Member>, fs: seq<FieldName>)
    requires |ns| == |fs| && forall i :: 0 <= i < |ns| ==> ns[i].name == NameOf(fs[i])
    requires forall i :: 0 <= i < |fs| - 1 ==> Less(NameOf(fs[i]), NameOf(fs[i + 1]))
    ensures Sorted(ns)
  {
    hide NameOf;
    forall i, j | 0 <= i < j < |ns|
      ensures Less(Key(ns[i]), Key(ns[j]))
    {
      KeyOfField(ns[i], fs[i]);
      KeyOfField(ns[j], fs[j]);
      Ascend(fs, i, j);
    }
  }

  lemma {:induction false} Ascend(fs: seq<FieldName>, i: nat, j: nat)
    requires forall i :: 0 <= i < |fs| - 1 ==> Less(NameOf(fs[i]), NameOf(fs[i + 1]))
    requires i < j < |fs|
    ensures Less(NameOf(fs[i]), NameOf(fs[j]))
    decreases j
  {
    hide NameOf, Less;
    if i + 1 < j {
      Ascend(fs, i, j - 1);
      assert Less(NameOf(fs[j - 1]), NameOf(fs[j - 1 + 1]));
      LessTransitive(NameOf(fs[i]), NameOf(fs[j - 1]), NameOf(fs[j]));
    }
  }

  /** The entry of a leaf without extensions, members in key order. */
  function EntrySorted(b: Base64, e: TimestampedEntry): (ns: seq<Member>) {
    [Number(EntryType, e.entryType), Optional(b, Extensions, e.extensions), Number(Timestamp, e.timestamp),
     Binary(b, VcEntry, e.vcEntry)]
  }

  lemma {:induction false} Reorder4<T>(a: T, b: T, c: T, d: T)
    ensures multiset([a, b, c, d]) == multiset([b, d, a, c])
  {
  }

  lemma {:induction false} Reorder3<T>(a: T, b: T, c: T)
    ensures multiset([a, b, c]) == multiset([b, c, a])
  {
  }

  lemma {:induction false} EntryOrder()
    ensures Less(NameOf(EntryType), NameOf(Extensions)) && Less(NameOf(Extensions), NameOf(Timestamp))
    ensures Less(NameOf(Timestamp), NameOf(VcEntry))
  {
    hide Less, NameOf;
    FieldOrder(EntryType, Extensions);
    FieldOrder(Extensions, Timestamp);
    FieldOrder(Timestamp, VcEntry);
  }

  lemma {:induction false} LeafOrder()
    ensures Less(NameOf(LeafType), NameOf(Entry)) && Less(NameOf(Entry), NameOf(Version))
  {
    hide Less, NameOf;
    FieldOrder(LeafType, Entry);
    FieldOrder(Entry, Version);
  }

  /** Members with simple values are their own normal form. */
  lemma {:induction false} PlainMembers(b: Base64, f: FieldName, n: nat, s: bytes)
    ensures Number(f, n).name == NameOf(f) && Norm(Number(f, n).value) == Number(f, n).value
    ensures Binary(b, f, s).name == NameOf(f) && Norm(Binary(b, f, s).value) == Binary(b, f, s).value
    ensures Optional(b, f, s).name == NameOf(f) && Norm(Optional(b, f, s).value) == Optional(b, f, s).value
  {
    hide NameOf, Decimal;
  }

  lemma {:induction false} EntryIsSorted(b: Base64, e: TimestampedEntry)
    ensures Sorted(EntrySorted(b, e))
  {
    hide NameOf, Less, Sorted, Number, Binary, Optional, Norm;
    PlainMembers(b, Timestamp, e.timestamp, []);
    PlainMembers(b, EntryType, e.entryType, []);
    PlainMembers(b, VcEntry, 0, e.vcEntry);
    PlainMembers(b, Extensions, 0, e.extensions);
    EntryOrder();
    SortedFields(EntrySorted(b, e), [EntryType, Extensions, Timestamp, VcEntry]);
  }

  lemma {:induction false} EntryPermuted(b: Base64, e: TimestampedEntry)
    ensures multiset(EntrySorted(b, e)) == multiset(NormMembers(EntryMembers(b, e)))
  {
    hide NameOf, Number, Binary, Optional, Norm;
    var ms := EntryMembers(b, e);
    PlainMembers(b, Timestamp, e.timestamp, []);
    PlainMembers(b, EntryType, e.entryType, []);
    PlainMembers(b, VcEntry, 0, e.vcEntry);
    PlainMembers(b, Extensions, 0, e.extensions);
    assert NormMembers(ms) == ms;
    Reorder4(ms[0], ms[1], ms[2], ms[3]);
  }

  lemma {:induction false} EntryNorm(sp: Spelling, b: Base64, e: TimestampedEntry)
    requires ExactSpelling(sp) && e.timestamp < TWO_53 && e.entryType < TWO_53
    ensures Norm(Obj(EntryMembers(b, e))) == Obj(EntrySorted(b, e))
  {
    hide EntryMembers, EntrySorted, ExactSpelling, DistinctKeys, Sorted, Norm, FixedTokens, Unique;
    EntryWritten(sp, b, e);
    EntryIsSorted(b, e);
    EntryPermuted(b, e);
    NormIs(EntryMembers(b, e), EntrySorted(b, e));
  }

  function LeafSorted(b: Base64, l: MerkleTreeLeaf): (ns: seq<Member>) {
    [Number(LeafType, l.leafType), Member(NameOf(Entry), Obj(EntrySorted(b, l.entry))), Number(Version, l.version)]
  }

  lemma {:induction false} LeafIsSorted(b: Base64, l: MerkleTreeLeaf)
    ensures Sorted(LeafSorted(b, l))
  {
    hide NameOf, Less, Sorted, Number, Norm, EntrySorted;
    PlainMembers(b, Version, l.version, []);
    PlainMembers(b, LeafType, l.leafType, []);
    LeafOrder();
    SortedFields(LeafSorted(b, l), [LeafType, Entry, Version]);
  }

  lemma {:induction false} LeafPermuted(b: Base64, l: MerkleTreeLeaf)
    requires Norm(Obj(EntryMembers(b, l.entry))) == Obj(EntrySorted(b, l.entry))
    ensures multiset(LeafSorted(b, l)) == multiset(NormMembers(LeafMembers(b, l)))
  {
    hide NameOf, Number, Norm, EntryMembers, EntrySorted;
    var ms, e := LeafMembers(b, l), Member(NameOf(Entry), Obj(EntrySorted(b, l.entry)));
    PlainMembers(b, Version, l.version, []);
    PlainMembers(b, LeafType, l.leafType, []);
    assert NormMembers(ms) == [ms[0], ms[1], e];
    Reorder3(ms[0], ms[1], e);
  }

  lemma {:induction false} LeafNorm(sp: Spelling, b: Base64, l: MerkleTreeLeaf)
    requires ExactSpelling(sp)
    requires l.version < 256 && l.leafType < TWO_53 && l.entry.timestamp < TWO_53 && l.entry.entryType < TWO_53
    ensures Norm(Obj(LeafMembers(b, l))) == Obj(LeafSorted(b, l))
  {
    hide LeafMembers, LeafSorted, ExactSpelling, DistinctKeys, Sorted, Norm, FixedTokens, Unique, EntryMembers,
         EntrySorted;
    LeafWritten(sp, b, l);
    EntryNorm(sp, b, l.entry);
    LeafIsSorted(b, l);
    LeafPermuted(b, l);
    NormIs(LeafMembers(b, l), LeafSorted(b, l));
  }

  lemma {:induction false} PrintCons(m: Member, f: FieldName, ms: seq<Member>, next: bool)
    requires m.name == NameOf(f)
    ensures PrintMembers([m] + ms, next) ==
            Separator(next) + (Tag(Spelled(f)) + Print(m.value)) + PrintMembers(ms, true)
  {
    hide NameOf, Print, PrintMember, Spelled;
    assert ([m] + ms)[1..] == ms;
    FieldPrinted(m, f);
  }

  /** Four members in a row, as texts. */
  lemma {:induction false} FourTexts(open: bytes, a: bytes, b: bytes, c: bytes, d: bytes, e: bytes, f: bytes, g: bytes,
      h: bytes, sep: bytes, close: bytes)
    ensures open + ([] + (a + b) + (sep + (c + d) + (sep + (e + f) + (sep + (g + h) + [])))) + close
         == open + a + b + sep + c + d + sep + e + f + sep + g + h + close
  {
  }

  lemma {:induction false} ThreeTexts(open: bytes, a: bytes, b: bytes, c: bytes, d: bytes, e: bytes, f: bytes,
      sep: bytes, close: bytes)
    ensures open + ([] + (a + b) + (sep + (c + d) + (sep + (e + f) + []))) + close
         == open + a + b + sep + c + d + sep + e + f + close
  {
  }

  /** What members print, by field and printed value. */
  lemma {:induction false} ValuesPrinted(b: Base64, f: FieldName, n: nat, s: bytes)
    ensures Print(Number(f, n).value) == Decimal(n) && Print(Binary(b, f, s).value) == JsonString.Quote(b.encode(s))
    ensures Print(Optional(b, f, []).value) == NULL
  {
    hide NameOf, Decimal, JsonString.Quote;
  }

  lemma {:induction false} PrintObject(ms: seq<Member>)
    ensures Print(Obj(ms)) == [LBRACE] + PrintMembers(ms, false) + [RBRACE] && PrintMembers([], true) == []
    ensures Separator(true) == [COMMA] && Separator(false) == []
  {
  }

  lemma {:induction false} EntryNames()
    ensures Spelled(EntryType) == "entry_type" && Spelled(Extensions) == "extensions"
    ensures Spelled(Timestamp) == "timestamp" && Spelled(VcEntry) == "vc_entry"
  {
  }

  lemma {:induction false} EntryPrinted(b: Base64, e: TimestampedEntry)
    requires e.extensions == []
    ensures Print(Obj(EntrySorted(b, e))) ==
            [LBRACE] + Tag("entry_type") + Decimal(e.entryType) + [COMMA] + Tag("extensions") + NULL + [COMMA]
            + Tag("timestamp") + Decimal(e.timestamp) + [COMMA] + Tag("vc_entry")
            + JsonString.Quote(b.encode(e.vcEntry)) + [RBRACE]
  {
    hide NameOf, Decimal, Tag, JsonString.Quote, Number, Binary, Optional, Print, PrintMembers, Separator, Spelled;
    EntryNames();
    var y, x := Number(EntryType, e.entryType), Optional(b, Extensions, e.extensions);
    var t, d := Number(Timestamp, e.timestamp), Binary(b, VcEntry, e.vcEntry);
    PlainMembers(b, Timestamp, e.timestamp, []);
    PlainMembers(b, EntryType, e.entryType, []);
    PlainMembers(b, VcEntry, 0, e.vcEntry);
    PlainMembers(b, Extensions, 0, e.extensions);
    assert EntrySorted(b, e) == [y] + ([x] + ([t] + ([d] + [])));
    PrintCons(d, VcEntry, [], true);
    PrintCons(t, Timestamp, [d] + [], true);
    PrintCons(x, Extensions, [t] + ([d] + []), true);
    PrintCons(y, EntryType, [x] + ([t] + ([d] + [])), false);
    ValuesPrinted(b, EntryType, e.entryType, []);
    ValuesPrinted(b, Extensions, 0, []);
    ValuesPrinted(b, Timestamp, e.timestamp, []);
    ValuesPrinted(b, VcEntry, 0, e.vcEntry);
    PrintObject(EntrySorted(b, e));
    FourTexts([LBRACE], Tag("entry_type"), Decimal(e.entryType), Tag("extensions"), NULL, Tag("timestamp"),
              Decimal(e.timestamp), Tag("vc_entry"), JsonString.Quote(b.encode(e.vcEntry)), [COMMA], [RBRACE]);
  }

  /** The bytes of the leaf that add-vc makes: field names, their order, constants and encodings. */
  lemma {:induction false} LeafText(sp: Spelling, b: Base64, t: nat, document: bytes)
    requires ExactSpelling(sp) && t < TWO_53
    ensures MarshalLeaf(sp, b, MerkleTreeLeaf(0, 100, TimestampedEntry(t, 100, document, []))) ==
            Some([LBRACE] + Tag("leaf_type") + Decimal(100) + [COMMA] + Tag("timestamped_entry")
                 + ([LBRACE] + Tag("entry_type") + Decimal(100) + [COMMA] + Tag("extensions") + NULL + [COMMA]
                    + Tag("timestamp") + Decimal(t) + [COMMA] + Tag("vc_entry") + JsonString.Quote(b.encode(document))
                    + [RBRACE])
                 + [COMMA] + Tag("version") + Decimal(0) + [RBRACE])
  {
    hide NameOf, Decimal, Tag, JsonString.Quote, FixedTokens, Unique, DistinctKeys, Norm, MarshalCanonical, LeafMembers,
         EntrySorted, ExactSpelling, Number, Print, PrintMembers, Separator;
    var l := MerkleTreeLeaf(0, 100, TimestampedEntry(t, 100, document, []));
    LeafWritten(sp, b, l);
    LeafNorm(sp, b, l);
    assert ValidSpelling(sp) by { SpellingIsValid(sp); }
    hide ValidSpelling;
    MarshalReadsBack(sp, LeafMembers(b, l));
    EntryPrinted(b, l.entry);
    var y, e, v := Number(LeafType, 100), Member(NameOf(Entry), Obj(EntrySorted(b, l.entry))), Number(Version, 0);
    PlainMembers(b, LeafType, 100, []);
    PlainMembers(b, Version, 0, []);
    assert LeafSorted(b, l) == [y] + ([e] + ([v] + []));
    PrintCons(v, Version, [], true);
    PrintCons(e, Entry, [v] + [], true);
    PrintCons(y, LeafType, [e] + ([v] + []), false);
    ValuesPrinted(b, LeafType, 100, []);
    ValuesPrinted(b, Version, 0, []);
    PrintObject(LeafSorted(b, l));
    ThreeTexts([LBRACE], Tag("leaf_type"), Decimal(100), Tag("timestamped_entry"), Print(e.value), Tag("version"),
               Decimal(0), [COMMA], [RBRACE]);
  }

  /** Numbers and byte strings that are missing or null read as zero and empty. */
  lemma {:induction false} AbsentEntry(b: Base64, f: FieldName)
    ensures ReadEntry(b, []) == Some(TimestampedEntry(0, 0, [], []))
    ensures ReadEntry(b, [Member(NameOf(f), Simple(NULL))]) == Some(TimestampedEntry(0, 0, [], []))
  {
    hide NameOf, Digits, DecimalValue;
    var one := [Member(NameOf(f), Simple(NULL))];
    assert one[1..] == [];
  }

  /** A leaf may lack its numbers as well, but not its entry. */
  lemma {:induction false} AbsentFields(b: Base64, f: FieldName)
    requires f != Entry
    ensures ReadLeaf(b, []) == None
    ensures ReadLeaf(b, [Member(NameOf(Entry), Obj([]))]) == Some(MerkleTreeLeaf(0, 0, TimestampedEntry(0, 0, [], [])))
    ensures ReadLeaf(b, [Member(NameOf(f), Simple(NULL)), Member(NameOf(Entry), Obj([]))]) ==
            ReadLeaf(b, [Member(NameOf(Entry), Obj([]))])
  {
    hide NameOf, Digits, DecimalValue, ReadEntry;
    var e := Member(NameOf(Entry), Obj([]));
    var one, two := [e], [Member(NameOf(f), Simple(NULL)), e];
    assert one[1..] == [] && two[1..] == one;
    AbsentEntry(b, f);
    NamesDiffer(f, Entry);
    NamesDiffer(Version, Entry);
    NamesDiffer(LeafType, Entry);
  }

  /** A version is one byte; types and timestamps are unsigned 64-bit numbers: larger ones are refused. */
  lemma {:induction false} NumberRanges(b: Base64, n: nat)
    ensures ReadLeaf(b, [Number(Version, n), Member(NameOf(Entry), Obj([]))]).Some? <==> n < 256
    ensures ReadLeaf(b, [Number(LeafType, n), Member(NameOf(Entry), Obj([]))]).Some? <==> n < TWO_64
    ensures forall f :: f in [Timestamp, EntryType] ==> (ReadEntry(b, [Number(f, n)]).Some? <==> n < TWO_64)
    ensures ReadSignature(b, [Number(SvctVersion, n)]).Some? <==> n < 256
    ensures ReadSignature(b, [Number(SignatureType, n)]).Some? <==> n < TWO_64
  {
    hide NameOf, ReadLeaf, ReadEntry, ReadSignature, Number;
    SignatureNumber(b, SvctVersion, n);
    SignatureNumber(b, SignatureType, n);
    OneNumber(b, Timestamp, n);
    OneNumber(b, EntryType, n);
    LeafNumber(b, Version, n);
    LeafNumber(b, LeafType, n);
  }

  lemma {:induction false} DecimalReads(n: nat, bound: nat)
    ensures ReadNumber(Some(Simple(Decimal(n))), bound) == if n < bound then Some(n) else None
  {
    DecimalReadsBack(n);
    assert NULL[0] == 0x6E;
  }

  lemma {:induction false} FindField(f: FieldName, v: Json, ms: seq<Member>, g: FieldName)
    ensures Find([Member(NameOf(f), v)] + ms, NameOf(g)) == if f == g then Some(v) else Find(ms, NameOf(g))
  {
    if f != g { NamesDiffer(f, g); }
    hide NameOf;
    assert ([Member(NameOf(f), v)] + ms)[1..] == ms;
  }

  lemma {:induction false} FindNothing(g: FieldName)
    ensures Find([], NameOf(g)) == None
  {
  }

  lemma {:induction false} NothingReads(b: Base64, bound: nat)
    ensures ReadNumber(None, bound) == Some(0) && ReadBinary(b, None) == Some([])
  {
  }

  lemma {:induction false} OneNumber(b: Base64, f: FieldName, n: nat)
    requires f == Timestamp || f == EntryType
    ensures ReadEntry(b, [Number(f, n)]).Some? <==> n < TWO_64
  {
    hide NameOf, ReadNumber, ReadBinary, Decimal, Find;
    var v := Simple(Decimal(n));
    assert [Number(f, n)] == [Member(NameOf(f), v)] + [];
    forall g
      ensures Find([Number(f, n)], NameOf(g)) == if f == g then Some(v) else None
    {
      FindField(f, v, [], g);
      FindNothing(g);
    }
    DecimalReads(n, TWO_64);
    NothingReads(b, TWO_64);
  }

  lemma {:induction false} SignatureNumber(b: Base64, f: FieldName, n: nat)
    requires f == SvctVersion || f == SignatureType
    ensures ReadSignature(b, [Number(f, n)]).Some? <==> n < if f == SvctVersion then 256 else TWO_64
  {
    hide NameOf, ReadNumber, ReadBinary, Decimal, Find;
    var v := Simple(Decimal(n));
    assert [Number(f, n)] == [Member(NameOf(f), v)] + [];
    forall g
      ensures Find([Number(f, n)], NameOf(g)) == if f == g then Some(v) else None
    {
      FindField(f, v, [], g);
      FindNothing(g);
    }
    DecimalReads(n, 256);
    DecimalReads(n, TWO_64);
    NothingReads(b, 256);
    NothingReads(b, TWO_64);
  }

  lemma {:induction false} LeafNumber(b: Base64, f: FieldName, n: nat)
    requires f == Version || f == LeafType
    ensures ReadLeaf(b, [Number(f, n), Member(NameOf(Entry), Obj([]))]).Some? <==>
            n < if f == Version then 256 else TWO_64
  {
    hide NameOf, ReadNumber, ReadEntry, Decimal, Find;
    var v, w, ms := Simple(Decimal(n)), Obj([]), [Number(f, n), Member(NameOf(Entry), Obj([]))];
    assert [Member(NameOf(Entry), w)] == [Member(NameOf(Entry), w)] + [];
    assert ms == [Member(NameOf(f), v)] + [Member(NameOf(Entry), w)];
    forall g
      ensures Find(ms, NameOf(g)) == if f == g then Some(v) else if g == Entry then Some(w) else None
    {
      FindField(f, v, [Member(NameOf(Entry), w)], g);
      FindField(Entry, w, [], g);
      FindNothing(g);
    }
    DecimalReads(n, 256);
    DecimalReads(n, TWO_64);
    NothingReads(b, 256);
    NothingReads(b, TWO_64);
    AbsentEntry(b, f);
  }
}
