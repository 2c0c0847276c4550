/** Octets to sign and to hash, and log entries read back. */
module CtSerialization {
  import opened Bytes
  import opened TlsSchema
  import opened TlsTheorems
  import opened CtStructures

  type Hash = s: seq<Byte> | |s| == 32 witness seq(32, i => 0)

  const V1: Uint64 := 0
  const X509_ENTRY: Uint64 := 0
  const PRECERT_ENTRY: Uint64 := 1
  const XJSON_ENTRY: Uint64 := 0x8000
  const CERTIFICATE_TIMESTAMP_SIGNATURE: Uint64 := 0
  const TREE_HASH_SIGNATURE: Uint64 := 1
  const TREE_LEAF_PREFIX: Byte := 0

  datatype Asn1Cert = Asn1Cert(data: seq<Byte>)

  datatype PreCert = PreCert(issuerKeyHash: Hash, tbsCertificate: seq<Byte>)

  datatype JsonData = JsonData(data: seq<Byte>)

  /** Variants that a pointer may leave out are optional, whatever the entry type says. */
  datatype TimestampedEntry = TimestampedEntry(
    timestamp: Uint64, entryType: Uint64, x509: Option<Asn1Cert>, precert: Option<PreCert>,
    json: Option<JsonData>, extensions: seq<Byte>)

  datatype MerkleTreeLeaf = MerkleTreeLeaf(version: Uint64, leafType: Uint64, entry: Option<TimestampedEntry>)

  datatype SignedCertificateTimestamp = SignedCertificateTimestamp(
    version: Uint64, logId: Hash, timestamp: Uint64, extensions: seq<Byte>, signature: seq<Byte>)

  datatype SignedTreeHead = SignedTreeHead(
    version: Uint64, treeSize: Uint64, timestamp: Uint64, rootHash: Hash, signature: seq<Byte>, logId: Hash)

  datatype CtError =
    | UnknownVersion
    | UnknownEntryType
    | Codec(error: TlsError)
    | TrailingData
    | NilDereference                     // the Go program panics

  type CtResult<T> = Result<T, CtError>

  // ----- As codec values -----

  function CertValue(c: Asn1Cert): Value {
    Record([Octets(c.data)])
  }

  function PreCertValue(p: PreCert): Value {
    Record([Octets(p.issuerKeyHash), Octets(p.tbsCertificate)])
  }

  function JsonValue(j: JsonData): Value {
    Record([Octets(j.data)])
  }

  function Pointer<T>(p: Option<T>, f: T -> Value): Value {
    match p
    case None => NilRef
    case Some(x) => Ref(f(x))
  }

  function EntryTailValues(e: TimestampedEntry): seq<Value> {
    [Num(e.entryType), Pointer(e.x509, CertValue), Pointer(e.precert, PreCertValue), Pointer(e.json, JsonValue),
     Octets(e.extensions)]
  }

  function EntryValue(e: TimestampedEntry): Value {
    Record([Num(e.timestamp)] + EntryTailValues(e))
  }

  function LeafValue(l: MerkleTreeLeaf): Value {
    Record([Num(l.version), Num(l.leafType), Pointer(l.entry, EntryValue)])
  }

  function ChainValue(chain: seq<Asn1Cert>): Value {
    List(seq(|chain|, i requires 0 <= i < |chain| => CertValue(chain[i])))
  }

  function Encoded(t: Type, v: Value): CtResult<seq<Byte>> {
    match Marshal(t, v)
    case Ok(b) => Ok(b)
    case Err(e) => Err(Codec(e))
  }

  // ----- Signing and hashing inputs (serialization.go) -----

  function SerializeSctSignatureInput(sct: SignedCertificateTimestamp, leaf: MerkleTreeLeaf): CtResult<seq<Byte>> {
    if sct.version != V1 then Err(UnknownVersion)
    else if leaf.entry.None? then Err(NilDereference)
    else
      var e := leaf.entry.value;
      var empty := TimestampedEntry(sct.timestamp, e.entryType, None, None, None, sct.extensions);
      if e.entryType == X509_ENTRY then SctInput(sct.version, empty.(x509 := e.x509))
      else if e.entryType == PRECERT_ENTRY then
        if e.precert.None? then Err(NilDereference) else SctInput(sct.version, empty.(precert := e.precert))
      else if e.entryType == XJSON_ENTRY then SctInput(sct.version, empty.(json := e.json))
      else Err(UnknownEntryType)
  }

  function SctInput(version: Uint64, e: TimestampedEntry): CtResult<seq<Byte>> {
    Encoded(CERTIFICATE_TIMESTAMP, SctInputValue(version, e))
  }

  function SctInputValue(version: Uint64, e: TimestampedEntry): Value {
    Record([Num(version), Num(CERTIFICATE_TIMESTAMP_SIGNATURE), Num(e.timestamp)] + EntryTailValues(e))
  }

  function SerializeSthSignatureInput(sth: SignedTreeHead): CtResult<seq<Byte>> {
    if sth.version != V1 then Err(UnknownVersion) else Encoded(TREE_HEAD_SIGNATURE, SthInputValue(sth))
  }

  function SthInputValue(sth: SignedTreeHead): Value {
    Record([Num(sth.version), Num(TREE_HASH_SIGNATURE), Num(sth.timestamp), Num(sth.treeSize), Octets(sth.rootHash)])
  }

  /** The octets that LeafHashForLeaf hands to SHA-256. */
  function LeafHashInput(leaf: MerkleTreeLeaf): CtResult<seq<Byte>> {
    match Encoded(MERKLE_TREE_LEAF, LeafValue(leaf))
    case Ok(b) => Ok([TREE_LEAF_PREFIX] + b)
    case Err(e) => Err(e)
  }

  /** What the entry type makes of the entry: the parts a signature covers. */
  function Selected(e: TimestampedEntry): (Option<Asn1Cert>, Option<PreCert>, Option<JsonData>) {
    if e.entryType == X509_ENTRY then (e.x509, None, None)
    else if e.entryType == PRECERT_ENTRY then (None, e.precert, None)
    else (None, None, e.json)
  }

  /** Equal inputs to an SCT signature agree on everything the signature is about. */
  lemma SctInputsAreInjective(s: SignedCertificateTimestamp, l: MerkleTreeLeaf, s': SignedCertificateTimestamp,
                              l': MerkleTreeLeaf)
    requires SerializeSctSignatureInput(s, l).Ok?
    requires SerializeSctSignatureInput(s, l) == SerializeSctSignatureInput(s', l')
    ensures s.version == s'.version && s.timestamp == s'.timestamp && s.extensions == s'.extensions
    ensures l.entry.Some? && l'.entry.Some?
    ensures l.entry.value.entryType == l'.entry.value.entryType
    ensures Selected(l.entry.value) == Selected(l'.entry.value)
  {
    var e, e' := l.entry.value, l'.entry.value;
    var (x, p, j) := Selected(e);
    var (x', p', j') := Selected(e');
    var t := TimestampedEntry(s.timestamp, e.entryType, x, p, j, s.extensions);
    var t' := TimestampedEntry(s'.timestamp, e'.entryType, x', p', j', s'.extensions);
    assert SerializeSctSignatureInput(s, l) == SctInput(s.version, t);
    assert SerializeSctSignatureInput(s', l') == SctInput(s'.version, t');
    SctInputDetermines(s.version, t, s'.version, t');
  }

  lemma SctInputDetermines(v: Uint64, t: TimestampedEntry, v': Uint64, t': TimestampedEntry)
    requires SctInput(v, t).Ok? && SctInput(v, t) == SctInput(v', t')
    ensures v == v' && t == t'
  {
    CertificateTimestampIsRegular();
    RegularInjective(CERTIFICATE_TIMESTAMP, SctInputValue(v, t), SctInputValue(v', t'));
    var a, b := SctInputValue(v, t).fields, SctInputValue(v', t').fields;
    assert a[0] == b[0] && a[2] == b[2];
    assert EntryTailValues(t) == a[3..] && EntryTailValues(t') == b[3..];
    EntryTailDetermines(t, t');
  }

  lemma EntryTailDetermines(t: TimestampedEntry, t': TimestampedEntry)
    requires EntryTailValues(t) == EntryTailValues(t')
    ensures t == t'.(timestamp := t.timestamp)
  {
    var a, b := EntryTailValues(t), EntryTailValues(t');
    assert a[0] == b[0] && a[1] == b[1] && a[2] == b[2] && a[3] == b[3] && a[4] == b[4];
    SamePointer(t.x509, t'.x509, CertValue);
    SamePointer(t.precert, t'.precert, PreCertValue);
    SamePointer(t.json, t'.json, JsonValue);
    if t.x509.Some? {
      assert CertValue(t.x509.value).fields[0] == CertValue(t'.x509.value).fields[0];
    }
    if t.precert.Some? {
      var p, p' := PreCertValue(t.precert.value).fields, PreCertValue(t'.precert.value).fields;
      assert p[0] == p'[0] && p[1] == p'[1];
    }
    if t.json.Some? {
      assert JsonValue(t.json.value).fields[0] == JsonValue(t'.json.value).fields[0];
    }
  }

  lemma SamePointer<T>(p: Option<T>, q: Option<T>, f: T -> Value)
    requires Pointer(p, f) == Pointer(q, f)
    ensures p.Some? == q.Some? && (p.Some? ==> f(p.value) == f(q.value))
  {
  }

  lemma SthInputsAreInjective(s: SignedTreeHead, s': SignedTreeHead)
    requires SerializeSthSignatureInput(s).Ok? && SerializeSthSignatureInput(s) == SerializeSthSignatureInput(s')
    ensures s.version == s'.version && s.timestamp == s'.timestamp && s.treeSize == s'.treeSize
            && s.rootHash == s'.rootHash
  {
    TreeHeadIsRegular();
    RegularInjective(TREE_HEAD_SIGNATURE, SthInputValue(s), SthInputValue(s'));
    var a, b := SthInputValue(s).fields, SthInputValue(s').fields;
    assert a[0] == b[0] && a[2] == b[2] && a[3] == b[3] && a[4] == b[4];
  }

  /** The leaf octets that are hashed determine the leaf. */
  lemma LeafHashInputsAreInjective(l: MerkleTreeLeaf, l': MerkleTreeLeaf)
    requires LeafHashInput(l).Ok? && LeafHashInput(l) == LeafHashInput(l')
    ensures l == l'
  {
    LeafIsRegular();
    assert LeafHashInput(l).value[1..] == Marshal(MERKLE_TREE_LEAF, LeafValue(l)).value;
    assert LeafHashInput(l').value[1..] == Marshal(MERKLE_TREE_LEAF, LeafValue(l')).value;
    RegularInjective(MERKLE_TREE_LEAF, LeafValue(l), LeafValue(l'));
    LeafValueDetermines(l, l');
  }

  lemma LeafValueDetermines(l: MerkleTreeLeaf, l': MerkleTreeLeaf)
    requires LeafValue(l) == LeafValue(l')
    ensures l == l'
  {
    var a, b := LeafValue(l).fields, LeafValue(l').fields;
    assert a[0] == b[0] && a[1] == b[1] && a[2] == b[2];
    SamePointer(l.entry, l'.entry, EntryValue);
    if l.entry.Some? {
      var e, e' := l.entry.value, l'.entry.value;
      assert EntryValue(e).fields[0] == EntryValue(e').fields[0];
      assert EntryTailValues(e) == EntryValue(e).fields[1..] && EntryTailValues(e') == EntryValue(e').fields[1..];
      EntryTailDetermines(e, e');
    }
  }

  /** SCT and STH signatures never cover the same octets: the second one tells them apart. */
  lemma SctAndSthInputsDiffer(sct: SignedCertificateTimestamp, leaf: MerkleTreeLeaf, sth: SignedTreeHead)
    requires SerializeSctSignatureInput(sct, leaf).Ok? && SerializeSthSignatureInput(sth).Ok?
    ensures SerializeSctSignatureInput(sct, leaf).value != SerializeSthSignatureInput(sth).value
  {
    var e := leaf.entry.value;
    var (x, p, j) := Selected(e);
    var t := TimestampedEntry(sct.timestamp, e.entryType, x, p, j, sct.extensions);
    assert SerializeSctSignatureInput(sct, leaf) == SctInput(sct.version, t);
    SecondEnum(CERTIFICATE_TIMESTAMP.fields, SctInputValue(sct.version, t).fields);
    SecondEnum(TREE_HEAD_SIGNATURE.fields, SthInputValue(sth).fields);
  }

  lemma SecondEnum(fields: seq<Field>, vals: seq<Value>)
    requires |fields| >= 2 && forall i :: 0 <= i < 2 ==> fields[i].tag == ENUM8 && fields[i].typ == EnumType
    requires MarshalFields(fields, vals, EMPTY_SCOPE).Ok?
    ensures |vals| >= 2 && vals[1].Num?
    ensures |MarshalFields(fields, vals, EMPTY_SCOPE).value| >= 2
    ensures MarshalFields(fields, vals, EMPTY_SCOPE).value[1] == vals[1].n
  {
    EnumTag(fields[0], 255);
    EnumTag(fields[1], 255);
    EnumValue(fields[0], vals[0], EMPTY_SCOPE);
    var scope := MarshalOne(fields[0], vals[0], EMPTY_SCOPE).value.1;
    MarshalStep(fields, vals, EMPTY_SCOPE);
    MarshalStep(fields[1..], vals[1..], scope);
    EnumValue(fields[1], vals[1], scope);
    assert Pow256(1) == 256;
    assert ToBigEndian(vals[1].n, 1) == [vals[1].n];
  }

  // ----- Codec values as structures -----

  function CertOf(v: Value): Asn1Cert {
    if v.Record? && |v.fields| == 1 && v.fields[0].Octets? then Asn1Cert(v.fields[0].bytes) else Asn1Cert([])
  }

  function PreCertOf(v: Value): PreCert {
    if v.Record? && |v.fields| == 2 && v.fields[0].Octets? && |v.fields[0].bytes| == 32 && v.fields[1].Octets?
    then PreCert(v.fields[0].bytes, v.fields[1].bytes)
    else PreCert(seq(32, i => 0), [])
  }

  function JsonOf(v: Value): JsonData {
    JsonData(CertOf(v).data)
  }

  function Target<T>(v: Value, f: Value -> T): Option<T> {
    if v.Ref? then Some(f(v.target)) else None
  }

  function NumOf(v: Value): Uint64 {
    if v.Num? && v.n < 0x1_0000_0000_0000_0000 then v.n else 0
  }

  function EntryOf(v: Value): TimestampedEntry {
    if v.Record? && |v.fields| == 6 && v.fields[5].Octets? then
      TimestampedEntry(NumOf(v.fields[0]), NumOf(v.fields[1]), Target(v.fields[2], CertOf),
                       Target(v.fields[3], PreCertOf), Target(v.fields[4], JsonOf), v.fields[5].bytes)
    else TimestampedEntry(0, 0, None, None, None, [])
  }

  function LeafOf(v: Value): MerkleTreeLeaf {
    if v.Record? && |v.fields| == 3 then
      MerkleTreeLeaf(NumOf(v.fields[0]), NumOf(v.fields[1]), Target(v.fields[2], EntryOf))
    else MerkleTreeLeaf(0, 0, None)
  }

  function ChainOf(v: Value): seq<Asn1Cert> {
    if v.List? then seq(|v.elems|, i requires 0 <= i < |v.elems| => CertOf(v.elems[i])) else []
  }

  /** Exactly the variant that the entry type names is there. */
  predicate PicksVariant(e: TimestampedEntry) {
    && (e.entryType == X509_ENTRY || e.entryType == PRECERT_ENTRY || e.entryType == XJSON_ENTRY)
    && (e.x509.Some? <==> e.entryType == X509_ENTRY)
    && (e.precert.Some? <==> e.entryType == PRECERT_ENTRY)
    && (e.json.Some? <==> e.entryType == XJSON_ENTRY)
  }

  lemma MarshalStep(fields: seq<Field>, vals: seq<Value>, scope: Scope)
    requires fields != [] && MarshalFields(fields, vals, scope).Ok?
    ensures |vals| == |fields| && MarshalOne(fields[0], vals[0], scope).Ok?
    ensures MarshalFields(fields[1..], vals[1..], MarshalOne(fields[0], vals[0], scope).value.1).Ok?
  {
  }

  lemma CertShape(info: Option<FieldInfo>, v: Value)
    requires MarshalField(ASN1_CERT, info, v).Ok?
    ensures v == CertValue(CertOf(v))
  {
    MarshalStep(ASN1_CERT.fields, v.fields, EMPTY_SCOPE);
    RangeTag(ASN1_CERT.fields[0], 1, 16777215);
    assert v.fields == [v.fields[0]];
  }

  lemma PreCertShape(info: Option<FieldInfo>, v: Value)
    requires MarshalField(PRE_CERT, info, v).Ok?
    ensures v == PreCertValue(PreCertOf(v))
  {
    MarshalStep(PRE_CERT.fields, v.fields, EMPTY_SCOPE);
    MarshalStep(PRE_CERT.fields[1..], v.fields[1..], MarshalOne(PRE_CERT.fields[0], v.fields[0], EMPTY_SCOPE).value.1);
    RangeTag(PRE_CERT.fields[1], 1, 16777215);
    assert v.fields == [v.fields[0], v.fields[1]];
  }

  lemma JsonShape(info: Option<FieldInfo>, v: Value)
    requires MarshalField(JSON_DATA, info, v).Ok?
    ensures v == JsonValue(JsonOf(v))
  {
    MarshalStep(JSON_DATA.fields, v.fields, EMPTY_SCOPE);
    RangeTag(JSON_DATA.fields[0], 0, 1677215);
    assert v.fields == [v.fields[0]];
  }

  /** The variant rules, for one variant. */
  lemma VariantStep(name: string, selector: string, val: Uint64, t: Type, v: Value, scope: Scope)
    requires selector != "" && selector in scope.enums
    requires MarshalOne(Variant(name, selector, val, t), v, scope).Ok?
    ensures var scope' := MarshalOne(Variant(name, selector, val, t), v, scope).value.1;
            var seen := selector in scope.seen && scope.seen[selector];
            && scope'.enums == scope.enums && selector in scope'.seen
            && if scope.enums[selector] == val
               then v.Ref? && MarshalField(t, Some(EMPTY_INFO.(selector := selector, val := val)), v.target).Ok?
                    && scope'.seen[selector]
               else v.NilRef? && scope'.seen[selector] == seen
  {
    VariantTag(name, selector, val, t);
  }

  lemma EntryTailShape(vals: seq<Value>, scope: Scope)
    requires MarshalFields(ENTRY_TAIL, vals, scope).Ok? && "EntryType" !in scope.seen
    ensures |vals| == 5 && vals[4].Octets?
    ensures var e := TimestampedEntry(0, NumOf(vals[0]), Target(vals[1], CertOf), Target(vals[2], PreCertOf),
                                      Target(vals[3], JsonOf), vals[4].bytes);
            vals == EntryTailValues(e) && PicksVariant(e)
  {
    var f := ENTRY_TAIL;
    EnumTag(f[0], 65535);
    RangeTag(f[4], 0, 65535);
    MarshalStep(f, vals, scope);
    EnumValue(f[0], vals[0], scope);
    var scope' := scope.(enums := scope.enums["EntryType" := vals[0].n]);
    assert f[1..]
           == [Variant("X509Entry", "EntryType", 0, ASN1_CERT), Variant("PrecertEntry", "EntryType", 1, PRE_CERT),
               Variant("JSONEntry", "EntryType", 32768, JSON_DATA), f[4]];
    ThreeVariants("EntryType", ASN1_CERT, PRE_CERT, JSON_DATA, f[4], vals[1..], scope');
    VariantShapes(vals);
  }

  /** Three variants on one selector, then octets: the selector names one of them, and that one alone is present. */
  lemma ThreeVariants(sel: string, t0: Type, t1: Type, t2: Type, last: Field, vals: seq<Value>, scope: Scope)
    requires sel != "" && sel in scope.enums && sel !in scope.seen
    requires last.typ == OCTETS && FieldTagInfo(last).Ok? && FieldTagInfo(last).value.selector == ""
    requires var f := [Variant("X509Entry", sel, 0, t0), Variant("PrecertEntry", sel, 1, t1),
                       Variant("JSONEntry", sel, 32768, t2), last];
             MarshalFields(f, vals, scope).Ok?
    ensures var choice := scope.enums[sel];
            && |vals| == 4 && vals[3].Octets?
            && (choice == 0 || choice == 1 || choice == 32768)
            && (if choice == 0 then vals[0].Ref? && exists i :: MarshalField(t0, i, vals[0].target).Ok?
                else vals[0].NilRef?)
            && (if choice == 1 then vals[1].Ref? && exists i :: MarshalField(t1, i, vals[1].target).Ok?
                else vals[1].NilRef?)
            && (if choice == 32768 then vals[2].Ref? && exists i :: MarshalField(t2, i, vals[2].target).Ok?
                else vals[2].NilRef?)
  {
    var f := [Variant("X509Entry", sel, 0, t0), Variant("PrecertEntry", sel, 1, t1),
              Variant("JSONEntry", sel, 32768, t2), last];
    MarshalStep(f, vals, scope);
    VariantStep("X509Entry", sel, 0, t0, vals[0], scope);
    var s1 := MarshalOne(f[0], vals[0], scope).value.1;
    MarshalStep(f[1..], vals[1..], s1);
    VariantStep("PrecertEntry", sel, 1, t1, vals[1], s1);
    var s2 := MarshalOne(f[1], vals[1], s1).value.1;
    assert f[1..][1..] == f[2..] && vals[1..][1..] == vals[2..];
    MarshalStep(f[2..], vals[2..], s2);
    VariantStep("JSONEntry", sel, 32768, t2, vals[2], s2);
    var s3 := MarshalOne(f[2], vals[2], s2).value.1;
    assert f[2..][1..] == f[3..] && vals[2..][1..] == vals[3..];
    MarshalStep(f[3..], vals[3..], s3);
    OctetsValue(last, vals[3], s3);
    assert AllSeen(s3);
  }

  lemma EnumValue(f: Field, v: Value, scope: Scope)
    requires f.typ == EnumType && FieldTagInfo(f).Ok? && FieldTagInfo(f).value.selector == ""
    requires MarshalOne(f, v, scope).Ok?
    ensures v.Num? && v == Num(NumOf(v)) && Fits(FieldTagInfo(f).value, v.n)
    ensures MarshalOne(f, v, scope).value.0 == ToBigEndian(v.n, FieldTagInfo(f).value.count)
    ensures MarshalOne(f, v, scope).value.1 == scope.(enums := scope.enums[f.name := v.n])
  {
    assert Pow256(8) == 0x1_0000_0000_0000_0000 by { PowTable(); }
  }

  lemma OctetsValue(f: Field, v: Value, scope: Scope)
    requires f.typ == OCTETS && FieldTagInfo(f).Ok? && FieldTagInfo(f).value.selector == ""
    requires MarshalOne(f, v, scope).Ok?
    ensures v.Octets? && MarshalOne(f, v, scope).value.1 == scope
  {
  }

  lemma VariantShapes(vals: seq<Value>)
    requires |vals| == 5
    requires vals[1].NilRef? || (vals[1].Ref? && exists i :: MarshalField(ASN1_CERT, i, vals[1].target).Ok?)
    requires vals[2].NilRef? || (vals[2].Ref? && exists i :: MarshalField(PRE_CERT, i, vals[2].target).Ok?)
    requires vals[3].NilRef? || (vals[3].Ref? && exists i :: MarshalField(JSON_DATA, i, vals[3].target).Ok?)
    ensures vals[1] == Pointer(Target(vals[1], CertOf), CertValue)
    ensures vals[2] == Pointer(Target(vals[2], PreCertOf), PreCertValue)
    ensures vals[3] == Pointer(Target(vals[3], JsonOf), JsonValue)
  {
    if vals[1].Ref? {
      var i :| MarshalField(ASN1_CERT, i, vals[1].target).Ok?;
      CertShape(i, vals[1].target);
    }
    if vals[2].Ref? {
      var i :| MarshalField(PRE_CERT, i, vals[2].target).Ok?;
      PreCertShape(i, vals[2].target);
    }
    if vals[3].Ref? {
      var i :| MarshalField(JSON_DATA, i, vals[3].target).Ok?;
      JsonShape(i, vals[3].target);
    }
  }

  lemma EntryShape(info: Option<FieldInfo>, v: Value)
    requires MarshalField(TIMESTAMPED_ENTRY, info, v).Ok?
    ensures v == EntryValue(EntryOf(v)) && PicksVariant(EntryOf(v))
  {
    var f := TIMESTAMPED_ENTRY.fields;
    MarshalStep(f, v.fields, EMPTY_SCOPE);
    PowTable();
    assert f[1..] == ENTRY_TAIL && FieldTagInfo(f[0]) == Ok(EMPTY_INFO);
    EntryTailShape(v.fields[1..], MarshalOne(f[0], v.fields[0], EMPTY_SCOPE).value.1);
    assert v.fields == [v.fields[0]] + v.fields[1..];
    var e := EntryOf(v);
    assert EntryTailValues(e) == v.fields[1..];
  }

  /** A leaf that can be encoded has its entry, and the entry its variant. */
  lemma LeafShape(v: Value)
    requires Marshal(MERKLE_TREE_LEAF, v).Ok?
    ensures v == LeafValue(LeafOf(v)) && LeafOf(v).entry.Some? && PicksVariant(LeafOf(v).entry.value)
  {
    var f := MERKLE_TREE_LEAF.fields;
    EnumTag(f[0], 255);
    EnumTag(f[1], 255);
    OneVariant(f[0], f[1], "TimestampedEntry", TIMESTAMPED_ENTRY, v.fields);
    var info :| MarshalField(TIMESTAMPED_ENTRY, info, v.fields[2].target).Ok?;
    EntryShape(info, v.fields[2].target);
    assert v.fields == [v.fields[0], v.fields[1], v.fields[2]];
  }

  /** Two enums, the second of which must select the one variant that follows. */
  lemma OneVariant(a: Field, b: Field, name: string, t: Type, vals: seq<Value>)
    requires a.typ == EnumType && FieldTagInfo(a).Ok? && FieldTagInfo(a).value.selector == ""
    requires b.typ == EnumType && FieldTagInfo(b).Ok? && FieldTagInfo(b).value.selector == "" && b.name != ""
    requires MarshalFields([a, b, Variant(name, b.name, 0, t)], vals, EMPTY_SCOPE).Ok?
    ensures |vals| == 3 && vals[0] == Num(NumOf(vals[0])) && vals[1] == Num(NumOf(vals[1]))
    ensures vals[2].Ref? && exists info :: MarshalField(t, info, vals[2].target).Ok?
  {
    var f := [a, b, Variant(name, b.name, 0, t)];
    MarshalStep(f, vals, EMPTY_SCOPE);
    EnumValue(a, vals[0], EMPTY_SCOPE);
    var s1 := MarshalOne(a, vals[0], EMPTY_SCOPE).value.1;
    MarshalStep(f[1..], vals[1..], s1);
    EnumValue(b, vals[1], s1);
    var s2 := MarshalOne(b, vals[1], s1).value.1;
    assert f[1..][1..] == f[2..] && vals[1..][1..] == vals[2..];
    MarshalStep(f[2..], vals[2..], s2);
    VariantStep(name, b.name, 0, t, vals[2], s2);
    assert f[2..][1..] == [] && vals[2..][1..] == [];
    assert AllSeen(MarshalOne(f[2], vals[2], s2).value.1);
  }

  lemma {:induction false} CertsShape(vals: seq<Value>)
    requires MarshalElems(ASN1_CERT, vals).Ok?
    ensures forall i :: 0 <= i < |vals| ==> vals[i] == CertValue(CertOf(vals[i]))
  {
    if vals != [] {
      CertShape(None, vals[0]);
      CertsShape(vals[1..]);
      forall i | 0 <= i < |vals| ensures vals[i] == CertValue(CertOf(vals[i])) {
        if i > 0 {
          assert vals[i] == vals[1..][i - 1];
        }
      }
    }
  }

  lemma ChainShape(f: Field, v: Value, scope: Scope)
    requires f.typ == SliceType(ASN1_CERT) && f.tag == CHAIN_RANGE && MarshalOne(f, v, scope).Ok?
    ensures v == ChainValue(ChainOf(v))
  {
    RangeTag(f, 0, 16777215);
    CertsShape(v.elems);
  }

  lemma CertChainShape(v: Value)
    requires Marshal(CERTIFICATE_CHAIN, v).Ok?
    ensures v.Record? && |v.fields| == 1 && v == Record([ChainValue(ChainOf(v.fields[0]))])
  {
    MarshalStep(CERTIFICATE_CHAIN.fields, v.fields, EMPTY_SCOPE);
    ChainShape(CERTIFICATE_CHAIN.fields[0], v.fields[0], EMPTY_SCOPE);
    assert v.fields == [v.fields[0]];
  }

  lemma PrecertChainShape(v: Value)
    requires Marshal(PRECERT_CHAIN_ENTRY, v).Ok?
    ensures v.Record? && |v.fields| == 2
            && v == Record([CertValue(CertOf(v.fields[0])), ChainValue(ChainOf(v.fields[1]))])
  {
    var f := PRECERT_CHAIN_ENTRY.fields;
    MarshalStep(f, v.fields, EMPTY_SCOPE);
    RangeTag(f[0], 1, 16777215);
    CertShape(Some(FieldTagInfo(f[0]).value), v.fields[0]);
    var s1 := MarshalOne(f[0], v.fields[0], EMPTY_SCOPE).value.1;
    MarshalStep(f[1..], v.fields[1..], s1);
    ChainShape(f[1], v.fields[1], s1);
    assert v.fields == [v.fields[0], v.fields[1]];
  }

  // ----- Reading a log entry -----

  datatype RawLogEntry = RawLogEntry(index: int, leaf: MerkleTreeLeaf, cert: Asn1Cert, chain: seq<Asn1Cert>)

  function UnmarshalAll(t: Type, data: seq<Byte>): CtResult<Value> {
    match Unmarshal(t, data)
    case Err(e) => Err(Codec(e))
    case Ok((v, rest)) => if rest == [] then Ok(v) else Err(TrailingData)
  }

  /** Where the Go code follows a pointer, a nil one is reported as NilDereference. */
  method RawLogEntryFromLeaf(index: int, leafInput: seq<Byte>, extraData: seq<Byte>) returns (r: CtResult<RawLogEntry>)
    ensures r != Err(NilDereference)
    ensures forall e: RawLogEntry :: r == Ok(e) <==> e.index == index && IsEntryFor(e, leafInput, extraData)
  {
    var v := UnmarshalAll(MERKLE_TREE_LEAF, leafInput);
    if v.Err? {
      NotALeaf(leafInput);
      return Err(v.error);
    }
    var ret := RawLogEntry(index, LeafOf(v.value), Asn1Cert([]), []);
    LeafIsRegular();
    RegularCanonical(MERKLE_TREE_LEAF, leafInput);
    LeafShape(v.value);
    OnlyLeaf(ret.leaf, leafInput);
    if ret.leaf.entry.None? {
      return Err(NilDereference);
    }
    var entry := ret.leaf.entry.value;
    if entry.entryType == X509_ENTRY {
      var c := UnmarshalAll(CERTIFICATE_CHAIN, extraData);
      OnlyCertChain(extraData);
      if c.Err? {
        return Err(c.error);
      }
      if entry.x509.None? {
        return Err(NilDereference);
      }
      ret := ret.(cert := entry.x509.value, chain := ChainOf(c.value.fields[0]));
    } else if entry.entryType == PRECERT_ENTRY {
      var c := UnmarshalAll(PRECERT_CHAIN_ENTRY, extraData);
      OnlyPrecertChain(extraData);
      if c.Err? {
        return Err(c.error);
      }
      ret := ret.(cert := CertOf(c.value.fields[0]), chain := ChainOf(c.value.fields[1]));
    } else {
      return Err(UnknownEntryType);
    }
    return Ok(ret);
  }

  /** The leaf input and the extra data are the encodings of what the entry holds. */
  ghost predicate IsEntryFor(e: RawLogEntry, leafInput: seq<Byte>, extraData: seq<Byte>) {
    && Marshal(MERKLE_TREE_LEAF, LeafValue(e.leaf)) == Ok(leafInput)
    && e.leaf.entry.Some?
    && var entry := e.leaf.entry.value;
       || (entry.entryType == X509_ENTRY && entry.x509 == Some(e.cert)
           && Marshal(CERTIFICATE_CHAIN, Record([ChainValue(e.chain)])) == Ok(extraData))
       || (entry.entryType == PRECERT_ENTRY
           && Marshal(PRECERT_CHAIN_ENTRY, Record([CertValue(e.cert), ChainValue(e.chain)])) == Ok(extraData))
  }

  lemma NotALeaf(leafInput: seq<Byte>)
    requires UnmarshalAll(MERKLE_TREE_LEAF, leafInput).Err?
    ensures forall l: MerkleTreeLeaf :: Marshal(MERKLE_TREE_LEAF, LeafValue(l)) != Ok(leafInput)
  {
    LeafIsRegular();
    forall l: MerkleTreeLeaf | Marshal(MERKLE_TREE_LEAF, LeafValue(l)) == Ok(leafInput) ensures false {
      RegularRoundTrip(MERKLE_TREE_LEAF, LeafValue(l));
    }
  }

  lemma OnlyLeaf(leaf: MerkleTreeLeaf, leafInput: seq<Byte>)
    requires Marshal(MERKLE_TREE_LEAF, LeafValue(leaf)) == Ok(leafInput)
    ensures forall l: MerkleTreeLeaf :: Marshal(MERKLE_TREE_LEAF, LeafValue(l)) == Ok(leafInput) ==> l == leaf
  {
    LeafIsRegular();
    forall l: MerkleTreeLeaf | Marshal(MERKLE_TREE_LEAF, LeafValue(l)) == Ok(leafInput) ensures l == leaf {
      RegularInjective(MERKLE_TREE_LEAF, LeafValue(l), LeafValue(leaf));
      LeafValueDetermines(l, leaf);
    }
  }

  lemma ChainValueDetermines(a: seq<Asn1Cert>, b: seq<Asn1Cert>)
    requires ChainValue(a) == ChainValue(b)
    ensures a == b
  {
    assert |a| == |ChainValue(a).elems| && |b| == |ChainValue(b).elems|;
    forall i | 0 <= i < |a| ensures a[i] == b[i] {
      assert ChainValue(a).elems[i].fields[0] == ChainValue(b).elems[i].fields[0];
    }
  }

  lemma OnlyCertChain(extraData: seq<Byte>)
    ensures var c := UnmarshalAll(CERTIFICATE_CHAIN, extraData);
            && (c.Ok? ==> c.value.Record? && |c.value.fields| == 1)
            && forall chain :: Marshal(CERTIFICATE_CHAIN, Record([ChainValue(chain)])) == Ok(extraData)
                               <==> c.Ok? && chain == ChainOf(c.value.fields[0])
  {
    ChainsAreRegular();
    var c := UnmarshalAll(CERTIFICATE_CHAIN, extraData);
    if c.Ok? {
      RegularCanonical(CERTIFICATE_CHAIN, extraData);
      CertChainShape(c.value);
    }
    forall chain | Marshal(CERTIFICATE_CHAIN, Record([ChainValue(chain)])) == Ok(extraData)
      ensures c.Ok? && chain == ChainOf(c.value.fields[0])
    {
      RegularRoundTrip(CERTIFICATE_CHAIN, Record([ChainValue(chain)]));
      assert c.value.fields[0] == ChainValue(chain);
      CertChainShape(c.value);
      ChainValueDetermines(chain, ChainOf(c.value.fields[0]));
    }
  }

  lemma OnlyPrecertChain(extraData: seq<Byte>)
    ensures var c := UnmarshalAll(PRECERT_CHAIN_ENTRY, extraData);
            && (c.Ok? ==> c.value.Record? && |c.value.fields| == 2)
            && forall cert, chain ::
               Marshal(PRECERT_CHAIN_ENTRY, Record([CertValue(cert), ChainValue(chain)])) == Ok(extraData)
               <==> c.Ok? && cert == CertOf(c.value.fields[0]) && chain == ChainOf(c.value.fields[1])
  {
    ChainsAreRegular();
    var c := UnmarshalAll(PRECERT_CHAIN_ENTRY, extraData);
    if c.Ok? {
      RegularCanonical(PRECERT_CHAIN_ENTRY, extraData);
      PrecertChainShape(c.value);
    }
    forall cert, chain | Marshal(PRECERT_CHAIN_ENTRY, Record([CertValue(cert), ChainValue(chain)])) == Ok(extraData)
      ensures c.Ok? && cert == CertOf(c.value.fields[0]) && chain == ChainOf(c.value.fields[1])
    {
      RegularRoundTrip(PRECERT_CHAIN_ENTRY, Record([CertValue(cert), ChainValue(chain)]));
      assert c.value.fields[0] == CertValue(cert) && c.value.fields[1] == ChainValue(chain);
      PrecertChainShape(c.value);
      ChainValueDetermines(chain, ChainOf(c.value.fields[1]));
    }
  }
}
