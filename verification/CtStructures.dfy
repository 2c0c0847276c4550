/**
 The structures of section 3 of RFC 6962 as schemas of the TLS codec, the octets
 that are signed and hashed over them, and the reading of a log entry.
 */
module CtStructures {
  import opened Bytes
  import opened TlsSchema
  import opened TlsTheorems

  // ----- Schemas (types.go) -----

  const OCTETS := SliceType(Uint8Type)
  const ENUM8 := [MaxVal(255)]
  const CERT_RANGE := [MinLen(1), MaxLen(16777215)]
  const CHAIN_RANGE := [MinLen(0), MaxLen(16777215)]
  const EXTENSIONS_RANGE := [MinLen(0), MaxLen(65535)]

  const ASN1_CERT := StructType([Field("Data", CERT_RANGE, OCTETS)])
  const PRE_CERT := StructType([
                                 Field("IssuerKeyHash", [], ArrayType(32, Uint8Type)),
                                 Field("TBSCertificate", CERT_RANGE, OCTETS)])
  const JSON_DATA := StructType([Field("Data", [MinLen(0), MaxLen(1677215)], OCTETS)])

  function Variant(name: string, selector: string, val: Uint64, t: Type): Field {
    Field(name, [Selector(selector), Val(val)], PointerType(t))
  }

  /** From the entry type on, signed timestamps and leaf entries are laid out alike. */
  const ENTRY_TAIL: seq<Field> := [
    Field("EntryType", [MaxVal(65535)], EnumType),
    Variant("X509Entry", "EntryType", 0, ASN1_CERT),
    Variant("PrecertEntry", "EntryType", 1, PRE_CERT),
    Variant("JSONEntry", "EntryType", 32768, JSON_DATA),
    Field("Extensions", EXTENSIONS_RANGE, OCTETS)]

  const TIMESTAMPED_ENTRY := StructType([Field("Timestamp", [], Uint64Type)] + ENTRY_TAIL)

  const CERTIFICATE_TIMESTAMP := StructType([
                                              Field("SCTVersion", ENUM8, EnumType),
                                              Field("SignatureType", ENUM8, EnumType),
                                              Field("Timestamp", [], Uint64Type)] + ENTRY_TAIL)

  const TREE_HEAD_SIGNATURE := StructType([
                                            Field("Version", ENUM8, EnumType),
                                            Field("SignatureType", ENUM8, EnumType),
                                            Field("Timestamp", [], Uint64Type),
                                            Field("TreeSize", [], Uint64Type),
                                            Field("SHA256RootHash", [], ArrayType(32, Uint8Type))])

  const MERKLE_TREE_LEAF := StructType([
                                         Field("Version", ENUM8, EnumType),
                                         Field("LeafType", ENUM8, EnumType),
                                         Variant("TimestampedEntry", "LeafType", 0, TIMESTAMPED_ENTRY)])

  const CERTIFICATE_CHAIN := StructType([Field("Entries", CHAIN_RANGE, SliceType(ASN1_CERT))])

  const PRECERT_CHAIN_ENTRY := StructType([
                                            Field("PreCertificate", CERT_RANGE, ASN1_CERT),
                                            Field("CertificateChain", CHAIN_RANGE, SliceType(ASN1_CERT))])

  // ----- Schemas whose every encodable value can be read back -----

  predicate Sized(t: Type, info: Option<FieldInfo>)
    decreases t, 0
  {
    match t
    case EnumType => info.Some? && info.value.countSet
    case StructType(fields) => forall i :: 0 <= i < |fields| ==> SizedOne(fields[i])
    case SliceType(elem) =>
      info.Some? && info.value.countSet && (IsByteKind(elem) || (NonEmpty(elem, None) && Sized(elem, None)))
    case PointerType(elem) => Sized(elem, info)
    case _ => true
  }

  predicate SizedOne(f: Field)
    decreases f, 0
  {
    FieldTagInfo(f).Ok? && Sized(f.typ, Some(FieldTagInfo(f).value))
  }

  lemma {:induction false} SizedIsReadable(t: Type, info: Option<FieldInfo>, v: Value)
    requires Sized(t, info) && MarshalField(t, info, v).Ok?
    ensures Readable(t, info, v)
    decreases t, 0
  {
    match t
    case StructType(fields) => SizedFieldsAreReadable(fields, v.fields, EMPTY_SCOPE);
    case SliceType(elem) =>
      if !IsByteKind(elem) {
        SizedElemsAreReadable(elem, v.elems);
      }
    case _ =>
  }

  lemma {:induction false} SizedElemsAreReadable(elem: Type, vals: seq<Value>)
    requires Sized(elem, None) && MarshalElems(elem, vals).Ok?
    ensures forall e :: e in vals ==> Readable(elem, None, e)
    decreases elem, |vals| + 1
  {
    if vals != [] {
      SizedIsReadable(elem, None, vals[0]);
      SizedElemsAreReadable(elem, vals[1..]);
    }
  }

  lemma {:induction false} SizedFieldsAreReadable(fields: seq<Field>, vals: seq<Value>, scope: Scope)
    requires (forall i :: 0 <= i < |fields| ==> SizedOne(fields[i])) && MarshalFields(fields, vals, scope).Ok?
    ensures ReadableFields(fields, vals)
    decreases fields, 0
  {
    if fields != [] {
      SizedOneIsReadable(fields[0], vals[0], scope);
      SizedFieldsAreReadable(fields[1..], vals[1..], MarshalOne(fields[0], vals[0], scope).value.1);
    }
  }

  lemma {:induction false} SizedOneIsReadable(f: Field, v: Value, scope: Scope)
    requires SizedOne(f) && MarshalOne(f, v, scope).Ok?
    ensures ReadableOne(f, v)
    decreases f, 0
  {
    var info := FieldTagInfo(f).value;
    match Choose(info, f.typ, scope)
    case Take(_) => SizedIsReadable(f.typ.elem, Some(info), v.target);
    case Plain => SizedIsReadable(f.typ, Some(info), v);
    case _ =>
  }

  /** For such a schema without Uint24 the codec is a pair of mutually inverse functions. */
  predicate Regular(t: Type) {
    Sized(t, None) && Uint24Free(t)
  }

  lemma RegularRoundTrip(t: Type, v: Value)
    requires Regular(t) && Marshal(t, v).Ok?
    ensures Unmarshal(t, Marshal(t, v).value) == Ok((v, []))
  {
    SizedIsReadable(t, None, v);
    UnmarshalInvertsMarshal(t, v, []);
    assert Marshal(t, v).value + [] == Marshal(t, v).value;
  }

  lemma RegularInjective(t: Type, v: Value, w: Value)
    requires Regular(t) && Marshal(t, v).Ok? && Marshal(t, v) == Marshal(t, w)
    ensures v == w
  {
    RegularRoundTrip(t, v);
    RegularRoundTrip(t, w);
  }

  lemma RegularCanonical(t: Type, data: seq<Byte>)
    requires Regular(t) && Unmarshal(t, data).Ok? && Unmarshal(t, data).value.1 == []
    ensures Marshal(t, Unmarshal(t, data).value.0) == Ok(data)
  {
    DecodingIsCanonical(data, t, None, data);
    var b := Marshal(t, Unmarshal(t, data).value.0).value;
    assert b + [] == b;
  }

  // ----- The schemas of RFC 6962 are regular -----

  lemma RangeTag(f: Field, lo: Uint64, hi: Uint64)
    requires f.tag == [MinLen(lo), MaxLen(hi)] && lo <= hi
    ensures FieldTagInfo(f) == Ok(FieldInfo(ByteCount(hi), true, lo, hi, "", 0))
  {
    assert f.tag[1..] == [MaxLen(hi)] && f.tag[1..][1..] == [];
    var one := EMPTY_INFO.(minlen := lo);
    assert FoldClauses(None, f.tag) == FoldClauses(Some(one), f.tag[1..]);
    assert FoldClauses(Some(one), f.tag[1..]) == FoldClauses(Some(ApplyClause(Some(one), MaxLen(hi))), []);
  }

  lemma EnumTag(f: Field, limit: Uint64)
    requires f.tag == [MaxVal(limit)]
    ensures FieldTagInfo(f) == Ok(EMPTY_INFO.(count := ByteCount(limit), countSet := true))
  {
    assert f.tag[1..] == [];
    assert FoldClauses(None, f.tag) == FoldClauses(Some(ApplyClause(None, MaxVal(limit))), []);
  }

  lemma VariantTag(name: string, selector: string, val: Uint64, t: Type)
    ensures FieldTagInfo(Variant(name, selector, val, t)) == Ok(EMPTY_INFO.(selector := selector, val := val))
            || selector == ""
  {
    var tag := [Selector(selector), Val(val)];
    assert tag[1..] == [Val(val)] && tag[1..][1..] == [];
    var one := EMPTY_INFO.(selector := selector);
    assert FoldClauses(None, tag) == FoldClauses(Some(one), tag[1..]);
    assert FoldClauses(Some(one), tag[1..]) == FoldClauses(Some(ApplyClause(Some(one), Val(val))), []);
  }

  predicate RegularOne(f: Field) {
    SizedOne(f) && Uint24Free(f.typ)
  }

  lemma RegularStruct(fields: seq<Field>)
    requires forall i :: 0 <= i < |fields| ==> RegularOne(fields[i])
    ensures Regular(StructType(fields))
  {
  }

  lemma OctetsField(name: string, lo: Uint64, hi: Uint64)
    requires lo <= hi
    ensures RegularOne(Field(name, [MinLen(lo), MaxLen(hi)], OCTETS))
  {
    RangeTag(Field(name, [MinLen(lo), MaxLen(hi)], OCTETS), lo, hi);
  }

  lemma EnumField(name: string, limit: Uint64)
    ensures RegularOne(Field(name, [MaxVal(limit)], EnumType))
  {
    EnumTag(Field(name, [MaxVal(limit)], EnumType), limit);
  }

  lemma VariantField(name: string, selector: string, val: Uint64, fields: seq<Field>)
    requires selector != "" && Regular(StructType(fields))
    ensures RegularOne(Variant(name, selector, val, StructType(fields)))
  {
    VariantTag(name, selector, val, StructType(fields));
  }

  lemma StructField(name: string, lo: Uint64, hi: Uint64, fields: seq<Field>)
    requires lo <= hi && Regular(StructType(fields))
    ensures RegularOne(Field(name, [MinLen(lo), MaxLen(hi)], StructType(fields)))
    ensures NonEmpty(StructType(fields), None) ==>
              RegularOne(Field(name, [MinLen(lo), MaxLen(hi)], SliceType(StructType(fields))))
  {
    RangeTag(Field(name, [MinLen(lo), MaxLen(hi)], StructType(fields)), lo, hi);
    RangeTag(Field(name, [MinLen(lo), MaxLen(hi)], SliceType(StructType(fields))), lo, hi);
  }

  lemma CertIsRegular()
    ensures Regular(ASN1_CERT) && NonEmpty(ASN1_CERT, None)
  {
    OctetsField("Data", 1, 16777215);
    RegularStruct(ASN1_CERT.fields);
    RangeTag(ASN1_CERT.fields[0], 1, 16777215);
    assert NonEmptyOne(ASN1_CERT.fields[0]);
  }

  lemma EntryTailIsRegular(i: nat)
    requires i < |ENTRY_TAIL|
    ensures RegularOne(ENTRY_TAIL[i])
  {
    if i == 0 {
      EnumField("EntryType", 65535);
    } else if i == 1 {
      CertIsRegular();
      VariantField("X509Entry", "EntryType", 0, ASN1_CERT.fields);
    } else if i == 2 {
      OctetsField("TBSCertificate", 1, 16777215);
      RegularStruct(PRE_CERT.fields);
      VariantField("PrecertEntry", "EntryType", 1, PRE_CERT.fields);
    } else if i == 3 {
      OctetsField("Data", 0, 1677215);
      RegularStruct(JSON_DATA.fields);
      VariantField("JSONEntry", "EntryType", 32768, JSON_DATA.fields);
    } else {
      OctetsField("Extensions", 0, 65535);
    }
  }

  lemma EntryIsRegular()
    ensures Regular(TIMESTAMPED_ENTRY)
  {
    forall i | 0 <= i < |TIMESTAMPED_ENTRY.fields| ensures RegularOne(TIMESTAMPED_ENTRY.fields[i]) {
      if i > 0 {
        EntryTailIsRegular(i - 1);
      }
    }
    RegularStruct(TIMESTAMPED_ENTRY.fields);
  }

  lemma LeafIsRegular()
    ensures Regular(MERKLE_TREE_LEAF)
  {
    EntryIsRegular();
    EnumField("Version", 255);
    EnumField("LeafType", 255);
    VariantField("TimestampedEntry", "LeafType", 0, TIMESTAMPED_ENTRY.fields);
    RegularStruct(MERKLE_TREE_LEAF.fields);
  }

  lemma CertificateTimestampIsRegular()
    ensures Regular(CERTIFICATE_TIMESTAMP)
  {
    EnumField("SCTVersion", 255);
    EnumField("SignatureType", 255);
    forall i | 0 <= i < |CERTIFICATE_TIMESTAMP.fields| ensures RegularOne(CERTIFICATE_TIMESTAMP.fields[i]) {
      if i > 2 {
        EntryTailIsRegular(i - 3);
      }
    }
    RegularStruct(CERTIFICATE_TIMESTAMP.fields);
  }

  lemma TreeHeadIsRegular()
    ensures Regular(TREE_HEAD_SIGNATURE)
  {
    EnumField("Version", 255);
    EnumField("SignatureType", 255);
    RegularStruct(TREE_HEAD_SIGNATURE.fields);
  }

  lemma ChainsAreRegular()
    ensures Regular(CERTIFICATE_CHAIN) && Regular(PRECERT_CHAIN_ENTRY)
  {
    CertIsRegular();
    StructField("Entries", 0, 16777215, ASN1_CERT.fields);
    StructField("PreCertificate", 1, 16777215, ASN1_CERT.fields);
    StructField("CertificateChain", 0, 16777215, ASN1_CERT.fields);
    RegularStruct(CERTIFICATE_CHAIN.fields);
    RegularStruct(PRECERT_CHAIN_ENTRY.fields);
  }
}
