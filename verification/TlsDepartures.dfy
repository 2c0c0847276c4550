/**
 Where the TLS codec departs from what its schemas say: sizes of eight octets, elements
 without octets, and Uint24 fields that are not at the front of their buffer.
 */
module TlsDepartures {
  import opened Bytes
  import opened TlsReadings
  import opened TlsSchema
  import opened TlsTheorems

  // ----- Sizes -----

  /** Eight octets and more: `1 << 64` is 0, so nothing of that size is ever read or written. */
  lemma EightOctetSizesAreUnusable(buf: Option<seq<Byte>>, t: Type, info: FieldInfo, v: Value, rest: seq<Byte>)
    requires (t.EnumType? || t.SliceType?) && info.count >= 8 && (buf.Some? ==> |rest| <= |buf.value|)
    ensures ParseField(buf, t, Some(info), rest).Err?
    ensures MarshalField(t, Some(info), v).Err?
  {
  }

  /** The declared size and range leave a number that can stand in front. */
  predicate Usable(info: FieldInfo) {
    info.count < 8 && (info.maxlen != 0 ==> info.minlen <= info.maxlen && info.minlen < Pow256(info.count))
  }

  function Least(info: FieldInfo): nat {
    if info.maxlen == 0 then 0 else info.minlen
  }

  lemma UsableMeans(info: FieldInfo)
    ensures Usable(info) <==> exists n: nat :: Fits(info, n)
    ensures Usable(info) ==> Fits(info, Least(info))
  {
    if Usable(info) {
      assert Fits(info, Least(info));
    }
  }

  /** A value of an enumeration or byte vector with `n` in front. */
  function Sample(t: Type, n: nat): Value {
    if t.EnumType? then Num(n) else Octets(seq(n, i => 0))
  }

  lemma SampleIsWritten(t: Type, info: FieldInfo)
    requires info.countSet && (t.EnumType? || (t.SliceType? && IsByteKind(t.elem))) && Usable(info)
    ensures MarshalField(t, Some(info), Sample(t, Least(info))).Ok? && Readable(t, Some(info), Sample(t, Least(info)))
  {
    UsableMeans(info);
    Pow256Mono(info.count, 8);
  }

  lemma SampleIsRead(t: Type, info: FieldInfo) returns (data: seq<Byte>)
    requires info.countSet && (t.EnumType? || (t.SliceType? && IsByteKind(t.elem))) && Usable(info)
    ensures ParseField(Some(data), t, Some(info), data).Ok?
  {
    SampleIsWritten(t, info);
    var v := Sample(t, Least(info));
    MarshalThenParse(t, Some(info), v, []);
    data := MarshalField(t, Some(info), v).value + [];
    SameSized(t, info, data);
  }

  lemma SizedFits(t: Type, info: FieldInfo, v: Value, data: seq<Byte>)
    requires info.countSet && (t.EnumType? || (t.SliceType? && IsByteKind(t.elem)))
    ensures MarshalField(t, Some(info), v).Ok? ==> Usable(info)
    ensures ParseField(Some(data), t, Some(info), data).Ok? ==> Usable(info)
  {
  }

  /** An enumeration or byte vector can be written, and read, at all exactly if its size and range are usable. */
  lemma SizesAreUsableIff(t: Type, info: FieldInfo)
    requires info.countSet && (t.EnumType? || (t.SliceType? && IsByteKind(t.elem)))
    ensures Usable(info) <==> exists v :: MarshalField(t, Some(info), v).Ok?
    ensures Usable(info) <==> exists data :: ParseField(Some(data), t, Some(info), data).Ok?
  {
    if Usable(info) {
      SampleIsWritten(t, info);
      var data := SampleIsRead(t, info);
    }
    forall v ensures MarshalField(t, Some(info), v).Ok? ==> Usable(info) {
      SizedFits(t, info, v, []);
    }
    forall data ensures ParseField(Some(data), t, Some(info), data).Ok? ==> Usable(info) {
      SizedFits(t, info, NilRef, data);
    }
  }

  lemma SameSized(t: Type, info: FieldInfo, data: seq<Byte>)
    requires t.EnumType? || (t.SliceType? && IsByteKind(t.elem))
    ensures ParseField(Some(data), t, Some(info), data) == ParseField(None, t, Some(info), data)
  {
  }

  /** Elements without octets vanish: any number of them encodes to what none of them does. */
  lemma {:induction false} EmptyElementsVanish(elem: Type, vals: seq<Value>)
    requires !NonEmpty(elem, None)
    requires MarshalElems(elem, vals).Ok? && forall v :: v in vals ==> Readable(elem, None, v)
    ensures MarshalElems(elem, vals) == Ok([])
  {
    if vals != [] {
      EncodedWidth(elem, None, vals[0]);
      EmptyElementsVanish(elem, vals[1..]);
      var none: seq<Byte> := [];
      assert none + none == none;
    }
  }

  // ----- Misplaced Uint24 -----

  lemma {:induction false} FieldAtFront(buf: seq<Byte>, fields: seq<Field>, vals: seq<Value>, j: nat)
    requires AtFrontFields(buf, fields, vals) && j < |fields| && fields[j].typ.Uint24Type?
    ensures |vals| == |fields| && |buf| >= 3 && vals[j] == Num(BigEndian(buf[..3]))
    decreases fields
  {
    if j == 0 {
      assert AtFront(buf, fields[0].typ, vals[0]);
    } else {
      FieldAtFront(buf, fields[1..], vals[1..], j - 1);
    }
  }

  /**
   Changing a Uint24 of an encodable record leaves it encodable and readable, and leaves the
   first octet alone if a field before it takes room.
   */
  lemma {:induction false} Uint24Changed(fields: seq<Field>, vals: seq<Value>, scope: Scope, j: nat, x: nat)
    requires MarshalFields(fields, vals, scope).Ok? && ReadableFields(fields, vals)
    requires j < |fields| && fields[j].typ.Uint24Type? && x <= 0xffffff
    ensures |fields| == |vals|
    ensures MarshalFields(fields, vals[j := Num(x)], scope).Ok? && ReadableFields(fields, vals[j := Num(x)])
    ensures SomeNonEmpty(fields[..j]) ==>
              && MarshalFields(fields, vals, scope).value != []
              && MarshalFields(fields, vals[j := Num(x)], scope).value != []
              && MarshalFields(fields, vals[j := Num(x)], scope).value[0] == MarshalFields(fields, vals, scope).value[0]
    decreases fields, 0
  {
    var (b, scope') := MarshalOne(fields[0], vals[0], scope).value;
    if j == 0 {
      var info := FieldTagInfo(fields[0]).value;
      assert Choose(info, Uint24Type, scope).Plain?;
      assert MarshalField(Uint24Type, Some(info), vals[0]).Ok?;
      FourOctets(x);
      assert MarshalOne(fields[0], Num(x), scope) == Ok((ToBigEndian(x, 3), scope'));
      assert vals[0 := Num(x)][1..] == vals[1..];
    } else {
      Uint24Changed(fields[1..], vals[1..], scope', j - 1, x);
      assert vals[j := Num(x)][1..] == vals[1..][j - 1 := Num(x)];
      assert fields[..j][1..] == fields[1..][..j - 1];
      EncodedWidthOne(fields[0], vals[0], scope);
    }
  }

  lemma FourOctets(x: nat)
    requires x <= 0xffffff
    ensures MarshalField(Uint24Type, None, Num(x)) == Ok(ToBigEndian(x, 3))
    ensures x < Pow256(4)
  {
    PowTable();
  }

  /**
   A Uint24 behind a field that takes room: next to every record the encoder accepts and
   RFC 5246 reads back there is one, different in that Uint24 only, that the code does not
   read back.
   */
  lemma MisplacedUint24IsMisread(fields: seq<Field>, vals: seq<Value>, j: nat)
    requires Marshal(StructType(fields), Record(vals)).Ok? && Readable(StructType(fields), None, Record(vals))
    requires j < |fields| && fields[j].typ.Uint24Type? && SomeNonEmpty(fields[..j])
    ensures |vals| == |fields|
    ensures exists x: nat ::
              var w := Record(vals[j := Num(x)]);
              && Marshal(StructType(fields), w).Ok? && Readable(StructType(fields), None, w)
              && forall tail ::
                 Unmarshal(StructType(fields), Marshal(StructType(fields), w).value + tail) != Ok((w, tail))
  {
    var b := MarshalFields(fields, vals, EMPTY_SCOPE);
    Uint24Changed(fields, vals, EMPTY_SCOPE, j, 0);
    var x: nat := if b.value[0] == 0 then 0x10000 else 0;
    Uint24Changed(fields, vals, EMPTY_SCOPE, j, x);
    var t, w := StructType(fields), Record(vals[j := Num(x)]);
    forall tail ensures Unmarshal(t, Marshal(t, w).value + tail) != Ok((w, tail)) {
      var data := Marshal(t, w).value + tail;
      assert data[0] == b.value[0];
      CodeReadsBackIff(t, None, w, tail);
      if AtFrontFields(data, fields, w.fields) {
        FieldAtFront(data, fields, w.fields, j);
        LeadingOctet(data);
      }
    }
  }

  lemma LeadingOctet(data: seq<Byte>)
    requires |data| >= 3
    ensures var lead: int := data[0]; lead * 0x10000 <= BigEndian(data[..3]) < (lead + 1) * 0x10000
  {
    BigEndianConcat(data[..1], data[1..3]);
    assert data[..3] == data[..1] + data[1..3];
    BigEndianBound(data[1..3]);
    BigEndianSnoc([], data[0]);
    assert data[..1] == [] + [data[0]];
    assert Pow256(2) == 0x10000;
  }

  /**
   A struct with one Uint24, if it has any readable record, is read back in all of them
   exactly if no field before the Uint24 takes room.
   */
  lemma Uint24IsReadBackIff(fields: seq<Field>, j: nat, vals: seq<Value>)
    requires j < |fields| && fields[j].typ.Uint24Type?
    requires forall i :: 0 <= i < |fields| && i != j ==> Uint24Free(fields[i].typ)
    requires Marshal(StructType(fields), Record(vals)).Ok? && Readable(StructType(fields), None, Record(vals))
    ensures !SomeNonEmpty(fields[..j]) <==>
              forall v, tail :: Marshal(StructType(fields), v).Ok? && Readable(StructType(fields), None, v) ==>
                Unmarshal(StructType(fields), Marshal(StructType(fields), v).value + tail) == Ok((v, tail))
  {
    var t := StructType(fields);
    if SomeNonEmpty(fields[..j]) {
      MisplacedUint24IsMisread(fields, vals, j);
      var x: nat :| var w := Record(vals[j := Num(x)]);
                    && Marshal(t, w).Ok? && Readable(t, None, w)
                    && forall tail :: Unmarshal(t, Marshal(t, w).value + tail) != Ok((w, tail));
      var w := Record(vals[j := Num(x)]);
      var tail: seq<Byte> := [];
      assert Unmarshal(t, Marshal(t, w).value + tail) != Ok((w, tail));
    } else {
      FrontMeans(fields, j);
      forall v, tail | Marshal(t, v).Ok? && Readable(t, None, v)
        ensures Unmarshal(t, Marshal(t, v).value + tail) == Ok((v, tail))
      {
        UnmarshalInvertsMarshal(t, v, tail);
      }
    }
  }

  lemma {:induction false} FrontMeans(fields: seq<Field>, j: nat)
    requires j < |fields| && fields[j].typ.Uint24Type? && !SomeNonEmpty(fields[..j])
    requires forall i :: 0 <= i < |fields| && i != j ==> Uint24Free(fields[i].typ)
    ensures FrontOnlyFields(fields)
    decreases j
  {
    if j > 0 {
      assert fields[..j][1..] == fields[1..][..j - 1];
      FrontMeans(fields[1..], j - 1);
    }
  }

  /** An octet and then a Uint24: the code reads the value that stands there exactly if all four octets are the same. */
  lemma OctetThenUint24(fa: Field, fb: Field, data: seq<Byte>)
    requires |data| == 4 && fa.typ == Uint8Type && fb.typ == Uint24Type && fa.tag == [] && fb.tag == []
    ensures ParseField(None, StructType([fa, fb]), None, data)
            == Ok((Record([Num(BigEndian(data[..1])), Num(BigEndian(data[1..]))]), []))
    ensures Unmarshal(StructType([fa, fb]), data)
            == Ok((Record([Num(BigEndian(data[..1])), Num(BigEndian(data[..3]))]), []))
    ensures BigEndian(data[..3]) == BigEndian(data[1..]) <==> data[0] == data[1] == data[2] == data[3]
  {
    assert FieldTagInfo(fa) == Ok(EMPTY_INFO) && FieldTagInfo(fb) == Ok(EMPTY_INFO);
    DecodeTwo(Some(data), fa, fb, data);
    DecodeTwo(None, fa, fb, data);
    assert data[1..][..3] == data[1..];
    EncodeDecode(data[..3]);
    EncodeDecode(data[1..]);
    assert data[..3] == [data[0], data[1], data[2]] && data[1..] == [data[1], data[2], data[3]];
  }

  lemma DecodeTwo(buf: Option<seq<Byte>>, fa: Field, fb: Field, data: seq<Byte>)
    requires |data| == 4 && fa.typ == Uint8Type && fb.typ == Uint24Type && (buf.Some? ==> buf.value == data)
    requires FieldTagInfo(fa) == Ok(EMPTY_INFO) && FieldTagInfo(fb) == Ok(EMPTY_INFO)
    ensures ParseField(buf, StructType([fa, fb]), None, data)
            == Ok((Record([Num(BigEndian(data[..1])),
                           Num(BigEndian(if buf.Some? then data[..3] else data[1..][..3]))]), []))
  {
    var a, b := Num(BigEndian(data[..1])), Num(BigEndian(if buf.Some? then data[..3] else data[1..][..3]));
    assert [fa, fb][1..] == [fb] && [fb][1..] == [] && data[1..][3..] == [];
    assert ParseOne(buf, fa, data, EMPTY_SCOPE) == Ok((a, data[1..], EMPTY_SCOPE));
    assert ParseOne(buf, fb, data[1..], EMPTY_SCOPE) == Ok((b, [], EMPTY_SCOPE));
    assert ParseFields(buf, [], [], EMPTY_SCOPE) == Ok(([], []));
    assert [b] + [] == [b] && [a] + [b] == [a, b];
    assert ParseFields(buf, [fb], data[1..], EMPTY_SCOPE) == Ok(([b], []));
    assert ParseFields(buf, [fa, fb], data, EMPTY_SCOPE) == Ok(([a, b], []));
  }

  // ----- Vectors of Uint24 -----

  const UINT24S := SliceType(Uint24Type)

  /** The elements take three octets each, the first of them in front. */
  lemma {:induction false} ElementsAreWritten(vals: seq<Value>)
    requires MarshalElems(Uint24Type, vals).Ok?
    ensures |MarshalElems(Uint24Type, vals).value| == 3 * |vals|
    ensures forall v :: v in vals ==> v.Num?
    ensures vals != [] ==>
              && vals[0].n <= 0xffffff
              && MarshalElems(Uint24Type, vals).value[..3] == ToBigEndian(vals[0].n, 3)
  {
    if vals != [] {
      ElementsAreWritten(vals[1..]);
    }
  }

  /** A one, with nothing but zeros before and after it. */
  function Sparse(n: nat): seq<Value>
    requires n >= 2
  {
    [Num(0), Num(1)] + seq(n - 2, i => Num(0))
  }

  lemma {:induction false} SmallElementsEncode(vals: seq<Value>)
    requires forall v :: v in vals ==> v.Num? && v.n <= 1
    ensures MarshalElems(Uint24Type, vals).Ok?
  {
    if vals != [] {
      FourOctets(vals[0].n);
      assert MarshalField(Uint24Type, None, vals[0]).Ok?;
      SmallElementsEncode(vals[1..]);
    }
  }

  /** The elements of a vector of Uint24 are all at the front exactly if they are all the same. */
  lemma UniformIsAtFront(vals: seq<Value>)
    requires MarshalElems(Uint24Type, vals).Ok?
    ensures AllAtFront(MarshalElems(Uint24Type, vals).value, Uint24Type, vals)
            <==> forall i :: 0 <= i < |vals| ==> vals[i] == vals[0]
  {
    ElementsAreWritten(vals);
    if vals != [] {
      var inner := MarshalElems(Uint24Type, vals).value;
      assert Pow256(3) == 0x1000000;
      DecodeEncode(vals[0].n, 3);
      assert forall i :: 0 <= i < |vals| ==> (AtFront(inner, Uint24Type, vals[i]) <==> vals[i] == vals[0]);
    }
  }

  /** A vector of Uint24 is read back exactly if its elements are all the same. */
  lemma Uint24VectorIsReadBackIff(info: FieldInfo, v: Value, tail: seq<Byte>)
    requires MarshalField(UINT24S, Some(info), v).Ok? && Readable(UINT24S, Some(info), v)
    ensures var data := MarshalField(UINT24S, Some(info), v).value + tail;
            ParseField(Some(data), UINT24S, Some(info), data) == Ok((v, tail))
            <==> forall i :: 0 <= i < |v.elems| ==> v.elems[i] == v.elems[0]
  {
    CodeReadsBackIff(UINT24S, Some(info), v, tail);
    UniformIsAtFront(v.elems);
  }

  lemma SparseIsWritten(info: FieldInfo, n: nat)
    requires info.countSet && n >= 2 && Fits(info, 3 * n)
    ensures MarshalField(UINT24S, Some(info), List(Sparse(n))).Ok? && Readable(UINT24S, Some(info), List(Sparse(n)))
  {
    SmallElementsEncode(Sparse(n));
    ElementsAreWritten(Sparse(n));
  }

  /** All vectors of Uint24 of a field are read back if and only if none of them may have two elements. */
  lemma Uint24VectorsAreReadBackIff(info: FieldInfo)
    requires info.countSet
    ensures (forall n: nat :: n >= 2 ==> !Fits(info, 3 * n)) <==>
              forall v, tail :: MarshalField(UINT24S, Some(info), v).Ok? && Readable(UINT24S, Some(info), v) ==>
                var data := MarshalField(UINT24S, Some(info), v).value + tail;
                ParseField(Some(data), UINT24S, Some(info), data) == Ok((v, tail))
  {
    if n: nat :| n >= 2 && Fits(info, 3 * n) {
      SparseIsWritten(info, n);
      Uint24VectorIsReadBackIff(info, List(Sparse(n)), []);
      assert Sparse(n)[1] != Sparse(n)[0];
    } else {
      forall v, tail | MarshalField(UINT24S, Some(info), v).Ok? && Readable(UINT24S, Some(info), v)
        ensures var data := MarshalField(UINT24S, Some(info), v).value + tail;
                ParseField(Some(data), UINT24S, Some(info), data) == Ok((v, tail))
      {
        ElementsAreWritten(v.elems);
        assert Fits(info, 3 * |v.elems|);
        Uint24VectorIsReadBackIff(info, v, tail);
      }
    }
  }
}
