/**
 What the TLS codec guarantees for every schema: decoding is canonical, encoding
 round-trips exactly on the values that can be read back, and no encoding is a
 proper prefix of another.
 */
module TlsTheorems {
  import opened Bytes
  import opened TlsSchema

  /** Whether every encoding of the type has at least one octet. */
  predicate NonEmpty(t: Type, info: Option<FieldInfo>)
    decreases t, 0
  {
    match t
    case Uint8Type | Uint16Type | Uint24Type | Uint32Type | Uint64Type => true
    case EnumType | SliceType(_) => OrEmpty(info).count > 0
    case ArrayType(len, _) => len > 0
    case StructType(fields) => SomeNonEmpty(fields)
    case _ => false
  }

  predicate SomeNonEmpty(fields: seq<Field>)
    decreases fields, 0
  {
    fields != [] && (NonEmptyOne(fields[0]) || SomeNonEmpty(fields[1..]))
  }

  predicate NonEmptyOne(f: Field)
    decreases f, 0
  {
    FieldTagInfo(f).Ok? && FieldTagInfo(f).value.selector == "" && NonEmpty(f.typ, Some(FieldTagInfo(f).value))
  }

  /**
   The values the decoder can return: sizes of enums and vectors are declared, and a
   vector that has elements has elements that take room.
   */
  predicate Readable(t: Type, info: Option<FieldInfo>, v: Value)
    decreases t, 0
  {
    match t
    case EnumType => info.Some? && info.value.countSet
    case StructType(fields) => v.Record? && ReadableFields(fields, v.fields)
    case SliceType(elem) =>
      && info.Some? && info.value.countSet
      && (!IsByteKind(elem) ==>
            && v.List?
            && (v.elems != [] ==> NonEmpty(elem, None))
            && forall e :: e in v.elems ==> Readable(elem, None, e))
    case _ => true
  }

  predicate ReadableFields(fields: seq<Field>, vals: seq<Value>)
    decreases fields, 0
  {
    |fields| == |vals| &&
    (fields != [] ==> ReadableOne(fields[0], vals[0]) && ReadableFields(fields[1..], vals[1..]))
  }

  predicate ReadableOne(f: Field, v: Value)
    decreases f, 0
  {
    && FieldTagInfo(f).Ok?
    && var info := Some(FieldTagInfo(f).value);
       match v
       case NilRef => true
       case Ref(x) => f.typ.PointerType? && Readable(f.typ.elem, info, x)
       case _ => Readable(f.typ, info, v)
  }

  // ----- Widths -----

  /** An encoding is empty exactly when the type says so. */
  lemma {:induction false} EncodedWidth(t: Type, info: Option<FieldInfo>, v: Value)
    requires MarshalField(t, info, v).Ok? && Readable(t, info, v)
    ensures MarshalField(t, info, v).value == [] <==> !NonEmpty(t, info)
    decreases t, 0
  {
    match t
    case StructType(fields) => EncodedWidthFields(fields, v.fields, EMPTY_SCOPE);
    case SliceType(elem) =>
    case _ =>
  }

  lemma {:induction false} EncodedWidthFields(fields: seq<Field>, vals: seq<Value>, scope: Scope)
    requires MarshalFields(fields, vals, scope).Ok? && ReadableFields(fields, vals)
    ensures SomeNonEmpty(fields) ==> MarshalFields(fields, vals, scope).value != []
    ensures scope.enums == map[] && !SomeNonEmpty(fields) ==> MarshalFields(fields, vals, scope).value == []
    decreases fields, 0
  {
    if fields != [] {
      EncodedWidthOne(fields[0], vals[0], scope);
      EncodedWidthFields(fields[1..], vals[1..], MarshalOne(fields[0], vals[0], scope).value.1);
    }
  }

  /** Without a field that takes room there is no enum, and so no variant can be picked. */
  lemma {:induction false} EncodedWidthOne(f: Field, v: Value, scope: Scope)
    requires MarshalOne(f, v, scope).Ok? && ReadableOne(f, v)
    ensures NonEmptyOne(f) ==> MarshalOne(f, v, scope).value.0 != []
    ensures scope.enums == map[] && !NonEmptyOne(f) ==>
              MarshalOne(f, v, scope).value.0 == [] && MarshalOne(f, v, scope).value.1.enums == map[]
    decreases f, 0
  {
    var info := FieldTagInfo(f).value;
    if Choose(info, f.typ, scope).Plain? {
      EncodedWidth(f.typ, Some(info), v);
    }
  }

  // ----- Decode, then encode -----

  /** `b` re-encodes what the decoder consumed of `rest`; without a buffer, octet for octet. */
  predicate Reencodes(exact: bool, b: Outcome<seq<Byte>>, rest: seq<Byte>, left: seq<Byte>) {
    && b.Ok?
    && |b.value| + |left| == |rest|
    && (exact ==> b.value + left == rest)
  }

  lemma {:induction false} ParseThenMarshal(buf: Option<seq<Byte>>, t: Type, info: Option<FieldInfo>, rest: seq<Byte>)
    requires buf.Some? ==> |rest| <= |buf.value|
    requires ParseField(buf, t, info, rest).Ok?
    ensures var (v, left) := ParseField(buf, t, info, rest).value;
            Readable(t, info, v) && Reencodes(buf.None?, MarshalField(t, info, v), rest, left)
    decreases t, 0
  {
    match t
    case StructType(fields) =>
      ParseThenMarshalFields(buf, fields, rest, EMPTY_SCOPE);
    case EnumType =>
      ParseThenMarshalEnum(buf, info, rest);
    case SliceType(elem) =>
      if IsByteKind(elem) {
        ParseThenMarshalOctets(buf, elem, info, rest);
      } else {
        ParseThenMarshalSlice(buf, elem, info, rest);
      }
    case ArrayType(_, _) =>
    case Uint8Type | Uint16Type | Uint24Type | Uint32Type | Uint64Type =>
      FixedNumber(buf, t, info, rest);
    case _ =>
  }

  lemma ParseThenMarshalEnum(buf: Option<seq<Byte>>, info: Option<FieldInfo>, rest: seq<Byte>)
    requires buf.Some? ==> |rest| <= |buf.value|
    requires ParseField(buf, EnumType, info, rest).Ok?
    ensures var (v, left) := ParseField(buf, EnumType, info, rest).value;
            Readable(EnumType, info, v) && Reencodes(buf.None?, MarshalField(EnumType, info, v), rest, left)
  {
    SizedNumber(info, rest);
  }

  lemma ParseThenMarshalOctets(buf: Option<seq<Byte>>, elem: Type, info: Option<FieldInfo>, rest: seq<Byte>)
    requires IsByteKind(elem)
    requires buf.Some? ==> |rest| <= |buf.value|
    requires ParseField(buf, SliceType(elem), info, rest).Ok?
    ensures var (v, left) := ParseField(buf, SliceType(elem), info, rest).value;
            && Readable(SliceType(elem), info, v)
            && Reencodes(buf.None?, MarshalField(SliceType(elem), info, v), rest, left)
  {
    SizedBlock(info, rest);
  }

  lemma {:induction false} ParseThenMarshalSlice(buf: Option<seq<Byte>>, elem: Type, info: Option<FieldInfo>,
                                                 rest: seq<Byte>)
    requires !IsByteKind(elem)
    requires buf.Some? ==> |rest| <= |buf.value|
    requires ParseField(buf, SliceType(elem), info, rest).Ok?
    ensures var (v, left) := ParseField(buf, SliceType(elem), info, rest).value;
            && Readable(SliceType(elem), info, v)
            && Reencodes(buf.None?, MarshalField(SliceType(elem), info, v), rest, left)
    decreases elem, |rest| + 2
  {
    SizedBlock(info, rest);
    var len := ReadVarUint(info, rest).value;
    var tail := rest[info.value.count..];
    var inner := tail[..len];
    var buf' := if buf.Some? then Some(inner) else None;
    ParseThenMarshalElems(buf', elem, inner);
    var vs := ParseElems(buf', elem, inner).value;
    assert ParseField(buf, SliceType(elem), info, rest).value == (List(vs), tail[len..]);
    assert MarshalElems(elem, vs).value + [] == MarshalElems(elem, vs).value;
  }

  /** A length prefix and the octets it announces. */
  lemma SizedBlock(info: Option<FieldInfo>, rest: seq<Byte>)
    requires ReadVarUint(info, rest).Ok?
    requires ReadVarUint(info, rest).value <= |rest| - info.value.count
    ensures var n := ReadVarUint(info, rest).value;
            var tail := rest[info.value.count..];
            && Fits(info.value, n) && info.value.count < 8
            && (ToBigEndian(n, info.value.count) + tail[..n]) + tail[n..] == rest
  {
    SizedNumber(info, rest);
    var n := ReadVarUint(info, rest).value;
    var tail := rest[info.value.count..];
    assert tail == tail[..n] + tail[n..];
    assert (ToBigEndian(n, info.value.count) + tail[..n]) + tail[n..] == ToBigEndian(n, info.value.count) + tail;
  }

  lemma FixedNumber(buf: Option<seq<Byte>>, t: Type, info: Option<FieldInfo>, rest: seq<Byte>)
    requires t.Uint8Type? || t.Uint16Type? || t.Uint24Type? || t.Uint32Type? || t.Uint64Type?
    requires buf.Some? ==> |rest| <= |buf.value|
    requires ParseField(buf, t, info, rest).Ok?
    ensures var (v, left) := ParseField(buf, t, info, rest).value;
            Reencodes(buf.None?, MarshalField(t, info, v), rest, left)
  {
    var src := if t.Uint24Type? && buf.Some? then buf.value else rest;
    BigEndianBound(src[..Width(t)]);
    EncodeDecode(src[..Width(t)]);
    assert Pow256(3) == 0x1000000 && Pow256(4) == 256 * Pow256(3);
  }

  lemma SizedNumber(info: Option<FieldInfo>, rest: seq<Byte>)
    requires ReadVarUint(info, rest).Ok?
    ensures var n := ReadVarUint(info, rest).value;
            && n < Pow256(8) && Fits(info.value, n) && info.value.count < 8
            && ToBigEndian(n, info.value.count) + rest[info.value.count..] == rest
  {
    var c := info.value.count;
    EncodeDecode(rest[..c]);
    Pow256Mono(c, 8);
  }

  lemma {:induction false} Pow256Mono(i: nat, j: nat)
    requires i <= j
    ensures Pow256(i) <= Pow256(j)
  {
    if i < j {
      Pow256Mono(i, j - 1);
    }
  }

  lemma {:induction false} ParseThenMarshalFields(buf: Option<seq<Byte>>, fields: seq<Field>, rest: seq<Byte>,
                                                  scope: Scope)
    requires buf.Some? ==> |rest| <= |buf.value|
    requires ParseFields(buf, fields, rest, scope).Ok?
    ensures var (vs, left) := ParseFields(buf, fields, rest, scope).value;
            ReadableFields(fields, vs) && Reencodes(buf.None?, MarshalFields(fields, vs, scope), rest, left)
    decreases fields, 0
  {
    if fields != [] {
      var (v, r, scope') := ParseOne(buf, fields[0], rest, scope).value;
      var (vs, left) := ParseFields(buf, fields[1..], r, scope').value;
      ParseThenMarshalOne(buf, fields[0], rest, scope);
      ParseThenMarshalFields(buf, fields[1..], r, scope');
      assert ([v] + vs)[1..] == vs;
      ConcatReencodes(buf.None?, Ok(MarshalOne(fields[0], v, scope).value.0), MarshalFields(fields[1..], vs, scope'),
                      rest, r, left);
    }
  }

  lemma {:induction false} ParseThenMarshalOne(buf: Option<seq<Byte>>, f: Field, rest: seq<Byte>, scope: Scope)
    requires buf.Some? ==> |rest| <= |buf.value|
    requires ParseOne(buf, f, rest, scope).Ok?
    ensures var (v, left, scope') := ParseOne(buf, f, rest, scope).value;
            && ReadableOne(f, v)
            && MarshalOne(f, v, scope).Ok? && MarshalOne(f, v, scope).value.1 == scope'
            && Reencodes(buf.None?, Ok(MarshalOne(f, v, scope).value.0), rest, left)
    decreases f, 0
  {
    var info := FieldTagInfo(f).value;
    match Choose(info, f.typ, scope)
    case Take(_) =>
      ParseThenMarshal(buf, f.typ.elem, Some(info), rest);
    case Plain =>
      ParseThenMarshal(buf, f.typ, Some(info), rest);
      ParsedIsNoRef(buf, f.typ, Some(info), rest);
    case _ =>
  }

  lemma ParsedIsNoRef(buf: Option<seq<Byte>>, t: Type, info: Option<FieldInfo>, rest: seq<Byte>)
    requires buf.Some? ==> |rest| <= |buf.value|
    requires ParseField(buf, t, info, rest).Ok?
    ensures !ParseField(buf, t, info, rest).value.0.Ref? && !ParseField(buf, t, info, rest).value.0.NilRef?
  {
  }

  lemma ConcatReencodes(exact: bool, b: Outcome<seq<Byte>>, bs: Outcome<seq<Byte>>, rest: seq<Byte>, mid: seq<Byte>,
                        left: seq<Byte>)
    requires Reencodes(exact, b, rest, mid) && Reencodes(exact, bs, mid, left)
    ensures Reencodes(exact, Ok(b.value + bs.value), rest, left)
  {
    assert (b.value + bs.value) + left == b.value + (bs.value + left);
  }

  lemma {:induction false} ParseThenMarshalElems(buf: Option<seq<Byte>>, elem: Type, rest: seq<Byte>)
    requires buf.Some? ==> |rest| <= |buf.value|
    requires ParseElems(buf, elem, rest).Ok?
    ensures var vs := ParseElems(buf, elem, rest).value;
            && (forall e :: e in vs ==> Readable(elem, None, e))
            && (vs != [] ==> NonEmpty(elem, None))
            && Reencodes(buf.None?, MarshalElems(elem, vs), rest, [])
    decreases elem, |rest| + 1
  {
    if rest != [] {
      ParseThenMarshal(buf, elem, None, rest);
      var (v, r) := ParseField(buf, elem, None, rest).value;
      EncodedWidth(elem, None, v);
      ParseThenMarshalElems(buf, elem, r);
      var vs := ParseElems(buf, elem, rest).value;
      assert vs[1..] == ParseElems(buf, elem, r).value;
      ConcatReencodes(buf.None?, MarshalField(elem, None, v), MarshalElems(elem, vs[1..]), rest, r, []);
    }
  }

  // ----- Encode, then decode -----

  lemma {:induction false} MarshalThenParse(t: Type, info: Option<FieldInfo>, v: Value, tail: seq<Byte>)
    requires MarshalField(t, info, v).Ok? && Readable(t, info, v)
    ensures ParseField(None, t, info, MarshalField(t, info, v).value + tail) == Ok((v, tail))
    decreases t, 0
  {
    var b := MarshalField(t, info, v).value;
    match t
    case StructType(fields) =>
      MarshalThenParseFields(fields, v.fields, EMPTY_SCOPE, tail);
    case EnumType =>
      ReadBack(info, v.n, tail);
    case SliceType(elem) =>
      if IsByteKind(elem) {
        ReadBackBlock(info, v.bytes, tail);
      } else {
        MarshalThenParseSlice(elem, info, v, tail);
      }
    case ArrayType(_, _) =>
      assert (b + tail)[..|b|] == b && (b + tail)[|b|..] == tail;
    case Uint8Type | Uint16Type | Uint24Type | Uint32Type | Uint64Type =>
      assert (b + tail)[..|b|] == b && (b + tail)[|b|..] == tail;
      assert Pow256(3) == 0x1000000;
      DecodeEncode(v.n, Width(t));
    case _ =>
  }

  lemma ReadBack(info: Option<FieldInfo>, n: nat, tail: seq<Byte>)
    requires info.Some? && info.value.countSet && Fits(info.value, n)
    ensures var c := info.value.count;
            var data := ToBigEndian(n, c) + tail;
            ReadVarUint(info, data) == Ok(n) && data[c..] == tail
  {
    var c := info.value.count;
    assert (ToBigEndian(n, c) + tail)[..c] == ToBigEndian(n, c);
    DecodeEncode(n, c);
  }

  lemma ReadBackBlock(info: Option<FieldInfo>, block: seq<Byte>, tail: seq<Byte>)
    requires info.Some? && info.value.countSet && Fits(info.value, |block|)
    ensures var c := info.value.count;
            var data := (ToBigEndian(|block|, c) + block) + tail;
            && ReadVarUint(info, data) == Ok(|block|)
            && |block| <= |data[c..]| && data[c..][..|block|] == block && data[c..][|block|..] == tail
  {
    var c := info.value.count;
    assert (ToBigEndian(|block|, c) + block) + tail == ToBigEndian(|block|, c) + (block + tail);
    ReadBack(info, |block|, block + tail);
  }

  lemma {:induction false} MarshalThenParseSlice(elem: Type, info: Option<FieldInfo>, v: Value, tail: seq<Byte>)
    requires !IsByteKind(elem)
    requires MarshalField(SliceType(elem), info, v).Ok? && Readable(SliceType(elem), info, v)
    ensures ParseField(None, SliceType(elem), info, MarshalField(SliceType(elem), info, v).value + tail)
            == Ok((v, tail))
    decreases elem, |v.elems| + 2
  {
    var inner := MarshalElems(elem, v.elems).value;
    ReadBackBlock(info, inner, tail);
    MarshalThenParseElems(elem, v.elems);
  }

  lemma {:induction false} MarshalThenParseElems(elem: Type, vals: seq<Value>)
    requires MarshalElems(elem, vals).Ok?
    requires vals != [] ==> NonEmpty(elem, None)
    requires forall e :: e in vals ==> Readable(elem, None, e)
    ensures ParseElems(None, elem, MarshalElems(elem, vals).value) == Ok(vals)
    decreases elem, |vals| + 1
  {
    if vals != [] {
      var b := MarshalField(elem, None, vals[0]).value;
      var bs := MarshalElems(elem, vals[1..]).value;
      EncodedWidth(elem, None, vals[0]);
      MarshalThenParse(elem, None, vals[0], bs);
      MarshalThenParseElems(elem, vals[1..]);
      assert vals == [vals[0]] + vals[1..];
    }
  }

  lemma {:induction false} MarshalThenParseFields(fields: seq<Field>, vals: seq<Value>, scope: Scope, tail: seq<Byte>)
    requires MarshalFields(fields, vals, scope).Ok? && ReadableFields(fields, vals)
    ensures ParseFields(None, fields, MarshalFields(fields, vals, scope).value + tail, scope) == Ok((vals, tail))
    decreases fields, 0
  {
    if fields == [] {
      assert [] + tail == tail;
    } else {
      var (b, scope') := MarshalOne(fields[0], vals[0], scope).value;
      var bs := MarshalFields(fields[1..], vals[1..], scope').value;
      assert (b + bs) + tail == b + (bs + tail);
      assert vals == [vals[0]] + vals[1..];
      MarshalThenParseOne(fields[0], vals[0], scope, bs + tail);
      MarshalThenParseFields(fields[1..], vals[1..], scope', tail);
    }
  }

  lemma {:induction false} MarshalThenParseOne(f: Field, v: Value, scope: Scope, tail: seq<Byte>)
    requires MarshalOne(f, v, scope).Ok? && ReadableOne(f, v)
    ensures var (b, scope') := MarshalOne(f, v, scope).value;
            ParseOne(None, f, b + tail, scope) == Ok((v, tail, scope'))
    decreases f, 0
  {
    var info := FieldTagInfo(f).value;
    match Choose(info, f.typ, scope)
    case Skip(_) => assert [] + tail == tail;
    case Take(_) => MarshalThenParse(f.typ.elem, Some(info), v.target, tail);
    case Plain => MarshalThenParse(f.typ, Some(info), v, tail);
    case Bad =>
  }

  // ----- The code's decoder against the one RFC 5246 asks for -----

  predicate Uint24Free(t: Type)
    decreases t, 0
  {
    match t
    case Uint24Type => false
    case StructType(fields) => forall i :: 0 <= i < |fields| ==> Uint24Free(fields[i].typ)
    case ArrayType(_, elem) => Uint24Free(elem)
    case SliceType(elem) => Uint24Free(elem)
    case PointerType(elem) => Uint24Free(elem)
    case _ => true
  }

  lemma {:induction false} SameWithoutUint24(buf: seq<Byte>, t: Type, info: Option<FieldInfo>, rest: seq<Byte>)
    requires |rest| <= |buf| && Uint24Free(t)
    ensures ParseField(Some(buf), t, info, rest) == ParseField(None, t, info, rest)
    decreases t, 0
  {
    match t
    case StructType(fields) => SameWithoutUint24Fields(buf, fields, rest, EMPTY_SCOPE);
    case SliceType(elem) =>
      if ReadVarUint(info, rest).Ok? && !IsByteKind(elem) {
        var len := ReadVarUint(info, rest).value;
        var tail := rest[info.value.count..];
        if len <= |tail| {
          SameWithoutUint24Elems(tail[..len], elem, tail[..len]);
        }
      }
    case _ =>
  }

  lemma {:induction false} SameWithoutUint24Elems(buf: seq<Byte>, elem: Type, rest: seq<Byte>)
    requires |rest| <= |buf| && Uint24Free(elem)
    ensures ParseElems(Some(buf), elem, rest) == ParseElems(None, elem, rest)
    decreases elem, |rest| + 1
  {
    if rest != [] {
      SameWithoutUint24(buf, elem, None, rest);
      var p := ParseField(None, elem, None, rest);
      if p.Ok? && |p.value.1| < |rest| {
        SameWithoutUint24Elems(buf, elem, p.value.1);
      }
    }
  }

  lemma {:induction false} SameWithoutUint24Fields(buf: seq<Byte>, fields: seq<Field>, rest: seq<Byte>, scope: Scope)
    requires |rest| <= |buf| && forall i :: 0 <= i < |fields| ==> Uint24Free(fields[i].typ)
    ensures ParseFields(Some(buf), fields, rest, scope) == ParseFields(None, fields, rest, scope)
    decreases fields, 0
  {
    if fields != [] {
      SameWithoutUint24One(buf, fields[0], rest, scope);
      var p := ParseOne(None, fields[0], rest, scope);
      if p.Ok? {
        SameWithoutUint24Fields(buf, fields[1..], p.value.1, p.value.2);
      }
    }
  }

  lemma {:induction false} SameWithoutUint24One(buf: seq<Byte>, f: Field, rest: seq<Byte>, scope: Scope)
    requires |rest| <= |buf| && Uint24Free(f.typ)
    ensures ParseOne(Some(buf), f, rest, scope) == ParseOne(None, f, rest, scope)
    decreases f, 0
  {
    if FieldTagInfo(f).Ok? {
      var info := FieldTagInfo(f).value;
      match Choose(info, f.typ, scope)
      case Take(_) => SameWithoutUint24(buf, f.typ.elem, Some(info), rest);
      case Plain => SameWithoutUint24(buf, f.typ, Some(info), rest);
      case _ =>
    }
  }

  /**
   The only Uint24 stands at the front: the type itself, or behind nothing but fields
   that take no octets.
   */
  predicate FrontOnly(t: Type)
    decreases t, 0
  {
    Uint24Free(t) || t.Uint24Type? || (t.StructType? && FrontOnlyFields(t.fields))
  }

  predicate FrontOnlyFields(fields: seq<Field>)
    decreases fields, 0
  {
    fields != [] ==>
      if Uint24Free(fields[0].typ) && !NonEmptyOne(fields[0]) then FrontOnlyFields(fields[1..])
      else FrontOnly(fields[0].typ) && forall i :: 1 <= i < |fields| ==> Uint24Free(fields[i].typ)
  }

  /** From the front of its buffer, the code reads such a schema as RFC 5246 does. */
  lemma {:induction false} SameAtFront(buf: seq<Byte>, t: Type, info: Option<FieldInfo>)
    requires FrontOnly(t)
    ensures ParseField(Some(buf), t, info, buf) == ParseField(None, t, info, buf)
    decreases t, 0
  {
    if Uint24Free(t) {
      SameWithoutUint24(buf, t, info, buf);
    } else if t.StructType? {
      SameAtFrontFields(buf, t.fields, EMPTY_SCOPE);
    }
  }

  lemma {:induction false} SameAtFrontFields(buf: seq<Byte>, fields: seq<Field>, scope: Scope)
    requires FrontOnlyFields(fields) && scope.enums == map[]
    ensures ParseFields(Some(buf), fields, buf, scope) == ParseFields(None, fields, buf, scope)
    decreases fields, 0
  {
    if fields != [] {
      if Uint24Free(fields[0].typ) && !NonEmptyOne(fields[0]) {
        SameWithoutUint24One(buf, fields[0], buf, scope);
        if ParseOne(None, fields[0], buf, scope).Ok? {
          EmptyFieldReadsNothing(fields[0], buf, scope);
          SameAtFrontFields(buf, fields[1..], ParseOne(None, fields[0], buf, scope).value.2);
        }
      } else {
        SameAtFrontOne(buf, fields[0], scope);
        var p := ParseOne(None, fields[0], buf, scope);
        if p.Ok? {
          SameWithoutUint24Fields(buf, fields[1..], p.value.1, p.value.2);
        }
      }
    }
  }

  /** Before any enum, a field that takes no octets leaves the position where it was. */
  lemma EmptyFieldReadsNothing(f: Field, rest: seq<Byte>, scope: Scope)
    requires scope.enums == map[] && !NonEmptyOne(f) && ParseOne(None, f, rest, scope).Ok?
    ensures ParseOne(None, f, rest, scope).value.1 == rest && ParseOne(None, f, rest, scope).value.2.enums == map[]
  {
    var (v, left, scope') := ParseOne(None, f, rest, scope).value;
    ParseThenMarshalOne(None, f, rest, scope);
    EncodedWidthOne(f, v, scope);
    assert [] + left == left;
  }

  lemma SameAtFrontOne(buf: seq<Byte>, f: Field, scope: Scope)
    requires FrontOnly(f.typ) && scope.enums == map[]
    ensures ParseOne(Some(buf), f, buf, scope) == ParseOne(None, f, buf, scope)
    decreases f, 0
  {
    if FieldTagInfo(f).Ok? && Choose(FieldTagInfo(f).value, f.typ, scope).Plain? {
      SameAtFront(buf, f.typ, Some(FieldTagInfo(f).value));
    }
  }

  // ----- Main results -----

  /** What `tls.Unmarshal` computes: the decoded value and the octets left over. */
  function Unmarshal(t: Type, data: seq<Byte>): Outcome<(Value, seq<Byte>)> {
    ParseField(Some(data), t, None, data)
  }

  /** What `tls.Marshal` computes. */
  function Marshal(t: Type, v: Value): Outcome<seq<Byte>> {
    MarshalField(t, None, v)
  }

  /**
   Decoding is canonical: wherever the decoder succeeds, at any depth of any schema,
   the encoder accepts the value. It reproduces the consumed octets exactly if and only if
   the decoder read what RFC 5246 says stands there. That is always so without Uint24, and
   from the front of the buffer also with one at the front.
   */
  lemma DecodingIsCanonical(buf: seq<Byte>, t: Type, info: Option<FieldInfo>, rest: seq<Byte>)
    requires |rest| <= |buf|
    requires ParseField(Some(buf), t, info, rest).Ok?
    ensures var (v, left) := ParseField(Some(buf), t, info, rest).value;
            && MarshalField(t, info, v).Ok?
            && |MarshalField(t, info, v).value| == |rest| - |left|
            && (MarshalField(t, info, v).value + left == rest
                <==> ParseField(None, t, info, rest) == ParseField(Some(buf), t, info, rest))
            && (Uint24Free(t) || (FrontOnly(t) && rest == buf) ==> MarshalField(t, info, v).value + left == rest)
  {
    var (v, left) := ParseField(Some(buf), t, info, rest).value;
    ParseThenMarshal(Some(buf), t, info, rest);
    MarshalThenParse(t, info, v, left);
    if ParseField(None, t, info, rest).Ok? {
      ParseThenMarshal(None, t, info, rest);
    }
    if Uint24Free(t) {
      SameWithoutUint24(buf, t, info, rest);
    } else if FrontOnly(t) && rest == buf {
      SameAtFront(buf, t, info);
    }
  }

  /**
   Encoding round-trips, with any octets following, exactly for the readable values: as RFC 5246
   reads them, and as the code does if a Uint24 stands at most at the front.
   */
  lemma EncodingRoundTrips(t: Type, info: Option<FieldInfo>, v: Value, tail: seq<Byte>)
    requires MarshalField(t, info, v).Ok?
    ensures ParseField(None, t, info, MarshalField(t, info, v).value + tail) == Ok((v, tail)) <==> Readable(t, info, v)
    ensures FrontOnly(t) ==>
              var data := MarshalField(t, info, v).value + tail;
              ParseField(Some(data), t, info, data) == Ok((v, tail)) <==> Readable(t, info, v)
  {
    var data := MarshalField(t, info, v).value + tail;
    if FrontOnly(t) {
      SameAtFront(data, t, info);
    }
    if ParseField(None, t, info, data) == Ok((v, tail)) {
      ParseThenMarshal(None, t, info, data);
    }
    if Readable(t, info, v) {
      MarshalThenParse(t, info, v, tail);
    }
  }

  /** The same of the two entry points. */
  lemma UnmarshalInvertsMarshal(t: Type, v: Value, tail: seq<Byte>)
    requires Marshal(t, v).Ok? && FrontOnly(t)
    ensures Unmarshal(t, Marshal(t, v).value + tail) == Ok((v, tail)) <==> Readable(t, None, v)
  {
    EncodingRoundTrips(t, None, v, tail);
  }

  /** No encoding of a type is a proper prefix of another one, and equal encodings have equal values. */
  lemma EncodingIsPrefixFree(t: Type, info: Option<FieldInfo>, v: Value, w: Value, tail: seq<Byte>)
    requires MarshalField(t, info, v).Ok? && Readable(t, info, v)
    requires MarshalField(t, info, w).Ok? && Readable(t, info, w)
    requires MarshalField(t, info, w).value == MarshalField(t, info, v).value + tail
    ensures v == w && tail == []
  {
    MarshalThenParse(t, info, v, tail);
    MarshalThenParse(t, info, w, []);
    assert MarshalField(t, info, w).value + [] == MarshalField(t, info, w).value;
  }
}
