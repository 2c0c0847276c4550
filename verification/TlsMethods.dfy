/**
 The loops of tls/tls.go: offsets into a buffer, the maps of selectors, and buffers
 that grow, each proved to compute the function of the same purpose in TlsSchema.
 */
module TlsMethods {
  import opened Bytes
  import opened TlsSchema

  /** Folds the clauses of a tag. */
  method FieldTagToFieldInfo(tag: seq<Clause>, named: bool) returns (r: Outcome<Option<FieldInfo>>)
    ensures r == TagInfo(tag, named)
  {
    var info: Option<FieldInfo> := None;
    for i := 0 to |tag|
      invariant FoldClauses(None, tag) == FoldClauses(info, tag[i..])
    {
      info := Some(ApplyClause(info, tag[i]));
    }
    if info.Some? {
      var i := info.value;
      if i.selector == "" && (i.count < 1 || i.count > 8 || i.minlen > i.maxlen || i.val > 0) {
        return Err(Structural);
      }
    } else if named {
      info := Some(EMPTY_INFO);
    }
    return Ok(info);
  }

  /** Accumulates in a 64-bit word, which wraps beyond eight octets. */
  method ReadSized(data: seq<Byte>, info: Option<FieldInfo>) returns (r: Outcome<nat>)
    ensures r == ReadVarUint(info, data)
  {
    if info.None? || !info.value.countSet {
      return Err(Structural);
    }
    if |data| < info.value.count {
      return Err(Syntax);
    }
    var result: Uint64 := 0;
    for i := 0 to info.value.count
      invariant i <= 8 ==> result == BigEndian(data[..i])
    {
      result := result * 256 % 0x1_0000_0000_0000_0000 + data[i];
      assert data[..i + 1] == data[..i] + [data[i]];
      BigEndianSnoc(data[..i], data[i]);
      BigEndianBound(data[..i + 1]);
      if i < 8 {
        WordBound(i + 1);
      }
    }
    return if Fits(info.value, result) then Ok(result) else Err(Structural);
  }

  lemma {:induction false} WordBound(k: nat)
    requires k <= 8
    ensures Pow256(k) <= 0x1_0000_0000_0000_0000
  {
    PowTable();
  }

  /** The offset form `r` of a decoding result `spec` over `data`. */
  predicate Located<T(==)>(data: seq<Byte>, r: Outcome<(T, nat)>, spec: Outcome<(T, seq<Byte>)>) {
    match spec
    case Err(e) => r == Err(e)
    case Ok((v, left)) => r.Ok? && r.value.0 == v && r.value.1 <= |data| && data[r.value.1..] == left
  }

  method ParseValue(t: Type, data: seq<Byte>, initOffset: nat, info: Option<FieldInfo>)
    returns (r: Outcome<(Value, nat)>)
    requires initOffset <= |data|
    ensures Located(data, r, ParseField(Some(data), t, info, data[initOffset..]))
    decreases t, 0
  {
    var offset := initOffset;
    var rest := data[offset..];
    match t
    case Uint8Type | Uint16Type | Uint32Type | Uint64Type =>
      if |rest| < Width(t) {
        return Err(Syntax);
      }
      return Ok((Num(BigEndian(rest[..Width(t)])), offset + Width(t)));
    case Uint24Type =>
      if |rest| < 3 {
        return Err(Syntax);
      }
      return Ok((Num(BigEndian(data[..3])), offset + 3));
    case EnumType =>
      var n := ReadSized(rest, info);
      if n.Err? {
        return Err(n.error);
      }
      return Ok((Num(n.value), offset + info.value.count));
    case StructType(fields) =>
      var vs := ParseStruct(fields, data, offset);
      if vs.Err? {
        return Err(vs.error);
      }
      return Ok((Record(vs.value.0), vs.value.1));
    case ArrayType(len, elem) =>
      if len > |rest| {
        return Err(Syntax);
      }
      if !IsByteKind(elem) {
        return Err(Structural);
      }
      return Ok((Octets(rest[..len]), offset + len));
    case SliceType(elem) =>
      r := ParseSlice(elem, data, offset, info);
    case _ =>
      return Err(Structural);
  }

  /** A length prefix, then that many octets, taken as they are or element by element. */
  method ParseSlice(elem: Type, data: seq<Byte>, initOffset: nat, info: Option<FieldInfo>)
    returns (r: Outcome<(Value, nat)>)
    requires initOffset <= |data|
    ensures Located(data, r, ParseField(Some(data), SliceType(elem), info, data[initOffset..]))
    decreases elem, 2
  {
    var offset := initOffset;
    var rest := data[offset..];
    var varlen := ReadSized(rest, info);
    if varlen.Err? {
      return Err(varlen.error);
    }
    var datalen := varlen.value;
    offset := offset + info.value.count;
    rest := rest[info.value.count..];
    if datalen > |rest| {
      return Err(Syntax);
    }
    var inner := rest[..datalen];
    offset := offset + datalen;
    if IsByteKind(elem) {
      return Ok((Octets(inner), offset));
    }
    var vs := ParseVector(elem, inner);
    if vs.Err? {
      return Err(vs.error);
    }
    return Ok((List(vs.value), offset));
  }

  ghost function Prepend<S>(vs: seq<Value>, r: Outcome<(seq<Value>, S)>): Outcome<(seq<Value>, S)> {
    match r
    case Err(e) => Err(e)
    case Ok((ws, left)) => Ok((vs + ws, left))
  }

  /** The field loop. */
  method ParseStruct(fields: seq<Field>, data: seq<Byte>, initOffset: nat) returns (r: Outcome<(seq<Value>, nat)>)
    requires initOffset <= |data|
    ensures Located(data, r, ParseFields(Some(data), fields, data[initOffset..], EMPTY_SCOPE))
    decreases fields, 0
  {
    var offset: nat := initOffset;
    var vals: seq<Value> := [];
    var scope := EMPTY_SCOPE;
    ghost var spec := ParseFields(Some(data), fields, data[initOffset..], EMPTY_SCOPE);
    assert fields[0..] == fields && (spec.Ok? ==> [] + spec.value.0 == spec.value.0);
    for i := 0 to |fields|
      invariant offset <= |data|
      invariant spec == Prepend(vals, ParseFields(Some(data), fields[i..], data[offset..], scope))
    {
      assert fields[i..][0] == fields[i] && fields[i..][1..] == fields[i + 1..];
      ghost var before := ParseFields(Some(data), fields[i..], data[offset..], scope);
      var v, scope' := ParseMember(fields[i], data, offset, scope);
      if v.Err? {
        return Err(v.error);
      }
      ghost var after := ParseFields(Some(data), fields[i + 1..], data[v.value.1..], scope');
      assert before == Prepend([v.value.0], after);
      PrependAgain(vals, v.value.0, after);
      vals, offset, scope := vals + [v.value.0], v.value.1, scope';
    }
    assert vals + [] == vals;
    if !AllSeen(scope) {
      return Err(Syntax);
    }
    return Ok((vals, offset));
  }

  /** One turn of the field loop: the tag, the variant rules, the value, the enum it may be. */
  method ParseMember(f: Field, data: seq<Byte>, offset: nat, scope: Scope)
    returns (r: Outcome<(Value, nat)>, scope': Scope)
    requires offset <= |data|
    ensures match ParseOne(Some(data), f, data[offset..], scope)
            case Err(e) => r == Err(e)
            case Ok((v, left, s)) => Located(data, r, Ok((v, left))) && scope' == s
    decreases f, 0
  {
    scope' := scope;
    var tagInfo := FieldTagToFieldInfo(f.tag, true);
    if tagInfo.Err? {
      r := Err(tagInfo.error);
      return;
    }
    var info := OrEmpty(tagInfo.value);
    match Choose(info, f.typ, scope)
    case Bad =>
      r := Err(Structural);
    case Skip(s) =>
      r, scope' := Ok((NilRef, offset)), s;
    case Take(s) =>
      r := ParseValue(f.typ.elem, data, offset, Some(info));
      if r.Ok? {
        r, scope' := Ok((Ref(r.value.0), r.value.1)), s;
      }
    case Plain =>
      r := ParseValue(f.typ, data, offset, Some(info));
      if r.Ok? {
        scope' := Remember(scope, f, r.value.0);
      }
  }

  lemma PrependAgain<S>(vs: seq<Value>, v: Value, r: Outcome<(seq<Value>, S)>)
    ensures Prepend(vs, Prepend([v], r)) == Prepend(vs + [v], r)
  {
    if r.Ok? {
      assert vs + ([v] + r.value.0) == vs + [v] + r.value.0;
    }
  }

  ghost function PrependElems(vs: seq<Value>, r: Outcome<seq<Value>>): Outcome<seq<Value>> {
    match r
    case Err(e) => Err(e)
    case Ok(ws) => Ok(vs + ws)
  }

  lemma PrependElemsAgain(vs: seq<Value>, v: Value, r: Outcome<seq<Value>>)
    ensures PrependElems(vs, PrependElems([v], r)) == PrependElems(vs + [v], r)
  {
    if r.Ok? {
      assert vs + ([v] + r.value) == vs + [v] + r.value;
    }
  }

  /** One turn of the element loop, in terms of offsets. */
  lemma ElementTurn(elem: Type, inner: seq<Byte>, offset: nat, r: Outcome<(Value, nat)>)
    requires offset < |inner| && Located(inner, r, ParseField(Some(inner), elem, None, inner[offset..]))
    ensures ParseElems(Some(inner), elem, inner[offset..])
            == if r.Err? then Err(r.error)
               else if r.value.1 == offset then Err(Diverges)
               else PrependElems([r.value.0], ParseElems(Some(inner), elem, inner[r.value.1..]))
  {
  }

  /** The element loop over the octets of one vector. */
  method ParseVector(elem: Type, inner: seq<Byte>) returns (r: Outcome<seq<Value>>)
    ensures r == ParseElems(Some(inner), elem, inner)
    decreases elem, 1
  {
    var vals: seq<Value> := [];
    var innerOffset := 0;
    ghost var spec := ParseElems(Some(inner), elem, inner);
    assert inner[0..] == inner && (spec.Ok? ==> [] + spec.value == spec.value);
    while innerOffset < |inner|
      invariant 0 <= innerOffset <= |inner|
      invariant spec == PrependElems(vals, ParseElems(Some(inner), elem, inner[innerOffset..]))
    {
      var v := ParseValue(elem, inner, innerOffset, None);
      ElementTurn(elem, inner, innerOffset, v);
      if v.Err? {
        return Err(v.error);
      }
      if v.value.1 == innerOffset {
        return Err(Diverges);
      }
      PrependElemsAgain(vals, v.value.0, ParseElems(Some(inner), elem, inner[v.value.1..]));
      vals, innerOffset := vals + [v.value.0], v.value.1;
    }
    assert vals + [] == vals;
    return Ok(vals);
  }

  // ----- Encoding -----

  ghost function Append(out: seq<Byte>, r: Outcome<seq<Byte>>): Outcome<seq<Byte>> {
    match r
    case Err(e) => Err(e)
    case Ok(b) => Ok(out + b)
  }

  lemma AppendAgain(out: seq<Byte>, b: seq<Byte>, r: Outcome<seq<Byte>>)
    ensures Append(out, Append(b, r)) == Append(out + b, r)
  {
    if r.Ok? {
      assert out + (b + r.value) == out + b + r.value;
    }
  }

  /** Writes the encoding of `v` into a buffer of its own. */
  method MarshalValue(t: Type, info: Option<FieldInfo>, v: Value) returns (r: Outcome<seq<Byte>>)
    ensures r == MarshalField(t, info, v)
    decreases t, 0
  {
    match t
    case StructType(fields) =>
      if !v.Record? {
        return Err(IllTyped);
      }
      r := MarshalStruct(fields, v.fields);
    case SliceType(elem) =>
      if info.None? {
        return Err(Structural);
      }
      if IsByteKind(elem) {
        if !v.Octets? {
          return Err(IllTyped);
        }
        if info.value.count > 8 {
          return Err(Panics);
        }
        if !Fits(info.value, |v.bytes|) {
          return Err(Structural);
        }
        return Ok(ToBigEndian(|v.bytes|, info.value.count) + v.bytes);
      }
      if !v.List? {
        return Err(IllTyped);
      }
      var inner := MarshalVector(elem, v.elems);
      if inner.Err? {
        return inner;
      }
      if !Fits(info.value, |inner.value|) {
        return Err(Structural);
      }
      return Ok(ToBigEndian(|inner.value|, info.value.count) + inner.value);
    case Uint8Type | Uint16Type | Uint32Type | Uint64Type =>
      return if v.Num? && v.n < Pow256(Width(t)) then Ok(ToBigEndian(v.n, Width(t))) else Err(IllTyped);
    case Uint24Type =>
      if !v.Num? || v.n >= Pow256(4) {
        return Err(IllTyped);
      }
      if v.n > 0xffffff {
        return Err(Structural);
      }
      return Ok(ToBigEndian(v.n, 3));
    case EnumType =>
      if !v.Num? || v.n >= Pow256(8) {
        return Err(IllTyped);
      }
      if info.None? || !Fits(info.value, v.n) {
        return Err(Structural);
      }
      return Ok(ToBigEndian(v.n, info.value.count));
    case ArrayType(len, elem) =>
      if !IsByteKind(elem) {
        return Err(Structural);
      }
      return if v.Octets? && |v.bytes| == len then Ok(v.bytes) else Err(IllTyped);
    case _ =>
      return Err(Structural);
  }

  /** The field loop. */
  method MarshalStruct(fields: seq<Field>, vals: seq<Value>) returns (r: Outcome<seq<Byte>>)
    ensures r == MarshalFields(fields, vals, EMPTY_SCOPE)
    decreases fields, 0
  {
    if |fields| != |vals| {
      return Err(IllTyped);
    }
    var buf: seq<Byte> := [];
    var scope := EMPTY_SCOPE;
    ghost var spec := MarshalFields(fields, vals, EMPTY_SCOPE);
    assert fields[0..] == fields && vals[0..] == vals && (spec.Ok? ==> [] + spec.value == spec.value);
    for i := 0 to |fields|
      invariant spec == Append(buf, MarshalFields(fields[i..], vals[i..], scope))
    {
      assert fields[i..][0] == fields[i] && fields[i..][1..] == fields[i + 1..];
      assert vals[i..][0] == vals[i] && vals[i..][1..] == vals[i + 1..];
      var b, scope' := MarshalMember(fields[i], vals[i], scope);
      if b.Err? {
        return b;
      }
      AppendAgain(buf, b.value, MarshalFields(fields[i + 1..], vals[i + 1..], scope'));
      buf, scope := buf + b.value, scope';
    }
    assert buf + [] == buf;
    return if AllSeen(scope) then Ok(buf) else Err(Syntax);
  }

  /** One turn of the field loop, into a buffer of its own. */
  method MarshalMember(f: Field, v: Value, scope: Scope) returns (r: Outcome<seq<Byte>>, scope': Scope)
    ensures match MarshalOne(f, v, scope)
            case Err(e) => r == Err(e)
            case Ok((b, s)) => r == Ok(b) && scope' == s
    decreases f, 0
  {
    scope' := scope;
    var tagInfo := FieldTagToFieldInfo(f.tag, true);
    if tagInfo.Err? {
      r := Err(tagInfo.error);
      return;
    }
    var info := OrEmpty(tagInfo.value);
    match Choose(info, f.typ, scope)
    case Bad =>
      r := Err(Structural);
    case Skip(s) =>
      r, scope' := if v.NilRef? then Ok([]) else Err(Structural), s;
    case Take(s) =>
      if !v.Ref? {
        r := Err(Structural);
        return;
      }
      r := MarshalValue(f.typ.elem, Some(info), v.target);
      scope' := s;
    case Plain =>
      r := MarshalValue(f.typ, Some(info), v);
      scope' := Remember(scope, f, v);
  }

  /** The element loop of a vector, into a buffer of its own. */
  method MarshalVector(elem: Type, vals: seq<Value>) returns (r: Outcome<seq<Byte>>)
    ensures r == MarshalElems(elem, vals)
    decreases elem, 1
  {
    var inner: seq<Byte> := [];
    ghost var spec := MarshalElems(elem, vals);
    assert vals[0..] == vals && (spec.Ok? ==> [] + spec.value == spec.value);
    for i := 0 to |vals|
      invariant spec == Append(inner, MarshalElems(elem, vals[i..]))
    {
      assert vals[i..][0] == vals[i] && vals[i..][1..] == vals[i + 1..];
      var b := MarshalValue(elem, None, vals[i]);
      if b.Err? {
        return b;
      }
      AppendAgain(inner, b.value, MarshalElems(elem, vals[i + 1..]));
      inner := inner + b.value;
    }
    assert inner + [] == inner;
    return Ok(inner);
  }
}
