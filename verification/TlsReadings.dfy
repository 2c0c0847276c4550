/**
 The code's decoder against the one RFC 5246 asks for, on every schema and every input.
 The two differ in Uint24 alone, which the code takes from the front of the buffer it
 decodes; a vector is a buffer of its own.
 */
module TlsReadings {
  import opened Bytes
  import opened TlsSchema
  import opened TlsTheorems

  /** Every Uint24 of the value is the number in the first three octets of its buffer. */
  predicate AtFront(buf: seq<Byte>, t: Type, v: Value)
    decreases t, 0
  {
    match t
    case Uint24Type => v.Num? && |buf| >= 3 && v.n == BigEndian(buf[..3])
    case StructType(fields) => v.Record? && AtFrontFields(buf, fields, v.fields)
    case SliceType(elem) =>
      v.List? ==> MarshalElems(elem, v.elems).Ok? && AllAtFront(MarshalElems(elem, v.elems).value, elem, v.elems)
    case _ => true
  }

  predicate AllAtFront(buf: seq<Byte>, elem: Type, vals: seq<Value>)
    decreases elem, 1
  {
    forall i :: 0 <= i < |vals| ==> AtFront(buf, elem, vals[i])
  }

  predicate AtFrontFields(buf: seq<Byte>, fields: seq<Field>, vals: seq<Value>)
    decreases fields, 0
  {
    |fields| == |vals| &&
    (fields != [] ==> AtFrontOne(buf, fields[0], vals[0]) && AtFrontFields(buf, fields[1..], vals[1..]))
  }

  predicate AtFrontOne(buf: seq<Byte>, f: Field, v: Value)
    decreases f, 0
  {
    if f.typ.PointerType? && v.Ref? then AtFront(buf, f.typ.elem, v.target) else AtFront(buf, f.typ, v)
  }

  /** Same failures and same octets left over; same value exactly under the condition. */
  predicate Agree<T(==)>(code: Outcome<(T, seq<Byte>)>, rfc: Outcome<(T, seq<Byte>)>, alike: T -> bool) {
    if rfc.Err? then code == rfc
    else code.Ok? && code.value.1 == rfc.value.1 && (code.value.0 == rfc.value.0 <==> alike(rfc.value.0))
  }

  lemma {:induction false} Readings(buf: seq<Byte>, t: Type, info: Option<FieldInfo>, rest: seq<Byte>)
    requires |rest| <= |buf|
    ensures Agree(ParseField(Some(buf), t, info, rest), ParseField(None, t, info, rest), v => AtFront(buf, t, v))
    decreases t, 0
  {
    match t
    case StructType(fields) => ReadingsFields(buf, fields, rest, EMPTY_SCOPE);
    case SliceType(elem) => ReadingsSlice(buf, elem, info, rest);
    case _ =>
  }

  lemma {:induction false} ReadingsSlice(buf: seq<Byte>, elem: Type, info: Option<FieldInfo>, rest: seq<Byte>)
    requires |rest| <= |buf|
    ensures Agree(ParseField(Some(buf), SliceType(elem), info, rest), ParseField(None, SliceType(elem), info, rest),
                  v => AtFront(buf, SliceType(elem), v))
    decreases elem, |rest| + 2
  {
    if ReadVarUint(info, rest).Ok? && !IsByteKind(elem) {
      var len := ReadVarUint(info, rest).value;
      var tail := rest[info.value.count..];
      if len <= |tail| {
        var inner := tail[..len];
        ReadingsElems(inner, elem, inner);
        if ParseElems(None, elem, inner).Ok? {
          ParseThenMarshalElems(None, elem, inner);
          var vs := ParseElems(None, elem, inner).value;
          assert MarshalElems(elem, vs).value == inner by {
            assert MarshalElems(elem, vs).value + [] == MarshalElems(elem, vs).value;
          }
        }
      }
    }
  }

  lemma {:induction false} ReadingsElems(buf: seq<Byte>, elem: Type, rest: seq<Byte>)
    requires |rest| <= |buf|
    ensures var code, rfc := ParseElems(Some(buf), elem, rest), ParseElems(None, elem, rest);
            if rfc.Err? then code == rfc
            else code.Ok? && (code == rfc <==> AllAtFront(buf, elem, rfc.value))
    decreases elem, |rest| + 1
  {
    if rest != [] {
      Readings(buf, elem, None, rest);
      var code, rfc := ParseField(Some(buf), elem, None, rest), ParseField(None, elem, None, rest);
      if rfc.Ok? && |rfc.value.1| < |rest| {
        var r := rfc.value.1;
        ReadingsElems(buf, elem, r);
        if ParseElems(None, elem, r).Ok? {
          Fronts(buf, elem, rfc.value.0, ParseElems(None, elem, r).value);
          SameFronts(code.value.0, ParseElems(Some(buf), elem, r).value, rfc.value.0, ParseElems(None, elem, r).value);
        }
      }
    }
  }

  lemma Fronts(buf: seq<Byte>, elem: Type, v: Value, vs: seq<Value>)
    ensures AllAtFront(buf, elem, [v] + vs) <==> AtFront(buf, elem, v) && AllAtFront(buf, elem, vs)
  {
    assert ([v] + vs)[0] == v;
    assert ([v] + vs)[1..] == vs;
  }

  lemma SameFronts(v: Value, vs: seq<Value>, w: Value, ws: seq<Value>)
    ensures [v] + vs == [w] + ws <==> v == w && vs == ws
  {
    assert ([v] + vs)[0] == v && ([w] + ws)[0] == w;
    assert ([v] + vs)[1..] == vs && ([w] + ws)[1..] == ws;
  }

  lemma {:induction false} ReadingsFields(buf: seq<Byte>, fields: seq<Field>, rest: seq<Byte>, scope: Scope)
    requires |rest| <= |buf|
    ensures Agree(ParseFields(Some(buf), fields, rest, scope), ParseFields(None, fields, rest, scope),
                  vs => AtFrontFields(buf, fields, vs))
    decreases fields, 0
  {
    if fields != [] {
      ReadingsOne(buf, fields[0], rest, scope);
      var code, rfc := ParseOne(Some(buf), fields[0], rest, scope), ParseOne(None, fields[0], rest, scope);
      if rfc.Ok? {
        var (v, r, scope') := rfc.value;
        ReadingsFields(buf, fields[1..], r, scope');
        var p := ParseFields(None, fields[1..], r, scope');
        if p.Ok? {
          SameFronts(code.value.0, ParseFields(Some(buf), fields[1..], r, scope').value.0, v, p.value.0);
          assert ([v] + p.value.0)[1..] == p.value.0;
        }
      }
    }
  }

  lemma {:induction false} ReadingsOne(buf: seq<Byte>, f: Field, rest: seq<Byte>, scope: Scope)
    requires |rest| <= |buf|
    ensures var code, rfc := ParseOne(Some(buf), f, rest, scope), ParseOne(None, f, rest, scope);
            if rfc.Err? then code == rfc
            else
              && code.Ok? && code.value.1 == rfc.value.1 && code.value.2 == rfc.value.2
              && (code.value.0 == rfc.value.0 <==> AtFrontOne(buf, f, rfc.value.0))
    decreases f, 0
  {
    if FieldTagInfo(f).Ok? {
      var info := FieldTagInfo(f).value;
      match Choose(info, f.typ, scope)
      case Take(_) => Readings(buf, f.typ.elem, Some(info), rest);
      case Plain => Readings(buf, f.typ, Some(info), rest);
      case _ =>
    }
  }

  // ----- Main results -----

  /**
   At any depth of any schema and on every input, the code fails exactly where RFC 5246 has it
   fail, in the same way, and otherwise leaves the same octets. It reads the value that stands
   there exactly if every Uint24 of it is the number at the front of its buffer.
   */
  lemma ReadingsAgreeIff(buf: seq<Byte>, t: Type, info: Option<FieldInfo>, rest: seq<Byte>)
    requires |rest| <= |buf|
    ensures var code, rfc := ParseField(Some(buf), t, info, rest), ParseField(None, t, info, rest);
            && code.Ok? == rfc.Ok?
            && (rfc.Err? ==> code == rfc)
            && (rfc.Ok? ==> code.value.1 == rfc.value.1 && (code == rfc <==> AtFront(buf, t, rfc.value.0)))
  {
    Readings(buf, t, info, rest);
  }

  /**
   An encodable value of any schema, whatever follows it, is read back by the code exactly if
   it is readable and every Uint24 of it is the number at the front of its buffer.
   */
  lemma CodeReadsBackIff(t: Type, info: Option<FieldInfo>, v: Value, tail: seq<Byte>)
    requires MarshalField(t, info, v).Ok?
    ensures var data := MarshalField(t, info, v).value + tail;
            ParseField(Some(data), t, info, data) == Ok((v, tail)) <==> Readable(t, info, v) && AtFront(data, t, v)
  {
    var data := MarshalField(t, info, v).value + tail;
    if Readable(t, info, v) {
      MarshalThenParse(t, info, v, tail);
      ReadingsAgreeIff(data, t, info, data);
    } else if ParseField(Some(data), t, info, data) == Ok((v, tail)) {
      ParseThenMarshal(Some(data), t, info, data);
    }
  }
}
