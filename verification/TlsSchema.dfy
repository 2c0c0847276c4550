/**
 The TLS presentation language (section 4 of RFC 5246) as tls/tls.go reads it off
 Go types and struct tags: type descriptions, field tags, dynamic values, and the
 encoder and decoder as functions over them.
 */
module TlsSchema {
  import opened Bytes

  /** One clause of a `tls:"..."` tag; clauses that do not parse are ignored by the code. */
  datatype Clause =
    | MaxVal(limit: Uint64)
    | Size(size: nat)
    | MaxLen(maxlen: Uint64)
    | MinLen(minlen: Uint64)
    | Selector(field: string)
    | Val(val: Uint64)

  datatype FieldInfo = FieldInfo(count: nat, countSet: bool, minlen: nat, maxlen: nat, selector: string, val: nat)

  const EMPTY_INFO := FieldInfo(0, false, 0, 0, "", 0)

  datatype Type =
    | Uint8Type
    | Uint16Type
    | Uint24Type
    | Uint32Type
    | Uint64Type
    | EnumType                           // any other type of kind uint64
    | NamedUint8Type                     // any other type of kind uint8
    | StructType(fields: seq<Field>)
    | ArrayType(length: nat, elem: Type)
    | SliceType(elem: Type)
    | PointerType(elem: Type)
    | OtherType                          // kinds the codec does not support

  datatype Field = Field(name: string, tag: seq<Clause>, typ: Type)

  datatype Value =
    | Num(n: nat)
    | Octets(bytes: seq<Byte>)           // byte arrays and byte slices
    | List(elems: seq<Value>)
    | Record(fields: seq<Value>)
    | Ref(target: Value)
    | NilRef

  datatype TlsError =
    | Structural
    | Syntax
    | IllTyped                           // the Go type system rules these values out
    | Panics                             // a slice expression of the code is out of range
    | Diverges                           // the element loop of the code never ends

  type Outcome<T> = Result<T, TlsError>

  // ----- Field tags -----

  /** Number of octets needed for values up to and including `x`. */
  function ByteCount(x: Uint64): (n: nat)
    ensures 1 <= n <= 8
    ensures x < Pow256(n)
    ensures n > 1 ==> Pow256(n - 1) <= x
  {
    PowTable();
    if x < 0x100 then 1
    else if x < 0x10000 then 2
    else if x < 0x1000000 then 3
    else if x < 0x1_0000_0000 then 4
    else if x < 0x100_0000_0000 then 5
    else if x < 0x1_0000_0000_0000 then 6
    else if x < 0x100_0000_0000_0000 then 7
    else 8
  }

  function OrEmpty(info: Option<FieldInfo>): FieldInfo {
    if info.Some? then info.value else EMPTY_INFO
  }

  /** `maxval` and `size` start afresh; the other clauses refine what is there. */
  function ApplyClause(info: Option<FieldInfo>, c: Clause): FieldInfo {
    match c
    case MaxVal(v) => EMPTY_INFO.(count := ByteCount(v), countSet := true)
    case Size(s) => EMPTY_INFO.(count := s, countSet := true)
    case MaxLen(v) => OrEmpty(info).(count := ByteCount(v), countSet := true, maxlen := v)
    case MinLen(v) => OrEmpty(info).(minlen := v)
    case Selector(s) => OrEmpty(info).(selector := s)
    case Val(v) => OrEmpty(info).(val := v)
  }

  function FoldClauses(info: Option<FieldInfo>, tag: seq<Clause>): Option<FieldInfo>
    decreases |tag|
  {
    if tag == [] then info else FoldClauses(Some(ApplyClause(info, tag[0])), tag[1..])
  }

  /** What a tag says about a field; only the top-level value may have no information at all. */
  function TagInfo(tag: seq<Clause>, named: bool): Outcome<Option<FieldInfo>> {
    match FoldClauses(None, tag)
    case None => Ok(if named then Some(EMPTY_INFO) else None)
    case Some(i) =>
      if i.selector == "" && (i.count < 1 || i.count > 8 || i.minlen > i.maxlen || i.val > 0)
      then Err(Structural)
      else Ok(Some(i))
  }

  /** The information attached to a struct field. */
  function FieldTagInfo(f: Field): Outcome<FieldInfo> {
    match TagInfo(f.tag, true)
    case Err(e) => Err(e)
    case Ok(i) => Ok(OrEmpty(i))
  }

  // ----- Sized numbers -----

  /** The bound `1 << (8 * count)` of a 64-bit shift: at eight octets and above it is 0. */
  function Limit(count: nat): nat {
    if count < 8 then Pow256(count) else 0
  }

  predicate Fits(info: FieldInfo, val: nat) {
    && val < Limit(info.count)
    && (info.maxlen != 0 ==> info.minlen <= val <= info.maxlen)
  }

  function ReadVarUint(info: Option<FieldInfo>, data: seq<Byte>): Outcome<nat> {
    if info.None? || !info.value.countSet then Err(Structural)
    else if |data| < info.value.count then Err(Syntax)
    else
      var n := BigEndian(data[..info.value.count]);
      if Fits(info.value, n) then Ok(n) else Err(Structural)
  }

  // ----- Variants (section 4.6.1 of RFC 5246) -----

  /** Values of the enum fields met so far, and whether each selector has found its variant. */
  datatype Scope = Scope(enums: map<string, nat>, seen: map<string, bool>)

  const EMPTY_SCOPE := Scope(map[], map[])

  datatype Choice =
    | Plain                              // not a variant
    | Skip(scope: Scope)                 // a variant the selector does not pick
    | Take(scope: Scope)                 // the variant the selector picks
    | Bad

  function Choose(info: FieldInfo, typ: Type, scope: Scope): Choice {
    if info.selector == "" then Plain
    else if info.selector !in scope.enums || !typ.PointerType? then Bad
    else
      var noted := if info.selector in scope.seen then scope.seen else scope.seen[info.selector := false];
      if scope.enums[info.selector] != info.val then Skip(scope.(seen := noted))
      else if noted[info.selector] then Bad
      else Take(scope.(seen := noted[info.selector := true]))
  }

  /** Fields of kind uint64 may select the variants that follow. */
  function Remember(scope: Scope, f: Field, v: Value): Scope {
    if (f.typ.Uint64Type? || f.typ.EnumType?) && v.Num? then scope.(enums := scope.enums[f.name := v.n]) else scope
  }

  predicate AllSeen(scope: Scope) {
    forall s :: s in scope.seen ==> scope.seen[s]
  }

  predicate IsByteKind(t: Type) {
    t.Uint8Type? || t.NamedUint8Type?
  }

  // ----- Decoding -----

  /** Width of the fixed-size numbers. */
  function Width(t: Type): nat {
    match t
    case Uint8Type => 1
    case Uint16Type => 2
    case Uint24Type => 3
    case Uint32Type => 4
    case Uint64Type => 8
    case _ => 0
  }

  /**
   Decodes a value of type `t` from the front of `rest` and returns what is left.
   `buf` is the buffer `rest` is the tail of, or None for the reading RFC 5246 asks
   for: the code takes the three octets of a Uint24 from the front of the buffer
   (tls/tls.go:339) and not from where it stands.
   */
  function ParseField(buf: Option<seq<Byte>>, t: Type, info: Option<FieldInfo>, rest: seq<Byte>)
    : (r: Outcome<(Value, seq<Byte>)>)
    requires buf.Some? ==> |rest| <= |buf.value|
    ensures r.Ok? ==> |r.value.1| <= |rest|
    decreases t, 0
  {
    match t
    case Uint8Type | Uint16Type | Uint32Type | Uint64Type =>
      if |rest| < Width(t) then Err(Syntax)
      else Ok((Num(BigEndian(rest[..Width(t)])), rest[Width(t)..]))
    case Uint24Type =>
      if |rest| < 3 then Err(Syntax)
      else
        var src := if buf.Some? then buf.value else rest;
        Ok((Num(BigEndian(src[..3])), rest[3..]))
    case EnumType =>
      var n :- ReadVarUint(info, rest);
      Ok((Num(n), rest[info.value.count..]))
    case StructType(fields) =>
      var (vs, r) :- ParseFields(buf, fields, rest, EMPTY_SCOPE);
      Ok((Record(vs), r))
    case ArrayType(len, elem) =>
      if len > |rest| then Err(Syntax)
      else if !IsByteKind(elem) then Err(Structural)
      else Ok((Octets(rest[..len]), rest[len..]))
    case SliceType(elem) =>
      var len :- ReadVarUint(info, rest);
      var tail := rest[info.value.count..];
      if len > |tail| then Err(Syntax)
      else if IsByteKind(elem) then Ok((Octets(tail[..len]), tail[len..]))
      else
        var inner := tail[..len];
        var vs :- ParseElems(if buf.Some? then Some(inner) else None, elem, inner);
        Ok((List(vs), tail[len..]))
    case _ => Err(Structural)
  }

  function ParseFields(buf: Option<seq<Byte>>, fields: seq<Field>, rest: seq<Byte>, scope: Scope)
    : (r: Outcome<(seq<Value>, seq<Byte>)>)
    requires buf.Some? ==> |rest| <= |buf.value|
    ensures r.Ok? ==> |r.value.1| <= |rest|
    decreases fields, 0
  {
    if fields == [] then
      if AllSeen(scope) then Ok(([], rest)) else Err(Syntax)
    else
      var (v, r, scope') :- ParseOne(buf, fields[0], rest, scope);
      var (vs, r') :- ParseFields(buf, fields[1..], r, scope');
      Ok(([v] + vs, r'))
  }

  /** One iteration of the field loop. */
  function ParseOne(buf: Option<seq<Byte>>, f: Field, rest: seq<Byte>, scope: Scope)
    : (r: Outcome<(Value, seq<Byte>, Scope)>)
    requires buf.Some? ==> |rest| <= |buf.value|
    ensures r.Ok? ==> |r.value.1| <= |rest|
    decreases f, 0
  {
    var info :- FieldTagInfo(f);
    match Choose(info, f.typ, scope)
    case Bad => Err(Structural)
    case Skip(scope') => Ok((NilRef, rest, scope'))
    case Take(scope') =>
      var (v, r) :- ParseField(buf, f.typ.elem, Some(info), rest);
      Ok((Ref(v), r, scope'))
    case Plain =>
      var (v, r) :- ParseField(buf, f.typ, Some(info), rest);
      Ok((v, r, Remember(scope, f, v)))
  }

  /** The element loop of a vector; an element that takes no octets makes it spin for ever. */
  function ParseElems(buf: Option<seq<Byte>>, elem: Type, rest: seq<Byte>): Outcome<seq<Value>>
    requires buf.Some? ==> |rest| <= |buf.value|
    decreases elem, |rest| + 1
  {
    if rest == [] then Ok([])
    else
      var (v, r) :- ParseField(buf, elem, None, rest);
      if |r| == |rest| then Err(Diverges)
      else
        var vs :- ParseElems(buf, elem, r);
        Ok([v] + vs)
  }

  // ----- Encoding -----

  function MarshalField(t: Type, info: Option<FieldInfo>, v: Value): Outcome<seq<Byte>>
    decreases t, 0
  {
    match t
    case Uint8Type | Uint16Type | Uint32Type | Uint64Type =>
      if v.Num? && v.n < Pow256(Width(t)) then Ok(ToBigEndian(v.n, Width(t))) else Err(IllTyped)
    case Uint24Type =>
      if !(v.Num? && v.n < Pow256(4)) then Err(IllTyped)
      else if v.n > 0xffffff then Err(Structural)
      else Ok(ToBigEndian(v.n, 3))
    case EnumType =>
      if !(v.Num? && v.n < Pow256(8)) then Err(IllTyped)
      else if info.None? || !Fits(info.value, v.n) then Err(Structural)
      else Ok(ToBigEndian(v.n, info.value.count))
    case StructType(fields) =>
      if !v.Record? then Err(IllTyped)
      else MarshalFields(fields, v.fields, EMPTY_SCOPE)
    case ArrayType(len, elem) =>
      if !IsByteKind(elem) then Err(Structural)
      else if v.Octets? && |v.bytes| == len then Ok(v.bytes)
      else Err(IllTyped)
    case SliceType(elem) =>
      if info.None? then Err(Structural)
      else if IsByteKind(elem) then
        if !v.Octets? then Err(IllTyped)
        else if info.value.count > 8 then Err(Panics)
        else if !Fits(info.value, |v.bytes|) then Err(Structural)
        else Ok(ToBigEndian(|v.bytes|, info.value.count) + v.bytes)
      else if !v.List? then Err(IllTyped)
      else
        var inner :- MarshalElems(elem, v.elems);
        if !Fits(info.value, |inner|) then Err(Structural)
        else Ok(ToBigEndian(|inner|, info.value.count) + inner)
    case _ => Err(Structural)
  }

  function MarshalFields(fields: seq<Field>, vals: seq<Value>, scope: Scope): Outcome<seq<Byte>>
    decreases fields, 0
  {
    if |fields| != |vals| then Err(IllTyped)
    else if fields == [] then
      if AllSeen(scope) then Ok([]) else Err(Syntax)
    else
      var (b, scope') :- MarshalOne(fields[0], vals[0], scope);
      var bs :- MarshalFields(fields[1..], vals[1..], scope');
      Ok(b + bs)
  }

  /** One iteration of the field loop; a variant must be nil exactly if it is not picked. */
  function MarshalOne(f: Field, v: Value, scope: Scope): Outcome<(seq<Byte>, Scope)>
    decreases f, 0
  {
    var info :- FieldTagInfo(f);
    match Choose(info, f.typ, scope)
    case Bad => Err(Structural)
    case Skip(scope') => if v.NilRef? then Ok(([], scope')) else Err(Structural)
    case Take(scope') =>
      if !v.Ref? then Err(Structural)
      else
        var b :- MarshalField(f.typ.elem, Some(info), v.target);
        Ok((b, scope'))
    case Plain =>
      var b :- MarshalField(f.typ, Some(info), v);
      Ok((b, Remember(scope, f, v)))
  }

  function MarshalElems(elem: Type, vals: seq<Value>): Outcome<seq<Byte>>
    decreases elem, |vals| + 1
  {
    if vals == [] then Ok([])
    else
      var b :- MarshalField(elem, None, vals[0]);
      var bs :- MarshalElems(elem, vals[1..]);
      Ok(b + bs)
  }
}
