/**
 The two-phase encoder of asn1/marshal.go: a tree of elements that knows its length
 and then writes itself into one buffer allocated for the whole.
 */
module DerEncoders {
  import opened Bytes
  import opened DerInteger
  import opened DerTagLength
  import opened DerOid
  import opened DerBitString

  datatype Encoder =
    | ByteEncoder(b: Byte)
    | BytesEncoder(bytes: seq<Byte>)     // also stringEncoder: a Go string is a sequence of octets
    | MultiEncoder(parts: seq<Encoder>)
    | TaggedEncoder(tag: Encoder, body: Encoder)
    | Int64Encoder(i: int)
    | BitStringEncoder(bits: BitString)
    | OidEncoder(oid: Oid)

  /** Object identifiers of fewer than two arcs never become encoders. */
  predicate Valid(e: Encoder) {
    match e
    case MultiEncoder(parts) => forall p :: p in parts ==> Valid(p)
    case TaggedEncoder(tag, body) => Valid(tag) && Valid(body)
    case Int64Encoder(i) => IsInt64(i)
    case OidEncoder(oid) => |oid| >= 2
    case _ => true
  }

  /** What an element stands for. */
  function Octets(e: Encoder): seq<Byte>
    requires Valid(e)
    decreases e, 0
  {
    match e
    case ByteEncoder(b) => [b]
    case BytesEncoder(s) => s
    case MultiEncoder(parts) => AllOctets(parts)
    case TaggedEncoder(tag, body) => Octets(tag) + Octets(body)
    case Int64Encoder(i) => Minimal(i)
    case BitStringEncoder(b) => BitStringOctets(b)
    case OidEncoder(oid) => OidOctets(oid)
  }

  function AllOctets(parts: seq<Encoder>): seq<Byte>
    requires forall p :: p in parts ==> Valid(p)
    decreases parts, 0
  {
    if parts == [] then [] else Octets(parts[0]) + AllOctets(parts[1..])
  }

  lemma {:induction false} AllOctetsConcat(parts: seq<Encoder>, e: Encoder)
    requires Valid(e) && forall p :: p in parts ==> Valid(p)
    ensures AllOctets(parts + [e]) == AllOctets(parts) + Octets(e)
  {
    if parts == [] {
      assert parts + [e] == [e] && [e][1..] == [];
      assert Octets(e) + [] == [] + Octets(e);
    } else {
      AllOctetsConcat(parts[1..], e);
      assert (parts + [e])[1..] == parts[1..] + [e];
    }
  }

  lemma AllOctetsSnoc(parts: seq<Encoder>, i: nat)
    requires i < |parts| && forall p :: p in parts ==> Valid(p)
    ensures AllOctets(parts[..i + 1]) == AllOctets(parts[..i]) + Octets(parts[i])
  {
    AllOctetsConcat(parts[..i], parts[i]);
    assert parts[..i + 1] == parts[..i] + [parts[i]];
  }

  lemma {:induction false} AllOctetsPrefix(parts: seq<Encoder>, i: nat)
    requires i <= |parts| && forall p :: p in parts ==> Valid(p)
    ensures |AllOctets(parts[..i])| <= |AllOctets(parts)|
    decreases |parts| - i
  {
    if i == |parts| {
      assert parts[..i] == parts;
    } else {
      AllOctetsSnoc(parts, i);
      AllOctetsPrefix(parts, i + 1);
    }
  }

  /** The length pass. */
  method Len(e: Encoder) returns (n: nat)
    requires Valid(e)
    ensures n == |Octets(e)|
    decreases e, 0
  {
    match e
    case ByteEncoder(_) =>
      n := 1;
    case BytesEncoder(s) =>
      n := |s|;
    case MultiEncoder(parts) =>
      n := LenAll(parts);
    case TaggedEncoder(tag, body) =>
      var t := Len(tag);
      var b := Len(body);
      n := t + b;
    case Int64Encoder(i) =>
      n := Int64Length(i);
    case BitStringEncoder(b) =>
      n := |b.bytes| + 1;
    case OidEncoder(oid) =>
      n := LenOid(oid);
  }

  method LenAll(parts: seq<Encoder>) returns (n: nat)
    requires forall p :: p in parts ==> Valid(p)
    ensures n == |AllOctets(parts)|
    decreases parts, 0
  {
    n := 0;
    for i := 0 to |parts|
      invariant n == |AllOctets(parts[..i])|
    {
      var size := Len(parts[i]);
      AllOctetsSnoc(parts, i);
      n := n + size;
    }
    assert parts[..|parts|] == parts;
  }

  method LenOid(oid: Oid) returns (n: nat)
    requires |oid| >= 2
    ensures n == |OidOctets(oid)|
  {
    n := Base128IntLength(Wrap64(oid[0] * 40 + oid[1]));
    for i := 2 to |oid|
      invariant |OidOctets(oid)| == n + |ArcOctets(oid[i..])|
    {
      var l := Base128IntLength(oid[i]);
      assert oid[i..][1..] == oid[i + 1..];
      n := n + l;
    }
  }

  /** `now` is `was` with `s` written at `off`. */
  predicate Written(was: seq<Byte>, now: seq<Byte>, off: nat, s: seq<Byte>) {
    && off + |s| <= |was|
    && now == was[..off] + s + was[off + |s|..]
  }

  lemma WrittenTwice(was: seq<Byte>, mid: seq<Byte>, now: seq<Byte>, off: nat, s: seq<Byte>, t: seq<Byte>)
    requires Written(was, mid, off, s) && Written(mid, now, off + |s|, t)
    ensures Written(was, now, off, s + t)
  {
    assert mid[..off + |s|] == was[..off] + s;
    assert mid[off + |s| + |t|..] == was[off + |s| + |t|..];
    assert now == (was[..off] + s) + t + was[off + |s| + |t|..];
    assert now == was[..off] + (s + t) + was[off + |s + t|..];
  }

  lemma WrittenOne(was: seq<Byte>, now: seq<Byte>, off: nat, b: Byte)
    requires off < |was| && now == was[off := b]
    ensures Written(was, now, off, [b])
  {
  }

  method Put(dst: array<Byte>, off: nat, b: Byte)
    requires off < dst.Length
    modifies dst
    ensures Written(old(dst[..]), dst[..], off, [b])
  {
    dst[off] := b;
    WrittenOne(old(dst[..]), dst[..], off, b);
  }

  /** Copies octets into the window that starts at `off`. */
  method Copy(dst: array<Byte>, off: nat, s: seq<Byte>)
    requires off + |s| <= dst.Length
    modifies dst
    ensures Written(old(dst[..]), dst[..], off, s)
  {
    for i := 0 to |s|
      invariant dst[..] == old(dst[..])[..off] + s[..i] + old(dst[..])[off + i..]
    {
      dst[off + i] := s[i];
      assert dst[..] == old(dst[..])[..off] + s[..i + 1] + old(dst[..])[off + i + 1..];
    }
    assert s[..|s|] == s;
  }

  /** The writing pass: fills its window with the element's octets and leaves every other octet alone. */
  method Encode(e: Encoder, dst: array<Byte>, off: nat)
    requires Valid(e) && off + |Octets(e)| <= dst.Length
    modifies dst
    ensures Written(old(dst[..]), dst[..], off, Octets(e))
    decreases e, 0
  {
    ghost var was := dst[..];
    match e
    case ByteEncoder(b) =>
      Put(dst, off, b);
    case BytesEncoder(s) =>
      Copy(dst, off, s);
    case MultiEncoder(parts) =>
      EncodeAll(parts, dst, off);
    case TaggedEncoder(tag, body) =>
      Encode(tag, dst, off);
      ghost var mid := dst[..];
      var t := Len(tag);
      Encode(body, dst, off + t);
      WrittenTwice(was, mid, dst[..], off, Octets(tag), Octets(body));
    case Int64Encoder(i) =>
      EncodeInt64(i, dst, off);
    case BitStringEncoder(b) =>
      EncodeBitString(b, dst, off);
    case OidEncoder(oid) =>
      EncodeOid(oid, dst, off);
  }

  method EncodeBitString(b: BitString, dst: array<Byte>, off: nat)
    requires off + |BitStringOctets(b)| <= dst.Length
    modifies dst
    ensures Written(old(dst[..]), dst[..], off, BitStringOctets(b))
  {
    ghost var was := dst[..];
    var padding := (8 - GoMod8(b.bitLength)) % 8;
    Put(dst, off, padding);
    ghost var mid := dst[..];
    Copy(dst, off + 1, b.bytes);
    WrittenTwice(was, mid, dst[..], off, [padding], b.bytes);
  }

  /** Appends number after number. */
  method AppendOid(oid: Oid) returns (out: seq<Byte>)
    requires |oid| >= 2
    ensures out == OidOctets(oid)
  {
    var first := Wrap64(oid[0] * 40 + oid[1]);
    out := AppendBase128Int([], first);
    assert [] + Base128Octets(first) == Base128Octets(first);
    for i := 2 to |oid|
      invariant OidOctets(oid) == out + ArcOctets(oid[i..])
    {
      var next := AppendBase128Int(out, oid[i]);
      NextArc(oid, i);
      Assoc(out, Base128Octets(oid[i]), ArcOctets(oid[i + 1..]));
      out := next;
    }
    assert oid[|oid|..] == [] && out + [] == out;
  }

  lemma NextArc(oid: Oid, i: nat)
    requires i < |oid|
    ensures ArcOctets(oid[i..]) == Base128Octets(oid[i]) + ArcOctets(oid[i + 1..])
  {
    assert oid[i..][1..] == oid[i + 1..];
  }

  lemma Assoc(a: seq<Byte>, b: seq<Byte>, c: seq<Byte>)
    ensures a + (b + c) == (a + b) + c
  {
  }

  /** The source appends to the empty front of the window; the window has room, so the octets land in it. */
  method EncodeOid(oid: Oid, dst: array<Byte>, off: nat)
    requires |oid| >= 2 && off + |OidOctets(oid)| <= dst.Length
    modifies dst
    ensures Written(old(dst[..]), dst[..], off, OidOctets(oid))
  {
    var out := AppendOid(oid);
    Copy(dst, off, out);
  }

  method EncodeAll(parts: seq<Encoder>, dst: array<Byte>, start: nat)
    requires forall p :: p in parts ==> Valid(p)
    requires start + |AllOctets(parts)| <= dst.Length
    modifies dst
    ensures Written(old(dst[..]), dst[..], start, AllOctets(parts))
    decreases parts, 0
  {
    ghost var was := dst[..];
    var off := 0;
    for i := 0 to |parts|
      invariant off == |AllOctets(parts[..i])|
      invariant start + off <= dst.Length
      invariant Written(was, dst[..], start, AllOctets(parts[..i]))
    {
      AllOctetsSnoc(parts, i);
      AllOctetsPrefix(parts, i + 1);
      ghost var mid, done, next := dst[..], AllOctets(parts[..i]), Octets(parts[i]);
      Encode(parts[i], dst, start + off);
      var size := Len(parts[i]);
      WrittenTwice(was, mid, dst[..], start, done, next);
      off := off + size;
    }
    assert parts[..|parts|] == parts;
  }

  /** Each octet is the word shifted right and cut to eight bits. */
  method EncodeInt64(x: int, dst: array<Byte>, off: nat)
    requires off + |Minimal(x)| <= dst.Length
    modifies dst
    ensures Written(old(dst[..]), dst[..], off, Minimal(x))
  {
    var n := Int64Length(x);
    for j := 0 to n
      invariant dst[..] == old(dst[..])[..off] + Minimal(x)[..j] + old(dst[..])[off + j..]
    {
      dst[off + j] := ShiftRight(x, 256, n - 1 - j) % 256;
      MinimalDigit(x, j);
      assert dst[..] == old(dst[..])[..off] + Minimal(x)[..j + 1] + old(dst[..])[off + j + 1..];
    }
    assert Minimal(x)[..n] == Minimal(x);
  }

  lemma {:induction false} MinimalDigit(x: int, j: nat)
    requires j < |Minimal(x)|
    ensures Minimal(x)[j] == ShiftRight(x, 256, |Minimal(x)| - 1 - j) % 256
    decreases |Minimal(x)|
  {
    if j < |Minimal(x)| - 1 {
      MinimalDigit(x / 256, j);
      ShiftFirst(x, 256, |Minimal(x)| - 1 - j);
    }
  }

  /** One allocation of exactly the length computed first is filled exactly. */
  method MarshalTree(e: Encoder) returns (b: array<Byte>)
    requires Valid(e)
    ensures fresh(b) && b[..] == Octets(e)
  {
    var n := Len(e);
    b := new Byte[n];
    Encode(e, b, 0);
  }

  // ----- Elements -----

  /** The encoder makeBigInt builds. */
  function MakeBigInt(n: Option<int>): Result<Encoder, IntegerError> {
    var (padding, bytes) :- BigIntParts(n);
    Ok(if n == Some(0) then ByteEncoder(0)
       else if padding.Some? then MultiEncoder([ByteEncoder(padding.value), BytesEncoder(bytes)])
       else BytesEncoder(bytes))
  }

  /** Both integer encoders write the one minimal form. */
  lemma IntegerEncodersAgree(x: int)
    requires IsInt64(x)
    ensures MakeBigInt(Some(x)).Ok? && Valid(MakeBigInt(Some(x)).value)
    ensures Octets(MakeBigInt(Some(x)).value) == Octets(Int64Encoder(x)) == Minimal(x)
  {
    BigIntWritesMinimal(x);
  }

  lemma BigIntWritesMinimal(x: int)
    ensures MakeBigInt(Some(x)).Ok? && Valid(MakeBigInt(Some(x)).value)
    ensures Octets(MakeBigInt(Some(x)).value) == Minimal(x)
  {
    BigIntIsMinimal(x);
    var e := MakeBigInt(Some(x)).value;
    if e.MultiEncoder? {
      var pad, rest := e.parts[0], e.parts[1];
      assert e.parts[1..] == [rest] && [rest][1..] == [];
      assert AllOctets([rest]) == Octets(rest) + AllOctets([]);
      assert Octets(rest) + [] == Octets(rest);
      assert AllOctets(e.parts) == Octets(pad) + Octets(rest);
    }
  }

  /** A body under its identifier and length octets, as makeField wraps it. */
  function Element(class_: nat, tag: nat, isCompound: bool, body: Encoder): (e: Encoder)
    requires class_ < 4 && Valid(body) && |Octets(body)| < 0x8000_0000_0000_0000
    ensures Valid(e)
  {
    TaggedEncoder(BytesEncoder(TagAndLengthOctets(TagAndLength(class_, tag, |Octets(body)|, isCompound))), body)
  }

  /** What the elements of a sequence must be: anything, or of one universal tag and form. */
  datatype ElementKind = AnyKind | Universal(tag: nat, isCompound: bool)

  const UTF8_STRING := 12
  const NUMERIC_STRING := 18
  const PRINTABLE_STRING := 19
  const T61_STRING := 20
  const IA5_STRING := 22
  const UTC_TIME := 23
  const GENERALIZED_TIME := 24
  const GENERAL_STRING := 27
  const BMP_STRING := 30

  /** The other string types pass for printable strings, and both time types for one. */
  function Alias(tag: nat): nat {
    if tag in {IA5_STRING, GENERAL_STRING, T61_STRING, UTF8_STRING, NUMERIC_STRING, BMP_STRING} then PRINTABLE_STRING
    else if tag in {GENERALIZED_TIME, UTC_TIME} then UTC_TIME
    else tag
  }

  predicate IsOfKind(kind: ElementKind, t: TagAndLength) {
    kind.Universal? ==> t.class_ == 0 && t.isCompound == kind.isCompound && Alias(t.tag) == kind.tag
  }

  /** Takes a header, tests its kind and takes that many octets, over and over. */
  function SplitElements(kind: ElementKind, s: seq<Byte>): Result<seq<(TagAndLength, seq<Byte>)>, DerTagLength.DerError>
    decreases |s|, 0
  {
    if s == [] then Ok([])
    else
      var (t, rest) :- ReadTagAndLength(s);
      SplitAfter(kind, t, rest)
  }

  function SplitAfter(kind: ElementKind, t: TagAndLength, rest: seq<Byte>)
    : Result<seq<(TagAndLength, seq<Byte>)>, DerTagLength.DerError>
    decreases |rest|, 1
  {
    if !IsOfKind(kind, t) then Err(TagMismatch)
    else if t.length > |rest| then Err(Truncated)
    else
      var more :- SplitElements(kind, rest[t.length..]);
      Ok([(t, rest[..t.length])] + more)
  }

  /** So many elements more than the pieces there are. */
  ghost function Plus(n: nat, r: Result<seq<(TagAndLength, seq<Byte>)>, DerTagLength.DerError>)
    : Result<nat, DerTagLength.DerError>
  {
    match r
    case Err(e) => Err(e)
    case Ok(pieces) => Ok(n + |pieces|)
  }

  lemma ElementTurn(kind: ElementKind, t: TagAndLength, rest: seq<Byte>, n: nat)
    requires IsOfKind(kind, t) && t.length <= |rest|
    ensures Plus(n, SplitAfter(kind, t, rest)) == Plus(n + 1, SplitElements(kind, rest[t.length..]))
  {
  }

  lemma HeaderTurn(kind: ElementKind, s: seq<Byte>)
    requires s != []
    ensures ReadTagAndLength(s).Err? ==> SplitElements(kind, s) == Err(ReadTagAndLength(s).error)
    ensures ReadTagAndLength(s).Ok? ==>
              SplitElements(kind, s) == SplitAfter(kind, ReadTagAndLength(s).value.0, ReadTagAndLength(s).value.1)
  {
  }

  /** The first loop of parseSequenceOf: checks and counts the elements by their offsets. */
  method CountElements(bytes: seq<Byte>, kind: ElementKind) returns (r: Result<nat, DerTagLength.DerError>)
    ensures r == Plus(0, SplitElements(kind, bytes))
  {
    var numElements, offset := 0, 0;
    assert bytes[0..] == bytes;
    while offset < |bytes|
      invariant 0 <= offset <= |bytes|
      invariant Plus(0, SplitElements(kind, bytes)) == Plus(numElements, SplitElements(kind, bytes[offset..]))
      decreases |bytes| - offset
    {
      HeaderTurn(kind, bytes[offset..]);
      var header := ParseTagAndLength(bytes, offset);
      if header.Err? {
        return Err(header.error);
      }
      var t, start := header.value.0, header.value.1;
      if !IsOfKind(kind, t) {
        return Err(TagMismatch);
      }
      if t.length > |bytes| - start {
        return Err(Truncated);
      }
      ElementTurn(kind, t, bytes[start..], numElements);
      assert bytes[start..][t.length..] == bytes[start + t.length..];
      offset, numElements := start + t.length, numElements + 1;
    }
    return Ok(numElements);
  }

  predicate IsElement(e: Encoder) {
    && Valid(e) && e.TaggedEncoder? && |Octets(e.body)| <= MAX_INT32
    && exists c: nat, t: nat, b: bool :: c < 4 && t <= MAX_INT32 && e == Element(c, t, b, e.body)
  }

  /** What a reader finds in an element: its header and the octets of its body. */
  ghost function Header(e: Encoder): (t: TagAndLength)
    requires IsElement(e)
    ensures t.class_ < 4 && t.tag <= MAX_INT32 && t.length == |Octets(e.body)|
    ensures Octets(e) == TagAndLengthOctets(t) + Octets(e.body)
  {
    var c: nat, t: nat, b: bool :| c < 4 && t <= MAX_INT32 && e == Element(c, t, b, e.body);
    TagAndLength(c, t, |Octets(e.body)|, b)
  }

  ghost function Pieces(es: seq<Encoder>): seq<(TagAndLength, seq<Byte>)>
    requires forall e :: e in es ==> IsElement(e)
  {
    if es == [] then [] else [(Header(es[0]), Octets(es[0].body))] + Pieces(es[1..])
  }

  lemma ElementReadsBack(e: Encoder, more: seq<Byte>)
    requires IsElement(e)
    ensures Valid(e) && Octets(e) != []
    ensures ReadTagAndLength(Octets(e) + more) == Ok((Header(e), Octets(e.body) + more))
  {
    var t, body := Header(e), Octets(e.body);
    Assoc(TagAndLengthOctets(t), body, more);
    TagAndLengthRoundTrips(t, body + more);
    assert TagAndLengthOctets(t) != [];
  }

  ghost function Consed(piece: (TagAndLength, seq<Byte>),
                        r: Result<seq<(TagAndLength, seq<Byte>)>, DerTagLength.DerError>)
    : Result<seq<(TagAndLength, seq<Byte>)>, DerTagLength.DerError>
  {
    match r
    case Err(e) => Err(e)
    case Ok(pieces) => Ok([piece] + pieces)
  }

  /** The first of several elements is taken off if it is of the kind. */
  lemma FirstSplits(kind: ElementKind, e: Encoder, more: seq<Byte>)
    requires IsElement(e)
    ensures SplitElements(kind, Octets(e) + more)
            == if IsOfKind(kind, Header(e)) then Consed((Header(e), Octets(e.body)), SplitElements(kind, more))
               else Err(TagMismatch)
  {
    var body := Octets(e.body);
    ElementReadsBack(e, more);
    HeaderTurn(kind, Octets(e) + more);
    assert (body + more)[..|body|] == body && (body + more)[|body|..] == more;
  }

  /** A sequence of elements is taken apart into exactly those elements if and only if all are of the kind. */
  lemma {:induction false} SequenceSplits(kind: ElementKind, es: seq<Encoder>)
    requires forall e :: e in es ==> IsElement(e)
    ensures (forall e :: e in es ==> IsOfKind(kind, Header(e))) ==> SplitElements(kind, AllOctets(es)) == Ok(Pieces(es))
    ensures !(forall e :: e in es ==> IsOfKind(kind, Header(e))) ==>
            SplitElements(kind, AllOctets(es)) == Err(TagMismatch)
  {
    if es != [] {
      assert IsElement(es[0]) && forall e :: e in es <==> e == es[0] || e in es[1..];
      FirstSplits(kind, es[0], AllOctets(es[1..]));
      SequenceSplits(kind, es[1..]);
    }
  }
}
