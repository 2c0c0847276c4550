/**
 DER identifier and length octets (sections 8.1.2, 8.1.3 and 10.1 of ITU-T X.690)
 and the base-128 numbers they share with object identifiers.
 */
module DerTagLength {
  import opened Bytes

  datatype DerError =
    | Internal
    | Truncated
    | TooLarge
    | NonMinimal
    | Indefinite
    | EmptyOid
    | InvalidOid
    | TagMismatch

  type Read<T> = Result<(T, seq<Byte>), DerError>

  const MAX_INT32 := 0x7fff_ffff

  // ----- Base 128 -----

  /** All digits of `n`, each with the continuation bit. */
  function Continued(n: nat): seq<Byte> {
    if n == 0 then [] else Continued(n / 128) + [128 + n % 128]
  }

  function Base128(n: nat): (s: seq<Byte>)
    ensures s != []
  {
    Continued(n / 128) + [n % 128]
  }

  /** What the encoder writes for a Go integer: nothing if it is negative. */
  function Base128Octets(n: int): seq<Byte> {
    if n < 0 then [] else Base128(n)
  }

  /** Reads on with the digits `acc` of `shifted` octets already seen. */
  function ReadBase128(s: seq<Byte>, acc: nat, shifted: nat): (r: Read<nat>)
    ensures r.Ok? ==> r.value.0 <= MAX_INT32 && |r.value.1| < |s|
    decreases |s|
  {
    if s == [] then Err(Truncated)
    else if shifted == 5 then Err(TooLarge)
    else
      var acc' := acc * 128 + s[0] % 128;
      if s[0] >= 128 then ReadBase128(s[1..], acc', shifted + 1)
      else if acc' > MAX_INT32 then Err(TooLarge)
      else Ok((acc', s[1..]))
  }

  lemma {:induction false} ContinuedLength(n: nat, k: nat, bound: nat)
    requires n < bound
    requires (k == 0 && bound <= 1) || (k == 1 && bound <= 0x80) || (k == 2 && bound <= 0x4000)
             || (k == 3 && bound <= 0x200000)
             || (k == 4 && bound <= 0x1000_0000)
    ensures |Continued(n)| <= k
    decreases k
  {
    if n > 0 {
      ContinuedLength(n / 128, k - 1, (bound + 127) / 128);
    }
  }

  lemma {:induction false} ReadContinued(n: nat, tail: seq<Byte>)
    requires |Continued(n)| <= 5
    ensures ReadBase128(Continued(n) + tail, 0, 0) == ReadBase128(tail, n, |Continued(n)|)
  {
    if n == 0 {
      assert [] + tail == tail;
    } else {
      var digit: Byte := 128 + n % 128;
      assert Continued(n) + tail == Continued(n / 128) + ([digit] + tail);
      ReadContinued(n / 128, [digit] + tail);
      assert ([digit] + tail)[1..] == tail;
    }
  }

  /** Exactly the numbers of the int32 range are read back. */
  lemma Base128RoundTrips(n: nat, tail: seq<Byte>)
    ensures ReadBase128(Base128(n) + tail, 0, 0) == Ok((n, tail)) <==> n <= MAX_INT32
  {
    if n <= MAX_INT32 {
      var high, low := n / 128, n % 128;
      ContinuedLength(high, 4, 0x1000_0000);
      var last := [low] + tail;
      assert Base128(n) + tail == Continued(high) + last;
      ReadContinued(high, last);
      assert last[1..] == tail;
      assert ReadBase128(last, high, |Continued(high)|) == Ok((high * 128 + low, tail));
    }
  }

  lemma {:induction false} NoLeadingZero(n: nat)
    ensures n > 0 ==> Continued(n) != [] && Continued(n)[0] != 128
  {
    if n > 0 {
      NoLeadingZero(n / 128);
    }
  }

  lemma NextDigit(acc: nat, d: nat)
    requires d < 128
    ensures acc * 128 + d > 0 ==> Continued(acc * 128 + d) == Continued(acc) + [128 + d]
    ensures Base128(acc * 128 + d) == Continued(acc) + [d]
  {
    var n := acc * 128 + d;
    assert n / 128 == acc && n % 128 == d;
  }

  lemma {:induction false} ReadIsCanonical(s: seq<Byte>, acc: nat, shifted: nat)
    requires ReadBase128(s, acc, shifted).Ok?
    requires acc > 0 || s[0] != 128
    ensures var (n, rest) := ReadBase128(s, acc, shifted).value;
            Base128(n) + rest == Continued(acc) + s
    decreases |s|
  {
    var acc' := acc * 128 + s[0] % 128;
    NextDigit(acc, s[0] % 128);
    assert (Continued(acc) + [s[0]]) + s[1..] == Continued(acc) + s;
    if s[0] >= 128 {
      ReadIsCanonical(s[1..], acc', shifted + 1);
    }
  }

  /** The reader lets leading 0x80 octets pass, and that is all that keeps it from being canonical. */
  lemma Base128IsCanonical(s: seq<Byte>)
    requires ReadBase128(s, 0, 0).Ok?
    ensures var (n, rest) := ReadBase128(s, 0, 0).value;
            Base128(n) + rest == s <==> s[0] != 128
  {
    var (n, rest) := ReadBase128(s, 0, 0).value;
    if s[0] != 128 {
      ReadIsCanonical(s, 0, 0);
      assert [] + s == s;
    } else {
      NoLeadingZero(n / 128);
      assert Base128(n)[0] != 128;
      assert (Base128(n) + rest)[0] == Base128(n)[0];
    }
  }

  /** The reading loop, by offset. */
  method ParseBase128Int(bytes: seq<Byte>, initOffset: nat) returns (r: Result<(nat, nat), DerError>)
    requires initOffset <= |bytes|
    ensures match ReadBase128(bytes[initOffset..], 0, 0)
            case Err(e) => r == Err(e)
            case Ok((n, rest)) => r.Ok? && r.value.0 == n && r.value.1 <= |bytes| && rest == bytes[r.value.1..]
  {
    var offset, ret64, shifted := initOffset, 0, 0;
    while offset < |bytes|
      invariant initOffset <= offset <= |bytes| && ret64 >= 0 && shifted >= 0
      invariant ReadBase128(bytes[initOffset..], 0, 0) == ReadBase128(bytes[offset..], ret64, shifted)
    {
      if shifted == 5 {
        return Err(TooLarge);
      }
      var b := bytes[offset];
      ret64 := ret64 * 128 + b % 128;
      offset := offset + 1;
      if b < 128 {
        if ret64 > MAX_INT32 {
          return Err(TooLarge);
        }
        return Ok((ret64, offset));
      }
      shifted := shifted + 1;
    }
    return Err(Truncated);
  }

  method Base128IntLength(n: int) returns (l: nat)
    ensures l == |Base128Octets(n)|
  {
    if n == 0 {
      return 1;
    }
    l := 0;
    var i := n;
    while i > 0
      invariant n > 0 ==> i >= 0 && l + |Continued(i)| == |Continued(n)|
      invariant n < 0 ==> i == n && l == 0
    {
      l, i := l + 1, i / 128;
    }
  }

  /** Writes the digits from the most significant down. */
  method AppendBase128Int(dst: seq<Byte>, n: int) returns (out: seq<Byte>)
    ensures out == dst + Base128Octets(n)
  {
    var l := Base128IntLength(n);
    out := dst;
    ghost var done: seq<Byte> := [];
    if n >= 0 {
      ShiftedOut(n, l);
    }
    for i := l downto 0
      invariant out == dst + done
      invariant n < 0 ==> l == 0 && done == []
      invariant n >= 0 ==> done == if i > 0 then Continued(ShiftRight(n, 128, i)) else Base128(n)
    {
      var o := ShiftRight(n, 128, i) % 128;
      if i != 0 {
        o := o + 128;
        LeadingDigit(n, l, i);
      }
      out := out + [o];
      done := done + [o];
    }
  }

  lemma {:induction false} ShiftedOut(n: nat, l: nat)
    requires l == |Base128(n)|
    ensures ShiftRight(n, 128, l) == 0
    ensures forall i :: 0 < i < l ==> ShiftRight(n, 128, i) > 0
  {
    ContinuedShift(n / 128);
    forall i | 0 < i <= l ensures ShiftRight(n, 128, i) == ShiftRight(n / 128, 128, i - 1) {
      ShiftFirst(n, 128, i);
    }
  }

  lemma {:induction false} ContinuedShift(n: nat)
    ensures ShiftRight(n, 128, |Continued(n)|) == 0
    ensures forall i :: 0 <= i < |Continued(n)| ==> ShiftRight(n, 128, i) > 0
  {
    if n > 0 {
      ContinuedShift(n / 128);
      forall i | 0 < i <= |Continued(n)| ensures ShiftRight(n, 128, i) == ShiftRight(n / 128, 128, i - 1) {
        ShiftFirst(n, 128, i);
      }
    }
  }

  lemma LeadingDigit(n: nat, l: nat, i: nat)
    requires l == |Base128(n)| && 0 < i < l
    ensures Continued(ShiftRight(n, 128, i))
            == Continued(ShiftRight(n, 128, i + 1)) + [128 + ShiftRight(n, 128, i) % 128]
  {
    ShiftedOut(n, l);
  }

  // ----- Lengths -----

  /** The octets of a length above zero, most significant first. */
  function LengthDigits(n: nat): seq<Byte> {
    if n < 256 then [n] else LengthDigits(n / 256) + [n % 256]
  }

  function LengthOctets(n: nat): seq<Byte>
    requires |LengthDigits(n)| < 128
  {
    if n >= 128 then [128 + |LengthDigits(n)|] + LengthDigits(n) else [n]
  }

  /** Go's int has 64 bits, so there are at most eight of them. */
  type Length = x: int | 0 <= x < 0x8000_0000_0000_0000

  lemma {:induction false} DigitsBound(n: nat, k: nat)
    requires k > 0
    ensures |LengthDigits(n)| <= k <==> n < Pow256(k)
    decreases k
  {
    if n < 256 {
      PowPositive(k);
    } else if k > 1 {
      DigitsBound(n / 256, k - 1);
    } else {
      assert Pow256(1) == 256;
    }
  }

  lemma {:induction false} PowPositive(k: nat)
    requires k > 0
    ensures Pow256(k) >= 256
  {
    if k > 1 {
      PowPositive(k - 1);
    }
  }

  lemma LengthBound(n: Length)
    ensures |LengthDigits(n)| <= 8
    ensures |LengthDigits(n)| <= 4 <==> n < 0x1_0000_0000
  {
    DigitsBound(n, 8);
    DigitsBound(n, 4);
    PowTable();
  }

  /** The loop over the octets of a long length; `acc` must leave room for another shift. */
  function ReadLengthDigits(s: seq<Byte>, count: nat, acc: nat): (r: Read<nat>)
    ensures r.Ok? ==> |r.value.1| == |s| - count
    ensures r.Ok? && acc < 0x8000_0000 ==> r.value.0 < 0x8000_0000
    decreases count
  {
    if count == 0 then Ok((acc, s))
    else if s == [] then Err(Truncated)
    else if acc >= 0x80_0000 then Err(TooLarge)
    else if acc * 256 + s[0] == 0 then Err(NonMinimal)
    else ReadLengthDigits(s[1..], count - 1, acc * 256 + s[0])
  }

  function ReadLength(s: seq<Byte>): (r: Read<nat>)
    ensures r.Ok? ==> |r.value.1| < |s| && r.value.0 < 0x8000_0000
  {
    if s == [] then Err(Truncated)
    else if s[0] < 128 then Ok((s[0], s[1..]))
    else if s[0] == 128 then Err(Indefinite)
    else
      var (n, rest) :- ReadLengthDigits(s[1..], s[0] - 128, 0);
      if n < 128 then Err(NonMinimal) else Ok((n, rest))
  }

  lemma {:induction false} ReadDigitsBack(n: nat, k: nat, tail: seq<Byte>)
    requires 0 < n < 0x8000_0000
    ensures ReadLengthDigits(LengthDigits(n) + tail, |LengthDigits(n)| + k, 0) == ReadLengthDigits(tail, k, n)
  {
    if n < 256 {
      assert (LengthDigits(n) + tail)[1..] == tail;
    } else {
      var d: Byte := n % 256;
      assert LengthDigits(n) + tail == LengthDigits(n / 256) + ([d] + tail);
      ReadDigitsBack(n / 256, k + 1, [d] + tail);
      assert ([d] + tail)[1..] == tail;
    }
  }

  lemma {:induction false} DigitsAreCanonical(s: seq<Byte>, count: nat, acc: nat)
    requires acc > 0 && ReadLengthDigits(s, count, acc).Ok?
    ensures var (n, rest) := ReadLengthDigits(s, count, acc).value;
            n > 0 && LengthDigits(n) + rest == LengthDigits(acc) + s && |LengthDigits(n)| == |LengthDigits(acc)| + count
    decreases count
  {
    if count > 0 {
      var acc' := acc * 256 + s[0];
      assert acc' / 256 == acc && acc' % 256 == s[0];
      DigitsAreCanonical(s[1..], count - 1, acc');
      assert (LengthDigits(acc) + [s[0]]) + s[1..] == LengthDigits(acc) + s;
    }
  }

  /**
   The length octets accepted are exactly the minimal forms of the lengths below 2^31:
   the guard at 2^23 is what sets that limit.
   */
  lemma LengthIsCanonical(s: seq<Byte>)
    requires ReadLength(s).Ok?
    ensures var (n, rest) := ReadLength(s).value;
            |LengthDigits(n)| < 128 && LengthOctets(n) + rest == s
  {
    var (n, rest) := ReadLength(s).value;
    LengthBound(n);
    if s[0] >= 128 {
      var t := s[1..];
      DigitsAreCanonical(t[1..], s[0] - 129, t[0]);
      assert [t[0]] + t[1..] == t;
      assert LengthDigits(n) + rest == t;
      assert ([s[0]] + LengthDigits(n)) + rest == [s[0]] + (LengthDigits(n) + rest);
    }
  }

  lemma LengthRoundTrips(n: Length, tail: seq<Byte>)
    ensures |LengthDigits(n)| < 128
    ensures ReadLength(LengthOctets(n) + tail) == Ok((n, tail)) <==> n < 0x8000_0000
  {
    LengthBound(n);
    if n < 0x8000_0000 {
      if n < 128 {
        assert (LengthOctets(n) + tail)[1..] == tail;
      } else {
        assert (LengthOctets(n) + tail)[1..] == LengthDigits(n) + tail;
        ReadDigitsBack(n, 0, tail);
      }
    }
  }

  // ----- Tag and length -----

  datatype TagAndLength = TagAndLength(class_: nat, tag: nat, length: Length, isCompound: bool)

  function TagOctets(t: TagAndLength): seq<Byte>
    requires t.class_ < 4
  {
    var b := t.class_ * 64 + if t.isCompound then 32 else 0;
    if t.tag >= 31 then [b + 31] + Base128(t.tag) else [b + t.tag]
  }

  function TagAndLengthOctets(t: TagAndLength): seq<Byte>
    requires t.class_ < 4
  {
    LengthBound(t.length);
    TagOctets(t) + LengthOctets(t.length)
  }

  function ReadTag(s: seq<Byte>): (r: Read<TagAndLength>)
    ensures r.Ok? ==> |r.value.1| < |s| && r.value.0.tag <= MAX_INT32 && r.value.0.class_ < 4
  {
    if s == [] then Err(Internal)
    else
      var t := TagAndLength(s[0] / 64, s[0] % 32, 0, s[0] / 32 % 2 == 1);
      if t.tag != 31 then Ok((t, s[1..]))
      else
        var (tag, rest) :- ReadBase128(s[1..], 0, 0);
        if tag < 31 then Err(NonMinimal) else Ok((t.(tag := tag), rest))
  }

  function ReadTagAndLength(s: seq<Byte>): (r: Read<TagAndLength>)
    ensures r.Ok? ==>
            |r.value.1| < |s| && r.value.0.tag <= MAX_INT32 && r.value.0.length < 0x8000_0000 && r.value.0.class_ < 4
  {
    var (t, rest) :- ReadTag(s);
    var (length, rest') :- ReadLength(rest);
    Ok((t.(length := length), rest'))
  }

  /** Identifier and length octets are read back, whatever follows them, exactly in the int32 range. */
  lemma TagAndLengthRoundTrips(t: TagAndLength, tail: seq<Byte>)
    requires t.class_ < 4
    ensures ReadTagAndLength(TagAndLengthOctets(t) + tail) == Ok((t, tail))
            <==> t.tag <= MAX_INT32 && t.length <= MAX_INT32
  {
    if t.tag <= MAX_INT32 && t.length <= MAX_INT32 {
      LengthBound(t.length);
      var lengthOctets := LengthOctets(t.length) + tail;
      assert TagAndLengthOctets(t) + tail == TagOctets(t) + lengthOctets;
      TagRoundTrips(t, lengthOctets);
      LengthRoundTrips(t.length, tail);
    }
  }

  lemma TagRoundTrips(t: TagAndLength, tail: seq<Byte>)
    requires t.class_ < 4 && t.tag <= MAX_INT32
    ensures ReadTag(TagOctets(t) + tail) == Ok((t.(length := 0), tail))
  {
    var s := TagOctets(t) + tail;
    LeadingOctet(t.class_, t.isCompound, if t.tag >= 31 then 31 else t.tag);
    if t.tag >= 31 {
      assert s[1..] == Base128(t.tag) + tail;
      Base128RoundTrips(t.tag, tail);
    } else {
      assert s[1..] == tail;
    }
  }

  /** Class, form and low tag number occupy different bits. */
  lemma LeadingOctet(class_: nat, isCompound: bool, low: nat)
    requires class_ < 4 && low < 32
    ensures var b := class_ * 64 + (if isCompound then 32 else 0) + low;
            b / 64 == class_ && (b / 32 % 2 == 1 <==> isCompound) && b % 32 == low
  {
  }

  /** Reading is canonical but for high tag numbers that start with 0x80. */
  lemma TagAndLengthIsCanonical(s: seq<Byte>)
    requires ReadTagAndLength(s).Ok?
    ensures var (t, rest) := ReadTagAndLength(s).value;
            TagAndLengthOctets(t) + rest == s <==> !(s[0] % 32 == 31 && s[1] == 128)
  {
    var (t0, mid) := ReadTag(s).value;
    var (t, rest) := ReadTagAndLength(s).value;
    LengthIsCanonical(mid);
    TagIsCanonical(s);
    assert TagAndLengthOctets(t) + rest == TagOctets(t0) + (LengthOctets(t.length) + rest);
  }

  lemma TagIsCanonical(s: seq<Byte>)
    requires ReadTag(s).Ok?
    ensures var (t, rest) := ReadTag(s).value;
            TagOctets(t) + rest == s <==> !(s[0] % 32 == 31 && s[1] == 128)
  {
    var (t, rest) := ReadTag(s).value;
    assert s == [s[0]] + s[1..];
    assert s[0] == t.class_ * 64 + (if t.isCompound then 32 else 0) + s[0] % 32;
    if s[0] % 32 == 31 {
      Base128IsCanonical(s[1..]);
      assert TagOctets(t) + rest == [s[0]] + (Base128(t.tag) + rest);
      assert (TagOctets(t) + rest)[1..] == Base128(t.tag) + rest;
    }
  }

  // ----- The loops -----

  method LengthLength(i: nat) returns (numBytes: nat)
    ensures numBytes == |LengthDigits(i)|
  {
    numBytes := 1;
    var n := i;
    while n > 255
      invariant numBytes + |LengthDigits(n)| == 1 + |LengthDigits(i)|
    {
      numBytes, n := numBytes + 1, n / 256;
    }
  }

  method AppendLength(dst: seq<Byte>, i: nat) returns (out: seq<Byte>)
    ensures out == dst + LengthDigits(i)
  {
    var l := LengthLength(i);
    out := dst;
    ghost var done: seq<Byte> := [];
    DigitsShift(i);
    for n := l downto 0
      invariant out == dst + done
      invariant done == if n == l then [] else LengthDigits(ShiftRight(i, 256, n))
    {
      out := out + [ShiftRight(i, 256, n) % 256];
      done := done + [ShiftRight(i, 256, n) % 256];
    }
  }

  lemma {:induction false} DigitsShift(n: nat)
    ensures LengthDigits(n) != []
    ensures ShiftRight(n, 256, |LengthDigits(n)| - 1) < 256
    ensures forall k :: 0 <= k < |LengthDigits(n)| - 1 ==> ShiftRight(n, 256, k) >= 256
  {
    if n >= 256 {
      DigitsShift(n / 256);
      forall k | 0 < k < |LengthDigits(n)| ensures ShiftRight(n, 256, k) == ShiftRight(n / 256, 256, k - 1) {
        ShiftFirst(n, 256, k);
      }
    }
  }

  method AppendTagAndLength(dst: seq<Byte>, t: TagAndLength) returns (out: seq<Byte>)
    requires t.class_ < 4
    ensures out == dst + TagAndLengthOctets(t)
  {
    LengthBound(t.length);
    var b := t.class_ * 64;
    if t.isCompound {
      b := b + 32;
    }
    var head: seq<Byte>;
    if t.tag >= 31 {
      head := AppendBase128Int([b + 31], t.tag);
    } else {
      head := [b + t.tag];
    }
    assert head == TagOctets(t);
    var length: seq<Byte>;
    if t.length >= 128 {
      var l := LengthLength(t.length);
      length := AppendLength([128 + l], t.length);
    } else {
      length := [t.length];
    }
    assert length == LengthOctets(t.length);
    out := dst + (head + length);
  }

  /** Reads one tag and length at an offset; the length is accumulated while it stays below 2^23. */
  method ParseTagAndLength(bytes: seq<Byte>, initOffset: nat) returns (r: Result<(TagAndLength, nat), DerError>)
    requires initOffset <= |bytes|
    ensures match ReadTagAndLength(bytes[initOffset..])
            case Err(e) => r == Err(e)
            case Ok((t, rest)) => r.Ok? && r.value.0 == t && r.value.1 <= |bytes| && rest == bytes[r.value.1..]
  {
    var offset := initOffset;
    if offset >= |bytes| {
      return Err(Internal);
    }
    var b := bytes[offset];
    offset := offset + 1;
    var ret := TagAndLength(b / 64, b % 32, 0, b / 32 % 2 == 1);
    if ret.tag == 31 {
      var tag := ParseBase128Int(bytes, offset);
      if tag.Err? {
        return Err(tag.error);
      }
      if tag.value.0 < 31 {
        return Err(NonMinimal);
      }
      ret, offset := ret.(tag := tag.value.0), tag.value.1;
    }
    assert ReadTag(bytes[initOffset..]) == Ok((ret, bytes[offset..]));
    var length := ParseLength(bytes, offset);
    if length.Err? {
      return Err(length.error);
    }
    return Ok((ret.(length := length.value.0), length.value.1));
  }

  method ParseLength(bytes: seq<Byte>, initOffset: nat) returns (r: Result<(nat, nat), DerError>)
    requires initOffset <= |bytes|
    ensures match ReadLength(bytes[initOffset..])
            case Err(e) => r == Err(e)
            case Ok((n, rest)) => r.Ok? && r.value.0 == n && r.value.1 <= |bytes| && rest == bytes[r.value.1..]
  {
    var offset := initOffset;
    if offset >= |bytes| {
      return Err(Truncated);
    }
    var b := bytes[offset];
    offset := offset + 1;
    if b < 128 {
      return Ok((b, offset));
    }
    var numBytes := b - 128;
    if numBytes == 0 {
      return Err(Indefinite);
    }
    var length: nat := 0;
    for i := 0 to numBytes
      invariant initOffset < offset <= |bytes|
      invariant ReadLengthDigits(bytes[initOffset + 1..], numBytes, 0)
                == ReadLengthDigits(bytes[offset..], numBytes - i, length)
    {
      if offset >= |bytes| {
        return Err(Truncated);
      }
      b := bytes[offset];
      offset := offset + 1;
      if length >= 0x80_0000 {
        return Err(TooLarge);
      }
      length := length * 256 + b;
      if length == 0 {
        return Err(NonMinimal);
      }
    }
    if length < 128 {
      return Err(NonMinimal);
    }
    return Ok((length, offset));
  }
}
