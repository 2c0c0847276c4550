/**
 DER INTEGER (section 8.3 of ITU-T X.690): the 64-bit and the arbitrary-precision
 codecs of asn1/asn1.go and asn1/marshal.go against two's complement arithmetic.
 */
module DerInteger {
  import opened Bytes

  datatype IntegerError = Empty | NotMinimal | TooLarge

  type Parsed = Result<int, IntegerError>

  /** What a 64-bit signed word keeps of `x`. */
  function Wrap64(x: int): (w: int)
    ensures IsInt64(w)
  {
    (x + TWO_63) % TWO_64 - TWO_63
  }

  // ----- The reference: two's complement -----

  function TwosComplement(s: seq<Byte>): int
    requires s != []
  {
    if s[0] < 128 then BigEndian(s) else BigEndian(s) - Pow256(|s|)
  }

  /** The shortest two's complement form. */
  function Minimal(x: int): (s: seq<Byte>)
    ensures s != []
    decreases if x < 0 then -x else x
  {
    if -128 <= x <= 127 then [x % 256] else Minimal(x / 256) + [x % 256]
  }

  lemma TwosComplementSnoc(s: seq<Byte>, b: Byte)
    requires s != []
    ensures TwosComplement(s + [b]) == 256 * TwosComplement(s) + b
  {
    BigEndianSnoc(s, b);
    assert Pow256(|s + [b]|) == 256 * Pow256(|s|);
  }

  lemma TwosComplementOne(b: Byte)
    ensures TwosComplement([b]) == if b < 128 then b else b - 256
  {
    assert [b][..0] == [];
    assert BigEndian([b]) == b;
    assert Pow256(0) == 1 && Pow256(1) == 256 * Pow256(0);
  }

  /** The rule of section 8.3.2: the first nine bits are not all alike. */
  predicate IsMinimal(s: seq<Byte>) {
    && s != []
    && (|s| > 1 ==> !(s[0] == 0 && s[1] < 128) && !(s[0] == 255 && s[1] >= 128))
  }

  lemma {:induction false} MinimalMeans(x: int)
    ensures IsMinimal(Minimal(x)) && TwosComplement(Minimal(x)) == x
    decreases if x < 0 then -x else x
  {
    if -128 <= x <= 127 {
      TwosComplementOne(x % 256);
    } else {
      MinimalMeans(x / 256);
      TwosComplementSnoc(Minimal(x / 256), x % 256);
      assert -128 <= x / 256 <= 127 ==> Minimal(x / 256) == [x / 256 % 256];
    }
  }

  lemma LastOctet(x: int, y: int, b: Byte)
    requires x == 256 * y + b
    ensures x / 256 == y && x % 256 == b
    ensures -128 <= x <= 127 <==> (y == 0 && b < 128) || (y == -1 && b >= 128)
  {
  }

  /** Minimal encodings are determined by their value. */
  lemma {:induction false} MinimalIsUnique(s: seq<Byte>)
    requires IsMinimal(s)
    ensures Minimal(TwosComplement(s)) == s
    ensures |s| > 1 ==> !(-128 <= TwosComplement(s) <= 127)
  {
    var pre, b := s[..|s| - 1], s[|s| - 1];
    assert s == pre + [b];
    if |s| == 1 {
      assert s == [b];
      TwosComplementOne(b);
    } else {
      TwosComplementSnoc(pre, b);
      LastOctet(TwosComplement(s), TwosComplement(pre), b);
      MinimalIsUnique(pre);
      if |s| == 2 {
        assert pre == [s[0]];
        TwosComplementOne(s[0]);
      }
    }
  }

  // ----- Decoding -----

  function CheckInteger(s: seq<Byte>, lax: bool): Option<IntegerError> {
    if s == [] then Some(Empty)
    else if |s| == 1 || lax then None
    else if (s[0] == 0 && s[1] < 128) || (s[0] == 255 && s[1] >= 128) then Some(NotMinimal)
    else None
  }

  /** A 64-bit accumulator, then a shift up and an arithmetic shift down to extend the sign. */
  method ParseInt64(s: seq<Byte>, lax: bool) returns (r: Parsed)
    ensures r == match CheckInteger(s, lax)
                 case Some(e) => Err(e)
                 case None => if |s| > 8 then Err(TooLarge) else Ok(TwosComplement(s))
  {
    var check := CheckInteger(s, lax);
    if check.Some? {
      return Err(check.value);
    }
    if |s| > 8 {
      return Err(TooLarge);
    }
    var ret := 0;
    for i := 0 to |s|
      invariant ret == Wrap64(BigEndian(s[..i]))
    {
      assert s[..i + 1] == s[..i] + [s[i]];
      BigEndianSnoc(s[..i], s[i]);
      WrapStep(BigEndian(s[..i]), s[i]);
      ret := Wrap64(ret * 256) + s[i];
    }
    assert s[..|s|] == s;
    BigEndianBound(s);
    TopBit(s);
    SignExtend(|s|, BigEndian(s));
    return Ok(Wrap64(ret * Pow256(8 - |s|)) / Pow256(8 - |s|));
  }

  lemma WrapUnique(x: int, w: int, k: int)
    requires IsInt64(w) && x == w + k * TWO_64
    ensures Wrap64(x) == w
  {
  }

  lemma WrapStep(x: nat, b: Byte)
    ensures Wrap64(Wrap64(x) * 256) + b == Wrap64(256 * x + b)
  {
    var w := Wrap64(x);
    var k := (x + TWO_63) / TWO_64;
    assert x == w + k * TWO_64;
    var w' := Wrap64(w * 256);
    var k' := (w * 256 + TWO_63) / TWO_64;
    assert w * 256 == w' + k' * TWO_64;
    var m := w - k' * 0x100_0000_0000_0000;
    assert w' == 256 * m;
    WrapUnique(256 * x + b, w' + b, 256 * k + k');
  }

  lemma {:induction false} TopBit(s: seq<Byte>)
    requires s != []
    ensures s[0] < 128 <==> 2 * BigEndian(s) < Pow256(|s|)
  {
    var pre, b := s[..|s| - 1], s[|s| - 1];
    assert s == pre + [b];
    BigEndianSnoc(pre, b);
    if |s| > 1 {
      TopBit(pre);
      HalfPow(BigEndian(pre), b, |pre|);
    } else {
      assert pre == [] && Pow256(1) == 256;
    }
  }

  lemma HalfPow(x: nat, b: Byte, k: nat)
    requires k > 0
    ensures 2 * (256 * x + b) < Pow256(k + 1) <==> 2 * x < Pow256(k)
  {
    var half := 128 * Pow256(k - 1);
    assert Pow256(k) == 2 * half && Pow256(k + 1) == 512 * half;
  }

  /** The word `z * p` that a shift leaves of `be * p`, where `p * q` is the size of a word. */
  lemma SignedWord(be: nat, p: nat, q: nat)
    requires p > 0 && p * q == TWO_64 && be < q
    ensures Wrap64(be * p) == if 2 * be < q then be * p else (be - q) * p
  {
    MulMono(be, q - 1, p);
    assert (q - 1) * p == TWO_64 - p && (be - q) * p == be * p - TWO_64;
    assert 2 * be * p == 2 * (be * p);
    if 2 * be < q {
      MulMono(2 * be, q - 1, p);
    } else {
      MulMono(q, 2 * be, p);
    }
  }

  lemma SignExtend(n: nat, be: nat)
    requires 1 <= n <= 8 && be < Pow256(n)
    ensures Wrap64(Wrap64(be) * Pow256(8 - n)) / Pow256(8 - n) == if 2 * be < Pow256(n) then be else be - Pow256(n)
  {
    PowTable();
    var p, q := Pow256(8 - n), Pow256(n);
    Pow256Add(8 - n, n);
    SignedWord(be, p, q);
    MulDiv(be, p);
    MulDiv(be - q, p);
    if n < 8 {
      assert Wrap64(be) == be;
    }
  }

  function Complement(s: seq<Byte>): (t: seq<Byte>)
    ensures |t| == |s|
  {
    seq(|s|, i requires 0 <= i < |s| => 255 - s[i])
  }

  lemma {:induction false} ComplementValue(s: seq<Byte>)
    ensures BigEndian(Complement(s)) == Pow256(|s|) - 1 - BigEndian(s)
  {
    if s != [] {
      var pre := s[..|s| - 1];
      ComplementValue(pre);
      assert Complement(s)[..|s| - 1] == Complement(pre);
    }
  }

  /** Negative numbers are complemented, read as a magnitude, incremented and negated. */
  method ParseBigInt(s: seq<Byte>, lax: bool) returns (r: Parsed)
    ensures r == match CheckInteger(s, lax)
                 case Some(e) => Err(e)
                 case None => Ok(TwosComplement(s))
  {
    var check := CheckInteger(s, lax);
    if check.Some? {
      return Err(check.value);
    }
    if s[0] >= 128 {
      var notBytes: seq<Byte> := [];
      for i := 0 to |s|
        invariant notBytes == Complement(s[..i])
      {
        notBytes := notBytes + [255 - s[i]];
        assert Complement(s[..i + 1]) == Complement(s[..i]) + [255 - s[i]];
      }
      assert s[..|s|] == s;
      ComplementValue(s);
      return Ok(-(BigEndian(notBytes) + 1));
    }
    return Ok(BigEndian(s));
  }

  // ----- Encoding -----

  /** The two loops of int64Encoder.Len. */
  method Int64Length(x: int) returns (n: nat)
    ensures n == |Minimal(x)|
  {
    n := 1;
    var i := x;
    while i > 127
      invariant n + |Minimal(i)| == 1 + |Minimal(x)|
      invariant x < 0 ==> i == x
      invariant x >= 0 ==> i >= 0
    {
      n, i := n + 1, i / 256;
    }
    while i < -128
      invariant n + |Minimal(i)| == 1 + |Minimal(x)|
      invariant i <= 127
      decreases -i
    {
      n, i := n + 1, i / 256;
    }
  }

  /** big.Int's Bytes: the magnitude without leading zeros. */
  function Magnitude(n: nat): seq<Byte> {
    if n == 0 then [] else Magnitude(n / 256) + [n % 256]
  }

  /** The padding octet and the digits that makeBigInt puts together; a nil pointer is an error. */
  function BigIntParts(n: Option<int>): Result<(Option<Byte>, seq<Byte>), IntegerError> {
    match n
    case None => Err(Empty)
    case Some(x) =>
      if x < 0 then
        var bytes := Complement(Magnitude(-x - 1));
        Ok((if bytes == [] || bytes[0] < 128 then Some(255) else None, bytes))
      else if x == 0 then Ok((Some(0), []))
      else
        var bytes := Magnitude(x);
        Ok((if bytes[0] >= 128 then Some(0) else None, bytes))
  }

  function BigIntOctets(n: Option<int>): Result<seq<Byte>, IntegerError> {
    var (padding, bytes) :- BigIntParts(n);
    Ok(if padding.Some? then [padding.value] + bytes else bytes)
  }

  lemma {:induction false} MagnitudeMeans(n: nat)
    ensures BigEndian(Magnitude(n)) == n
    ensures Magnitude(n) != [] ==> Magnitude(n)[0] != 0
  {
    if n > 0 {
      MagnitudeMeans(n / 256);
      BigEndianSnoc(Magnitude(n / 256), n % 256);
    }
  }

  lemma PaddedWithZero(s: seq<Byte>)
    ensures TwosComplement([0] + s) == BigEndian(s)
  {
    BigEndianConcat([0], s);
    assert BigEndian([0]) == 0 by { TwosComplementOne(0); }
    assert 0 * Pow256(|s|) == 0;
  }

  lemma PaddedWithOnes(s: seq<Byte>)
    ensures TwosComplement([255] + s) == BigEndian(s) - Pow256(|s|)
  {
    var p := Pow256(|s|);
    BigEndianConcat([255], s);
    assert BigEndian([255]) == 255 by { TwosComplementOne(255); }
    assert BigEndian([255] + s) == 255 * p + BigEndian(s);
    assert |[255] + s| == |s| + 1 && Pow256(|s| + 1) == 256 * p;
  }

  lemma NegativeOctets(x: int)
    requires x < 0
    ensures BigIntOctets(Some(x)).Ok?
    ensures IsMinimal(BigIntOctets(Some(x)).value) && TwosComplement(BigIntOctets(Some(x)).value) == x
  {
    var m := Magnitude(-x - 1);
    var c := Complement(m);
    MagnitudeMeans(-x - 1);
    ComplementValue(m);
    if c == [] || c[0] < 128 {
      PaddedWithOnes(c);
    }
  }

  lemma PositiveOctets(x: int)
    requires x > 0
    ensures BigIntOctets(Some(x)).Ok?
    ensures IsMinimal(BigIntOctets(Some(x)).value) && TwosComplement(BigIntOctets(Some(x)).value) == x
  {
    var m := Magnitude(x);
    MagnitudeMeans(x);
    if m[0] >= 128 {
      PaddedWithZero(m);
    }
  }

  /** makeBigInt always chooses the minimal form, for integers of any size. */
  lemma BigIntIsMinimal(x: int)
    ensures BigIntOctets(Some(x)) == Ok(Minimal(x))
  {
    if x < 0 {
      NegativeOctets(x);
      MinimalIsUnique(BigIntOctets(Some(x)).value);
    } else if x > 0 {
      PositiveOctets(x);
      MinimalIsUnique(BigIntOctets(Some(x)).value);
    } else {
      assert [0] + [] == [0];
    }
  }

  // ----- The codecs are mutually inverse -----

  /** A strict decoder accepts exactly the minimal forms, and each is the encoding of its value. */
  lemma StrictDecodingIsCanonical(s: seq<Byte>)
    ensures CheckInteger(s, false).None? <==> IsMinimal(s)
    ensures CheckInteger(s, false).None? ==> BigIntOctets(Some(TwosComplement(s))) == Ok(s)
  {
    if IsMinimal(s) {
      MinimalIsUnique(s);
      BigIntIsMinimal(TwosComplement(s));
    }
  }

  /** Every integer survives encoding and strict decoding. */
  lemma EncodingRoundTrips(x: int)
    ensures CheckInteger(Minimal(x), false).None? && TwosComplement(Minimal(x)) == x
    ensures BigIntOctets(Some(x)) == Ok(Minimal(x))
  {
    MinimalMeans(x);
    BigIntIsMinimal(x);
  }

  lemma {:induction false} MinimalLength(x: int, n: nat)
    requires n > 0
    ensures |Minimal(x)| <= n <==> -128 * Pow256(n - 1) <= x < 128 * Pow256(n - 1)
    decreases n
  {
    if n > 1 {
      if -128 <= x <= 127 {
        assert Pow256(n - 1) >= 1;
      } else {
        MinimalLength(x / 256, n - 1);
      }
    }
  }

  /** The words of the 64-bit codec are the integers whose minimal form has at most eight octets. */
  lemma Int64Range(x: int)
    ensures |Minimal(x)| <= 8 <==> IsInt64(x)
  {
    PowTable();
    MinimalLength(x, 8);
  }
}
