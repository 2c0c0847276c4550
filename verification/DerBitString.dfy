/** DER BIT STRING (section 8.6 of ITU-T X.690). */
module DerBitString {
  import opened Bytes

  datatype BitString = BitString(bytes: seq<Byte>, bitLength: int)

  datatype BitStringError = ZeroLength | InvalidPadding

  /** Go's remainder, which takes the sign of the dividend. */
  function GoMod8(x: int): int {
    if x >= 0 then x % 8 else -(-x % 8)
  }

  function Pow2(k: nat): (p: nat)
    requires k <= 8
    ensures p > 0
  {
    [1, 2, 4, 8, 16, 32, 64, 128, 256][k]
  }

  // ----- Codec -----

  function ParseBitString(s: seq<Byte>): Result<BitString, BitStringError> {
    if s == [] then Err(ZeroLength)
    else if s[0] > 7 || (|s| == 1 && s[0] > 0) || s[|s| - 1] % Pow2(s[0]) != 0 then Err(InvalidPadding)
    else Ok(BitString(s[1..], (|s| - 1) * 8 - s[0]))
  }

  function BitStringOctets(b: BitString): seq<Byte> {
    [(8 - GoMod8(b.bitLength)) % 8] + b.bytes
  }

  /** The bits fill the octets up to fewer than eight of padding, and the padding is zero. */
  predicate WellFormed(b: BitString) {
    var padding := 8 * |b.bytes| - b.bitLength;
    if b.bytes == [] then padding == 0
    else 0 <= padding < 8 && b.bytes[|b.bytes| - 1] % Pow2(padding) == 0
  }

  /** Exactly the well-formed bit strings survive encoding and decoding. */
  lemma BitStringRoundTrips(b: BitString)
    ensures ParseBitString(BitStringOctets(b)) == Ok(b) <==> WellFormed(b)
  {
    var s := BitStringOctets(b);
    assert s[1..] == b.bytes;
    if b.bytes != [] {
      assert s[|s| - 1] == b.bytes[|b.bytes| - 1];
    }
  }

  /** Octets that decode are the encoding of what they decode to. */
  lemma BitStringIsCanonical(s: seq<Byte>)
    requires ParseBitString(s).Ok?
    ensures WellFormed(ParseBitString(s).value) && BitStringOctets(ParseBitString(s).value) == s
  {
    var b := ParseBitString(s).value;
    assert s == [s[0]] + s[1..];
    if b.bytes != [] {
      assert b.bytes[|b.bytes| - 1] == s[|s| - 1];
    }
  }

  // ----- Right alignment -----

  /** A shift of an octet by an unsigned count; eight and more clear it. */
  function ShiftUp(b: Byte, k: int): Byte {
    if 0 <= k < 8 then b * Pow2(k) % 256 else 0
  }

  function ShiftDown(b: Byte, k: int): Byte {
    if 0 <= k < 8 then b / Pow2(k) else 0
  }

  /**
   Moves the padding to the front: the octets then read as the number divided by
   2 to the number of padding bits.
   */
  method RightAlign(b: BitString) returns (a: seq<Byte>)
    ensures |a| == |b.bytes|
    ensures b.bitLength % 8 == 0 ==> a == b.bytes
    ensures b.bitLength >= 0 && b.bitLength % 8 != 0 ==>
              BigEndian(a) == BigEndian(b.bytes) / Pow2(8 - b.bitLength % 8)
    ensures b.bitLength < 0 && b.bitLength % 8 != 0 ==> forall i :: 0 <= i < |a| ==> a[i] == 0
  {
    var shift := 8 - GoMod8(b.bitLength);
    if shift == 8 || |b.bytes| == 0 {
      return b.bytes;
    }
    var out := new Byte[|b.bytes|];
    out[0] := ShiftDown(b.bytes[0], shift);
    FirstOctet(b.bytes, shift);
    assert out[..1] == [out[0]];
    for i := 1 to |b.bytes|
      invariant Aligned(out[..i], b.bytes[..i], shift)
    {
      // The two parts occupy different bits, so that their sum is their disjunction.
      var high, low := ShiftUp(b.bytes[i - 1], if shift < 8 then 8 - shift else 64), ShiftDown(b.bytes[i], shift);
      AlignedMore(out[..i], b.bytes, i, shift);
      ghost var done := out[..i];
      out[i] := high + low;
      assert out[..i] == done;
      assert out[..i + 1] == done + [high + low];
    }
    a := out[..];
    assert out[..|b.bytes|] == a && b.bytes[..|b.bytes|] == b.bytes;
  }

  /** `out` is `s` shifted; a shift of more than eight, for a negative length, clears it. */
  ghost predicate Aligned(out: seq<Byte>, s: seq<Byte>, shift: nat) {
    && (shift < 8 ==> BigEndian(out) == BigEndian(s) / Pow2(shift))
    && (shift > 8 ==> forall j :: 0 <= j < |out| ==> out[j] == 0)
  }

  lemma AlignedMore(out: seq<Byte>, s: seq<Byte>, i: nat, shift: nat)
    requires 0 < i < |s| && |out| == i && 0 < shift && shift != 8 && Aligned(out, s[..i], shift)
    ensures var octet := ShiftUp(s[i - 1], if shift < 8 then 8 - shift else 64) + ShiftDown(s[i], shift);
            octet < 256 && Aligned(out + [octet], s[..i + 1], shift)
  {
    if shift < 8 {
      NextOctet(s, i, shift);
      BigEndianSnoc(out, ShiftUp(s[i - 1], 8 - shift) + ShiftDown(s[i], shift));
    }
  }

  lemma FirstOctet(s: seq<Byte>, shift: nat)
    requires s != []
    ensures Aligned([ShiftDown(s[0], shift)], s[..1], shift)
  {
    assert s[..1] == [s[0]];
    BigEndianSnoc([], s[0]);
    BigEndianSnoc([], ShiftDown(s[0], shift));
    assert [] + [s[0]] == [s[0]] && [] + [ShiftDown(s[0], shift)] == [ShiftDown(s[0], shift)];
  }

  lemma NextOctet(s: seq<Byte>, i: nat, shift: nat)
    requires 0 < i < |s| && 0 < shift < 8
    ensures var octet := ShiftUp(s[i - 1], 8 - shift) + ShiftDown(s[i], shift);
            && octet < 256
            && BigEndian(s[..i + 1]) / Pow2(shift) == 256 * (BigEndian(s[..i]) / Pow2(shift)) + octet
  {
    assert s[..i + 1] == s[..i] + [s[i]] && s[..i] == s[..i - 1] + [s[i - 1]];
    BigEndianSnoc(s[..i], s[i]);
    BigEndianSnoc(s[..i - 1], s[i - 1]);
    ShiftArithmetic(BigEndian(s[..i - 1]), s[i - 1], s[i], shift);
  }

  lemma ShiftArithmetic(x: nat, b: Byte, c: Byte, shift: nat)
    requires 0 < shift < 8
    ensures var octet := ShiftUp(b, 8 - shift) + ShiftDown(c, shift);
            && octet < 256
            && (256 * (256 * x + b) + c) / Pow2(shift) == 256 * ((256 * x + b) / Pow2(shift)) + octet
  {
    assert Pow2(shift) * Pow2(8 - shift) == 256;
    ShiftCore(x, b, c, Pow2(shift), Pow2(8 - shift));
  }

  lemma ShiftCore(x: nat, b: Byte, c: Byte, p: nat, q: nat)
    requires p > 0 && p * q == 256
    ensures b * q % 256 + c / p < 256
    ensures (256 * (256 * x + b) + c) / p == 256 * ((256 * x + b) / p) + b * q % 256 + c / p
  {
    var y := 256 * x + b;
    SplitBits(y, p, q);
    SplitBits(b, p, q);
    assert y == b + p * (q * x);
    Remainder(b, p, q * x);
    var k := 256 * (y / p) + q * (y % p) + c / p;
    assert 256 * y + c == p * k + c % p by {
      assert p * k == p * (256 * (y / p) + q * (y % p)) + p * (c / p);
    }
    Quotient(256 * y + c, p, k, c % p);
    LowOctet(b % p, c, p, q);
  }

  lemma LowOctet(r: nat, c: Byte, p: nat, q: nat)
    requires r < p && p * q == 256
    ensures q * r + c / p < 256
  {
    MulMono(r, p - 1, q);
    assert (p - 1) * q == 256 - q;
    assert c == p * (c / p) + c % p;
    if c / p >= q {
      MulMono(q, c / p, p);
    }
  }

  lemma Quotient(n: int, p: nat, k: int, r: int)
    requires p > 0 && n == p * k + r && 0 <= r < p
    ensures n / p == k && n % p == r
  {
    var k', r' := n / p, n % p;
    assert n == p * k' + r';
    assert (k - k') * p == r' - r;
    if k - k' >= 1 {
      MulMono(1, k - k', p);
    } else if k - k' <= -1 {
      MulMono(k - k', -1, p);
    }
  }

  lemma Remainder(b: nat, p: nat, m: nat)
    requires p > 0
    ensures (b + p * m) % p == b % p
  {
    assert b + p * m == p * (b / p + m) + b % p;
    Quotient(b + p * m, p, b / p + m, b % p);
  }

  /** Multiplying by 256 moves the bits below `p` to the low octet. */
  lemma SplitBits(y: nat, p: nat, q: nat)
    requires p > 0 && p * q == 256
    ensures 256 * y == p * (256 * (y / p) + q * (y % p))
    ensures y * q % 256 == q * (y % p)
  {
    var k, r := y / p, y % p;
    assert y == p * k + r;
    assert 256 * y == p * 256 * k + (p * q) * r;
    assert p * (256 * k + q * r) == p * 256 * k + (p * q) * r;
    assert y * q == 256 * k + q * r;
    MulMono(r, p - 1, q);
    Quotient(y * q, 256, k, q * r);
  }
}
