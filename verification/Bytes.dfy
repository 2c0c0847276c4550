/** Octets, big-endian numbers and the result types shared by the codecs. */
module Bytes {

  type Byte = x: int | 0 <= x < 256

  const TWO_63: int := 0x8000_0000_0000_0000
  const TWO_64: int := 0x1_0000_0000_0000_0000

  type Uint64 = x: int | 0 <= x < 0x1_0000_0000_0000_0000

  predicate IsInt64(x: int) {
    -TWO_63 <= x < TWO_63
  }

  datatype Option<+T> = None | Some(value: T)

  datatype Result<+T, +E> = Ok(value: T) | Err(error: E) {
    predicate IsFailure() {
      Err?
    }

    function PropagateFailure<U>(): Result<U, E>
      requires Err?
    {
      Err(error)
    }

    function Extract(): T
      requires Ok?
    {
      value
    }
  }

  /** 256 to the power `k`. */
  function Pow256(k: nat): (p: nat)
    ensures p > 0
  {
    if k == 0 then 1 else 256 * Pow256(k - 1)
  }

  /** The number a byte string stands for, most significant octet first. */
  function BigEndian(s: seq<Byte>): nat {
    if s == [] then 0 else 256 * BigEndian(s[..|s| - 1]) + s[|s| - 1]
  }

  /** The low `width` octets of `n`, most significant first. */
  function ToBigEndian(n: nat, width: nat): (s: seq<Byte>)
    ensures |s| == width
  {
    if width == 0 then [] else ToBigEndian(n / 256, width - 1) + [n % 256]
  }

  lemma {:induction false} BigEndianBound(s: seq<Byte>)
    ensures BigEndian(s) < Pow256(|s|)
  {
    if s != [] {
      BigEndianBound(s[..|s| - 1]);
    }
  }

  /** Fixed-width encoding followed by decoding gives the number back. */
  lemma {:induction false} DecodeEncode(n: nat, width: nat)
    requires n < Pow256(width)
    ensures BigEndian(ToBigEndian(n, width)) == n
  {
    if width > 0 {
      DecodeEncode(n / 256, width - 1);
      assert ToBigEndian(n, width)[..width - 1] == ToBigEndian(n / 256, width - 1);
    }
  }

  /** Decoding followed by fixed-width encoding gives the octets back. */
  lemma {:induction false} EncodeDecode(s: seq<Byte>)
    ensures ToBigEndian(BigEndian(s), |s|) == s
  {
    if s != [] {
      EncodeDecode(s[..|s| - 1]);
      assert s == s[..|s| - 1] + [s[|s| - 1]];
    }
  }

  /** Horner's rule: appending one octet multiplies by 256. */
  lemma BigEndianSnoc(s: seq<Byte>, b: Byte)
    ensures BigEndian(s + [b]) == 256 * BigEndian(s) + b
  {
    assert (s + [b])[..|s|] == s;
  }

  lemma {:induction false} Pow256Add(i: nat, j: nat)
    ensures Pow256(i + j) == Pow256(i) * Pow256(j)
  {
    if j > 0 {
      Pow256Add(i, j - 1);
      assert Pow256(i + j) == 256 * Pow256(i + (j - 1));
    }
  }

  lemma {:induction false} BigEndianConcat(a: seq<Byte>, b: seq<Byte>)
    ensures BigEndian(a + b) == BigEndian(a) * Pow256(|b|) + BigEndian(b)
  {
    if b == [] {
      assert a + b == a;
    } else {
      var b', d := b[..|b| - 1], b[|b| - 1];
      BigEndianConcat(a, b');
      assert a + b == (a + b') + [d];
      BigEndianSnoc(a + b', d);
      MulAssoc(BigEndian(a), Pow256(|b'|));
    }
  }

  lemma MulAssoc(x: nat, y: nat)
    ensures x * (256 * y) == 256 * (x * y)
  {
  }

  // ----- Shifts -----

  lemma MulMono(a: int, b: int, p: nat)
    requires a <= b
    ensures a * p <= b * p
  {
    assert (b - a) * p >= 0;
  }

  lemma MulDiv(a: int, p: nat)
    requires p > 0
    ensures a * p / p == a
  {
    var q, r := a * p / p, a * p % p;
    assert a * p == q * p + r;
    assert (a - q) * p == r;
    if a - q >= 1 {
      MulMono(1, a - q, p);
    } else if a - q <= -1 {
      MulMono(a - q, -1, p);
    }
  }

  /** An arithmetic shift to the right by `k` digits of the given radix. */
  function ShiftRight(x: int, radix: nat, k: nat): (y: int)
    requires radix > 1
    ensures x >= 0 ==> y >= 0
  {
    if k == 0 then x else ShiftRight(x, radix, k - 1) / radix
  }

  lemma PowTable()
    ensures Pow256(0) == 1 && Pow256(1) == 0x100 && Pow256(2) == 0x10000 && Pow256(3) == 0x1000000
    ensures Pow256(4) == 0x1_0000_0000 && Pow256(5) == 0x100_0000_0000 && Pow256(6) == 0x1_0000_0000_0000
    ensures Pow256(7) == 0x100_0000_0000_0000 && Pow256(8) == 0x1_0000_0000_0000_0000
  {
    assert Pow256(1) == 0x100 && Pow256(2) == 0x10000 && Pow256(3) == 0x1000000;
    assert Pow256(4) == 0x1_0000_0000 && Pow256(5) == 0x100_0000_0000 && Pow256(6) == 0x1_0000_0000_0000;
  }

  lemma {:induction false} ShiftFirst(x: int, radix: nat, k: nat)
    requires k > 0 && radix > 1
    ensures ShiftRight(x, radix, k) == ShiftRight(x / radix, radix, k - 1)
  {
    if k > 1 {
      ShiftFirst(x, radix, k - 1);
    }
  }
}
