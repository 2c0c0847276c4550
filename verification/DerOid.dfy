/** DER OBJECT IDENTIFIER (section 8.19 of ITU-T X.690). */
module DerOid {
  import opened Bytes
  import opened DerInteger
  import opened DerTagLength

  /** The arcs; only the word that packs the first two can overflow. */
  type Oid = seq<int>

  /** The test of makeObjectIdentifier. */
  predicate Encodable(oid: Oid) {
    |oid| >= 2 && oid[0] <= 2 && (oid[0] < 2 ==> oid[1] < 40)
  }

  function ArcOctets(arcs: Oid): seq<Byte> {
    if arcs == [] then [] else Base128Octets(arcs[0]) + ArcOctets(arcs[1..])
  }

  /** The first two arcs share a number, computed in a 64-bit word. */
  function OidOctets(oid: Oid): seq<Byte>
    requires |oid| >= 2
  {
    Base128Octets(Wrap64(oid[0] * 40 + oid[1])) + ArcOctets(oid[2..])
  }

  function ReadArcs(s: seq<Byte>): (r: Result<Oid, DerTagLength.DerError>)
    ensures r.Ok? ==> forall i :: 0 <= i < |r.value| ==> 0 <= r.value[i] <= MAX_INT32
    decreases |s|
  {
    if s == [] then Ok([])
    else
      var (v, rest) :- ReadBase128(s, 0, 0);
      var vs :- ReadArcs(rest);
      Ok([v] + vs)
  }

  function SplitFirst(v: nat): (arcs: Oid)
    requires v <= MAX_INT32
    ensures |arcs| == 2 && arcs[0] * 40 + arcs[1] == v && Encodable(arcs)
  {
    if v < 80 then [v / 40, v % 40] else [2, v - 80]
  }

  function ReadOid(s: seq<Byte>, lax: bool): Result<Oid, DerTagLength.DerError> {
    if s == [] then if lax then Ok([]) else Err(EmptyOid)
    else
      var (v, rest) :- ReadBase128(s, 0, 0);
      var vs :- ReadArcs(rest);
      Ok(SplitFirst(v) + vs)
  }

  predicate InRange(oid: Oid)
    requires |oid| >= 2
  {
    && 0 <= oid[0] && 0 <= oid[1] && oid[0] * 40 + oid[1] <= MAX_INT32
    && forall i :: 2 <= i < |oid| ==> 0 <= oid[i] <= MAX_INT32
  }

  lemma {:induction false} ArcsRoundTrip(arcs: Oid)
    requires forall i :: 0 <= i < |arcs| ==> 0 <= arcs[i] <= MAX_INT32
    ensures ReadArcs(ArcOctets(arcs)) == Ok(arcs)
  {
    if arcs != [] {
      Base128RoundTrips(arcs[0], ArcOctets(arcs[1..]));
      ArcsRoundTrip(arcs[1..]);
      assert arcs == [arcs[0]] + arcs[1..];
    }
  }

  lemma InRangeReadsBack(oid: Oid, lax: bool)
    requires Encodable(oid) && InRange(oid)
    ensures ReadOid(OidOctets(oid), lax) == Ok(oid)
  {
    var v, arcs := oid[0] * 40 + oid[1], oid[2..];
    assert SplitFirst(v) == [oid[0], oid[1]];
    assert oid == SplitFirst(v) + arcs;
    PackFirst(v, arcs);
    Base128RoundTrips(v, ArcOctets(arcs));
    ArcsRoundTrip(arcs);
  }

  /** Whatever is read is in range. */
  lemma ReadIsInRange(s: seq<Byte>, lax: bool)
    requires s != [] && ReadOid(s, lax).Ok?
    ensures Encodable(ReadOid(s, lax).value) && InRange(ReadOid(s, lax).value)
  {
    var (v, rest) := ReadBase128(s, 0, 0).value;
    var first, vs := SplitFirst(v), ReadArcs(rest).value;
    assert forall i :: 2 <= i < |first + vs| ==> (first + vs)[i] == vs[i - 2];
  }

  /** Among the identifiers the encoder takes, exactly those with arcs in the int32 range are read back. */
  lemma OidRoundTrips(oid: Oid, lax: bool)
    requires Encodable(oid)
    ensures ReadOid(OidOctets(oid), lax) == Ok(oid) <==> InRange(oid)
  {
    if InRange(oid) {
      InRangeReadsBack(oid, lax);
    } else if OidOctets(oid) != [] && ReadOid(OidOctets(oid), lax).Ok? {
      ReadIsInRange(OidOctets(oid), lax);
    }
  }

  // ----- Canonical octets -----

  /** No number starts with 0x80: that octet only ever continues one. */
  predicate Unpadded(s: seq<Byte>) {
    forall i :: 0 <= i < |s| && s[i] == 128 ==> i > 0 && s[i - 1] >= 128
  }

  lemma {:induction false} ReadSplits(s: seq<Byte>, acc: nat, shifted: nat) returns (k: nat)
    requires ReadBase128(s, acc, shifted).Ok?
    ensures 0 < k <= |s| && ReadBase128(s, acc, shifted).value.1 == s[k..]
    ensures s[k - 1] < 128 && forall i :: 0 <= i < k - 1 ==> s[i] >= 128
    decreases |s|
  {
    if s[0] < 128 {
      k := 1;
    } else {
      var k' := ReadSplits(s[1..], acc * 128 + s[0] % 128, shifted + 1);
      k := k' + 1;
      assert s[1..][k'..] == s[k..];
      forall i | 0 <= i < k - 1 ensures s[i] >= 128 {
        if i > 0 {
          assert s[i] == s[1..][i - 1];
        }
      }
    }
  }

  lemma UnpaddedSplits(s: seq<Byte>, k: nat)
    requires 0 < k <= |s| && s[k - 1] < 128 && forall i :: 0 <= i < k - 1 ==> s[i] >= 128
    ensures Unpadded(s) <==> s[0] != 128 && Unpadded(s[k..])
  {
    var t := s[k..];
    if Unpadded(s) {
      forall i | 0 <= i < |t| && t[i] == 128 ensures i > 0 && t[i - 1] >= 128 {
        assert s[k + i] == 128;
      }
    }
    if s[0] != 128 && Unpadded(t) {
      forall i | 0 <= i < |s| && s[i] == 128 ensures i > 0 && s[i - 1] >= 128 {
        if i >= k {
          assert t[i - k] == 128;
        }
      }
    }
  }

  /** One number and what follows it, split the only way they can be. */
  lemma NumberIsCanonical(s: seq<Byte>, more: seq<Byte>)
    requires ReadBase128(s, 0, 0).Ok?
    ensures var (v, rest) := ReadBase128(s, 0, 0).value;
            && (Base128(v) + more == s <==> s[0] != 128 && more == rest)
            && (Unpadded(s) <==> s[0] != 128 && Unpadded(rest))
  {
    var (v, rest) := ReadBase128(s, 0, 0).value;
    Base128IsCanonical(s);
    if Base128(v) + more == s {
      Base128RoundTrips(v, more);
    }
    var k := ReadSplits(s, 0, 0);
    UnpaddedSplits(s, k);
  }

  lemma {:induction false} ArcsAreCanonical(s: seq<Byte>)
    requires ReadArcs(s).Ok?
    ensures ArcOctets(ReadArcs(s).value) == s <==> Unpadded(s)
    decreases |s|
  {
    if s != [] {
      var (v, rest) := ReadBase128(s, 0, 0).value;
      var vs := ReadArcs(rest).value;
      assert ([v] + vs)[1..] == vs;
      NumberIsCanonical(s, ArcOctets(vs));
      ArcsAreCanonical(rest);
    }
  }

  lemma PackFirst(v: nat, vs: Oid)
    requires v <= MAX_INT32
    ensures OidOctets(SplitFirst(v) + vs) == Base128(v) + ArcOctets(vs)
  {
    assert (SplitFirst(v) + vs)[2..] == vs;
    assert Wrap64(v) == v;
  }

  /** What is read is encodable, and encodes to the octets read exactly if none of its numbers is padded. */
  lemma OidIsCanonical(s: seq<Byte>, lax: bool)
    requires s != [] && ReadOid(s, lax).Ok?
    ensures Encodable(ReadOid(s, lax).value)
    ensures OidOctets(ReadOid(s, lax).value) == s <==> Unpadded(s)
  {
    var (v, rest) := ReadBase128(s, 0, 0).value;
    var vs := ReadArcs(rest).value;
    ReadIsInRange(s, lax);
    PackFirst(v, vs);
    NumberIsCanonical(s, ArcOctets(vs));
    ArcsAreCanonical(rest);
  }

  // ----- The loop -----

  ghost function Prefixed(done: Oid, r: Result<Oid, DerTagLength.DerError>): Result<Oid, DerTagLength.DerError> {
    match r
    case Err(e) => Err(e)
    case Ok(vs) => Ok(done + vs)
  }

  lemma PrefixedAgain(done: Oid, v: int, r: Result<Oid, DerTagLength.DerError>)
    ensures Prefixed(done, Prefixed([v], r)) == Prefixed(done + [v], r)
  {
    if r.Ok? {
      assert done + ([v] + r.value) == done + [v] + r.value;
    }
  }

  /** Fills an array one longer than the input; the index never leaves it. */
  method ParseObjectIdentifier(bytes: seq<Byte>, lax: bool) returns (r: Result<Oid, DerTagLength.DerError>)
    ensures r == ReadOid(bytes, lax)
  {
    if bytes == [] {
      return if lax then Ok([]) else Err(EmptyOid);
    }
    var s := new int[|bytes| + 1];
    assert bytes[0..] == bytes;
    var first := ParseBase128Int(bytes, 0);
    if first.Err? {
      return Err(first.error);
    }
    var (v, offset) := first.value;
    if v < 80 {
      s[0], s[1] := v / 40, v % 40;
    } else {
      s[0], s[1] := 2, v - 80;
    }
    var i := 2;
    ghost var spec := ReadOid(bytes, lax);
    assert s[..2] == SplitFirst(v);
    assert spec == Prefixed(s[..2], ReadArcs(bytes[offset..]));
    while offset < |bytes|
      invariant 0 < offset <= |bytes| && 2 <= i <= offset + 1
      invariant spec == Prefixed(s[..i], ReadArcs(bytes[offset..]))
      decreases |bytes| - offset
    {
      var next := ParseBase128Int(bytes, offset);
      if next.Err? {
        return Err(next.error);
      }
      ghost var done := s[..i];
      ghost var more := ReadArcs(bytes[next.value.1..]);
      assert ReadArcs(bytes[offset..]) == Prefixed([next.value.0], more);
      PrefixedAgain(done, next.value.0, more);
      s[i] := next.value.0;
      assert s[..i + 1] == done + [next.value.0];
      offset, i := next.value.1, i + 1;
    }
    assert s[..i] + [] == s[..i];
    return Ok(s[..i]);
  }
}
