/**
 Choosing among certificate chains (fixchain/fixer.go): the chains are sorted and the
 super chains of each are stepped over. What is left are the prefix-minimal chains.
 */
module ChainFixer {
  import opened Bytes

  /** A certificate; two are Equal when their encodings are, whatever object holds them. */
  datatype Cert = Cert(raw: seq<Byte>, handle: nat)

  type Chain = seq<Cert>

  // ----- The order -----

  /** bytes.Compare(a, b) < 0 */
  predicate BytesLess(a: seq<Byte>, b: seq<Byte>) {
    if b == [] then false
    else if a == [] then true
    else if a[0] != b[0] then a[0] < b[0]
    else BytesLess(a[1..], b[1..])
  }

  lemma {:induction false} BytesTotal(a: seq<Byte>, b: seq<Byte>)
    ensures a == b || BytesLess(a, b) || BytesLess(b, a)
    ensures !(BytesLess(a, b) && BytesLess(b, a)) && !BytesLess(a, a)
  {
    if a != [] && b != [] {
      BytesTotal(a[1..], b[1..]);
      assert a == [a[0]] + a[1..] && b == [b[0]] + b[1..];
    }
    if a != [] {
      BytesTotal(a[1..], a[1..]);
    }
  }

  lemma {:induction false} BytesTransitive(a: seq<Byte>, b: seq<Byte>, c: seq<Byte>)
    requires BytesLess(a, b) && BytesLess(b, c)
    ensures BytesLess(a, c)
  {
    if a != [] && a[0] == b[0] == c[0] {
      BytesTransitive(a[1..], b[1..], c[1..]);
    }
  }

  /** Chains in order of their first certificates that differ; a chain before its super chains. */
  predicate Before(a: Chain, b: Chain) {
    if b == [] then false
    else if a == [] then true
    else if a[0].raw != b[0].raw then BytesLess(a[0].raw, b[0].raw)
    else Before(a[1..], b[1..])
  }

  /** The same certificates, possibly as other objects. */
  predicate Same(a: Chain, b: Chain) {
    |a| == |b| && Subchain(a, b)
  }

  /** `b` begins with the certificates of `a`. */
  predicate Subchain(a: Chain, b: Chain) {
    |a| <= |b| && forall k :: 0 <= k < |a| ==> a[k].raw == b[k].raw
  }

  lemma SubchainTail(a: Chain, b: Chain)
    requires a != [] && b != []
    ensures Subchain(a, b) <==> a[0].raw == b[0].raw && Subchain(a[1..], b[1..])
  {
    if a[0].raw == b[0].raw && Subchain(a[1..], b[1..]) {
      forall k | 0 <= k < |a| ensures a[k].raw == b[k].raw {
        assert k > 0 ==> a[1..][k - 1].raw == b[1..][k - 1].raw;
      }
    }
    if Subchain(a, b) {
      assert forall k :: 0 <= k < |a| - 1 ==> a[1..][k] == a[k + 1] && b[1..][k] == b[k + 1];
    }
  }

  lemma {:induction false} BeforeTotal(a: Chain, b: Chain)
    ensures Same(a, b) || Before(a, b) || Before(b, a)
    ensures !(Before(a, b) && Before(b, a))
    ensures Same(a, b) ==> !Before(a, b)
  {
    if a != [] && b != [] {
      BeforeTotal(a[1..], b[1..]);
      BytesTotal(a[0].raw, b[0].raw);
      SubchainTail(a, b);
    }
  }

  lemma {:induction false} BeforeTransitive(a: Chain, b: Chain, c: Chain)
    requires Before(a, b) && Before(b, c)
    ensures Before(a, c)
  {
    if a != [] {
      if a[0].raw == b[0].raw == c[0].raw {
        BeforeTransitive(a[1..], b[1..], c[1..]);
      } else if a[0].raw != b[0].raw && b[0].raw != c[0].raw {
        BytesTransitive(a[0].raw, b[0].raw, c[0].raw);
        BytesTotal(a[0].raw, b[0].raw);
      }
    }
  }

  /** A chain comes before its proper super chains. */
  lemma {:induction false} SubchainIsBefore(a: Chain, b: Chain)
    requires Subchain(a, b) && |a| < |b|
    ensures Before(a, b)
  {
    if a != [] {
      SubchainTail(a, b);
      SubchainIsBefore(a[1..], b[1..]);
    }
  }

  /** In the order, the super chains of a chain follow it without a gap. */
  lemma {:induction false} SuperChainsAreContiguous(a: Chain, b: Chain, c: Chain)
    requires !Before(b, a) && !Before(c, b) && Subchain(a, c)
    ensures Subchain(a, b)
  {
    if a != [] {
      SubchainTail(a, c);
      if b != [] {
        SubchainTail(a, b);
        BytesTotal(a[0].raw, b[0].raw);
        if a[0].raw == b[0].raw {
          SuperChainsAreContiguous(a[1..], b[1..], c[1..]);
        }
      }
    }
  }

  /** Less of the sort interface. */
  method Less(chi: Chain, chj: Chain) returns (less: bool)
    ensures less == Before(chi, chj)
  {
    var k := 0;
    while k < |chi| && k < |chj|
      invariant 0 <= k <= |chi| && k <= |chj|
      invariant Before(chi, chj) == Before(chi[k..], chj[k..])
    {
      if chi[k].raw != chj[k].raw {
        return BytesLess(chi[k].raw, chj[k].raw);
      }
      k := k + 1;
    }
    return |chi| < |chj|;
  }

  // ----- Sorting -----

  /** What the sort interface promises of a sorted list. */
  ghost predicate Sorted(s: seq<Chain>) {
    forall i, j :: 0 <= i < j < |s| ==> !Before(s[j], s[i])
  }

  lemma NotAfterTransitive(a: Chain, b: Chain, c: Chain)
    requires !Before(b, a) && !Before(c, b)
    ensures !Before(c, a)
  {
    if Before(c, a) {
      BeforeTotal(a, b);
      if Before(a, b) {
        BeforeTransitive(c, a, b);
      } else {
        SameIsSame(a, b, c);
      }
    }
  }

  lemma {:induction false} SameIsSame(a: Chain, b: Chain, c: Chain)
    requires Same(a, b)
    ensures Before(c, a) == Before(c, b)
  {
    if a != [] && c != [] {
      SubchainTail(a, b);
      SameIsSame(a[1..], b[1..], c[1..]);
    }
  }

  method Swap(a: array<Chain>, i: nat, j: nat)
    requires i < a.Length && j < a.Length
    modifies a
    ensures a[..] == old(a[..])[i := old(a[j])][j := old(a[i])]
    ensures multiset(a[..]) == multiset(old(a[..]))
  {
    var t := a[i];
    a[i] := a[j];
    a[j] := t;
  }

  /** The first `n + 1` chains are in order, leaving out the one at `j`, which is no later than those behind it. */
  ghost predicate InOrderBut(s: seq<Chain>, n: nat, j: nat) {
    forall p, q :: 0 <= p < q < |s| && q <= n && q != j ==> !Before(s[q], s[p])
  }

  lemma SwapKeepsOrder(s: seq<Chain>, n: nat, j: nat)
    requires 0 < j <= n < |s| && InOrderBut(s, n, j) && Before(s[j], s[j - 1])
    ensures InOrderBut(s[j := s[j - 1]][j - 1 := s[j]], n, j - 1)
  {
    BeforeTotal(s[j], s[j - 1]);
  }

  lemma InPlace(s: seq<Chain>, n: nat, j: nat)
    requires j <= n < |s| && InOrderBut(s, n, j) && (j > 0 ==> !Before(s[j], s[j - 1]))
    ensures Sorted(s[..n + 1])
  {
    forall p | 0 <= p < j ensures !Before(s[j], s[p]) {
      if p < j - 1 {
        NotAfterTransitive(s[p], s[j - 1], s[j]);
      }
    }
  }

  /** Stands for sort.Sort: in place, through Less and Swap. */
  method Sort(a: array<Chain>)
    modifies a
    ensures Sorted(a[..]) && multiset(a[..]) == multiset(old(a[..]))
  {
    for n := 0 to a.Length
      invariant Sorted(a[..n]) && multiset(a[..]) == multiset(old(a[..]))
    {
      Insert(a, n);
    }
    assert a[..a.Length] == a[..];
  }

  method Insert(a: array<Chain>, n: nat)
    requires n < a.Length && Sorted(a[..n])
    modifies a
    ensures Sorted(a[..n + 1]) && multiset(a[..]) == multiset(old(a[..]))
  {
    var j := n;
    assert forall i :: 0 <= i < n ==> a[..n][i] == a[..][i];
    while j > 0
      invariant 0 <= j <= n && InOrderBut(a[..], n, j) && multiset(a[..]) == multiset(old(a[..]))
    {
      var less := Less(a[j], a[j - 1]);
      if !less {
        break;
      }
      ghost var s := a[..];
      SwapKeepsOrder(s, n, j);
      Swap(a, j, j - 1);
      assert a[..] == s[j := s[j - 1]][j - 1 := s[j]];
      j := j - 1;
    }
    InPlace(a[..], n, j);
    assert a[..][..n + 1] == a[..n + 1];
  }

  // ----- Removing super chains -----

  /** No chain of the list begins with another one of it. */
  ghost predicate Antichain(ret: seq<Chain>) {
    forall i, j :: 0 <= i < |ret| && 0 <= j < |ret| && i != j ==> !Subchain(ret[i], ret[j])
  }

  ghost predicate Covers(ret: seq<Chain>, c: Chain) {
    exists r :: r in ret && Subchain(r, c)
  }

  /** The prefix-minimal chains of the list, each once: taken from it, covering it, none needed for another. */
  ghost predicate IsMinimalFor(ret: seq<Chain>, chains: multiset<Chain>) {
    && (forall r :: r in ret ==> r in chains)
    && (forall c :: c in chains ==> Covers(ret, c))
    && Antichain(ret)
  }

  /** Two chains of which each begins with the other are the same. */
  lemma MutualSubchains(a: Chain, b: Chain)
    requires Subchain(a, b) && Subchain(b, a)
    ensures Same(a, b)
  {
  }

  lemma SubchainTransitive(a: Chain, b: Chain, c: Chain)
    requires Subchain(a, b) && Subchain(b, c)
    ensures Subchain(a, c)
  {
  }

  /** A chain is returned, as itself or as an equal one, exactly if it is no proper super chain of another. */
  lemma MinimalMeans(ret: seq<Chain>, chains: multiset<Chain>, c: Chain)
    requires IsMinimalFor(ret, chains) && c in chains
    ensures (exists r :: r in ret && Same(r, c)) <==> (forall d :: d in chains && Subchain(d, c) ==> Same(d, c))
  {
    if r :| r in ret && Same(r, c) {
      forall d | d in chains && Subchain(d, c) ensures Same(d, c) {
        assert Covers(ret, d);
        var q :| q in ret && Subchain(q, d);
        SubchainTransitive(q, d, c);
        SubchainTransitive(q, c, r);
        SameMember(ret, q, r);
        SubchainTransitive(c, q, d);
        MutualSubchains(d, c);
      }
    } else {
      assert Covers(ret, c);
      var q :| q in ret && Subchain(q, c);
      assert q in chains && !Same(q, c);
    }
  }

  /** Whatever order equal chains were sorted in, the same chains are returned. */
  lemma MinimalIsUnique(ret: seq<Chain>, ret': seq<Chain>, chains: multiset<Chain>, r: Chain)
    requires IsMinimalFor(ret, chains) && IsMinimalFor(ret', chains) && r in ret
    ensures exists r' :: r' in ret' && Same(r', r)
  {
    assert Same(r, r);
    MinimalMeans(ret, chains, r);
    MinimalMeans(ret', chains, r);
  }

  lemma SameMember(ret: seq<Chain>, q: Chain, r: Chain)
    requires Antichain(ret) && q in ret && r in ret && Subchain(q, r)
    ensures q == r
  {
    var i :| 0 <= i < |ret| && ret[i] == q;
    var j :| 0 <= j < |ret| && ret[j] == r;
    assert i == j;
  }

  /** After `i` sorted chains: what is returned covers them, and has nothing to do with the rest. */
  ghost predicate Progress(s: seq<Chain>, ret: seq<Chain>, i: nat) {
    && i <= |s|
    && (forall r :: r in ret ==> r in s)
    && (forall m :: 0 <= m < i ==> Covers(ret, s[m]))
    && Antichain(ret)
    && (forall r, m :: r in ret && i <= m < |s| ==> !Subchain(r, s[m]) && !Subchain(s[m], r))
  }

  /** A later chain is no subchain of an earlier one, unless they are the same. */
  lemma LaterIsNoSubchain(s: seq<Chain>, i: nat, m: nat)
    requires Sorted(s) && i < m < |s| && Subchain(s[m], s[i])
    ensures Subchain(s[i], s[m])
  {
    if |s[m]| < |s[i]| {
      SubchainIsBefore(s[m], s[i]);
    }
  }

  /** The chain where the super chains of `s[i]` end has nothing to do with it, nor have those after. */
  lemma GroupEnds(s: seq<Chain>, i: nat, j: nat, m: nat)
    requires Sorted(s) && i < j <= m < |s| && !Subchain(s[i], s[j])
    ensures !Subchain(s[i], s[m]) && !Subchain(s[m], s[i])
  {
    if Subchain(s[i], s[m]) {
      if j < m {
        SuperChainsAreContiguous(s[i], s[j], s[m]);
      }
    } else if Subchain(s[m], s[i]) {
      LaterIsNoSubchain(s, i, m);
    }
  }

  lemma StillAntichain(s: seq<Chain>, ret: seq<Chain>, i: nat)
    requires Progress(s, ret, i) && i < |s|
    ensures Antichain(ret + [s[i]])
  {
    assert forall k :: 0 <= k < |ret| ==> ret[k] in ret;
  }

  lemma GroupCovered(s: seq<Chain>, ret: seq<Chain>, i: nat, j: nat)
    requires Progress(s, ret, i) && i < j <= |s|
    requires forall m :: i <= m < j ==> Subchain(s[i], s[m])
    ensures forall m :: 0 <= m < j ==> Covers(ret + [s[i]], s[m])
  {
    forall m | 0 <= m < j ensures Covers(ret + [s[i]], s[m]) {
      if m < i {
        assert Covers(ret, s[m]);
        var r :| r in ret && Subchain(r, s[m]);
        assert r in ret + [s[i]];
      } else {
        assert s[i] in ret + [s[i]];
      }
    }
  }

  lemma GroupIsPassed(s: seq<Chain>, ret: seq<Chain>, i: nat, j: nat)
    requires Sorted(s) && Progress(s, ret, i) && i < j < |s|
    requires forall m :: i <= m < j ==> Subchain(s[i], s[m])
    requires !Subchain(s[i], s[j])
    ensures Progress(s, ret + [s[i]], j)
  {
    StillAntichain(s, ret, i);
    GroupCovered(s, ret, i, j);
    forall m | j <= m < |s| ensures !Subchain(s[i], s[m]) && !Subchain(s[m], s[i]) {
      GroupEnds(s, i, j, m);
    }
  }

  lemma LastGroup(s: seq<Chain>, ret: seq<Chain>, i: nat)
    requires Progress(s, ret, i) && i < |s|
    requires forall m :: i <= m < |s| ==> Subchain(s[i], s[m])
    ensures IsMinimalFor(ret + [s[i]], multiset(s))
  {
    StillAntichain(s, ret, i);
    GroupCovered(s, ret, i, |s|);
    forall c | c in multiset(s) ensures Covers(ret + [s[i]], c) {
      var m :| 0 <= m < |s| && s[m] == c;
    }
  }

  /**
   The index into the later chain stays in range: where it is shorter, it differs from the earlier
   one before its end.
   */
  lemma IndexInRange(s: seq<Chain>, i: nat, j: nat, k: nat)
    requires Sorted(s) && i < j < |s| && k < |s[i]|
    requires forall l :: 0 <= l < k && l < |s[j]| ==> s[i][l].raw == s[j][l].raw
    ensures k < |s[j]|
  {
    if |s[j]| <= k {
      SubchainIsBefore(s[j], s[i]);
    }
  }

  method RemoveSuperChains(chains: array<Chain>) returns (ret: seq<Chain>)
    modifies chains
    ensures multiset(chains[..]) == multiset(old(chains[..]))
    ensures IsMinimalFor(ret, multiset(old(chains[..])))
  {
    Sort(chains);
    ghost var s := chains[..];
    ret := [];
    var i := 0;
    label NextChain:
    while i < chains.Length
      invariant 0 <= i && chains[..] == s && Progress(s, ret, i) && (ret != [] ==> i < |s|)
      decreases |s| - i
    {
      ghost var before, group := ret, i;
      ret := ret + [chains[i]];
      for j := i + 1 to chains.Length
        invariant i == group && chains[..] == s && ret == before + [s[i]]
        invariant forall m :: i <= m < j ==> Subchain(s[i], s[m])
      {
        for k := 0 to |chains[i]|
          invariant i == group && chains[..] == s && ret == before + [s[i]] && k <= |s[i]|
          invariant forall l :: 0 <= l < k && l < |s[j]| ==> s[i][l].raw == s[j][l].raw
        {
          IndexInRange(s, i, j, k);
          if chains[i][k].raw != chains[j][k].raw {
            GroupIsPassed(s, before, i, j);
            i := j;
            continue NextChain;
          }
        }
        assert Subchain(s[i], s[j]) by {
          if |s[i]| > 0 {
            IndexInRange(s, i, j, |s[i]| - 1);
          }
        }
      }
      LastGroup(s, before, i);
      break;
    }
  }
}
