/**
 Pools of certificates (x509/cert_pool.go): a list in order of arrival with two
 indexes into it, by subject key identifier and by name, that stand for searches
 through the whole list.
 */
module CertPool {
  import opened Bytes
  import opened Slices

  datatype Certificate = Certificate(
    raw: seq<Byte>,
    rawSubject: seq<Byte>,
    rawIssuer: seq<Byte>,
    subjectKeyId: seq<Byte>,
    authorityKeyId: seq<Byte>)

  // ----- The searches the indexes stand for -----

  /** The positions of the certificates with this subject, in order. */
  function Named(certs: seq<Certificate>, name: seq<Byte>): seq<nat> {
    if certs == [] then []
    else
      var n: nat := |certs| - 1;
      Named(certs[..n], name) + if certs[n].rawSubject == name then [n] else []
  }

  /** The positions of the certificates with this key identifier, in order. */
  function Keyed(certs: seq<Certificate>, id: seq<Byte>): seq<nat> {
    if certs == [] then []
    else
      var n: nat := |certs| - 1;
      Keyed(certs[..n], id) + if certs[n].subjectKeyId == id then [n] else []
  }

  /** In order, and nothing else. */
  lemma {:induction false} NamedIsOrdered(certs: seq<Certificate>, name: seq<Byte>, i: nat)
    requires i < |Named(certs, name)|
    ensures Named(certs, name)[i] < |certs| && certs[Named(certs, name)[i]].rawSubject == name
    ensures i > 0 ==> Named(certs, name)[i - 1] < Named(certs, name)[i]
  {
    var pre := certs[..|certs| - 1];
    if i < |Named(pre, name)| {
      NamedIsOrdered(pre, name, i);
    } else if i > 0 {
      NamedIsOrdered(pre, name, i - 1);
    }
  }

  /** And nothing missing. */
  lemma {:induction false} NamedIsComplete(certs: seq<Certificate>, name: seq<Byte>, k: nat)
    requires k < |certs| && certs[k].rawSubject == name
    ensures k in Named(certs, name)
  {
    if k < |certs| - 1 {
      NamedIsComplete(certs[..|certs| - 1], name, k);
    }
  }

  lemma NamedMore(certs: seq<Certificate>, cert: Certificate, name: seq<Byte>)
    ensures Named(certs + [cert], name) == Named(certs, name) + if cert.rawSubject == name then [|certs|] else []
  {
    assert (certs + [cert])[..|certs|] == certs;
  }

  /** In order, and nothing else. */
  lemma {:induction false} KeyedIsOrdered(certs: seq<Certificate>, id: seq<Byte>, i: nat)
    requires i < |Keyed(certs, id)|
    ensures Keyed(certs, id)[i] < |certs| && certs[Keyed(certs, id)[i]].subjectKeyId == id
    ensures i > 0 ==> Keyed(certs, id)[i - 1] < Keyed(certs, id)[i]
  {
    var pre := certs[..|certs| - 1];
    if i < |Keyed(pre, id)| {
      KeyedIsOrdered(pre, id, i);
    } else if i > 0 {
      KeyedIsOrdered(pre, id, i - 1);
    }
  }

  /** And nothing missing. */
  lemma {:induction false} KeyedIsComplete(certs: seq<Certificate>, id: seq<Byte>, k: nat)
    requires k < |certs| && certs[k].subjectKeyId == id
    ensures k in Keyed(certs, id)
  {
    if k < |certs| - 1 {
      KeyedIsComplete(certs[..|certs| - 1], id, k);
    }
  }

  lemma KeyedMore(certs: seq<Certificate>, cert: Certificate, id: seq<Byte>)
    ensures Keyed(certs + [cert], id) == Keyed(certs, id) + if cert.subjectKeyId == id then [|certs|] else []
  {
    assert (certs + [cert])[..|certs|] == certs;
  }

  /** Some certificate of the list has the same encoding and the same subject. */
  ghost predicate Holds(certs: seq<Certificate>, cert: Certificate) {
    exists i :: 0 <= i < |certs| && certs[i].raw == cert.raw && certs[i].rawSubject == cert.rawSubject
  }

  /** Some certificate of the list is Equal. */
  ghost predicate HoldsEqual(certs: seq<Certificate>, cert: Certificate) {
    exists i :: 0 <= i < |certs| && certs[i].raw == cert.raw
  }

  ghost function Added(certs: seq<Certificate>, cert: Certificate): seq<Certificate> {
    if Holds(certs, cert) then certs else certs + [cert]
  }

  // ----- The pool -----

  ghost predicate NameIndexed(byName: Index, certs: seq<Certificate>) {
    forall name :: Lookup(byName, Key(name)) == Named(certs, name)
  }

  ghost predicate KeyIndexed(bySubjectKeyId: Index, certs: seq<Certificate>) {
    forall id :: Lookup(bySubjectKeyId, Key(id)) == if id == [] then [] else Keyed(certs, id)
  }

  /** Certificates without a key identifier are not indexed by it. */
  ghost function KeyAppended(bySubjectKeyId: Index, cert: Certificate, n: nat): Index {
    if cert.subjectKeyId != [] then Appended(bySubjectKeyId, Key(cert.subjectKeyId), n) else bySubjectKeyId
  }

  class Pool {
    const bySubjectKeyId: IndexMap
    const byName: IndexMap
    var certs: Slice<Certificate>

    /** All objects the pool is made of. */
    ghost function Repr(): set<object>
      reads this, bySubjectKeyId, byName
    {
      {this, bySubjectKeyId, byName, certs.data} + bySubjectKeyId.arrays + byName.arrays
    }

    /** The objects are all different, and each is valid in itself. */
    ghost predicate Separate()
      reads Repr()
    {
      && bySubjectKeyId != byName && bySubjectKeyId.arrays !! byName.arrays
      && {this, bySubjectKeyId, byName, certs.data} !! bySubjectKeyId.arrays
      && {this, bySubjectKeyId, byName, certs.data} !! byName.arrays
      && bySubjectKeyId.Valid() && byName.Valid() && InBounds(certs)
    }

    /** And both indexes are right. */
    ghost predicate Valid()
      reads Repr()
    {
      Separate() && KeyIndexed(bySubjectKeyId.view, Items(certs)) && NameIndexed(byName.view, Items(certs))
    }

    ghost function Certs(): seq<Certificate>
      requires InBounds(certs)
      reads this, certs.data
    {
      Items(certs)
    }

    constructor ()
      ensures Valid() && fresh(Repr()) && Certs() == []
    {
      bySubjectKeyId := new IndexMap();
      byName := new IndexMap();
      var none := new Certificate[0];
      certs := Slice(none, 0);
    }

    constructor Of(bySubjectKeyId: IndexMap, byName: IndexMap, certs: Slice<Certificate>)
      ensures this.bySubjectKeyId == bySubjectKeyId && this.byName == byName && this.certs == certs
    {
      this.bySubjectKeyId, this.byName, this.certs := bySubjectKeyId, byName, certs;
    }

    /** A pool with the same certificates that shares no storage with this one. */
    method Copy() returns (p: Pool)
      requires Valid()
      ensures p.Valid() && fresh(p.Repr()) && p.Certs() == Certs()
    {
      var ids := bySubjectKeyId.Copy();
      var names := byName.Copy();
      var list := Duplicate(certs);
      p := new Pool.Of(ids, names, list);
    }

    method Push(cert: Certificate, room: nat)
      requires Separate()
      modifies this, certs.data
      ensures Separate() && fresh(Repr() - old(Repr()))
      ensures Certs() == old(Certs()) + [cert]
    {
      certs := Append(certs, cert, room);
    }

    method IndexKey(id: seq<Byte>, n: nat, room: nat)
      requires Separate()
      modifies bySubjectKeyId, bySubjectKeyId.arrays
      ensures Separate() && fresh(Repr() - old(Repr())) && Certs() == old(Certs())
      ensures bySubjectKeyId.view == Appended(old(bySubjectKeyId.view), Key(id), n) && byName.view == old(byName.view)
    {
      bySubjectKeyId.Add(Key(id), n, room);
    }

    method IndexName(name: seq<Byte>, n: nat, room: nat)
      requires Separate()
      modifies byName, byName.arrays
      ensures Separate() && fresh(Repr() - old(Repr())) && Certs() == old(Certs())
      ensures byName.view == Appended(old(byName.view), Key(name), n) && bySubjectKeyId.view == old(bySubjectKeyId.view)
    {
      byName.Add(Key(name), n, room);
    }

    method IndexBoth(cert: Certificate, n: nat, rooms: (nat, nat))
      requires Separate()
      modifies bySubjectKeyId, bySubjectKeyId.arrays, byName, byName.arrays
      ensures Separate() && fresh(Repr() - old(Repr())) && Certs() == old(Certs())
      ensures byName.view == Appended(old(byName.view), Key(cert.rawSubject), n)
      ensures bySubjectKeyId.view == KeyAppended(old(bySubjectKeyId.view), cert, n)
    {
      if |cert.subjectKeyId| > 0 {
        IndexKey(cert.subjectKeyId, n, rooms.0);
      }
      IndexName(cert.rawSubject, n, rooms.1);
    }

    method PushAndIndex(cert: Certificate, rooms: (nat, nat, nat))
      requires Separate()
      modifies Repr()
      ensures Separate() && fresh(Repr() - old(Repr())) && Certs() == old(Certs()) + [cert]
      ensures byName.view == Appended(old(byName.view), Key(cert.rawSubject), |old(Certs())|)
      ensures bySubjectKeyId.view == KeyAppended(old(bySubjectKeyId.view), cert, |old(Certs())|)
    {
      var n := certs.len;
      Push(cert, rooms.0);
      assert fresh(Repr() - old(Repr()));
      IndexBoth(cert, n, (rooms.1, rooms.2));
    }

    method Insert(cert: Certificate, rooms: (nat, nat, nat))
      requires Valid()
      modifies Repr()
      ensures Valid() && fresh(Repr() - old(Repr())) && Certs() == old(Certs()) + [cert]
    {
      NameIndexedMore(byName.view, Certs(), cert);
      KeyIndexedMore(bySubjectKeyId.view, Certs(), cert);
      PushAndIndex(cert, rooms);
    }

    /** Appends unless present; `rooms` are the spare capacities of whatever has to be reallocated. */
    method AddCert(cert: Certificate, rooms: (nat, nat, nat))
      requires Valid()
      modifies Repr()
      ensures Valid() && fresh(Repr() - old(Repr())) && Certs() == Added(old(Certs()), cert)
    {
      var present := Contains(this, cert);
      if present {
        return;
      }
      Insert(cert, rooms);
    }

    /** Adds several, one by one. */
    method AddCerts(more: seq<Certificate>, rooms: (nat, nat, nat))
      requires Valid()
      modifies Repr()
      ensures Valid() && fresh(Repr() - old(Repr())) && Certs() == AddedAll(old(Certs()), more)
    {
      for i := 0 to |more|
        invariant Valid() && fresh(Repr() - old(Repr())) && Certs() == AddedAll(old(Certs()), more[..i])
      {
        assert more[..i + 1][..i] == more[..i];
        AddCert(more[i], rooms);
      }
      assert more[..|more|] == more;
    }
  }

  /** What is added to a copy does not reach the original. */
  method ExtendCopy(s: Pool, more: seq<Certificate>, rooms: (nat, nat, nat)) returns (p: Pool)
    requires s.Valid()
    ensures p.Valid() && fresh(p.Repr()) && p.Certs() == AddedAll(s.Certs(), more)
    ensures unchanged(s.Repr()) && s.Valid()
  {
    p := s.Copy();
    p.AddCerts(more, rooms);
  }

  /** Nor does what is added to the original later reach the copy. */
  method ExtendBoth(s: Pool, toCopy: seq<Certificate>, toOriginal: seq<Certificate>, rooms: (nat, nat, nat))
    returns (p: Pool)
    requires s.Valid()
    modifies s.Repr()
    ensures p.Valid() && p.Certs() == AddedAll(old(s.Certs()), toCopy)
    ensures s.Valid() && s.Certs() == AddedAll(old(s.Certs()), toOriginal)
  {
    p := ExtendCopy(s, toCopy, rooms);
    s.AddCerts(toOriginal, rooms);
  }

  lemma AppendedLookup(index: Index, key: Key, n: nat, k: Key)
    ensures Lookup(Appended(index, key, n), k) == if k == key then Lookup(index, k) + [n] else Lookup(index, k)
  {
  }

  lemma NameIndexedMore(byName: Index, certs: seq<Certificate>, cert: Certificate)
    requires NameIndexed(byName, certs)
    ensures NameIndexed(Appended(byName, Key(cert.rawSubject), |certs|), certs + [cert])
  {
    forall name
      ensures Lookup(Appended(byName, Key(cert.rawSubject), |certs|), Key(name)) == Named(certs + [cert], name)
    {
      AppendedLookup(byName, Key(cert.rawSubject), |certs|, Key(name));
      NamedMore(certs, cert, name);
    }
  }

  lemma KeyIndexedMore(bySubjectKeyId: Index, certs: seq<Certificate>, cert: Certificate)
    requires KeyIndexed(bySubjectKeyId, certs)
    ensures KeyIndexed(KeyAppended(bySubjectKeyId, cert, |certs|), certs + [cert])
  {
    var index := KeyAppended(bySubjectKeyId, cert, |certs|);
    forall id ensures Lookup(index, Key(id)) == if id == [] then [] else Keyed(certs + [cert], id) {
      AppendedLookup(bySubjectKeyId, Key(cert.subjectKeyId), |certs|, Key(id));
      KeyedMore(certs, cert, id);
    }
  }

  /** Looks only at the certificates of the same name; a nil pool holds nothing. */
  method Contains(s: Pool?, cert: Certificate) returns (present: bool)
    requires s != null ==> s.Valid()
    ensures present <==> s != null && Holds(s.Certs(), cert)
  {
    if s == null {
      return false;
    }
    var candidates := SliceOf(s.byName, Key(cert.rawSubject));
    if candidates.None? {
      AllNamesSeen(s.Certs(), cert);
      return false;
    }
    present := Search(s.certs, candidates.value, cert);
  }

  /** The loop over the candidates. */
  method Search(certs: Slice<Certificate>, candidates: Slice<nat>, cert: Certificate) returns (present: bool)
    requires InBounds(certs) && InBounds(candidates) && Items(candidates) == Named(Items(certs), cert.rawSubject)
    ensures present <==> Holds(Items(certs), cert)
  {
    ghost var positions, list := Items(candidates), Items(certs);
    for i := 0 to candidates.len
      invariant forall c :: c in positions[..i] && c < |list| ==> list[c].raw != cert.raw
    {
      NamedIsOrdered(list, cert.rawSubject, i);
      var c := candidates.data[i];
      assert c == positions[i];
      if certs.data[c].raw == cert.raw {
        assert list[c] == certs.data[c];
        return true;
      }
      assert positions[..i + 1] == positions[..i] + [c];
    }
    assert positions[..|positions|] == positions;
    AllNamesSeen(list, cert);
    return false;
  }

  lemma AllNamesSeen(certs: seq<Certificate>, cert: Certificate)
    requires forall c: nat :: c in Named(certs, cert.rawSubject) && c < |certs| ==> certs[c].raw != cert.raw
    ensures !Holds(certs, cert)
  {
    forall k: nat | k < |certs| && certs[k].rawSubject == cert.rawSubject ensures certs[k].raw != cert.raw {
      NamedIsComplete(certs, cert.rawSubject, k);
    }
  }

  ghost function Parents(certs: seq<Certificate>, cert: Certificate): seq<nat> {
    if cert.authorityKeyId != [] && Keyed(certs, cert.authorityKeyId) != [] then Keyed(certs, cert.authorityKeyId)
    else Named(certs, cert.rawIssuer)
  }

  /** The positions in a slice of the pool's. */
  ghost function Positions(slice: Option<Slice<nat>>): seq<nat>
    requires slice.Some? ==> InBounds(slice.value)
    reads if slice.Some? then {slice.value.data} else {}
  {
    if slice.None? then [] else Items(slice.value)
  }

  /** The slice of a key, or None for nil. */
  method SliceOf(index: IndexMap, key: Key) returns (s: Option<Slice<nat>>)
    requires index.Valid()
    ensures s.None? ==> Lookup(index.view, key) == []
    ensures s.Some? ==> s.value.data in index.arrays && InBounds(s.value) && Items(s.value) == Lookup(index.view, key)
  {
    if key !in index.slices {
      return None;
    }
    return Some(index.slices[key]);
  }

  /**
   The certificates that may have signed `cert`: those with the key it names, or else those with
   the name of its issuer. The slice is the pool's own, which is why callers must not modify it.
   */
  method FindPotentialParents(s: Pool?, cert: Certificate) returns (candidates: Option<Slice<nat>>)
    requires s != null ==> s.Valid()
    ensures s == null ==> candidates == None
    ensures candidates.Some? ==> InBounds(candidates.value)
    ensures s != null ==> Positions(candidates) == Parents(s.Certs(), cert)
    ensures s != null && candidates.Some? ==> candidates.value.data in s.Repr()
  {
    candidates := None;
    if s == null {
      return;
    }
    if |cert.authorityKeyId| > 0 {
      candidates := SliceOf(s.bySubjectKeyId, Key(cert.authorityKeyId));
    }
    if candidates.None? || candidates.value.len == 0 {
      candidates := SliceOf(s.byName, Key(cert.rawIssuer));
    }
  }

  // ----- Whole histories -----

  ghost function AddedAll(certs: seq<Certificate>, more: seq<Certificate>): seq<Certificate> {
    if more == [] then certs else Added(AddedAll(certs, more[..|more| - 1]), more[|more| - 1])
  }

  /** The subject is part of the encoding, as it is for certificates that were parsed. */
  ghost predicate Consistent(certs: seq<Certificate>) {
    forall i, j :: 0 <= i < |certs| && 0 <= j < |certs| && certs[i].raw == certs[j].raw ==>
      certs[i].rawSubject == certs[j].rawSubject
  }

  /** For parsed certificates, looking among those of the same name finds what a search through all would. */
  lemma NameIndexIsEnough(certs: seq<Certificate>, cert: Certificate)
    requires Consistent(certs + [cert])
    ensures Holds(certs, cert) <==> HoldsEqual(certs, cert)
  {
    if i :| 0 <= i < |certs| && certs[i].raw == cert.raw {
      assert (certs + [cert])[i] == certs[i] && (certs + [cert])[|certs|] == cert;
    }
  }

  /** Under another name an Equal certificate is not found. */
  lemma OtherNameIsNotFound(cert: Certificate, name: seq<Byte>)
    requires name != cert.rawSubject
    ensures HoldsEqual([cert.(rawSubject := name)], cert) && !Holds([cert.(rawSubject := name)], cert)
  {
    assert [cert.(rawSubject := name)][0].raw == cert.raw;
  }

  lemma {:induction false} PoolOnlyGrows(certs: seq<Certificate>, more: seq<Certificate>)
    ensures certs <= AddedAll(certs, more)
  {
    if more != [] {
      PoolOnlyGrows(certs, more[..|more| - 1]);
    }
  }

  lemma {:induction false} AddedAllFrom(more: seq<Certificate>, k: nat)
    requires k < |AddedAll([], more)|
    ensures AddedAll([], more)[k] in more
  {
    if more != [] {
      var pre := more[..|more| - 1];
      if k < |AddedAll([], pre)| {
        AddedAllFrom(pre, k);
      }
      assert more == pre + [more[|more| - 1]];
    }
  }

  lemma {:induction false} AddedAllHolds(more: seq<Certificate>, k: nat)
    requires k < |more|
    ensures Holds(AddedAll([], more), more[k])
  {
    var pre, last := more[..|more| - 1], more[|more| - 1];
    var before := AddedAll([], pre);
    if k < |pre| {
      AddedAllHolds(pre, k);
      var i :| 0 <= i < |before| && before[i].raw == more[k].raw && before[i].rawSubject == more[k].rawSubject;
      assert AddedAll([], more)[i] == before[i];
    } else if !Holds(before, last) {
      assert AddedAll([], more)[|before|] == last;
    }
  }

  lemma {:induction false} AddedAllDistinct(more: seq<Certificate>, i: nat, j: nat)
    requires Consistent(more) && i < j < |AddedAll([], more)|
    ensures AddedAll([], more)[i].raw != AddedAll([], more)[j].raw
  {
    var pre, last := more[..|more| - 1], more[|more| - 1];
    var before := AddedAll([], pre);
    if j < |before| {
      AddedAllDistinct(pre, i, j);
    } else {
      AddedAllFrom(pre, i);
      var k :| 0 <= k < |pre| && pre[k] == before[i];
      assert more[k] == before[i] && more[|more| - 1] == last;
      assert before[i].rawSubject == last.rawSubject || before[i].raw != last.raw;
    }
  }

  /** Additions to a pool that had additions before, on whichever copy they were made, are additions in a row. */
  lemma {:induction false} AddedInARow(certs: seq<Certificate>, a: seq<Certificate>, b: seq<Certificate>)
    ensures AddedAll(AddedAll(certs, a), b) == AddedAll(certs, a + b)
    decreases |b|
  {
    if b == [] {
      assert a + b == a;
    } else {
      AddedInARow(certs, a, b[..|b| - 1]);
      assert (a + b)[..|a + b| - 1] == a + b[..|b| - 1];
    }
  }

  /** So a pool that comes from a copy holds what was added before the copy and to it since. */
  lemma CopyIsTheSetAdded(before: seq<Certificate>, since: seq<Certificate>, cert: Certificate)
    requires Consistent(before + since + [cert])
    ensures var pool := AddedAll(AddedAll([], before), since);
            && (forall i, j :: 0 <= i < j < |pool| ==> pool[i].raw != pool[j].raw)
            && (Holds(pool, cert) <==> HoldsEqual(before, cert) || HoldsEqual(since, cert))
  {
    AddedInARow([], before, since);
    PoolIsTheSetAdded(before + since, cert);
    var all := before + since;
    if i :| 0 <= i < |before| && before[i].raw == cert.raw {
      assert all[i] == before[i];
    }
    if i :| 0 <= i < |since| && since[i].raw == cert.raw {
      assert all[|before| + i] == since[i];
    }
  }

  /**
   After any additions of parsed certificates to an empty pool: no two pooled
   certificates are Equal, and a certificate is found exactly if an Equal one was added.
   */
  lemma PoolIsTheSetAdded(more: seq<Certificate>, cert: Certificate)
    requires Consistent(more + [cert])
    ensures forall i, j :: 0 <= i < j < |AddedAll([], more)| ==> AddedAll([], more)[i].raw != AddedAll([], more)[j].raw
    ensures Holds(AddedAll([], more), cert) <==> HoldsEqual(more, cert)
  {
    var pool, all := AddedAll([], more), more + [cert];
    assert forall i :: 0 <= i < |more| ==> all[i] == more[i];
    assert all[|more|] == cert;
    forall i, j | 0 <= i < j < |pool| ensures pool[i].raw != pool[j].raw {
      AddedAllDistinct(more, i, j);
    }
    if k :| 0 <= k < |more| && more[k].raw == cert.raw {
      AddedAllHolds(more, k);
      assert all[k].rawSubject == cert.rawSubject;
    }
    if i :| 0 <= i < |pool| && pool[i].raw == cert.raw && pool[i].rawSubject == cert.rawSubject {
      AddedAllFrom(more, i);
    }
  }
}
