/**
 Go slices: a length and an array that other slices may share, whose spare room an append
 writes into; and maps from keys to slices of positions, as objects.
 */
module Slices {
  import opened Bytes

  /** `len` items at the front of `data`; the rest of `data` is room to append. */
  datatype Slice<T> = Slice(data: array<T>, len: nat)

  predicate InBounds<T>(s: Slice<T>) {
    s.len <= s.data.Length
  }

  ghost function Items<T>(s: Slice<T>): seq<T>
    requires InBounds(s)
    reads s.data
  {
    s.data[..s.len]
  }

  /** Writes into the room there is, or else moves to a new array with `room` to spare. */
  method Append<T(0)>(s: Slice<T>, x: T, room: nat) returns (r: Slice<T>)
    requires InBounds(s)
    modifies s.data
    ensures InBounds(r) && Items(r) == old(Items(s)) + [x]
    ensures s.len < s.data.Length ==> r.data == s.data
    ensures s.len == s.data.Length ==> fresh(r.data) && unchanged(s.data)
  {
    if s.len < s.data.Length {
      s.data[s.len] := x;
      return Slice(s.data, s.len + 1);
    }
    var bigger := new T[s.len + 1 + room];
    forall i | 0 <= i < s.len {
      bigger[i] := s.data[i];
    }
    bigger[s.len] := x;
    return Slice(bigger, s.len + 1);
  }

  /** A slice with the same items in an array of its own, without spare room. */
  method Duplicate<T(0)>(s: Slice<T>) returns (r: Slice<T>)
    requires InBounds(s)
    ensures fresh(r.data) && InBounds(r) && Items(r) == Items(s) && r.data.Length == s.len
  {
    var data := new T[s.len];
    forall i | 0 <= i < s.len {
      data[i] := s.data[i];
    }
    return Slice(data, s.len);
  }

  /** Why slices must be duplicated: two appends to slices that share room both write to it. */
  method AppendTwice<T(0)>(s: Slice<T>, x: T, y: T) returns (first: Slice<T>, second: Slice<T>)
    requires s.len < s.data.Length
    modifies s.data
    ensures InBounds(first) && InBounds(second)
    ensures Items(first) == Items(second) == old(Items(s)) + [y]
  {
    first := Append(s, x, 0);
    second := Append(s, y, 0);
  }

  // ----- Maps to slices of positions -----

  datatype Key = Key(text: seq<Byte>)

  type Index = map<Key, seq<nat>>

  function Lookup(index: Index, key: Key): seq<nat> {
    if key in index then index[key] else []
  }

  function Appended(index: Index, key: Key, n: nat): Index {
    index[key := Lookup(index, key) + [n]]
  }

  ghost predicate CopiedBut(index: Index, rest: set<Key>, copy: Index) {
    copy.Keys == index.Keys - rest && forall k :: k in copy ==> copy[k] == index[k]
  }

  lemma OneMoreCopied(index: Index, rest: set<Key>, copy: Index, key: Key)
    requires CopiedBut(index, rest, copy) && key in rest && rest <= index.Keys
    ensures CopiedBut(index, rest - {key}, copy[key := index[key]])
  {
  }

  lemma AllCopied(index: Index, copy: Index)
    requires CopiedBut(index, {}, copy)
    ensures copy == index
  {
  }

  /** A map object from keys to slices. */
  class IndexMap {
    var slices: map<Key, Slice<nat>>
    ghost var view: Index                // what the slices hold
    ghost var arrays: set<object>        // where they hold it

    /** The slices hold the view, each key in an array that no other key has. */
    ghost predicate Valid()
      reads this, arrays
    {
      && this !in arrays && slices.Keys == view.Keys
      && (forall k :: k in slices ==> slices[k].data in arrays && InBounds(slices[k]) && Items(slices[k]) == view[k])
      && (forall j, k :: j in slices && k in slices && j != k ==> slices[j].data != slices[k].data)
    }

    constructor ()
      ensures Valid() && view == map[] && arrays == {}
    {
      slices, view, arrays := map[], map[], {};
    }

    /** Appends to the slice of the key, which may be missing and then is nil. */
    method Add(key: Key, n: nat, room: nat)
      requires Valid()
      modifies this, arrays
      ensures Valid() && view == Appended(old(view), key, n)
      ensures fresh(arrays - old(arrays))
    {
      if key in slices {
        AddTo(key, n, room);
      } else {
        var none := new nat[0];
        var first := Append(Slice(none, 0), n, room);
        Put(key, first);
      }
    }

    method AddTo(key: Key, n: nat, room: nat)
      requires Valid() && key in slices
      modifies this, arrays
      ensures Valid() && view == old(view)[key := old(view)[key] + [n]]
      ensures fresh(arrays - old(arrays))
    {
      var longer := Append(slices[key], n, room);
      slices := slices[key := longer];
      view, arrays := view[key := view[key] + [n]], arrays + {longer.data};
    }

    /** Stores a slice under a key, in an array that is not in use. */
    method Put(key: Key, s: Slice<nat>)
      requires Valid() && InBounds(s) && s.data !in arrays
      modifies this
      ensures Valid() && view == old(view)[key := Items(s)] && arrays == old(arrays) + {s.data}
    {
      slices := slices[key := s];
      view, arrays := view[key := Items(s)], arrays + {s.data};
    }

    method CopyKey(c: IndexMap, key: Key)
      requires Valid() && c.Valid() && c != this && key in slices
      modifies c
      ensures c.Valid() && c.view == old(c.view)[key := view[key]] && fresh(c.arrays - old(c.arrays))
    {
      var indexes := Duplicate(slices[key]);
      c.Put(key, indexes);
    }

    /** A map of its own, whose slices have arrays of their own. */
    method Copy() returns (c: IndexMap)
      requires Valid()
      ensures fresh(c) && c.Valid() && fresh(c.arrays) && c.view == view
    {
      c := new IndexMap();
      var rest := slices.Keys;
      while rest != {}
        invariant rest <= slices.Keys && c.Valid() && fresh(c) && fresh(c.arrays)
        invariant CopiedBut(view, rest, c.view)
        decreases rest
      {
        var k :| k in rest;
        OneMoreCopied(view, rest, c.view, k);
        CopyKey(c, k);
        rest := rest - {k};
      }
      AllCopied(view, c.view);
    }
  }
}
