/** An ECMAScript `Map` with string keys: a finite map together with the
    sequence of its keys in insertion order, which is the order in which
    `values()` enumerates the entries. */
module OrderedMaps {
  import opened Options

  datatype OrderedMap<V> = OrderedMap(keys: seq<string>, entries: map<string, V>)
  {
    /** Each key is listed once, and exactly the keys of `entries` are listed. */
    ghost predicate Valid() {
      && (forall i, j :: 0 <= i < j < |keys| ==> keys[i] != keys[j])
      && (forall k :: k in entries <==> k in keys)
    }

    /** Map.prototype.size. */
    function Size(): nat {
      |keys|
    }

    /** Map.prototype.has. */
    predicate Has(k: string) {
      k in entries
    }

    /** Map.prototype.get. */
    function Get(k: string): (r: Option<V>)
      ensures r.Some? <==> k in entries
      ensures r.Some? ==> r.value == entries[k]
    {
      if k in entries then Some(entries[k]) else None
    }

    /** Map.prototype.set: a new key goes to the end of the order, an existing
        key keeps its place and only its value changes. */
    function Set(k: string, v: V): (r: OrderedMap<V>)
      requires Valid()
      ensures r.Valid()
      ensures r.Get(k) == Some(v)
      ensures forall k' :: k' != k ==> r.Get(k') == Get(k')
      ensures r.Size() == if Has(k) then Size() else Size() + 1
    {
      OrderedMap(if k in entries then keys else keys + [k], entries[k := v])
    }

    /** Map.prototype.delete, apart from its boolean result, which is `Has(k)`. */
    function Remove(k: string): (r: OrderedMap<V>)
      requires Valid()
      ensures r.Valid()
      ensures r.Get(k) == None
      ensures forall k' :: k' != k ==> r.Get(k') == Get(k')
      ensures r.Size() == if Has(k) then Size() - 1 else Size()
    {
      if k in entries then
        var i := KeyIndex(keys, k);
        RemoveAtValid(this, i);
        OrderedMap(keys[..i] + keys[i + 1..], entries - {k})
      else this
    }

    /** Array.from(map.values()): the values in key order. */
    function Values(): seq<V>
      requires Valid()
    {
      seq(|keys|, i requires 0 <= i < |keys| => entries[keys[i]])
    }
  }

  function Empty<V>(): (r: OrderedMap<V>)
    ensures r.Valid() && r.Size() == 0 && r.Values() == []
  {
    OrderedMap([], map[])
  }

  /** The position of a listed key. */
  function KeyIndex(keys: seq<string>, k: string): (i: nat)
    requires k in keys
    ensures i < |keys| && keys[i] == k
    ensures forall j :: 0 <= j < i ==> keys[j] != k
  {
    if keys[0] == k then 0 else 1 + KeyIndex(keys[1..], k)
  }

  /** Removing the key at position `i` keeps the map well formed. */
  lemma RemoveAtValid<V>(m: OrderedMap<V>, i: nat)
    requires m.Valid() && i < |m.keys|
    ensures OrderedMap(m.keys[..i] + m.keys[i + 1..], m.entries - {m.keys[i]}).Valid()
  {
    RemoveAtDistinct(m.keys, i);
    RemoveAtMembers(m.keys, i);
  }

  /** Removing position `i` of distinct keys removes exactly the key there. */
  lemma RemoveAtMembers(keys: seq<string>, i: nat)
    requires forall a, b :: 0 <= a < b < |keys| ==> keys[a] != keys[b]
    requires i < |keys|
    ensures forall k :: k in keys[..i] + keys[i + 1..] <==> k in keys && k != keys[i]
  {
    var ks := keys[..i] + keys[i + 1..];
    RemoveAtShifts(keys, i, ks);
    forall k ensures k in ks <==> k in keys && k != keys[i] {
      if k in ks {
        var a :| 0 <= a < |ks| && ks[a] == k;
        assert k == keys[if a < i then a else a + 1];
      }
      if k in keys && k != keys[i] {
        var a :| 0 <= a < |keys| && keys[a] == k;
        assert ks[if a < i then a else a - 1] == k;
      }
    }
  }

  /** After removing position `i`, the later keys move one place to the front. */
  lemma RemoveAtShifts<T>(s: seq<T>, i: nat, rest: seq<T>)
    requires i < |s| && rest == s[..i] + s[i + 1..]
    ensures |rest| == |s| - 1
    ensures forall a :: 0 <= a < i ==> rest[a] == s[a]
    ensures forall a :: i <= a < |rest| ==> rest[a] == s[a + 1]
  {
  }

  /** Removing one position from a list of distinct keys leaves them distinct. */
  lemma RemoveAtDistinct(keys: seq<string>, i: nat)
    requires forall a, b :: 0 <= a < b < |keys| ==> keys[a] != keys[b]
    requires i < |keys|
    ensures var ks := keys[..i] + keys[i + 1..];
            forall a, b :: 0 <= a < b < |ks| ==> ks[a] != ks[b]
  {
    var ks := keys[..i] + keys[i + 1..];
    RemoveAtShifts(keys, i, ks);
    forall a, b | 0 <= a < b < |ks| ensures ks[a] != ks[b] {
      assert ks[a] == keys[if a < i then a else a + 1];
      assert ks[b] == keys[if b < i then b else b + 1];
    }
  }

  /** A list of distinct keys has as many elements as its set of keys. */
  lemma {:induction false} DistinctKeysCount(ks: seq<string>)
    requires forall i, j :: 0 <= i < j < |ks| ==> ks[i] != ks[j]
    ensures |set k | k in ks| == |ks|
    decreases |ks|
  {
    if ks != [] {
      DistinctKeysCount(ks[1..]);
      assert (set k | k in ks) == {ks[0]} + (set k | k in ks[1..]);
      assert ks[0] !in ks[1..];
    }
  }

  /** The number of listed keys is the number of entries. */
  lemma SizeIsCardinality<V>(m: OrderedMap<V>)
    requires m.Valid()
    ensures m.Size() == |m.entries|
  {
    DistinctKeysCount(m.keys);
    assert m.entries.Keys == set k | k in m.keys;
  }

  /** Setting a key that is not yet present appends its value to the enumeration. */
  lemma SetFreshAppends<V>(m: OrderedMap<V>, k: string, v: V)
    requires m.Valid() && !m.Has(k)
    ensures m.Set(k, v).Values() == m.Values() + [v]
  {
  }

  /** Setting a present key replaces its value where it stands: the order is kept. */
  lemma SetExistingInPlace<V>(m: OrderedMap<V>, k: string, v: V)
    requires m.Valid() && m.Has(k)
    ensures m.Set(k, v).keys == m.keys
    ensures var i := KeyIndex(m.keys, k); m.Set(k, v).Values() == m.Values()[i := v]
  {
    var i := KeyIndex(m.keys, k);
    var r := m.Set(k, v);
    forall j | 0 <= j < |m.keys| ensures r.Values()[j] == m.Values()[i := v][j] {
      if j != i {
        assert m.keys[j] != k;
      }
    }
  }

  /** Deleting a present key removes its value from the enumeration and keeps
      the others in order. */
  lemma RemoveKeepsOrder<V>(m: OrderedMap<V>, k: string)
    requires m.Valid() && m.Has(k)
    ensures var i := KeyIndex(m.keys, k);
            m.Remove(k).Values() == m.Values()[..i] + m.Values()[i + 1..]
  {
    var i := KeyIndex(m.keys, k);
    var r := m.Remove(k);
    var vs := m.Values();
    RemoveAtShifts(m.keys, i, r.keys);
    RemoveAtShifts(vs, i, vs[..i] + vs[i + 1..]);
  }
}
