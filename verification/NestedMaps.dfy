/** Maps keyed by pairs and triples, stored as nested maps. */
module NestedMaps {

  datatype Triple<A, B, C> = Triple(first: A, second: B, third: C)

  /** The inner layer: a map from pairs, held by value inside a TripleMap. */
  datatype DoubleMap<K1(==), K2(==), V> = DoubleMap(internal: map<K1, map<K2, V>>, invalid: V)
  {
    predicate Has(k1: K1, k2: K2) {
      k1 in internal && k2 in internal[k1]
    }

    function Find(k1: K1, k2: K2): (v: V)
      ensures !Has(k1, k2) ==> v == invalid
    {
      if k1 in internal then (if k2 in internal[k1] then internal[k1][k2] else invalid) else invalid
    }

    function Insert(k1: K1, k2: K2, v: V): (out: DoubleMap<K1, K2, V>)
      ensures out.invalid == invalid
    {
      DoubleMap(if k1 in internal then internal[k1 := internal[k1][k2 := v]] else internal[k1 := map[k2 := v]], invalid)
    }

    /** Erasing the last entry of an inner map leaves the empty inner map in place. */
    function Erase(k1: K1, k2: K2): (out: DoubleMap<K1, K2, V>)
      ensures out.invalid == invalid
    {
      if k1 in internal then DoubleMap(internal[k1 := internal[k1] - {k2}], invalid) else this
    }

    lemma InsertThenFind(k1: K1, k2: K2, v: V, a: K1, b: K2)
      ensures Insert(k1, k2, v).Has(a, b) <==> Has(a, b) || (a == k1 && b == k2)
      ensures Insert(k1, k2, v).Find(a, b) == if a == k1 && b == k2 then v else Find(a, b)
    {
    }

    lemma EraseThenFind(k1: K1, k2: K2, a: K1, b: K2)
      ensures Erase(k1, k2).Has(a, b) <==> Has(a, b) && !(a == k1 && b == k2)
      ensures Erase(k1, k2).Has(a, b) ==> Erase(k1, k2).Find(a, b) == Find(a, b)
    {
    }
  }

  /** The map from triples that nested maps stand for. */
  ghost function FlatOf<K1(!new), K2(!new), K3(!new), V>(m: map<K1, DoubleMap<K2, K3, V>>): map<Triple<K1, K2, K3>, V> {
    map a, b, c | a in m && b in m[a].internal && c in m[a].internal[b] :: Triple(a, b, c) := m[a].Find(b, c)
  }

  lemma FlatHas<K1(!new), K2(!new), K3(!new), V>(m: map<K1, DoubleMap<K2, K3, V>>, k: Triple<K1, K2, K3>)
    ensures k in FlatOf(m) <==> k.first in m && m[k.first].Has(k.second, k.third)
    ensures k in FlatOf(m) ==> FlatOf(m)[k] == m[k.first].Find(k.second, k.third)
  {
    assert k == Triple(k.first, k.second, k.third);
  }

  lemma FlatInsert<K1(!new), K2(!new), K3(!new), V>(m: map<K1, DoubleMap<K2, K3, V>>, inner: DoubleMap<K2, K3, V>,
                                                    k: Triple<K1, K2, K3>, v: V)
    requires if k.first in m then inner == m[k.first] else inner.internal == map[]
    ensures FlatOf(m[k.first := inner.Insert(k.second, k.third, v)]) == FlatOf(m)[k := v]
  {
    var out := m[k.first := inner.Insert(k.second, k.third, v)];
    forall x: Triple<K1, K2, K3>
      ensures x in FlatOf(out) <==> x in FlatOf(m) || x == k
      ensures x in FlatOf(out) ==> FlatOf(out)[x] == FlatOf(m)[k := v][x]
    {
      FlatHas(out, x);
      FlatHas(m, x);
      inner.InsertThenFind(k.second, k.third, v, x.second, x.third);
    }
    hide FlatOf;
  }

  lemma FlatErase<K1(!new), K2(!new), K3(!new), V>(m: map<K1, DoubleMap<K2, K3, V>>, k: Triple<K1, K2, K3>)
    requires k.first in m
    ensures FlatOf(m[k.first := m[k.first].Erase(k.second, k.third)]) == FlatOf(m) - {k}
  {
    var out := m[k.first := m[k.first].Erase(k.second, k.third)];
    forall x: Triple<K1, K2, K3>
      ensures x in FlatOf(out) <==> x in FlatOf(m) && x != k
      ensures x in FlatOf(out) ==> FlatOf(out)[x] == FlatOf(m)[x]
    {
      FlatHas(out, x);
      FlatHas(m, x);
      m[k.first].EraseThenFind(k.second, k.third, x.second, x.third);
    }
    hide FlatOf;
  }

  class TripleMap<K1(==, !new), K2(==, !new), K3(==, !new), V> {
    var internalMap: map<K1, DoubleMap<K2, K3, V>>
    const invalidValue: V

    /** Inner maps answer a miss with the same value as this one. */
    ghost predicate Valid() reads this {
      forall k <- internalMap :: internalMap[k].invalid == invalidValue
    }

    ghost function Flat(): map<Triple<K1, K2, K3>, V> reads this {
      FlatOf(internalMap)
    }

    constructor (invalid: V)
      ensures Valid() && Flat() == map[] && invalidValue == invalid
    {
      internalMap := map[];
      invalidValue := invalid;
    }

    method Insert(k1: K1, k2: K2, k3: K3, v: V)
      requires Valid()
      modifies this
      ensures Valid() && Flat() == old(Flat())[Triple(k1, k2, k3) := v]
    {
      hide FlatOf;
      if k1 in internalMap {
        FlatInsert(internalMap, internalMap[k1], Triple(k1, k2, k3), v);
        internalMap := internalMap[k1 := internalMap[k1].Insert(k2, k3, v)];
      } else {
        var mm := DoubleMap(map[], invalidValue);
        FlatInsert(internalMap, mm, Triple(k1, k2, k3), v);
        internalMap := internalMap[k1 := mm.Insert(k2, k3, v)];
      }
    }

    method Find(k1: K1, k2: K2, k3: K3) returns (v: V)
      requires Valid()
      ensures v == if Triple(k1, k2, k3) in Flat() then Flat()[Triple(k1, k2, k3)] else invalidValue
    {
      FlatHas(internalMap, Triple(k1, k2, k3));
      if k1 in internalMap {
        return internalMap[k1].Find(k2, k3);
      } else {
        return invalidValue;
      }
    }

    method Erase(k1: K1, k2: K2, k3: K3)
      requires Valid()
      modifies this
      ensures Valid() && Flat() == old(Flat()) - {Triple(k1, k2, k3)}
    {
      hide FlatOf;
      FlatHas(internalMap, Triple(k1, k2, k3));
      if k1 in internalMap {
        FlatErase(internalMap, Triple(k1, k2, k3));
        internalMap := internalMap[k1 := internalMap[k1].Erase(k2, k3)];
      }
    }
  }
}
