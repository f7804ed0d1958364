/** The iteration order of the `drivers` Map. A JavaScript Map iterates its
    keys in insertion order: setting a key that is already present keeps
    its position, and a key that is deleted and set again moves to the end. */
module Registry {

  /** No key occurs twice. */
  ghost predicate Distinct<T>(s: seq<T>)
  {
    forall i, j :: 0 <= i < j < |s| ==> s[i] != s[j]
  }

  /** The key order after `map.set(k, ...)`. */
  function Upserted(order: seq<string>, k: string): (r: seq<string>)
    ensures k in r
    ensures forall x :: x in r <==> x in order || x == k
    ensures |order| <= |r| && r[..|order|] == order
    ensures k in order ==> r == order
    ensures Distinct(order) ==> Distinct(r)
  {
    if k in order then order else order + [k]
  }

  /** The key order after `map.delete(k)`. */
  function Without(order: seq<string>, k: string): (r: seq<string>)
    ensures forall x :: x in r <==> x in order && x != k
    ensures |r| <= |order|
  {
    if order == [] then []
    else if order[0] == k then Without(order[1..], k)
    else [order[0]] + Without(order[1..], k)
  }

  /** Deleting a key shifts the keys after it down by one slot and leaves
      the relative order of all other keys as it was. */
  lemma {:induction false} WithoutRemovesSlot(order: seq<string>, k: string, i: nat)
    requires Distinct(order) && i < |order| && order[i] == k
    ensures Without(order, k) == order[..i] + order[i + 1..]
  {
    if i == 0 {
      WithoutAbsent(order[1..], k);
    } else {
      WithoutRemovesSlot(order[1..], k, i - 1);
      assert order[1..][..i - 1] == order[1..i];
      assert order[1..][i..] == order[i + 1..];
      assert order[..i] == [order[0]] + order[1..i];
    }
  }

  /** Deleting a key that is not present changes nothing. */
  lemma {:induction false} WithoutAbsent(order: seq<string>, k: string)
    requires k !in order
    ensures Without(order, k) == order
  {
    if order != [] {
      WithoutAbsent(order[1..], k);
      assert order == [order[0]] + order[1..];
    }
  }

  /** Deleting keeps the keys distinct. */
  lemma {:induction false} WithoutDistinct(order: seq<string>, k: string)
    requires Distinct(order)
    ensures Distinct(Without(order, k))
  {
    if order != [] {
      WithoutDistinct(order[1..], k);
      var rest := Without(order[1..], k);
      if order[0] != k {
        assert order[0] !in rest;
        forall i, j | 0 <= i < j < |[order[0]] + rest|
          ensures ([order[0]] + rest)[i] != ([order[0]] + rest)[j]
        {
          if i > 0 {
            assert ([order[0]] + rest)[i] == rest[i - 1];
          }
        }
      }
    }
  }

  /** A key that is deleted and then set again is last in iteration order,
      behind every key that survived the deletion. */
  lemma ReAddMovesToEnd(order: seq<string>, k: string)
    ensures Upserted(Without(order, k), k) == Without(order, k) + [k]
  {
  }

  /** The records of a map listed in the given key order: what `forEach`
      visits. */
  function InOrder<V>(m: map<string, V>, keys: seq<string>): (r: seq<V>)
    requires forall k | k in keys :: k in m
    ensures |r| == |keys|
    ensures forall i | 0 <= i < |keys| :: r[i] == m[keys[i]]
  {
    seq(|keys|, i requires 0 <= i < |keys| => m[keys[i]])
  }

  /** Setting a present key replaces its record in place in the iteration
      order; setting a new key appends its record at the end. */
  lemma SnapshotAfterSet<V>(m: map<string, V>, keys: seq<string>, k: string, v: V)
    requires forall x | x in keys :: x in m
    requires Distinct(keys)
    ensures forall x | x in Upserted(keys, k) :: x in m[k := v]
    ensures k !in keys ==> InOrder(m[k := v], Upserted(keys, k)) == InOrder(m, keys) + [v]
    ensures forall i | 0 <= i < |keys| && keys[i] == k ::
              InOrder(m[k := v], Upserted(keys, k)) == InOrder(m, keys)[i := v]
  {
  }

  /** Deleting a key removes exactly its record from the iteration order. */
  lemma SnapshotAfterDelete<V>(m: map<string, V>, keys: seq<string>, k: string, i: nat)
    requires forall x | x in keys :: x in m
    requires Distinct(keys) && i < |keys| && keys[i] == k
    ensures forall x | x in Without(keys, k) :: x in m - {k}
    ensures InOrder(m - {k}, Without(keys, k)) == InOrder(m, keys)[..i] + InOrder(m, keys)[i + 1..]
  {
    WithoutRemovesSlot(keys, k, i);
  }
}
