/** Insertion-ordered maps with the semantics of a JavaScript `Map`: iteration
    follows first insertion, `set` on a present key replaces its value in place,
    `set` on a new key appends, and `delete` removes the entry. */
module OrderedMaps {
  import opened Optional

  type OMap<K, V> = seq<(K, V)>

  /** The keys in iteration order. */
  function Keys<K, V>(m: OMap<K, V>): (ks: seq<K>)
    ensures |ks| == |m|
    ensures forall i :: 0 <= i < |m| ==> ks[i] == m[i].0
  {
    if m == [] then [] else [m[0].0] + Keys(m[1..])
  }

  /** A well-formed map holds each key at most once. */
  ghost predicate Valid<K, V>(m: OMap<K, V>) {
    m == [] || (m[0].0 !in Keys(m[1..]) && Valid(m[1..]))
  }

  /** `m.get(k)`: the value stored under `k`, if any. */
  function Get<K(==), V>(m: OMap<K, V>, k: K): (r: Option<V>)
    ensures r.Some? <==> k in Keys(m)
  {
    if m == [] then None
    else if m[0].0 == k then Some(m[0].1)
    else Get(m[1..], k)
  }

  /** A found value is stored under its key. */
  lemma {:induction false} GetIsEntry<K, V>(m: OMap<K, V>, k: K)
    ensures Get(m, k).Some? ==> (k, Get(m, k).value) in m
  {
    if m != [] && m[0].0 != k {
      GetIsEntry(m[1..], k);
    }
  }

  /** In a well-formed map the found value is the only one stored under its
      key. */
  lemma {:induction false} GetUnique<K, V>(m: OMap<K, V>, k: K, i: int)
    requires Valid(m) && 0 <= i < |m| && m[i].0 == k
    ensures Get(m, k) == Some(m[i].1)
  {
    if i > 0 {
      assert m[0].0 != k by {
        assert Keys(m[1..])[i - 1] == k;
      }
      GetUnique(m[1..], k, i - 1);
    }
  }

  /** In a well-formed map each key is listed exactly once. */
  lemma {:induction false} ValidKeyCount<K, V>(m: OMap<K, V>, k: K)
    requires Valid(m)
    ensures multiset(Keys(m))[k] == if k in Keys(m) then 1 else 0
  {
    if m != [] {
      ValidKeyCount(m[1..], k);
      assert Keys(m) == [m[0].0] + Keys(m[1..]);
    }
  }

  /** `m.set(k, v)`. */
  function Set<K(==,!new), V>(m: OMap<K, V>, k: K, v: V): (r: OMap<K, V>)
    ensures Get(r, k) == Some(v)
    ensures forall k' :: k' != k ==> Get(r, k') == Get(m, k')
    ensures Keys(r) == if k in Keys(m) then Keys(m) else Keys(m) + [k]
  {
    SetAtGet(m, k, v);
    SetAtOthers(m, k, v);
    SetAtKeys(m, k, v);
    SetAt(m, k, v)
  }

  /** The entry list after `set`: the entry of `k` replaced where it is, or
      a new one at the end. */
  function SetAt<K(==), V>(m: OMap<K, V>, k: K, v: V): OMap<K, V> {
    if m == [] then [(k, v)]
    else if m[0].0 == k then [(k, v)] + m[1..]
    else [m[0]] + SetAt(m[1..], k, v)
  }

  lemma {:induction false} SetAtGet<K, V>(m: OMap<K, V>, k: K, v: V)
    ensures Get(SetAt(m, k, v), k) == Some(v)
  {
    if m != [] && m[0].0 != k {
      SetAtGet(m[1..], k, v);
      assert SetAt(m, k, v)[1..] == SetAt(m[1..], k, v);
    }
  }

  lemma {:induction false} SetAtOthers<K(!new), V>(m: OMap<K, V>, k: K, v: V)
    ensures forall k' :: k' != k ==> Get(SetAt(m, k, v), k') == Get(m, k')
  {
    if m != [] {
      if m[0].0 == k {
        assert SetAt(m, k, v)[1..] == m[1..];
      } else {
        SetAtOthers(m[1..], k, v);
        assert SetAt(m, k, v)[1..] == SetAt(m[1..], k, v);
      }
    }
  }

  lemma {:induction false} SetAtKeys<K, V>(m: OMap<K, V>, k: K, v: V)
    ensures Keys(SetAt(m, k, v)) == if k in Keys(m) then Keys(m) else Keys(m) + [k]
  {
    if m != [] {
      var r := SetAt(m, k, v);
      assert Keys(m) == [m[0].0] + Keys(m[1..]);
      if m[0].0 == k {
        assert r[1..] == m[1..];
        assert Keys(r) == [k] + Keys(m[1..]);
      } else {
        SetAtKeys(m[1..], k, v);
        assert r[1..] == SetAt(m[1..], k, v);
        assert Keys(r) == [m[0].0] + Keys(SetAt(m[1..], k, v));
      }
    }
  }

  /** After `set`, every entry is the new one or an old one. */
  lemma {:induction false} SetEntries<K(!new), V>(m: OMap<K, V>, k: K, v: V)
    ensures forall e :: e in Set(m, k, v) ==> e == (k, v) || e in m
  {
    if m != [] && m[0].0 != k {
      SetEntries(m[1..], k, v);
      assert Set(m, k, v) == [m[0]] + Set(m[1..], k, v);
    }
  }

  /** `set` keeps each key at most once. */
  lemma {:induction false} SetValid<K(!new), V>(m: OMap<K, V>, k: K, v: V)
    ensures Valid(m) ==> Valid(Set(m, k, v))
  {
    if Valid(m) && m != [] {
      if m[0].0 == k {
        assert Set(m, k, v)[1..] == m[1..];
      } else {
        SetValid(m[1..], k, v);
        assert Set(m, k, v)[1..] == Set(m[1..], k, v);
      }
    }
  }

  /** `ks` without any occurrence of `k`, the others in order. */
  function Without<K(==)>(ks: seq<K>, k: K): seq<K> {
    if ks == [] then [] else (if ks[0] == k then [] else [ks[0]]) + Without(ks[1..], k)
  }

  /** `m.delete(k)`. */
  function Remove<K(==,!new), V>(m: OMap<K, V>, k: K): (r: OMap<K, V>)
    ensures Get(r, k) == None
    ensures forall k' :: k' != k ==> Get(r, k') == Get(m, k')
    ensures forall k' :: k' in Keys(r) <==> k' in Keys(m) && k' != k
  {
    if m == [] then []
    else if m[0].0 == k then Remove(m[1..], k)
    else [m[0]] + Remove(m[1..], k)
  }

  /** `delete` keeps the remaining keys in their iteration order. */
  lemma {:induction false} RemoveKeys<K(!new), V>(m: OMap<K, V>, k: K)
    ensures Keys(Remove(m, k)) == Without(Keys(m), k)
  {
    if m != [] {
      assert Keys(m)[1..] == Keys(m[1..]);
      RemoveKeys(m[1..], k);
      if m[0].0 != k {
        var r := Remove(m, k);
        assert r == [m[0]] + Remove(m[1..], k);
        assert r[1..] == Remove(m[1..], k);
      }
    }
  }

  /** `delete` keeps each key at most once. */
  lemma {:induction false} RemoveValid<K(!new), V>(m: OMap<K, V>, k: K)
    ensures Valid(m) ==> Valid(Remove(m, k))
  {
    if Valid(m) && m != [] {
      RemoveValid(m[1..], k);
      if m[0].0 != k {
        assert Remove(m, k)[1..] == Remove(m[1..], k);
      }
    }
  }

  /** Deleting a key that is absent changes nothing. */
  lemma {:induction false} RemoveAbsent<K(!new), V>(m: OMap<K, V>, k: K)
    requires k !in Keys(m)
    ensures Remove(m, k) == m
  {
    if m != [] {
      assert Keys(m)[0] == m[0].0;
      assert k !in Keys(m[1..]) by {
        forall i | 0 <= i < |m[1..]| ensures Keys(m[1..])[i] != k {
          assert Keys(m)[i + 1] == m[1..][i].0;
        }
      }
      RemoveAbsent(m[1..], k);
      assert [m[0]] + m[1..] == m;
    }
  }

  /** Deleting a key forgets any earlier `set` of it. */
  lemma {:induction false} RemoveSet<K(!new), V>(m: OMap<K, V>, k: K, v: V)
    ensures Remove(Set(m, k, v), k) == Remove(m, k)
  {
    if m != [] {
      if m[0].0 == k {
        assert Set(m, k, v)[1..] == m[1..];
      } else {
        RemoveSet(m[1..], k, v);
        assert Set(m, k, v)[1..] == Set(m[1..], k, v);
      }
    }
  }

  /** `m` is an extension of `m0`: every entry of `m0` is kept, at its place,
      and new entries come after it. */
  ghost predicate Extends<K, V>(m0: OMap<K, V>, m: OMap<K, V>) {
    |m0| <= |m| && m[..|m0|] == m0
  }

  lemma ExtendsTransitive<K, V>(a: OMap<K, V>, b: OMap<K, V>, c: OMap<K, V>)
    requires Extends(a, b) && Extends(b, c)
    ensures Extends(a, c)
  {
    assert c[..|a|] == c[..|b|][..|a|];
  }

  /** A second `set` of the same key overrides the first one entirely. */
  lemma {:induction false} SetTwice<K(!new), V>(m: OMap<K, V>, k: K, v1: V, v2: V)
    ensures Set(Set(m, k, v1), k, v2) == Set(m, k, v2)
  {
    if m != [] && m[0].0 != k {
      SetTwice(m[1..], k, v1, v2);
      assert Set(m, k, v1)[1..] == Set(m[1..], k, v1);
    }
  }

  /** The inner map stored under `k` in a map of maps, empty when `k` is
      absent. */
  function Inner<K(==), L, V>(m: OMap<K, OMap<L, V>>, k: K): OMap<L, V> {
    Get(m, k).GetOr([])
  }

  /** `m.set(k, (m.get(k) || new Map()).set(l, v))`. */
  function SetIn<K(==,!new), L(==,!new), V>(m: OMap<K, OMap<L, V>>, k: K, l: L, v: V): OMap<K, OMap<L, V>> {
    Set(m, k, Set(Inner(m, k), l, v))
  }

  /** The nested `set` stores `v` at `(k, l)` and keeps every other inner
      key and every other outer key. */
  lemma SetInEffect<K(!new), L(!new), V>(m: OMap<K, OMap<L, V>>, k: K, l: L, v: V)
    ensures Get(Inner(SetIn(m, k, l, v), k), l) == Some(v)
    ensures forall l' :: l' != l ==> Get(Inner(SetIn(m, k, l, v), k), l') == Get(Inner(m, k), l')
    ensures forall k' :: k' != k ==> Get(SetIn(m, k, l, v), k') == Get(m, k')
  {
    assert Inner(SetIn(m, k, l, v), k) == Set(Inner(m, k), l, v);
  }
}
