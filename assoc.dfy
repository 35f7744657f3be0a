/**
 * An insertion-ordered dictionary, the shape of a PHP array with keys: assigning to an
 * existing key replaces its value where it stands, assigning to a new key appends it,
 * `unset` removes it, and `foreach` visits the entries in order.
 */
module Assoc {
  import opened Common

  type Assoc<K, V> = seq<(K, V)>

  function Keys<K, V>(a: Assoc<K, V>): (ks: seq<K>)
    ensures |ks| == |a|
    ensures forall i :: 0 <= i < |a| ==> ks[i] == a[i].0
  {
    seq(|a|, i requires 0 <= i < |a| => a[i].0)
  }

  /** A PHP array never holds the same key twice. */
  predicate DistinctKeys<K(==), V>(a: Assoc<K, V>) {
    NoDup(Keys(a))
  }

  /** `$a[$k] ?? null`: the value stored under `k`. */
  function Get<K(==), V>(a: Assoc<K, V>, k: K): (r: Option<V>)
    ensures r.None? <==> k !in Keys(a)
  {
    if a == [] then None
    else if a[0].0 == k then Some(a[0].1)
    else (assert Keys(a[1..]) == Keys(a)[1..]; Get(a[1..], k))
  }

  /** `$a[$k] = $v`. */
  function Put<K(==), V>(a: Assoc<K, V>, k: K, v: V): Assoc<K, V> {
    if a == [] then [(k, v)]
    else if a[0].0 == k then [(k, v)] + a[1..]
    else [a[0]] + Put(a[1..], k, v)
  }

  /** `unset($a[$k])`. */
  function Remove<K(==), V>(a: Assoc<K, V>, k: K): Assoc<K, V> {
    if a == [] then []
    else if a[0].0 == k then Remove(a[1..], k)
    else [a[0]] + Remove(a[1..], k)
  }

  /** After an assignment the key holds the new value and every other key keeps its own. */
  lemma {:induction false} GetPut<K, V>(a: Assoc<K, V>, k: K, v: V, k': K)
    ensures Get(Put(a, k, v), k') == if k' == k then Some(v) else Get(a, k')
  {
    if a != [] && a[0].0 != k {
      GetPut(a[1..], k, v, k');
    }
  }

  /** After `unset` the key is gone and every other key keeps its value. */
  lemma {:induction false} GetRemove<K, V>(a: Assoc<K, V>, k: K, k': K)
    ensures Get(Remove(a, k), k') == if k' == k then None else Get(a, k')
  {
    if a != [] {
      GetRemove(a[1..], k, k');
    }
  }

  /** Assigning does not change which keys exist beyond adding `k` at the end when it is new. */
  lemma {:induction false} KeysPut<K, V>(a: Assoc<K, V>, k: K, v: V)
    ensures Keys(Put(a, k, v)) == if k in Keys(a) then Keys(a) else Keys(a) + [k]
  {
    if a != [] {
      KeysCons(a);
      var r := Put(a, k, v);
      KeysCons(r);
      if a[0].0 != k {
        KeysPut(a[1..], k, v);
        assert r[1..] == Put(a[1..], k, v);
      } else {
        assert r[1..] == a[1..];
      }
    }
  }

  /** The keys of a non-empty array are its first key followed by the keys of the rest. */
  lemma KeysCons<K, V>(a: Assoc<K, V>)
    requires a != []
    ensures Keys(a) == [a[0].0] + Keys(a[1..])
  {
  }

  /** A key survives a removal exactly when it was there and is not the removed one. */
  lemma {:induction false} KeysRemove<K, V>(a: Assoc<K, V>, k: K, x: K)
    ensures x in Keys(Remove(a, k)) <==> x in Keys(a) && x != k
  {
    if a != [] {
      KeysRemove(a[1..], k, x);
      KeysCons(a);
      if a[0].0 != k {
        var r := Remove(a, k);
        assert r == [a[0]] + Remove(a[1..], k);
        KeysCons(r);
        assert r[1..] == Remove(a[1..], k);
      }
    }
  }

  /** A removal keeps the keys distinct. */
  lemma {:induction false} RemoveDistinct<K, V>(a: Assoc<K, V>, k: K)
    requires DistinctKeys(a)
    ensures DistinctKeys(Remove(a, k))
  {
    if a != [] {
      assert Keys(a)[1..] == Keys(a[1..]);
      TailNoDup(Keys(a));
      RemoveDistinct(a[1..], k);
      if a[0].0 != k {
        assert Keys(Remove(a, k)) == [a[0].0] + Keys(Remove(a[1..], k));
        KeysRemove(a[1..], k, a[0].0);
        assert a[0].0 !in Keys(a[1..]) by { assert Keys(a) == [a[0].0] + Keys(a[1..]); }
        ConsNoDup(a[0].0, Keys(Remove(a[1..], k)));
      }
    }
  }

  /** After an assignment the key holds the new value and the keys stay distinct. */
  lemma PutHolds<K, V>(a: Assoc<K, V>, k: K, v: V)
    requires DistinctKeys(a)
    ensures DistinctKeys(Put(a, k, v)) && Get(Put(a, k, v), k) == Some(v)
  {
    GetPut(a, k, v, k);
    PutDistinct(a, k, v);
  }

  /** Assignment keeps keys distinct. */
  lemma PutDistinct<K, V>(a: Assoc<K, V>, k: K, v: V)
    requires DistinctKeys(a)
    ensures DistinctKeys(Put(a, k, v))
  {
    KeysPut(a, k, v);
    if k !in Keys(a) {
      var ks := Keys(a) + [k];
      forall i, j | 0 <= i < j < |ks| ensures ks[i] != ks[j] {
        if j == |ks| - 1 {
          assert ks[i] == Keys(a)[i];
        }
      }
    }
  }

  /** Assigning the value a key already holds changes nothing; in particular assignment is idempotent. */
  lemma {:induction false} PutPresent<K, V>(a: Assoc<K, V>, k: K, v: V)
    requires DistinctKeys(a) && Get(a, k) == Some(v)
    ensures Put(a, k, v) == a
  {
    if a[0].0 != k {
      assert DistinctKeys(a[1..]) by { TailNoDup(Keys(a)); assert Keys(a)[1..] == Keys(a[1..]); }
      PutPresent(a[1..], k, v);
    }
  }

  /** Removing an absent key changes nothing. */
  lemma {:induction false} RemoveAbsent<K, V>(a: Assoc<K, V>, k: K)
    requires k !in Keys(a)
    ensures Remove(a, k) == a
  {
    if a != [] {
      assert Keys(a) == [a[0].0] + Keys(a[1..]);
      RemoveAbsent(a[1..], k);
    }
  }

  /** Every entry of an assignment's result is the new entry or an old one. */
  lemma {:induction false} PutEntries<K, V>(a: Assoc<K, V>, k: K, v: V)
    ensures forall p :: p in Put(a, k, v) ==> p == (k, v) || p in a
  {
    if a != [] && a[0].0 != k {
      PutEntries(a[1..], k, v);
      assert forall p :: p in Put(a, k, v) ==> p == a[0] || p in Put(a[1..], k, v);
    }
  }

  /** With distinct keys, looking a key up finds exactly the entry stored under it. */
  lemma {:induction false} GetIn<K, V>(a: Assoc<K, V>, k: K, v: V)
    requires DistinctKeys(a)
    ensures Get(a, k) == Some(v) <==> (k, v) in a
  {
    if a != [] {
      assert DistinctKeys(a[1..]) by { TailNoDup(Keys(a)); assert Keys(a)[1..] == Keys(a[1..]); }
      GetIn(a[1..], k, v);
    }
  }

  /** Looking up in an extended list: the old entry if the key was there, else the new one. */
  lemma {:induction false} GetAppend<K, V>(a: Assoc<K, V>, p: (K, V), k: K)
    ensures Get(a + [p], k) == if k in Keys(a) then Get(a, k) else if p.0 == k then Some(p.1) else None
  {
    if a == [] {
      assert [] + [p] == [p];
    } else {
      assert (a + [p])[1..] == a[1..] + [p];
      assert Keys(a) == [a[0].0] + Keys(a[1..]);
      GetAppend(a[1..], p, k);
    }
  }

  /** The keys of an extended list are the old keys and then the new one. */
  lemma KeysAppend<K, V>(a: Assoc<K, V>, p: (K, V))
    ensures Keys(a + [p]) == Keys(a) + [p.0]
  {
  }

  /** Appending an entry whose key is new keeps keys distinct. */
  lemma AppendDistinct<K, V>(a: Assoc<K, V>, p: (K, V))
    requires DistinctKeys(a) && p.0 !in Keys(a)
    ensures DistinctKeys(a + [p])
  {
    KeysAppend(a, p);
    SnocNoDup(Keys(a), p.0);
  }

  lemma SnocNoDup<T>(s: seq<T>, x: T)
    requires NoDup(s) && x !in s
    ensures NoDup(s + [x])
  {
    forall i, j | 0 <= i < j < |s + [x]| ensures (s + [x])[i] != (s + [x])[j] {
      assert (s + [x])[i] == s[i];
      if j == |s| {
        assert s[i] in s;
      }
    }
  }

  /** A key occurs among the keys exactly when some entry carries it. */
  lemma InKeys<K, V>(a: Assoc<K, V>, k: K)
    ensures k in Keys(a) <==> exists v :: (k, v) in a
  {
    if k in Keys(a) {
      var i :| 0 <= i < |a| && Keys(a)[i] == k;
      assert (k, a[i].1) == a[i];
    }
    if exists v :: (k, v) in a {
      var v :| (k, v) in a;
      var i :| 0 <= i < |a| && a[i] == (k, v);
      assert Keys(a)[i] == k;
    }
  }

  lemma TailNoDup<T>(s: seq<T>)
    requires NoDup(s) && s != []
    ensures NoDup(s[1..])
  {
    forall i, j | 0 <= i < j < |s[1..]| ensures s[1..][i] != s[1..][j] {
      assert s[1..][i] == s[i + 1] && s[1..][j] == s[j + 1];
    }
  }

  lemma ConsNoDup<T>(x: T, s: seq<T>)
    requires NoDup(s) && x !in s
    ensures NoDup([x] + s)
  {
    forall i, j | 0 <= i < j < |[x] + s| ensures ([x] + s)[i] != ([x] + s)[j] {
      assert ([x] + s)[j] == s[j - 1];
      if i > 0 {
        assert ([x] + s)[i] == s[i - 1];
      }
    }
  }
}
