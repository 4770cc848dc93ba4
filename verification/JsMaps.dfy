/** The `Map` of the session: distinct keys in insertion order; `set` keeps an old key's place. */
module JsMaps {
  import opened Options
  import opened Seqs

  datatype Pair<+K, +V> = Pair(key: K, value: V)

  type JsMap<K, V> = seq<Pair<K, V>>

  ghost predicate Distinct<K, V>(m: JsMap<K, V>) {
    forall i, j | 0 <= i < j < |m| :: m[i].key != m[j].key
  }

  function Get<K(==), V>(m: JsMap<K, V>, k: K): Option<V> {
    if m == [] then None
    else if m[0].key == k then Some(m[0].value)
    else Get(m[1..], k)
  }

  function Set<K(==), V>(m: JsMap<K, V>, k: K, v: V): JsMap<K, V> {
    if m == [] then [Pair(k, v)]
    else if m[0].key == k then [Pair(k, v)] + m[1..]
    else [m[0]] + Set(m[1..], k, v)
  }

  function Delete<K(==), V>(m: JsMap<K, V>, k: K): JsMap<K, V> {
    if m == [] then []
    else if m[0].key == k then m[1..]
    else [m[0]] + Delete(m[1..], k)
  }

  ghost predicate HasKey<K, V>(m: JsMap<K, V>, k: K) {
    exists i | 0 <= i < |m| :: m[i].key == k
  }

  lemma {:induction false} GetKey<K, V>(m: JsMap<K, V>, k: K)
    ensures Get(m, k).Some? <==> HasKey(m, k)
  {
    if m == [] || m[0].key == k {
    } else {
      GetKey(m[1..], k);
      if HasKey(m, k) {
        var i :| 0 <= i < |m| && m[i].key == k;
        assert m[1..][i - 1].key == k;
      }
      if HasKey(m[1..], k) {
        var i :| 0 <= i < |m[1..]| && m[1..][i].key == k;
        assert m[i + 1].key == k;
      }
    }
  }

  lemma {:induction false} GetAt<K, V>(m: JsMap<K, V>, i: nat)
    requires Distinct(m) && i < |m|
    ensures Get(m, m[i].key) == Some(m[i].value)
  {
    if i == 0 {
    } else {
      assert m[0].key != m[i].key;
      GetAt(m[1..], i - 1);
    }
  }

  lemma {:induction false} SetLaw<K, V>(m: JsMap<K, V>, k: K, v: V)
    requires Distinct(m)
    ensures Distinct(Set(m, k, v))
    ensures forall x :: Get(Set(m, k, v), x) == if x == k then Some(v) else Get(m, x)
  {
    if m == [] || m[0].key == k {
    } else {
      SetLaw(m[1..], k, v);
      var rest := Set(m[1..], k, v);
      GetKey(m[1..], m[0].key);
      GetKey(rest, m[0].key);
      assert Get(rest, m[0].key) == Get(m[1..], m[0].key);
      assert !HasKey(m[1..], m[0].key);
    }
  }

  lemma {:induction false} DeleteLaw<K, V>(m: JsMap<K, V>, k: K)
    requires Distinct(m)
    ensures Distinct(Delete(m, k))
    ensures forall x :: Get(Delete(m, k), x) == if x == k then None else Get(m, x)
  {
    if m == [] {
    } else {
      GetKey(m[1..], m[0].key);
      assert !HasKey(m[1..], m[0].key);
      if m[0].key != k {
        DeleteLaw(m[1..], k);
        var rest := Delete(m[1..], k);
        GetKey(rest, m[0].key);
        assert Get(rest, m[0].key) == Get(m[1..], m[0].key);
      }
    }
  }

  // --- the order of the keys ------------------------------------------------------

  function Keys<K, V>(m: JsMap<K, V>): seq<K> {
    if m == [] then [] else [m[0].key] + Keys(m[1..])
  }

  /** `set` keeps an old key's place and puts a new one last. */
  lemma {:induction false} SetOrder<K, V>(m: JsMap<K, V>, k: K, v: V)
    ensures Keys(Set(m, k, v)) == if Get(m, k).Some? then Keys(m) else Keys(m) + [k]
  {
    if m == [] || m[0].key == k {
    } else {
      SetOrder(m[1..], k, v);
    }
  }

  lemma {:induction false} KeyIn<K, V>(m: JsMap<K, V>, k: K)
    ensures k in Keys(m) <==> HasKey(m, k)
  {
    if m == [] {
    } else {
      KeyIn(m[1..], k);
      GetKey(m, k);
      GetKey(m[1..], k);
    }
  }

  /** `delete` takes out one key and keeps the order of the others. */
  lemma {:induction false} DeleteOrder<K, V>(m: JsMap<K, V>, k: K)
    requires Distinct(m)
    ensures Keys(Delete(m, k)) == Filter(Keys(m), x => x != k)
  {
    if m == [] {
    } else if m[0].key == k {
      FilterAll(Keys(m[1..]), x => x != k);
      KeyIn(m[1..], k);
      assert !HasKey(m[1..], k);
      assert forall i | 0 <= i < |Keys(m[1..])| :: Keys(m[1..])[i] in Keys(m[1..]);
    } else {
      DeleteOrder(m[1..], k);
    }
  }
}
