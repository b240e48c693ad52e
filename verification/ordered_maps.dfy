/**
  Insertion-ordered maps with the semantics of the JavaScript `Map` the push
  server keeps its roster in: `set` on a present key replaces the value in
  place, `set` on a new key appends, `delete` removes, and iteration visits
  entries in insertion order.
 */
module OrderedMaps {
  import opened Wrappers
  import opened Seqs

  datatype Entry<K, V> = Entry(key: K, value: V)

  predicate KeysUnique<K(==), V>(m: seq<Entry<K, V>>)
  {
    forall i, j :: 0 <= i < j < |m| ==> m[i].key != m[j].key
  }

  predicate HasKey<K(==), V>(m: seq<Entry<K, V>>, k: K)
  {
    exists i :: 0 <= i < |m| && m[i].key == k
  }

  /** The keys in iteration order (`Array.from(m.keys())`). */
  function Keys<K, V>(m: seq<Entry<K, V>>): (ks: seq<K>)
    ensures |ks| == |m|
    ensures forall i :: 0 <= i < |m| ==> ks[i] == m[i].key
  {
    seq(|m|, i requires 0 <= i < |m| => m[i].key)
  }

  /** The values in iteration order (`Array.from(m.values())`). */
  function Values<K, V>(m: seq<Entry<K, V>>): (vs: seq<V>)
    ensures |vs| == |m|
    ensures forall i :: 0 <= i < |m| ==> vs[i] == m[i].value
  {
    seq(|m|, i requires 0 <= i < |m| => m[i].value)
  }

  /** The position of `k`, if present. */
  function Find<K(==), V>(m: seq<Entry<K, V>>, k: K): (r: Option<nat>)
    ensures r.Some? ==> r.value < |m| && m[r.value].key == k
    ensures r.Some? ==> forall j :: 0 <= j < r.value ==> m[j].key != k
    ensures r.None? <==> !HasKey(m, k)
  {
    FirstIndex(m, (e: Entry<K, V>) => e.key == k)
  }

  /** `m.get(k)`. */
  function Get<K(==), V>(m: seq<Entry<K, V>>, k: K): (r: Option<V>)
    ensures r.Some? <==> HasKey(m, k)
    ensures KeysUnique(m) ==> forall i :: 0 <= i < |m| && m[i].key == k ==> r == Some(m[i].value)
    ensures r.Some? ==> Entry(k, r.value) in m
  {
    match Find(m, k)
    case None => None
    case Some(i) => Some(m[i].value)
  }

  /** `m.set(k, v)`. */
  function Put<K(==,!new), V>(m: seq<Entry<K, V>>, k: K, v: V): (r: seq<Entry<K, V>>)
    ensures KeysUnique(m) ==> KeysUnique(r)
    ensures Get(r, k) == Some(v)
    ensures forall k' :: k' != k ==> Get(r, k') == Get(m, k')
    ensures HasKey(m, k) ==> Keys(r) == Keys(m)
    ensures !HasKey(m, k) ==> Keys(r) == Keys(m) + [k]
    ensures HasKey(m, k) ==> |r| == |m|
    ensures !HasKey(m, k) ==> r == m + [Entry(k, v)]
    ensures forall e :: e in r ==> e == Entry(k, v) || e in m
    ensures HasKey(m, k) ==> r == m[Find(m, k).value := Entry(k, v)]
  {
    match Find(m, k)
    case None =>
      AppendLaws(m, k, v);
      m + [Entry(k, v)]
    case Some(i) =>
      ReplaceLaws(m, i, v);
      m[i := Entry(k, v)]
  }

  /** Appending an absent key: every other key keeps its value, and the key is found last. */
  lemma AppendLaws<K(!new), V>(m: seq<Entry<K, V>>, k: K, v: V)
    requires !HasKey(m, k)
    ensures KeysUnique(m) ==> KeysUnique(m + [Entry(k, v)])
    ensures Get(m + [Entry(k, v)], k) == Some(v)
    ensures forall k' :: k' != k ==> Get(m + [Entry(k, v)], k') == Get(m, k')
    ensures Keys(m + [Entry(k, v)]) == Keys(m) + [k]
  {
    var r := m + [Entry(k, v)];
    AppendFind(m, Entry(k, v));
    assert forall i :: 0 <= i < |m| ==> r[i] == m[i];
  }

  /** Overwriting the value at a key's position: the keys stay, only that key's value changes. */
  lemma ReplaceLaws<K(!new), V>(m: seq<Entry<K, V>>, i: nat, v: V)
    requires i < |m|
    requires forall j :: 0 <= j < i ==> m[j].key != m[i].key
    ensures KeysUnique(m) ==> KeysUnique(m[i := Entry(m[i].key, v)])
    ensures Get(m[i := Entry(m[i].key, v)], m[i].key) == Some(v)
    ensures forall k' :: k' != m[i].key ==> Get(m[i := Entry(m[i].key, v)], k') == Get(m, k')
    ensures Keys(m[i := Entry(m[i].key, v)]) == Keys(m)
  {
    var r := m[i := Entry(m[i].key, v)];
    ReplaceFind(m, i, v);
    FindAt(m, m[i].key, i);
  }

  /** `m.delete(k)`. */
  function Remove<K(==,!new), V>(m: seq<Entry<K, V>>, k: K): (r: seq<Entry<K, V>>)
    ensures KeysUnique(m) ==> KeysUnique(r) && !HasKey(r, k)
    ensures KeysUnique(m) ==> forall k' :: k' != k ==> Get(r, k') == Get(m, k')
    ensures HasKey(m, k) ==> |r| == |m| - 1
    ensures !HasKey(m, k) ==> r == m
    ensures forall e :: e in r ==> e in m
    ensures HasKey(m, k) ==> exists i :: 0 <= i < |m| && m[i].key == k && r == m[..i] + m[i + 1..]
  {
    match Find(m, k)
    case None => m
    case Some(i) =>
      DeleteAtGet(m, i);
      m[..i] + m[i + 1..]
  }

  /** `Find` returns the first position holding `k`. */
  lemma FindAt<K, V>(m: seq<Entry<K, V>>, k: K, i: nat)
    requires i < |m| && m[i].key == k
    requires forall j :: 0 <= j < i ==> m[j].key != k
    ensures Find(m, k) == Some(i)
  {
    assert HasKey(m, k);
  }

  /** Two maps with the same keys in the same order find every key at the same place. */
  lemma SameKeysSameFind<K, V>(a: seq<Entry<K, V>>, b: seq<Entry<K, V>>, k: K)
    requires Keys(a) == Keys(b)
    ensures Find(a, k) == Find(b, k)
  {
    assert |a| == |b|;
    assert forall j :: 0 <= j < |a| ==> a[j].key == Keys(a)[j] == b[j].key;
    match Find(a, k)
    case None =>
    case Some(i) =>
      if Find(b, k) != Some(i) {
        assert Find(b, k).Some?;
      }
  }

  lemma AppendFind<K(!new), V>(m: seq<Entry<K, V>>, e: Entry<K, V>)
    ensures forall k' :: k' != e.key ==> Find(m + [e], k') == Find(m, k')
    ensures !HasKey(m, e.key) ==> Find(m + [e], e.key) == Some(|m|)
  {
    var r := m + [e];
    if !HasKey(m, e.key) {
      FindAt(r, e.key, |m|);
    }
    forall k' | k' != e.key ensures Find(r, k') == Find(m, k') {
      var f := Find(m, k');
      if f.Some? {
        FindAt(r, k', f.value);
      } else {
        assert !HasKey(r, k');
      }
    }
  }

  lemma ReplaceFind<K(!new), V>(m: seq<Entry<K, V>>, i: nat, v: V)
    requires i < |m|
    ensures Keys(m[i := Entry(m[i].key, v)]) == Keys(m)
    ensures forall k' :: Find(m[i := Entry(m[i].key, v)], k') == Find(m, k')
  {
    var r := m[i := Entry(m[i].key, v)];
    assert Keys(r) == Keys(m);
    forall k' ensures Find(r, k') == Find(m, k') {
      SameKeysSameFind(m, r, k');
    }
  }

  lemma DeleteAtGet<K(!new), V>(m: seq<Entry<K, V>>, i: nat)
    requires i < |m|
    ensures KeysUnique(m) ==> forall k' :: k' != m[i].key ==> Get(m[..i] + m[i + 1..], k') == Get(m, k')
  {
    var r := m[..i] + m[i + 1..];
    assert forall j :: 0 <= j < |r| ==> r[j] == if j < i then m[j] else m[j + 1];
    if KeysUnique(m) {
      forall k' | k' != m[i].key ensures Get(r, k') == Get(m, k') {
        if HasKey(m, k') {
          var j :| 0 <= j < |m| && m[j].key == k';
          assert r[if j < i then j else j - 1] == m[j];
        } else {
          assert !HasKey(r, k');
        }
      }
    }
  }

  /** Setting a new key and deleting it again gives back the map: `set` appended it at the end. */
  lemma PutThenRemove<K(!new), V>(m: seq<Entry<K, V>>, k: K, v: V)
    requires !HasKey(m, k)
    ensures Remove(Put(m, k, v), k) == m
  {
    var r := m + [Entry(k, v)];
    FindAt(r, k, |m|);
    assert r[..|m|] + r[|m| + 1..] == m;
  }
}
