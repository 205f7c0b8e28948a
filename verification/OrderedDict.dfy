/**
 JavaScript objects with non-numeric keys and Python dictionaries keep their entries in
 insertion order, and several of the modelled loops depend on that order. A dictionary is
 the sequence of its entries.
 */
module OrderedDict {
  import opened Text

  datatype Entry<K, V> = Entry(key: K, value: V)

  type Dict<K, V> = seq<Entry<K, V>>

  ghost predicate Distinct<K, V>(d: Dict<K, V>) {
    forall i, j :: 0 <= i < j < |d| ==> d[i].key != d[j].key
  }

  /** The position of a key, or the length of the dictionary when the key is absent. */
  function IndexOf<K(==), V>(d: Dict<K, V>, k: K): (i: nat)
    ensures i <= |d|
    ensures i < |d| ==> d[i].key == k
    ensures forall j :: 0 <= j < i ==> d[j].key != k
  {
    if d == [] || d[0].key == k then 0 else 1 + IndexOf(d[1..], k)
  }

  predicate Has<K(==), V>(d: Dict<K, V>, k: K) {
    IndexOf(d, k) < |d|
  }

  function Find<K(==), V>(d: Dict<K, V>, k: K): (r: Option<V>) {
    var i := IndexOf(d, k);
    if i < |d| then Some(d[i].value) else None
  }

  /** Assignment `d[k] = v`: an existing key keeps its place, a new one goes to the end. */
  function Put<K(==), V>(d: Dict<K, V>, k: K, v: V): (r: Dict<K, V>)
    ensures Distinct(d) ==> Distinct(r)
    ensures Find(r, k) == Some(v)
  {
    var i := IndexOf(d, k);
    var r := if i < |d| then d[i := Entry(k, v)] else d + [Entry(k, v)];
    assert r[i].key == k;
    r
  }

  lemma FindPut<K, V>(d: Dict<K, V>, k: K, v: V, o: K)
    requires o != k
    ensures Find(Put(d, k, v), o) == Find(d, o)
  {
    var r := Put(d, k, v);
    var a, b := IndexOf(d, o), IndexOf(r, o);
    assert a < |d| ==> r[a].key == o;
    assert b < |r| && r[b].key == o ==> b < |d| && d[b].key == o;
  }

  function Remove<K(==), V>(d: Dict<K, V>, k: K): (r: Dict<K, V>)
    ensures Distinct(d) ==> Distinct(r) && !Has(r, k)
  {
    var i := IndexOf(d, k);
    if i < |d| then d[..i] + d[i + 1..] else d
  }

  function Keys<K, V>(d: Dict<K, V>): (r: seq<K>)
    ensures |r| == |d| && forall i :: 0 <= i < |d| ==> r[i] == d[i].key
  {
    seq(|d|, i requires 0 <= i < |d| => d[i].key)
  }

  lemma HasIff<K, V>(d: Dict<K, V>, k: K)
    ensures Has(d, k) <==> exists i :: 0 <= i < |d| && d[i].key == k
  {
  }
}
