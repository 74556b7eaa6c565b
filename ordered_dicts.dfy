/**
 * Python dictionaries keep their keys in insertion order; the views iterate
 * over them and build lists from them. A dictionary is modelled as a sequence
 * of items whose keys are distinct.
 */
module OrderedDicts {
  import opened Seqs

  datatype Item<K, V> = Item(key: K, value: V)

  /** `list(d.keys())`. */
  function Keys<K, V>(d: seq<Item<K, V>>): (ks: seq<K>)
    ensures |ks| == |d|
    ensures forall i :: 0 <= i < |d| ==> ks[i] == d[i].key
  {
    if d == [] then [] else [d[0].key] + Keys(d[1..])
  }

  /** `list(d.values())`. */
  function Values<K, V>(d: seq<Item<K, V>>): (vs: seq<V>)
    ensures |vs| == |d|
    ensures forall i :: 0 <= i < |d| ==> vs[i] == d[i].value
  {
    if d == [] then [] else [d[0].value] + Values(d[1..])
  }

  /** What every Python dict satisfies: no key twice. */
  predicate IsDict<K(==), V>(d: seq<Item<K, V>>)
  {
    Distinct(Keys(d))
  }

  /** `k in d`. */
  predicate HasKey<K(==), V>(d: seq<Item<K, V>>, k: K)
  {
    k in Keys(d)
  }

  /** The position of key `k`. */
  function Find<K(==), V>(d: seq<Item<K, V>>, k: K): (i: nat)
    requires HasKey(d, k)
    ensures i < |d| && d[i].key == k
  {
    IndexOfElem(Keys(d), k)
  }

  /** `d[k]`. */
  function Get<K(==), V>(d: seq<Item<K, V>>, k: K): V
    requires HasKey(d, k)
  {
    d[Find(d, k)].value
  }

  /** `d[k] = v`: an existing key keeps its position, a new key goes last. */
  function Put<K(==), V>(d: seq<Item<K, V>>, k: K, v: V): (r: seq<Item<K, V>>)
    ensures Keys(r) == if HasKey(d, k) then Keys(d) else Keys(d) + [k]
    ensures HasKey(r, k) && Get(r, k) == v
    ensures forall i :: 0 <= i < |d| && d[i].key != k ==> r[i] == d[i]
    ensures IsDict(d) ==> IsDict(r)
  {
    if HasKey(d, k) then
      var r := d[Find(d, k) := Item(k, v)];
      assert Keys(r) == Keys(d);
      r
    else
      var r := d + [Item(k, v)];
      assert Keys(r) == Keys(d) + [k];
      r
  }

  /** Overwriting one key leaves every other key's value as it was. */
  lemma GetPutOther<K, V>(d: seq<Item<K, V>>, k: K, v: V, other: K)
    requires HasKey(d, other) && other != k
    ensures HasKey(Put(d, k, v), other) && Get(Put(d, k, v), other) == Get(d, other)
  {
    if !HasKey(d, k) {
      IndexOfElemAppend(Keys(d), [k], other);
    }
  }

  /** The keys after `d[k] = v`: the old ones and `k`. */
  lemma HasKeyPut<K, V>(d: seq<Item<K, V>>, k: K, v: V, j: K)
    ensures HasKey(Put(d, k, v), j) <==> HasKey(d, j) || j == k
  {
  }

  /** The keys after appending an item: the old ones and the item's key. */
  lemma HasKeySnoc<K, V>(d: seq<Item<K, V>>, it: Item<K, V>, j: K)
    ensures HasKey(d + [it], j) <==> HasKey(d, j) || j == it.key
  {
    assert Keys(d + [it]) == Keys(d) + [it.key];
  }

  /** Putting an existing key of a dict replaces that one item and no other. */
  lemma PutExisting<K, V>(d: seq<Item<K, V>>, k: K, v: V)
    requires IsDict(d) && HasKey(d, k)
    ensures |Put(d, k, v)| == |d| && Keys(Put(d, k, v)) == Keys(d)
    ensures Put(d, k, v)[Find(d, k)] == Item(k, v)
    ensures forall j :: 0 <= j < |d| && j != Find(d, k) ==> Put(d, k, v)[j] == d[j]
    ensures Find(Put(d, k, v), k) == Find(d, k)
  {
    var i := Find(d, k);
    forall j | 0 <= j < |d| && j != i
      ensures d[j].key != k
    {
      assert Keys(d)[j] != Keys(d)[i];
    }
  }

  /** A new key is put last, and is then found there. */
  lemma PutNew<K, V>(d: seq<Item<K, V>>, k: K, v: V)
    requires !HasKey(d, k)
    ensures Put(d, k, v) == d + [Item(k, v)]
    ensures Find(d + [Item(k, v)], k) == |d|
  {
    assert Keys(d + [Item(k, v)]) == Keys(d) + [k];
    IndexOfElemNew(Keys(d), k);
  }

  /** Putting a key that was just added last replaces that last item. */
  lemma PutNewAgain<K, V>(d: seq<Item<K, V>>, k: K, v: V, w: V)
    requires !HasKey(d, k)
    ensures Put(d + [Item(k, v)], k, w) == d + [Item(k, w)]
  {
    PutNew(d, k, v);
    assert HasKey(d + [Item(k, v)], k);
  }

  /** Every item after `d[k] = v` is an old item or the new one. */
  lemma PutItems<K, V>(d: seq<Item<K, V>>, k: K, v: V)
    ensures forall it <- Put(d, k, v) :: it in d || it == Item(k, v)
  {
    var r := Put(d, k, v);
    if HasKey(d, k) {
      forall it <- r
        ensures it in d || it == Item(k, v)
      {
        var i :| 0 <= i < |r| && r[i] == it;
        if i != Find(d, k) {
          assert r[i] == d[i];
        }
      }
    } else {
      assert r == d + [Item(k, v)];
    }
  }

  /** In a dict, an item's value is what its key looks up. */
  lemma GetOfItem<K, V>(d: seq<Item<K, V>>, it: Item<K, V>)
    requires IsDict(d) && it in d
    ensures HasKey(d, it.key) && Get(d, it.key) == it.value
  {
    var i :| 0 <= i < |d| && d[i] == it;
    assert Keys(d)[i] == it.key;
    var j := Find(d, it.key);
    assert Keys(d)[j] == Keys(d)[i];
  }

  /** `del d[k]` keeps every other key, with its value. */
  lemma GetRemoveOther<K, V>(d: seq<Item<K, V>>, k: K, other: K)
    requires IsDict(d) && HasKey(d, other) && other != k
    ensures IsDict(Remove(d, k)) && HasKey(Remove(d, k), other) && Get(Remove(d, k), other) == Get(d, other)
  {
    WithoutDistinct(Keys(d), k);
    var r := Remove(d, k);
    assert other in Keys(r);
    var it := r[Find(r, other)];
    assert it in d;
    GetOfItem(d, it);
  }

  /** `del d[k]` (and, on a sequence with repeated keys, every item with key `k`). */
  function Remove<K(==), V>(d: seq<Item<K, V>>, k: K): (r: seq<Item<K, V>>)
    ensures Keys(r) == Without(Keys(d), k)
    ensures forall it <- r :: it in d && it.key != k
  {
    if d == [] then []
    else if d[0].key == k then Remove(d[1..], k)
    else
      var r := [d[0]] + Remove(d[1..], k);
      assert Keys(r) == [d[0].key] + Keys(Remove(d[1..], k));
      r
  }
}
