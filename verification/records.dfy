/** JavaScript plain objects used as insertion-ordered dictionaries
    (`{ ...prev, [key]: value }`): a sequence of key/value entries with
    distinct keys. Assigning an existing key keeps its position; a new key
    goes last. */
module Records {
  import opened Wrappers

  type Entries<V> = seq<(string, V)>

  predicate DistinctKeys<V>(e: Entries<V>) {
    forall i, j :: 0 <= i < j < |e| ==> e[i].0 != e[j].0
  }

  predicate HasKey<V>(e: Entries<V>, key: string) {
    exists i :: 0 <= i < |e| && e[i].0 == key
  }

  /** The position of the first entry with `key`. */
  function IndexOf<V>(e: Entries<V>, key: string): (i: nat)
    requires HasKey(e, key)
    ensures i < |e| && e[i].0 == key
    ensures forall j :: 0 <= j < i ==> e[j].0 != key
  {
    if e[0].0 == key then 0
    else
      assert HasKey(e[1..], key) by {
        var k :| 0 <= k < |e| && e[k].0 == key;
        assert e[1..][k - 1] == e[k];
      }
      1 + IndexOf(e[1..], key)
  }

  /** `e[key]`, or None when the key is absent. */
  function Lookup<V>(e: Entries<V>, key: string): Option<V> {
    if HasKey(e, key) then Some(e[IndexOf(e, key)].1) else None
  }

  /** `{ ...e, [key]: v }`. */
  function Put<V>(e: Entries<V>, key: string, v: V): Entries<V> {
    if HasKey(e, key) then e[IndexOf(e, key) := (key, v)] else e + [(key, v)]
  }

  /** Assignment keeps the keys distinct, stores `v` under `key`, keeps the
      position of an existing key, appends a new one, and leaves every other
      entry where and what it was. */
  lemma PutSpec<V>(e: Entries<V>, key: string, v: V)
    requires DistinctKeys(e)
    ensures DistinctKeys(Put(e, key, v))
    ensures Lookup(Put(e, key, v), key) == Some(v)
    ensures forall k :: k != key ==> Lookup(Put(e, key, v), k) == Lookup(e, k)
    ensures HasKey(e, key) ==> |Put(e, key, v)| == |e|
    ensures !HasKey(e, key) ==> Put(e, key, v) == e + [(key, v)]
    ensures forall i :: 0 <= i < |e| && e[i].0 != key ==> Put(e, key, v)[i] == e[i]
  {
    var r := Put(e, key, v);
    assert HasKey(r, key) by {
      if HasKey(e, key) {
        assert r[IndexOf(e, key)].0 == key;
      } else {
        assert r[|e|].0 == key;
      }
    }
    assert IndexOf(r, key) == if HasKey(e, key) then IndexOf(e, key) else |e|;
    forall k | k != key ensures Lookup(r, k) == Lookup(e, k) {
      if HasKey(e, k) {
        var i := IndexOf(e, k);
        assert r[i] == e[i];
        assert IndexOf(r, k) == i;
      }
    }
  }
}
