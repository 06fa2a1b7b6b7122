/** `LinkedHashMap<String, V>`: a finite map keyed by table name that remembers the
    order in which keys were first inserted. */
module LinkedMaps {

  import opened Options
  import opened Seqs

  datatype LinkedMap<V> = LinkedMap(keys: seq<string>, entries: map<string, V>) {

    /** Every key is listed exactly once, and only keys are listed. */
    predicate Valid() {
      && NoDuplicates(keys)
      && (forall k :: k in entries ==> k in keys)
      && (forall k :: k in keys ==> k in entries)
    }

    /** `get`: the value under `k`, or `None` where Java returns `null`. */
    function Get(k: string): Option<V> {
      if k in entries then Some(entries[k]) else None
    }

    /** `put`: a new key goes to the end of the insertion order; an existing key keeps
        its place and only its value changes. */
    function Put(k: string, v: V): (r: LinkedMap<V>)
      requires Valid()
      ensures r.Valid()
      ensures r.Get(k) == Some(v)
      ensures forall k' :: k' != k ==> r.Get(k') == Get(k')
      ensures |keys| <= |r.keys| && r.keys[..|keys|] == keys
      ensures k in keys ==> r.keys == keys
      ensures k !in keys ==> r.keys == keys + [k]
    {
      if k in entries then LinkedMap(keys, entries[k := v])
      else LinkedMap(keys + [k], entries[k := v])
    }
  }

  function Empty<V>(): (m: LinkedMap<V>)
    ensures m.Valid()
    ensures m.keys == [] && forall k :: m.Get(k) == None
  {
    LinkedMap([], map[])
  }

}
