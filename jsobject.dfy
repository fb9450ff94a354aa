/** A plain JavaScript object used as a dictionary (`const all = {}`,
    `all[id] = sp`, `Object.values(all)`): string keys, each stored once,
    enumerated in the order they were first inserted. */
module JsObject {
  import opened Basics

  datatype Dict<V> = Dict(keys: seq<string>, entries: map<string, V>)
  {
    /** Each key is listed once, and the listed keys are exactly the stored ones. */
    ghost predicate Valid()
    {
      && (forall i, j :: 0 <= i < j < |keys| ==> keys[i] != keys[j])
      && (forall k :: k in entries <==> k in keys)
    }

    /** `obj[k] = v`: an existing key keeps its place, a new one goes last. */
    function Put(k: string, v: V): (d: Dict<V>)
      requires Valid()
      ensures d.Valid()
      ensures d.entries == entries[k := v]
      ensures d.keys == if k in entries then keys else keys + [k]
    {
      if k in entries then Dict(keys, entries[k := v])
      else Dict(keys + [k], entries[k := v])
    }

    /** `obj[k]`, with `undefined` as None. */
    function Get(k: string): Option<V>
    {
      if k in entries then Some(entries[k]) else None
    }

    /** `Object.values(obj)`, in key order. */
    function Values(): (vs: seq<V>)
      requires Valid()
      ensures |vs| == |keys|
      ensures forall i :: 0 <= i < |keys| ==> vs[i] == entries[keys[i]]
    {
      seq(|keys|, i requires 0 <= i < |keys| => entries[keys[i]])
    }
  }

  /** `{}` */
  function Empty<V>(): (d: Dict<V>)
    ensures d.Valid() && d.keys == [] && d.entries == map[]
  {
    Dict([], map[])
  }

  /** Storing twice under one key is storing the second value. */
  lemma PutPut<V>(d: Dict<V>, k: string, a: V, b: V)
    requires d.Valid()
    ensures d.Put(k, a).Put(k, b) == d.Put(k, b)
  {
  }

  /** Every value of a valid dictionary is listed by `Values`, once. */
  lemma ValuesListEveryEntry<V>(d: Dict<V>, k: string)
    requires d.Valid() && k in d.entries
    ensures d.entries[k] in d.Values()
  {
    var i :| 0 <= i < |d.keys| && d.keys[i] == k;
    assert d.Values()[i] == d.entries[k];
  }
}
