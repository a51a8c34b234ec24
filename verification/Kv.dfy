/** The key-value table under the server and under the clock (include/kv.hpp). */
module Kv {
  datatype Option<+T> = None | Some(value: T)

  class Kvs<K(==), V(==)> {
    var kvdct: map<K, V>

    constructor ()
      ensures kvdct == map[]
    {
      kvdct := map[];
    }

    predicate Contains(k: K)
      reads this
    {
      k in kvdct
    }

    method Set(k: K, v: V)
      modifies this
      ensures kvdct == old(kvdct)[k := v]
    {
      kvdct := kvdct[k := v];
    }

    method Get(k: K) returns (r: Option<V>)
      ensures r == if k in kvdct then Some(kvdct[k]) else None
    {
      r := if Contains(k) then Some(kvdct[k]) else None;
    }

    /** Fails (std::out_of_range in the source) on the first missing key. */
    method GetMulti(keys: seq<K>) returns (r: Option<seq<V>>)
      ensures r.None? <==> exists k :: k in keys && k !in kvdct
      ensures r.Some? ==> |r.value| == |keys| && forall i :: 0 <= i < |keys| ==>
                  keys[i] in kvdct && r.value[i] == kvdct[keys[i]]
    {
      var vals := [];
      for i := 0 to |keys|
        invariant |vals| == i && forall j :: 0 <= j < i ==> keys[j] in kvdct && vals[j] == kvdct[keys[j]]
      {
        if keys[i] !in kvdct {
          return None;
        }
        vals := vals + [kvdct[keys[i]]];
      }
      r := Some(vals);
    }

    /** Adds to a present key; leaves the table alone and answers false for a missing one. */
    method Incr(k: K, delta: V, plus: (V, V) -> V) returns (ok: bool)
      modifies this
      ensures ok == (k in old(kvdct))
      ensures kvdct == if ok then old(kvdct)[k := plus(old(kvdct)[k], delta)] else old(kvdct)
    {
      if !Contains(k) {
        return false;
      }
      kvdct := kvdct[k := plus(kvdct[k], delta)];
      ok := true;
    }

    method Del(k: K) returns (ok: bool)
      modifies this
      ensures ok == (k in old(kvdct))
      ensures kvdct == old(kvdct) - {k}
    {
      ok := Contains(k);
      kvdct := kvdct - {k};
    }
  }
}
