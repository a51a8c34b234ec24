/** The sharded parameter store with the staleness switch off: multi-key reads, writes and updates of
    include/ps.hpp scattered over servers (kv_update and kvs_update of include/server.hpp on tables of
    include/kv.hpp), which together must look like one map. */
module Store {
  import opened Kv

  type Update<!V> = (V, V) -> V

  // ---------------------------------------------------------------- one table

  function Get<K(==), V>(m: map<K, V>, k: K): Option<V>
  {
    if k in m then Some(m[k]) else None
  }

  /** kv_update: the first value of a key is stored as it is, later ones go through the update function. */
  function Updated<K(==), V>(m: map<K, V>, k: K, delta: V, f: Update<V>): map<K, V>
  {
    m[k := if k in m then f(m[k], delta) else delta]
  }

  /** kvs_update: left to right. */
  function UpdatedAll<K(==), V>(m: map<K, V>, ups: seq<(K, V)>, f: Update<V>): map<K, V>
  {
    if ups == [] then m
    else
      var last := ups[|ups| - 1];
      Updated(UpdatedAll(m, ups[..|ups| - 1], f), last.0, last.1, f)
  }

  /** What a list of updates does to the entry of one key. */
  function EntryAfter<K(==), V>(e: Option<V>, ups: seq<(K, V)>, k: K, f: Update<V>): Option<V>
  {
    if ups == [] then e
    else
      var last := ups[|ups| - 1];
      var before := EntryAfter(e, ups[..|ups| - 1], k, f);
      if last.0 != k then before else Some(if before.Some? then f(before.value, last.1) else last.1)
  }

  lemma {:induction false} EntryOfUpdatedAll<K, V>(m: map<K, V>, ups: seq<(K, V)>, k: K, f: Update<V>)
    ensures Get(UpdatedAll(m, ups, f), k) == EntryAfter(Get(m, k), ups, k, f)
  {
    if ups != [] {
      EntryOfUpdatedAll(m, ups[..|ups| - 1], k, f);
    }
  }

  method KvUpdate<K(==), V(==)>(tbl: Kvs<K, V>, key: K, vOrDelta: V, f: Update<V>) returns (newVal: V)
    modifies tbl
    ensures tbl.kvdct == Updated(old(tbl.kvdct), key, vOrDelta, f) && newVal == tbl.kvdct[key]
  {
    var val := tbl.Get(key);
    if val.None? {
      tbl.Set(key, vOrDelta);
      return vOrDelta;
    }
    newVal := f(val.value, vOrDelta);
    tbl.Set(key, newVal);
  }

  method KvsUpdate<K(==), V(==)>(tbl: Kvs<K, V>, ups: seq<(K, V)>, f: Update<V>) returns (newVals: seq<V>)
    modifies tbl
    ensures tbl.kvdct == UpdatedAll(old(tbl.kvdct), ups, f) && |newVals| == |ups|
    ensures forall j :: 0 <= j < |ups| ==>
              Get(UpdatedAll(old(tbl.kvdct), ups[..j + 1], f), ups[j].0) == Some(newVals[j])
  {
    newVals := [];
    for i := 0 to |ups|
      invariant tbl.kvdct == UpdatedAll(old(tbl.kvdct), ups[..i], f) && |newVals| == i
      invariant forall j :: 0 <= j < i ==>
                  Get(UpdatedAll(old(tbl.kvdct), ups[..j + 1], f), ups[j].0) == Some(newVals[j])
    {
      assert ups[..i + 1][..i] == ups[..i];
      var v := KvUpdate(tbl, ups[i].0, ups[i].1, f);
      newVals := newVals + [v];
    }
    assert ups[..|ups|] == ups;
  }

  // ---------------------------------------------------------------- the servers as one map

  /** Each key is only ever held by the server it routes to. */
  ghost predicate Sharded<K(!new), V>(shards: seq<map<K, V>>, route: K -> nat)
  {
    && (forall k :: route(k) < |shards|)
    && forall s, k :: 0 <= s < |shards| && k in shards[s] ==> route(k) == s
  }

  ghost function View<K(!new), V>(shards: seq<map<K, V>>): (m: map<K, V>)
    ensures forall s, k :: 0 <= s < |shards| && k in shards[s] ==> k in m
  {
    if shards == [] then map[] else View(shards[..|shards| - 1]) + shards[|shards| - 1]
  }

  /** The view agrees with the server a key routes to, for present and absent keys. */
  lemma {:induction false} ViewEntry<K(!new), V>(shards: seq<map<K, V>>, route: K -> nat, n: nat, k: K)
    requires Sharded(shards, route) && n <= |shards|
    ensures Get(View(shards[..n]), k) == if route(k) < n then Get(shards[route(k)], k) else None
  {
    if n > 0 {
      ViewEntry(shards, route, n - 1, k);
      assert shards[..n][..n - 1] == shards[..n - 1];
    }
  }

  lemma ViewOf<K(!new), V>(shards: seq<map<K, V>>, route: K -> nat, k: K)
    requires Sharded(shards, route)
    ensures Get(View(shards), k) == Get(shards[route(k)], k)
  {
    ViewEntry(shards, route, |shards|, k);
    assert shards[..|shards|] == shards;
  }

  lemma ShardsDisjoint<K(!new), V>(shards: seq<map<K, V>>, route: K -> nat)
    requires Sharded(shards, route)
    ensures forall a, b :: 0 <= a < b < |shards| ==> shards[a].Keys !! shards[b].Keys
  {
    forall a, b, k | 0 <= a < b < |shards| && k in shards[a]
      ensures k !in shards[b]
    {
      assert route(k) == a;
    }
  }

  lemma SameView<K(!new), V>(shards: seq<map<K, V>>, route: K -> nat, m: map<K, V>)
    requires Sharded(shards, route) && forall k :: Get(m, k) == Get(shards[route(k)], k)
    ensures View(shards) == m
  {
    forall k
      ensures Get(View(shards), k) == Get(m, k)
    {
      ViewOf(shards, route, k);
    }
    assert forall k :: k in View(shards) <==> Get(View(shards), k).Some?;
    assert forall k :: k in m <==> Get(m, k).Some?;
    assert forall k :: k in m ==> Get(m, k).value == m[k] && Get(View(shards), k).value == View(shards)[k];
  }

  /** The sublist of updates that go to server s, in order. */
  function UpdatesFor<K, V>(ups: seq<(K, V)>, route: K -> nat, s: nat): seq<(K, V)>
  {
    if ups == [] then []
    else
      var last := ups[|ups| - 1];
      UpdatesFor(ups[..|ups| - 1], route, s) + if route(last.0) == s then [last] else []
  }

  /** Splitting the updates by server keeps, for every key of a server, all its updates in order. */
  lemma {:induction false} EntryOfRouted<K, V>(e: Option<V>, ups: seq<(K, V)>, route: K -> nat, s: nat, k: K,
        f: Update<V>)
    requires route(k) == s
    ensures EntryAfter(e, UpdatesFor(ups, route, s), k, f) == EntryAfter(e, ups, k, f)
  {
    if ups != [] {
      var init, last := ups[..|ups| - 1], ups[|ups| - 1];
      EntryOfRouted(e, init, route, s, k, f);
      var mine := UpdatesFor(init, route, s);
      assert UpdatesFor(ups, route, s) == mine + if route(last.0) == s then [last] else [];
      if route(last.0) == s {
        hide UpdatesFor;
        EntryAfterOneMore(e, mine, last, k, f);
      } else {
        assert mine + [] == mine;
      }
    }
  }

  lemma EntryAfterOneMore<K, V>(e: Option<V>, ups: seq<(K, V)>, last: (K, V), k: K, f: Update<V>)
    ensures var before := EntryAfter(e, ups, k, f);
            EntryAfter(e, ups + [last], k, f)
            == if last.0 != k then before else Some(if before.Some? then f(before.value, last.1) else last.1)
  {
    assert (ups + [last])[..|ups|] == ups;
  }

  /** Updating every server with its share is updating the one map left to right, repeated keys included. */
  lemma ShardedUpdates<K(!new), V>(shards: seq<map<K, V>>, shards': seq<map<K, V>>, route: K -> nat, ups: seq<(K, V)>,
        f: Update<V>)
    requires Sharded(shards, route) && |shards'| == |shards|
    requires forall s :: 0 <= s < |shards| ==> shards'[s] == UpdatedAll(shards[s], UpdatesFor(ups, route, s), f)
    ensures Sharded(shards', route) && View(shards') == UpdatedAll(View(shards), ups, f)
  {
    forall s: nat, k | s < |shards|
      ensures route(k) == s ==> Get(shards'[s], k) == EntryAfter(Get(shards[s], k), ups, k, f)
      ensures route(k) != s ==> Get(shards'[s], k) == None
    {
      EntryOfUpdatedAll(shards[s], UpdatesFor(ups, route, s), k, f);
      if route(k) == s {
        EntryOfRouted(Get(shards[s], k), ups, route, s, k, f);
      } else {
        NotMine(Get(shards[s], k), ups, route, s, k, f);
      }
    }
    forall s, k | 0 <= s < |shards'| && k in shards'[s]
      ensures route(k) == s
    {
      assert Get(shards'[s], k).Some?;
    }
    var m := UpdatedAll(View(shards), ups, f);
    forall k
      ensures Get(m, k) == Get(shards'[route(k)], k)
    {
      ViewOf(shards, route, k);
      EntryOfUpdatedAll(View(shards), ups, k, f);
    }
    SameView(shards', route, m);
  }

  lemma {:induction false} NotMine<K, V>(e: Option<V>, ups: seq<(K, V)>, route: K -> nat, s: nat, k: K, f: Update<V>)
    requires route(k) != s
    ensures EntryAfter(e, UpdatesFor(ups, route, s), k, f) == e
  {
    if ups != [] {
      var init, last := ups[..|ups| - 1], ups[|ups| - 1];
      NotMine(e, init, route, s, k, f);
      if route(last.0) == s {
        var mine := UpdatesFor(init, route, s);
        assert UpdatesFor(ups, route, s) == mine + [last];
        assert (mine + [last])[..|mine|] == mine;
      } else {
        assert UpdatesFor(ups, route, s) == UpdatesFor(init, route, s);
      }
    }
  }

  // ---------------------------------------------------------------- reads of several keys

  /** The keys that go to server s, in order. */
  function KeysFor<K>(keys: seq<K>, route: K -> nat, s: nat): seq<K>
  {
    if keys == [] then []
    else KeysFor(keys[..|keys| - 1], route, s) + if route(keys[|keys| - 1]) == s then [keys[|keys| - 1]] else []
  }

  lemma {:induction false} KeysForMember<K>(keys: seq<K>, route: K -> nat, s: nat, k: K)
    ensures k in KeysFor(keys, route, s) <==> k in keys && route(k) == s
  {
    if keys != [] {
      var init := keys[..|keys| - 1];
      KeysForMember(init, route, s, k);
      assert keys == init + [keys[|keys| - 1]];
    }
  }

  predicate LastOccurrence<K(==)>(keys: seq<K>, i: nat)
  {
    i < |keys| && keys[i] !in keys[i + 1..]
  }

  /** The answer to a multi-read: each key's value at its last position; an earlier position of a repeated key
      keeps the default the list was created with. */
  ghost predicate Answers<K, V>(m: map<K, V>, keys: seq<K>, zero: V, vals: seq<V>)
    requires forall k :: k in keys ==> k in m
  {
    && |vals| == |keys|
    && forall i :: 0 <= i < |keys| ==> vals[i] == if LastOccurrence(keys, i) then m[keys[i]] else zero
  }

  /** So a multi-read is the pointwise read, in the caller's order, exactly when every repeated key holds the
      default; in particular when the keys are distinct. */
  lemma PointwiseExactly<K, V>(m: map<K, V>, keys: seq<K>, zero: V, vals: seq<V>)
    requires (forall k :: k in keys ==> k in m) && Answers(m, keys, zero, vals)
    ensures (forall i :: 0 <= i < |keys| ==> vals[i] == m[keys[i]])
            <==> forall i, j :: 0 <= i < j < |keys| && keys[i] == keys[j] ==> m[keys[i]] == zero
  {
    if forall i :: 0 <= i < |keys| ==> vals[i] == m[keys[i]] {
      forall i, j | 0 <= i < j < |keys| && keys[i] == keys[j]
        ensures m[keys[i]] == zero
      {
        assert keys[i + 1..][j - i - 1] == keys[i];
        assert !LastOccurrence(keys, i);
      }
    }
    if forall i, j :: 0 <= i < j < |keys| && keys[i] == keys[j] ==> m[keys[i]] == zero {
      forall i | 0 <= i < |keys|
        ensures vals[i] == m[keys[i]]
      {
        if !LastOccurrence(keys, i) {
          var d :| 0 <= d < |keys[i + 1..]| && keys[i + 1..][d] == keys[i];
          assert keys[i + 1 + d] == keys[i];
        }
      }
    }
  }

  /** A repeated key with a stored value other than the default: its first position reads as the default. */
  lemma RepeatedKeyReadsDefault<K, V>(k: K, v: V, zero: V, vals: seq<V>)
    requires v != zero && Answers(map[k := v], [k, k], zero, vals)
    ensures vals == [zero, v] && vals[0] != v
  {
    var keys := [k, k];
    assert keys[1..] == [k] && keys[2..] == [];
    assert !LastOccurrence(keys, 0) && LastOccurrence(keys, 1);
  }

  // ---------------------------------------------------------------- the client's view of the servers

  class ParamServers<K(==, !new), V(==)> {
    const kvm: seq<Kvs<K, V>>
    const route: K -> nat  // p_ring->get_server
    const zero: V          // the value a default-constructed V has

    constructor (kvm: seq<Kvs<K, V>>, route: K -> nat, zero: V)
      ensures this.kvm == kvm && this.route == route && this.zero == zero
    {
      this.kvm, this.route, this.zero := kvm, route, zero;
    }

    ghost function Shards(): (shards: seq<map<K, V>>)
      reads kvm
      ensures |shards| == |kvm| && forall s :: 0 <= s < |kvm| ==> shards[s] == kvm[s].kvdct
    {
      seq(|kvm|, s requires 0 <= s < |kvm| reads kvm => kvm[s].kvdct)
    }

    ghost predicate Valid()
      reads kvm
    {
      && (forall a, b :: 0 <= a < b < |kvm| ==> kvm[a] != kvm[b])
      && Sharded(Shards(), route)
    }

    /** paracel_read. */
    method Read(key: K) returns (r: Option<V>)
      requires Valid()
      ensures r == Get(View(Shards()), key)
    {
      ViewOf(Shards(), route, key);
      r := kvm[route(key)].Get(key);
    }

    /** paracel_write. */
    method Write(key: K, val: V)
      requires Valid()
      modifies kvm
      ensures Valid() && View(Shards()) == old(View(Shards()))[key := val]
    {
      ghost var before := Shards();
      hide View;
      kvm[route(key)].Set(key, val);
      assert Shards() == before[route(key) := before[route(key)][key := val]];
      OneWrite(before, route, key, val);
    }

    /** paracel_readall: the servers' tables are disjoint and their union is the map. */
    method ReadAll() returns (d: map<K, V>)
      requires Valid()
      ensures d == View(Shards())
      ensures forall a, b :: 0 <= a < b < |kvm| ==> kvm[a].kvdct.Keys !! kvm[b].kvdct.Keys
    {
      d := map[];
      for indx := 0 to |kvm|
        invariant d == View(Shards()[..indx])
      {
        assert Shards()[..indx + 1][..indx] == Shards()[..indx];
        d := d + kvm[indx].kvdct;
      }
      assert Shards()[..|kvm|] == Shards();
      ShardsDisjoint(Shards(), route);
    }

    /** paracel_write_multi: dct is cut into one part per server. */
    method WriteMulti(dct: map<K, V>)
      requires Valid()
      modifies kvm
      ensures Valid() && View(Shards()) == old(View(Shards())) + dct
    {
      ghost var before := Shards();
      for s := 0 to |kvm|
        invariant forall i :: 0 <= i < |kvm| ==>
          kvm[i].kvdct == if i < s then before[i] + Part(dct, route, i) else before[i]
      {
        if |Part(dct, route, s)| != 0 {
          SetMulti(kvm[s], Part(dct, route, s));
        } else {
          assert Part(dct, route, s) == map[];
          assert before[s] + map[] == before[s];
        }
      }
      ShardedWrite(before, Shards(), route, dct);
    }

    /** paracel_bupdate_multi, from parallel lists of keys and deltas zipped into pairs. */
    method BupdateMulti(ups: seq<(K, V)>, f: Update<V>)
      requires Valid()
      modifies kvm
      ensures Valid() && View(Shards()) == UpdatedAll(old(View(Shards())), ups, f)
    {
      ghost var before := Shards();
      var lists := Scatter(ups);
      for s := 0 to |kvm|
        invariant forall i :: 0 <= i < |kvm| ==>
          kvm[i].kvdct == if i < s then UpdatedAll(before[i], lists[i], f) else before[i]
      {
        var _ := KvsUpdate(kvm[s], lists[s], f);
      }
      ShardedUpdates(before, Shards(), route, ups, f);
    }

    method Scatter(ups: seq<(K, V)>) returns (lists: seq<seq<(K, V)>>)
      requires forall k :: route(k) < |kvm|
      ensures |lists| == |kvm| && forall s :: 0 <= s < |kvm| ==> lists[s] == UpdatesFor(ups, route, s)
    {
      lists := seq(|kvm|, _ => []);
      for i := 0 to |ups|
        invariant |lists| == |kvm| && forall s :: 0 <= s < |kvm| ==> lists[s] == UpdatesFor(ups[..i], route, s)
      {
        assert ups[..i + 1][..i] == ups[..i];
        var indx := route(ups[i].0);
        lists := lists[indx := lists[indx] + [ups[i]]];
      }
      assert ups[..|ups|] == ups;
    }

    /** paracel_read_multi; None where a missing key makes a server's lookup throw. */
    method ReadMulti(keys: seq<K>) returns (r: Option<seq<V>>)
      requires Valid()
      ensures r.None? <==> exists k :: k in keys && k !in View(Shards())
      ensures r.Some? ==> Answers(View(Shards()), keys, zero, r.value)
    {
      var lists, indxMap := IndexKeys(keys);
      r := Gather(keys, lists, indxMap);
    }

    /** The first half of paracel_read_multi: keys per server, and the last index of each key. */
    method IndexKeys(keys: seq<K>) returns (lists: seq<seq<K>>, indxMap: map<K, nat>)
      requires forall k :: route(k) < |kvm|
      ensures |lists| == |kvm| && forall s :: 0 <= s < |kvm| ==> lists[s] == KeysFor(keys, route, s)
      ensures forall x :: x in indxMap <==> x in keys
      ensures forall x :: x in indxMap ==> indxMap[x] < |keys| && keys[indxMap[x]] == x && x !in keys[indxMap[x] + 1..]
    {
      lists := seq(|kvm|, _ => []);
      indxMap := map[];
      for k := 0 to |keys|
        invariant |lists| == |kvm| && forall s :: 0 <= s < |kvm| ==> lists[s] == KeysFor(keys[..k], route, s)
        invariant LastIndices(keys, indxMap, k)
      {
        assert keys[..k + 1][..k] == keys[..k];
        var indx := route(keys[k]);
        lists := lists[indx := lists[indx] + [keys[k]]];
        NextIndex(keys, indxMap, k);
        indxMap := indxMap[keys[k] := k];
      }
      assert keys[..|keys|] == keys;
    }

    /** The second half of paracel_read_multi: one pull_multi per server, its values put back by index. */
    method Gather(keys: seq<K>, lists: seq<seq<K>>, indxMap: map<K, nat>) returns (r: Option<seq<V>>)
      requires Valid() && |lists| == |kvm|
      requires forall s :: 0 <= s < |kvm| ==> lists[s] == KeysFor(keys, route, s)
      requires forall x :: x in indxMap <==> x in keys
      requires forall x :: x in indxMap ==> indxMap[x] < |keys| && keys[indxMap[x]] == x && x !in keys[indxMap[x] + 1..]
      ensures r.None? <==> exists k :: k in keys && k !in View(Shards())
      ensures r.Some? ==> Answers(View(Shards()), keys, zero, r.value)
    {
      ghost var m := View(Shards());
      var vals := seq(|keys|, _ => zero);
      for s := 0 to |kvm|
        invariant forall x :: x in keys && route(x) < s ==> x in m
        invariant Answered(m, keys, zero, indxMap, KeysBelow(keys, route, s), vals)
      {
        var lst := kvm[s].GetMulti(lists[s]);
        ServerKeys(Shards(), route, keys, lists[s], s);
        if lst.None? {
          return None;
        }
        vals := PutBack(m, keys, lists[s], lst.value, indxMap, KeysBelow(keys, route, s), vals);
        assert KeysBelow(keys, route, s) + Elems(lists[s]) == KeysBelow(keys, route, s + 1);
      }
      r := Some(vals);
      AllAnswered(m, keys, zero, indxMap, KeysBelow(keys, route, |kvm|), vals);
    }

    method PutBack(ghost m: map<K, V>, keys: seq<K>, lst: seq<K>, got: seq<V>, indxMap: map<K, nat>,
          ghost done: set<K>, vals0: seq<V>)
      returns (vals: seq<V>)
      requires |got| == |lst| && forall i :: 0 <= i < |lst| ==> lst[i] in keys && lst[i] in m && got[i] == m[lst[i]]
      requires forall x :: x in keys ==> x in indxMap && indxMap[x] < |keys| && keys[indxMap[x]] == x
      requires Answered(m, keys, zero, indxMap, done, vals0)
      ensures Answered(m, keys, zero, indxMap, done + Elems(lst), vals)
    {
      vals := vals0;
      for i := 0 to |lst|
        invariant Answered(m, keys, zero, indxMap, done + Elems(lst[..i]), vals)
      {
        assert lst[..i + 1] == lst[..i] + [lst[i]];
        assert done + Elems(lst[..i + 1]) == done + Elems(lst[..i]) + {lst[i]};
        vals := vals[indxMap[lst[i]] := got[i]];
      }
      assert lst[..|lst|] == lst;
    }
  }

  /** Each key before position k is mapped to its last index before k. */
  ghost predicate LastIndices<K(!new)>(keys: seq<K>, indxMap: map<K, nat>, k: nat)
    requires k <= |keys|
  {
    && (forall x :: x in indxMap <==> x in keys[..k])
    && (forall x :: x in indxMap ==> indxMap[x] < k && keys[indxMap[x]] == x && x !in keys[indxMap[x] + 1..k])
  }

  lemma NextIndex<K(!new)>(keys: seq<K>, indxMap: map<K, nat>, k: nat)
    requires k < |keys| && LastIndices(keys, indxMap, k)
    ensures LastIndices(keys, indxMap[keys[k] := k], k + 1)
  {
    assert keys[..k + 1] == keys[..k] + [keys[k]];
    forall x | x in indxMap && x != keys[k]
      ensures x !in keys[indxMap[x] + 1..k + 1]
    {
      assert keys[indxMap[x] + 1..k + 1] == keys[indxMap[x] + 1..k] + [keys[k]];
    }
  }

  ghost function Elems<K>(keys: seq<K>): set<K>
  {
    set x | x in keys
  }

  ghost function KeysBelow<K>(keys: seq<K>, route: K -> nat, s: nat): set<K>
  {
    set x | x in keys && route(x) < s
  }

  /** The keys in `done` have had their values put at their index; everything else is still the default. */
  ghost predicate Answered<K, V>(m: map<K, V>, keys: seq<K>, zero: V, indxMap: map<K, nat>, done: set<K>, vals: seq<V>)
  {
    && |vals| == |keys|
    && (forall i :: 0 <= i < |keys| ==> keys[i] in indxMap)
    && (forall i :: 0 <= i < |keys| && keys[i] in done && indxMap[keys[i]] == i ==>
                keys[i] in m && vals[i] == m[keys[i]])
    && (forall i :: 0 <= i < |keys| && !(keys[i] in done && indxMap[keys[i]] == i) ==> vals[i] == zero)
  }

  lemma AllAnswered<K, V>(m: map<K, V>, keys: seq<K>, zero: V, indxMap: map<K, nat>, done: set<K>, vals: seq<V>)
    requires Answered(m, keys, zero, indxMap, done, vals) && forall x :: x in keys ==> x in done && x in m
    requires forall x :: x in indxMap ==> indxMap[x] < |keys| && keys[indxMap[x]] == x && x !in keys[indxMap[x] + 1..]
    ensures Answers(m, keys, zero, vals)
  {
    forall i | 0 <= i < |keys|
      ensures LastOccurrence(keys, i) <==> indxMap[keys[i]] == i
    {
      var j := indxMap[keys[i]];
      if i < j {
        assert keys[i + 1..][j - i - 1] == keys[i];
      }
    }
  }

  /** The keys sent to server s are the callers' keys that route there, and the server has them if the view does. */
  lemma ServerKeys<K(!new), V>(shards: seq<map<K, V>>, route: K -> nat, keys: seq<K>, mine: seq<K>, s: nat)
    requires Sharded(shards, route) && s < |shards| && mine == KeysFor(keys, route, s)
    ensures forall k :: k in mine <==> k in keys && route(k) == s
    ensures forall k :: k in mine ==> (k in shards[s] <==> k in View(shards))
    ensures forall k :: k in mine && k in shards[s] ==> View(shards)[k] == shards[s][k]
  {
    forall k
      ensures k in mine <==> k in keys && route(k) == s
      ensures k in mine ==> Get(View(shards), k) == Get(shards[s], k)
    {
      KeysForMember(keys, route, s, k);
      ViewOf(shards, route, k);
    }
  }

  /** The part of a dictionary that goes to server s. */
  function Part<K(==), V>(dct: map<K, V>, route: K -> nat, s: nat): map<K, V>
  {
    map k | k in dct && route(k) == s :: dct[k]
  }

  method SetMulti<K(==), V(==)>(tbl: Kvs<K, V>, part: map<K, V>)
    modifies tbl
    ensures tbl.kvdct == old(tbl.kvdct) + part
  {
    var todo := part.Keys;
    while todo != {}
      invariant todo <= part.Keys
      invariant tbl.kvdct == old(tbl.kvdct) + (map k | k in part && k !in todo :: part[k])
    {
      var k :| k in todo;
      todo := todo - {k};
      tbl.Set(k, part[k]);
    }
  }

  lemma ShardedWrite<K(!new), V>(shards: seq<map<K, V>>, shards': seq<map<K, V>>, route: K -> nat, dct: map<K, V>)
    requires Sharded(shards, route) && |shards'| == |shards|
    requires forall s :: 0 <= s < |shards| ==> shards'[s] == shards[s] + Part(dct, route, s)
    ensures Sharded(shards', route) && View(shards') == View(shards) + dct
  {
    forall k
      ensures Get(View(shards) + dct, k) == Get(shards'[route(k)], k)
    {
      ViewOf(shards, route, k);
    }
    SameView(shards', route, View(shards) + dct);
  }

  lemma OneWrite<K(!new), V>(shards: seq<map<K, V>>, route: K -> nat, key: K, val: V)
    requires Sharded(shards, route)
    ensures var shards' := shards[route(key) := shards[route(key)][key := val]];
            Sharded(shards', route) && View(shards') == View(shards)[key := val]
  {
    var shards' := shards[route(key) := shards[route(key)][key := val]];
    forall k
      ensures Get(View(shards)[key := val], k) == Get(shards'[route(k)], k)
    {
      ViewOf(shards, route, k);
    }
    SameView(shards', route, View(shards)[key := val]);
  }
}
