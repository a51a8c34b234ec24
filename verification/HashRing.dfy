/** Consistent hashing (include/ring.hpp) and its binary search (ring_bsearch of include/utils.hpp).  A server has
    `replicas` points on the ring; a key belongs to the server of the first point at or after its hash, wrapping
    around to the smallest point. */
module HashRing {

  // ---------------------------------------------------------------- the search

  ghost predicate Ascending(s: seq<nat>)
  {
    forall i, j :: 0 <= i < j < |s| ==> s[i] <= s[j]
  }

  ghost predicate StrictlyAscending(s: seq<nat>)
  {
    forall i, j :: 0 <= i < j < |s| ==> s[i] < s[j]
  }

  /** p is where key k lands on a ring with these points. */
  ghost predicate LandsOn(points: set<nat>, k: nat, p: nat)
  {
    && p in points
    && if exists q :: q in points && q >= k then p >= k && forall q :: q in points && q >= k ==> p <= q
       else forall q :: q in points ==> p <= q
  }

  ghost function Elements(s: seq<nat>): set<nat>
  {
    set x | x in s
  }

  /** Indices are unsigned in the source; here they are nat, so the verifier also shows that m - 1 never wraps. */
  method RingBsearch(data: seq<nat>, key: nat) returns (r: nat)
    requires |data| > 0 && Ascending(data)
    ensures r < |data| && LandsOn(Elements(data), key, data[r])
    ensures key < data[0] || key > data[|data| - 1] ==> r == 0
    ensures StrictlyAscending(data) && data[0] <= key <= data[|data| - 1] ==> forall i :: 0 <= i < |data| ==>
                (i < r <==> data[i] < key)
  {
    assert data[0] in data && data[|data| - 1] in data;
    if key < data[0] || key > data[|data| - 1] {
      return 0;
    }
    var s, e: nat := 0, |data| - 1;
    var m: nat := 0;
    while s <= e
      invariant s < |data| && e < |data| && s <= e + 1 && m < |data|
      invariant forall i :: 0 <= i < s ==> data[i] < key
      invariant forall i :: e < i < |data| ==> data[i] > key
      invariant s > e ==> if data[m] < key then s == m + 1 else s == m
      decreases e + 1 - s
    {
      m := s + (e - s) / 2;
      if data[m] < key {
        s := m + 1;
      } else if data[m] > key {
        e := m - 1;
      } else {
        return m;
      }
    }
    r := if data[m] < key then m + 1 else m;
  }

  // ---------------------------------------------------------------- routing, as a function of the points

  /** Key hash k is served by `name`. */
  ghost predicate RoutesTo<T>(dct: map<nat, T>, k: nat, name: T)
  {
    exists p :: LandsOn(dct.Keys, k, p) && dct[p] == name
  }

  lemma LandsOnce(points: set<nat>, k: nat, p: nat, q: nat)
    requires LandsOn(points, k, p) && LandsOn(points, k, q)
    ensures p == q
  {
  }

  lemma RouteIsUnique<T>(dct: map<nat, T>, k: nat, a: T, b: T)
    requires RoutesTo(dct, k, a) && RoutesTo(dct, k, b)
    ensures a == b
  {
    var p :| LandsOn(dct.Keys, k, p) && dct[p] == a;
    var q :| LandsOn(dct.Keys, k, q) && dct[q] == b;
    LandsOnce(dct.Keys, k, p, q);
  }

  lemma LandsOnExists(points: set<nat>, k: nat) returns (p: nat)
    requires points != {}
    ensures LandsOn(points, k, p)
  {
    var up := set q | q in points && q >= k;
    assert forall q :: q in points && q >= k ==> q in up;
    p := Least(if up == {} then points else up);
  }

  lemma {:induction false} Least(points: set<nat>) returns (p: nat)
    requires points != {}
    ensures p in points && forall q :: q in points ==> p <= q
  {
    var x :| x in points;
    var rest := points - {x};
    assert forall q :: q in points ==> q == x || q in rest;
    if rest == {} {
      p := x;
    } else {
      var q := Least(rest);
      p := if x < q then x else q;
    }
  }

  /** The points of one server. */
  ghost function Points<T>(point: (T, nat) -> nat, name: T, replicas: nat): set<nat>
  {
    set i | 0 <= i < replicas :: point(name, i)
  }

  ghost function PointMap<T>(point: (T, nat) -> nat, name: T, replicas: nat): map<nat, T>
  {
    map p | p in Points(point, name, replicas) :: name
  }

  /** No two points of the server coincide, and none coincides with a point already there. */
  ghost predicate Fresh<T>(point: (T, nat) -> nat, name: T, replicas: nat, taken: set<nat>)
  {
    && (forall i, j :: 0 <= i < j < replicas ==> point(name, i) != point(name, j))
    && Points(point, name, replicas) !! taken
  }

  /** Adding points takes keys over for the new points only. */
  lemma AddMovesOnlyToNew<T>(dct: map<nat, T>, more: map<nat, T>, k: nat, a: T, b: T)
    requires dct.Keys !! more.Keys && RoutesTo(dct, k, a) && RoutesTo(dct + more, k, b)
    ensures a == b || b in more.Values
  {
    var p :| LandsOn(dct.Keys, k, p) && dct[p] == a;
    var q :| LandsOn((dct + more).Keys, k, q) && (dct + more)[q] == b;
    if q in more {
    } else {
      assert LandsOn(dct.Keys, k, q);
      LandsOnce(dct.Keys, k, p, q);
    }
  }

  /** Adding a server: a key either keeps its server or moves to the new one. */
  lemma AddServerMoves<T>(point: (T, nat) -> nat, name: T, replicas: nat, dct: map<nat, T>, k: nat, a: T, b: T)
    requires Fresh(point, name, replicas, dct.Keys)
    requires RoutesTo(dct, k, a) && RoutesTo(dct + PointMap(point, name, replicas), k, b)
    ensures a == b || b == name
  {
    AddMovesOnlyToNew(dct, PointMap(point, name, replicas), k, a, b);
  }

  /** Removing a server moves only the keys it served. */
  lemma RemoveServerMoves<T>(point: (T, nat) -> nat, name: T, replicas: nat, dct: map<nat, T>, k: nat, a: T, b: T)
    requires forall p :: p in dct && p in Points(point, name, replicas) ==> dct[p] == name
    requires RoutesTo(dct, k, a) && RoutesTo(dct - Points(point, name, replicas), k, b)
    ensures a == b || a == name
  {
    var gone := Points(point, name, replicas);
    var p :| LandsOn(dct.Keys, k, p) && dct[p] == a;
    var q :| LandsOn((dct - gone).Keys, k, q) && (dct - gone)[q] == b;
    if p !in gone {
      assert LandsOn((dct - gone).Keys, k, p);
      LandsOnce((dct - gone).Keys, k, p, q);
    }
  }

  /** Removing a server just added restores the table. */
  lemma RemoveUndoesAdd<T>(point: (T, nat) -> nat, name: T, replicas: nat, dct: map<nat, T>)
    requires Fresh(point, name, replicas, dct.Keys)
    ensures dct + PointMap(point, name, replicas) - Points(point, name, replicas) == dct
  {
  }

  /** The sorted ring is determined by its set of points. */
  lemma {:induction false} RingIsUnique(a: seq<nat>, b: seq<nat>)
    requires StrictlyAscending(a) && StrictlyAscending(b) && Elements(a) == Elements(b)
    ensures a == b
  {
    assert forall i :: 0 <= i < |a| ==> a[i] in Elements(b);
    assert forall i :: 0 <= i < |b| ==> b[i] in Elements(a);
    if |a| > 0 && |b| > 0 {
      assert a[0] in Elements(b) && b[0] in Elements(a);
      TailElements(a);
      TailElements(b);
      RingIsUnique(a[1..], b[1..]);
    }
  }

  lemma TailElements(a: seq<nat>)
    requires a != [] && StrictlyAscending(a)
    ensures Elements(a[1..]) == Elements(a) - {a[0]}
  {
    forall x | x in Elements(a) - {a[0]}
      ensures x in a[1..]
    {
      var i :| 0 <= i < |a| && a[i] == x;
      assert a[1..][i - 1] == x;
    }
  }

  // ---------------------------------------------------------------- the table of a list of servers

  /** Distinct servers with pairwise different points. */
  ghost predicate CollisionFree<T>(point: (T, nat) -> nat, names: seq<T>, replicas: nat)
  {
    && (forall a, i, j :: 0 <= a < |names| && 0 <= i < j < replicas ==> point(names[a], i) != point(names[a], j))
    && (forall a, b :: 0 <= a < b < |names| ==> Points(point, names[a], replicas) !! Points(point, names[b], replicas))
  }

  ghost function TableOf<T>(point: (T, nat) -> nat, names: seq<T>, replicas: nat): map<nat, T>
  {
    if names == [] then map[]
    else TableOf(point, names[..|names| - 1], replicas) + PointMap(point, names[|names| - 1], replicas)
  }

  /** Each server has its points 0 to replicas - 1 in the table, and the table has no others. */
  lemma TableEntries<T>(point: (T, nat) -> nat, names: seq<T>, replicas: nat, p: nat)
    requires CollisionFree(point, names, replicas)
    ensures p in TableOf(point, names, replicas)
            <==> exists a: nat, i: nat :: a < |names| && i < replicas && point(names[a], i) == p
    ensures forall a: nat, i: nat :: a < |names| && i < replicas && point(names[a], i) == p ==>
              p in TableOf(point, names, replicas) && TableOf(point, names, replicas)[p] == names[a]
  {
    EntriesByServer(point, names, replicas, p);
    if p in TableOf(point, names, replicas) {
      var a :| 0 <= a < |names| && p in Points(point, names[a], replicas);
      var i: nat :| i < replicas && point(names[a], i) == p;
    }
    forall a: nat, i: nat | a < |names| && i < replicas && point(names[a], i) == p
      ensures p in Points(point, names[a], replicas)
    {
    }
  }

  lemma {:induction false} EntriesByServer<T>(point: (T, nat) -> nat, names: seq<T>, replicas: nat, p: nat)
    requires CollisionFree(point, names, replicas)
    ensures p in TableOf(point, names, replicas)
            <==> exists a :: 0 <= a < |names| && p in Points(point, names[a], replicas)
    ensures forall a :: 0 <= a < |names| && p in Points(point, names[a], replicas) ==>
              p in TableOf(point, names, replicas) && TableOf(point, names, replicas)[p] == names[a]
  {
    if names != [] {
      var init := names[..|names| - 1];
      EntriesByServer(point, init, replicas, p);
      forall a | 0 <= a < |names| && p in Points(point, names[a], replicas)
        ensures p in TableOf(point, names, replicas) && TableOf(point, names, replicas)[p] == names[a]
      {
        if a < |init| {
          assert init[a] == names[a];
          assert Points(point, names[a], replicas) !! Points(point, names[|names| - 1], replicas);
        }
      }
      if p in TableOf(point, init, replicas) {
        var a :| 0 <= a < |init| && p in Points(point, init[a], replicas);
        assert names[a] == init[a];
      } else if p in PointMap(point, names[|names| - 1], replicas) {
        assert p in Points(point, names[|names| - 1], replicas);
      }
    }
  }

  /** The order in which servers are added does not matter. */
  lemma OrderIrrelevant<T>(point: (T, nat) -> nat, names: seq<T>, names': seq<T>, replicas: nat)
    requires CollisionFree(point, names, replicas) && CollisionFree(point, names', replicas)
    requires (forall a :: 0 <= a < |names| ==> names[a] in names') && forall a :: 0 <= a < |names'| ==>
                names'[a] in names
    ensures TableOf(point, names, replicas) == TableOf(point, names', replicas)
  {
    forall p
      ensures p in TableOf(point, names, replicas) ==>
                && p in TableOf(point, names', replicas)
                && TableOf(point, names, replicas)[p] == TableOf(point, names', replicas)[p]
      ensures p in TableOf(point, names', replicas) ==> p in TableOf(point, names, replicas)
    {
      EntryAgrees(point, names, names', replicas, p);
      EntryAgrees(point, names', names, replicas, p);
    }
  }

  lemma EntryAgrees<T>(point: (T, nat) -> nat, names: seq<T>, names': seq<T>, replicas: nat, p: nat)
    requires CollisionFree(point, names, replicas) && CollisionFree(point, names', replicas)
    requires forall a :: 0 <= a < |names| ==> names[a] in names'
    ensures p in TableOf(point, names, replicas) ==>
              && p in TableOf(point, names', replicas)
              && TableOf(point, names, replicas)[p] == TableOf(point, names', replicas)[p]
  {
    EntriesByServer(point, names, replicas, p);
    EntriesByServer(point, names', replicas, p);
    if p in TableOf(point, names, replicas) {
      var a :| 0 <= a < |names| && p in Points(point, names[a], replicas);
      var b :| 0 <= b < |names'| && names'[b] == names[a];
      assert p in Points(point, names'[b], replicas);
    }
  }

  // ---------------------------------------------------------------- sorting

  /** std::sort. */
  function SortedInsert(s: seq<nat>, x: nat): (r: seq<nat>)
    ensures multiset(r) == multiset(s) + multiset{x}
  {
    if s == [] then [x]
    else if x <= s[0] then [x] + s
    else
      assert s == [s[0]] + s[1..];
      [s[0]] + SortedInsert(s[1..], x)
  }

  function Sort(s: seq<nat>): (r: seq<nat>)
    ensures multiset(r) == multiset(s)
  {
    if s == [] then []
    else
      assert s == s[..|s| - 1] + [s[|s| - 1]];
      SortedInsert(Sort(s[..|s| - 1]), s[|s| - 1])
  }

  lemma {:induction false} InsertAscends(s: seq<nat>, x: nat)
    requires Ascending(s)
    ensures Ascending(SortedInsert(s, x))
  {
    if s != [] && x > s[0] {
      InsertAscends(s[1..], x);
      var t := SortedInsert(s[1..], x);
      forall j | 0 <= j < |t|
        ensures s[0] <= t[j]
      {
        Inserted(s[1..], x, t[j]);
      }
      assert SortedInsert(s, x) == [s[0]] + t;
    }
  }

  lemma Inserted(s: seq<nat>, x: nat, y: nat)
    requires y in SortedInsert(s, x)
    ensures y == x || y in s
  {
    assert y in multiset(SortedInsert(s, x));
    assert y in multiset(s) + multiset{x};
  }

  lemma {:induction false} SortAscends(s: seq<nat>)
    ensures Ascending(Sort(s))
  {
    if s != [] {
      SortAscends(s[..|s| - 1]);
      InsertAscends(Sort(s[..|s| - 1]), s[|s| - 1]);
    }
  }

  ghost predicate NoDuplicates(s: seq<nat>)
  {
    forall i, j :: 0 <= i < j < |s| ==> s[i] != s[j]
  }

  lemma SortedDistinct(s: seq<nat>)
    requires NoDuplicates(s)
    ensures StrictlyAscending(Sort(s)) && Elements(Sort(s)) == Elements(s)
  {
    SortAscends(s);
    var r := Sort(s);
    forall x
      ensures x in r <==> x in s
    {
      assert x in multiset(r) <==> x in multiset(s);
    }
    forall i, j | 0 <= i < j < |r|
      ensures r[i] != r[j]
    {
      if r[i] == r[j] {
        TwiceMeansDuplicate(r, i, j);
        OnceEach(s, r[i]);
      }
    }
  }

  lemma TwiceMeansDuplicate(r: seq<nat>, i: nat, j: nat)
    requires i < j < |r| && r[i] == r[j]
    ensures multiset(r)[r[i]] >= 2
  {
    assert r == r[..i] + [r[i]] + r[i + 1..j] + [r[j]] + r[j + 1..];
  }

  lemma {:induction false} OnceEach(s: seq<nat>, x: nat)
    requires NoDuplicates(s)
    ensures multiset(s)[x] <= 1
  {
    if s != [] {
      var init := s[..|s| - 1];
      OnceEach(init, x);
      assert s == init + [s[|s| - 1]];
      if x == s[|s| - 1] {
        assert x !in init;
      }
    }
  }

  // ---------------------------------------------------------------- the ring

  class Ring<T(==)> {
    const replicas: nat
    const point: (T, nat) -> nat  // the hash of "name:i"
    var hashring: seq<nat>
    var dct: map<nat, T>

    /** The ring lists the table's points in ascending order. */
    ghost predicate Valid()
      reads this
    {
      StrictlyAscending(hashring) && Elements(hashring) == dct.Keys
    }

    constructor (names: seq<T>, replicas: nat, point: (T, nat) -> nat)
      requires CollisionFree(point, names, replicas)
      ensures this.replicas == replicas && this.point == point
      ensures Valid() && dct == TableOf(point, names, replicas)
    {
      this.replicas, this.point := replicas, point;
      hashring, dct := [], map[];
      new;
      for i := 0 to |names|
        invariant Valid() && dct == TableOf(point, names[..i], replicas)
      {
        NextIsFresh(point, names, replicas, i);
        assert names[..i + 1][..i] == names[..i];
        AddServer(names[i]);
      }
      assert names[..|names|] == names;
    }

    method AddServer(name: T)
      requires Valid() && Fresh(point, name, replicas, dct.Keys)
      modifies this
      ensures Valid() && dct == old(dct) + PointMap(point, name, replicas)
    {
      PushPoints(name);
      SortedDistinct(hashring);
      hashring := Sort(hashring);
    }

    /** The loop of add_server, before the sort. */
    method PushPoints(name: T)
      requires Valid() && Fresh(point, name, replicas, dct.Keys)
      modifies this
      ensures dct == old(dct) + PointMap(point, name, replicas)
      ensures NoDuplicates(hashring) && Elements(hashring) == dct.Keys
    {
      ghost var before := dct;
      NothingPushed(point, name, hashring, before);
      hide NoDuplicates, Elements, Points, PointMap, Fresh;
      for i := 0 to replicas
        invariant dct == before + PointMap(point, name, i)
        invariant NoDuplicates(hashring) && Elements(hashring) == dct.Keys
      {
        PushOne(point, name, replicas, i, hashring, before);
        var key := point(name, i);
        dct := dct[key := name];
        hashring := hashring + [key];
      }
    }

    method RemoveServer(name: T)
      requires Valid()
      modifies this
      ensures Valid() && dct == old(dct) - Points(point, name, replicas)
    {
      ghost var before := dct;
      assert before - Points(point, name, 0) == before;
      hide StrictlyAscending, Elements, Points, PointMap;
      for i := 0 to replicas
        invariant Valid() && dct == before - Points(point, name, i)
      {
        PointsStep(point, name, i);
        RemovePoint(point(name, i));
      }
    }

    method RemovePoint(key: nat)
      requires Valid()
      modifies this
      ensures Valid() && dct == old(dct) - {key}
    {
      hide StrictlyAscending, Elements;
      dct := dct - {key};
      var at := Find(hashring, key);
      if at < |hashring| {
        EraseAt(hashring, at);
        hashring := hashring[..at] + hashring[at + 1..];
      } else {
        assert hashring[..at] == hashring;
        NotAnElement(hashring, key);
      }
    }

    /** The server of a key with hash k; the ring must have a point. */
    method GetServer(k: nat) returns (name: T)
      requires Valid() && dct != map[]
      ensures RoutesTo(dct, k, name)
    {
      ghost var p :| p in dct;
      assert p in Elements(hashring);
      var at := RingBsearch(hashring, k);
      assert hashring[at] in Elements(hashring);
      name := dct[hashring[at]];
    }
  }

  lemma PointsStep<T>(point: (T, nat) -> nat, name: T, i: nat)
    ensures Points(point, name, i + 1) == Points(point, name, i) + {point(name, i)}
    ensures PointMap(point, name, i + 1) == PointMap(point, name, i)[point(name, i) := name]
  {
  }

  lemma NothingPushed<T>(point: (T, nat) -> nat, name: T, ring: seq<nat>, dct: map<nat, T>)
    requires StrictlyAscending(ring)
    ensures NoDuplicates(ring) && dct == dct + PointMap(point, name, 0)
  {
  }

  lemma PushOne<T>(point: (T, nat) -> nat, name: T, replicas: nat, i: nat, ring: seq<nat>, before: map<nat, T>)
    requires i < replicas && Fresh(point, name, replicas, before.Keys)
    requires NoDuplicates(ring) && Elements(ring) == (before + PointMap(point, name, i)).Keys
    ensures var key, dct := point(name, i), before + PointMap(point, name, i);
            && dct[key := name] == before + PointMap(point, name, i + 1)
            && NoDuplicates(ring + [key]) && Elements(ring + [key]) == dct.Keys + {key}
  {
    var key := point(name, i);
    PointsStep(point, name, i);
    assert key in Points(point, name, replicas);
    forall p | p in Points(point, name, i)
      ensures p != key
    {
      var j :| 0 <= j < i && point(name, j) == p;
    }
    assert key !in Elements(ring);
  }

  lemma NextIsFresh<T>(point: (T, nat) -> nat, names: seq<T>, replicas: nat, i: nat)
    requires CollisionFree(point, names, replicas) && i < |names|
    ensures Fresh(point, names[i], replicas, TableOf(point, names[..i], replicas).Keys)
  {
    assert CollisionFree(point, names[..i], replicas);
    forall p | p in TableOf(point, names[..i], replicas)
      ensures p !in Points(point, names[i], replicas)
    {
      EntriesByServer(point, names[..i], replicas, p);
      var a :| 0 <= a < i && p in Points(point, names[..i][a], replicas);
      assert Points(point, names[a], replicas) !! Points(point, names[i], replicas);
    }
  }

  /** std::find. */
  method Find(s: seq<nat>, x: nat) returns (at: nat)
    ensures at <= |s| && (at < |s| ==> s[at] == x) && x !in s[..at]
  {
    at := 0;
    while at < |s| && s[at] != x
      invariant at <= |s| && x !in s[..at]
    {
      at := at + 1;
    }
  }

  lemma NotAnElement(s: seq<nat>, x: nat)
    requires x !in s
    ensures Elements(s) - {x} == Elements(s)
  {
  }

  lemma EraseAt(s: seq<nat>, at: nat)
    requires StrictlyAscending(s) && at < |s|
    ensures var r := s[..at] + s[at + 1..]; StrictlyAscending(r) && Elements(r) == Elements(s) - {s[at]}
  {
    var r := s[..at] + s[at + 1..];
    forall x | x in Elements(s) - {s[at]}
      ensures x in r
    {
      var i :| 0 <= i < |s| && s[i] == x;
      assert r[if i < at then i else i - 1] == x;
    }
  }
}