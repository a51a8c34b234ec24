/** Word counting three ways (alg/word_count/wc.hpp and update.cpp): one update per occurrence, one per distinct
    word of a worker, and one table per bucket of words; then a bounded min-heap keeps the top k (also
    paracel_read_topk of include/ps.hpp).  Updates reach the server in any order. */
module WordCount {
  import opened Arith

  const DCT_SZ: nat := 10

  type Table = map<string, int>

  /** The occurrences in the lists of the first n workers. */
  function AllWords(workers: seq<seq<string>>, n: nat): multiset<string>
    requires n <= |workers|
  {
    if n == 0 then multiset{} else AllWords(workers, n - 1) + multiset(workers[n - 1])
  }

  /** The table counts exactly these occurrences. */
  ghost predicate Counts(t: Table, words: multiset<string>)
  {
    && (forall w :: w in t <==> w in words)
    && forall w :: w in t ==> t[w] == words[w]
  }

  lemma CountsUnique(a: Table, b: Table, words: multiset<string>)
    requires Counts(a, words) && Counts(b, words)
    ensures a == b
  {
  }

  // ---------------------------------------------------------------- one update per occurrence

  /** kv_update with local_update. */
  function Incremented(t: Table, w: string, delta: int): Table
  {
    t[w := if w in t then t[w] + delta else delta]
  }

  lemma OneArrives(arrived: multiset<string>, pending: multiset<string>, w: string)
    requires w in pending
    ensures (arrived + multiset{w}) + (pending - multiset{w}) == arrived + pending
    ensures Bag(w, 1) == multiset{w} && |pending - multiset{w}| < |pending|
  {
  }

  /** normal_learning: every occurrence on every worker is an update by 1. */
  method NormalLearning(workers: seq<seq<string>>) returns (server: Table)
    ensures Counts(server, AllWords(workers, |workers|))
  {
    server := map[];
    var pending := AllWords(workers, |workers|);
    ghost var arrived := multiset{};
    NothingCounted();
    hide Counts, Incremented;
    while pending != multiset{}
      invariant arrived + pending == AllWords(workers, |workers|) && Counts(server, arrived)
      decreases |pending|
    {
      var w :| w in pending;
      OneArrives(arrived, pending, w);
      pending := pending - multiset{w};
      CountsMore(server, arrived, w, 1);
      arrived := arrived + multiset{w};
      server := Incremented(server, w, 1);
    }
  }

  // ---------------------------------------------------------------- combining on the worker

  /** The counting loop of the combining programs. */
  method CountWords(words: seq<string>) returns (tmp: Table)
    ensures Counts(tmp, multiset(words))
  {
    tmp := map[];
    for i := 0 to |words|
      invariant Counts(tmp, multiset(words[..i]))
    {
      assert words[..i + 1] == words[..i] + [words[i]];
      if words[i] in tmp {
        tmp := tmp[words[i] := tmp[words[i]] + 1];
      } else {
        tmp := tmp[words[i] := 1];
      }
    }
    assert words[..|words|] == words;
  }

  /** The occurrences in the first n of the multisets. */
  ghost function UnionOf(rest: seq<multiset<string>>, n: nat): multiset<string>
    requires n <= |rest|
  {
    if n == 0 then multiset{} else UnionOf(rest, n - 1) + rest[n - 1]
  }

  lemma {:induction false} UnionOfAll(workers: seq<seq<string>>, rest: seq<multiset<string>>, n: nat)
    requires n <= |workers| == |rest| && forall f :: 0 <= f < n ==> rest[f] == multiset(workers[f])
    ensures UnionOf(rest, n) == AllWords(workers, n)
  {
    if n > 0 {
      UnionOfAll(workers, rest, n - 1);
    }
  }

  lemma {:induction false} UnionOfNone(rest: seq<multiset<string>>, n: nat)
    requires n <= |rest| && forall f :: 0 <= f < n ==> rest[f] == multiset{}
    ensures UnionOf(rest, n) == multiset{}
  {
    if n > 0 {
      UnionOfNone(rest, n - 1);
    }
  }

  function Bag(w: string, c: nat): multiset<string>
  {
    multiset{}[w := c]
  }

  /** Taking one word of one worker out of what is left. */
  lemma {:induction false} UnionOfLess(rest: seq<multiset<string>>, f: nat, w: string, n: nat)
    requires n <= |rest| && f < |rest|
    ensures UnionOf(rest, n) == UnionOf(rest[f := rest[f][w := 0]], n)
            + if f < n then Bag(w, rest[f][w]) else multiset{}
  {
    if n > 0 {
      UnionOfLess(rest, f, w, n - 1);
      assert rest[f] == rest[f][w := 0] + Bag(w, rest[f][w]);
    }
  }

  /** A pair is pending exactly while the word is left on its worker, with the worker's own count. */
  ghost predicate Unsent(tmps: seq<Table>, rest: seq<multiset<string>>, pending: set<(nat, string)>)
  {
    && |tmps| == |rest| && (forall fw :: fw in pending ==> fw.0 < |rest|)
    && (forall f: nat, w :: f < |rest| ==> ((f, w) in pending <==> w in rest[f]))
    && (forall f: nat, w :: f < |rest| && w in rest[f] ==> w in tmps[f] && tmps[f][w] == rest[f][w])
  }

  lemma UnsentStep(tmps: seq<Table>, rest: seq<multiset<string>>, pending: set<(nat, string)>, fw: (nat, string))
    requires Unsent(tmps, rest, pending) && fw in pending
    ensures fw.0 < |rest| && Unsent(tmps, rest[fw.0 := rest[fw.0][fw.1 := 0]], pending - {fw})
    ensures fw.1 in rest[fw.0] && fw.1 in tmps[fw.0] && tmps[fw.0][fw.1] == rest[fw.0][fw.1]
  {
    assert fw == (fw.0, fw.1);
  }

  lemma NothingUnsent(tmps: seq<Table>, rest: seq<multiset<string>>)
    requires Unsent(tmps, rest, {})
    ensures UnionOf(rest, |rest|) == multiset{}
  {
    forall f | 0 <= f < |rest|
      ensures rest[f] == multiset{}
    {
      assert forall w :: w !in rest[f];
    }
    UnionOfNone(rest, |rest|);
  }

  lemma CountsMore(server: Table, arrived: multiset<string>, w: string, c: nat)
    requires Counts(server, arrived) && c > 0
    ensures Counts(Incremented(server, w, c), arrived + Bag(w, c))
  {
  }

  method CountEach(workers: seq<seq<string>>) returns (tmps: seq<Table>)
    ensures |tmps| == |workers| && forall f :: 0 <= f < |workers| ==> Counts(tmps[f], multiset(workers[f]))
  {
    tmps := [];
    for f := 0 to |workers|
      invariant |tmps| == f && forall g :: 0 <= g < f ==> Counts(tmps[g], multiset(workers[g]))
    {
      var tmp := CountWords(workers[f]);
      tmps := tmps + [tmp];
    }
  }

  /** noraml_learning_with_combine: each worker sends one update per distinct word, in any global order. */
  method CombinedLearning(workers: seq<seq<string>>) returns (server: Table)
    ensures Counts(server, AllWords(workers, |workers|))
  {
    var tmps := CountEach(workers);
    var pending := set f, w | 0 <= f < |tmps| && w in tmps[f] :: (f, w);
    ghost var rest := seq(|workers|, f requires 0 <= f < |workers| => multiset(workers[f]));
    UnionOfAll(workers, rest, |workers|);
    server := SendCounts(tmps, pending, rest);
  }

  /** The sending loop. */
  method SendCounts(tmps: seq<Table>, pending0: set<(nat, string)>,
        ghost rest0: seq<multiset<string>>) returns (server: Table)
    requires |rest0| == |tmps| && Unsent(tmps, rest0, pending0)
    ensures Counts(server, UnionOf(rest0, |rest0|))
  {
    var pending := pending0;
    server := map[];
    ghost var rest, arrived := rest0, multiset{};
    NothingCounted();
    hide Unsent, UnionOf, Counts, Incremented, Bag;
    while pending != {}
      invariant |rest| == |tmps| == |rest0| && Unsent(tmps, rest, pending)
      invariant arrived + UnionOf(rest, |rest|) == UnionOf(rest0, |rest0|) && Counts(server, arrived)
    {
      var fw: (nat, string) :| fw in pending;
      UnsentStep(tmps, rest, pending, fw);
      ghost var c := rest[fw.0][fw.1];
      UnionOfLess(rest, fw.0, fw.1, |rest|);
      CountsMore(server, arrived, fw.1, c);
      Shift(arrived, Bag(fw.1, c), UnionOf(rest[fw.0 := rest[fw.0][fw.1 := 0]], |rest|));
      pending := pending - {fw};
      arrived := arrived + Bag(fw.1, c);
      server := Incremented(server, fw.1, tmps[fw.0][fw.1]);
      rest := rest[fw.0 := rest[fw.0][fw.1 := 0]];
    }
    NothingUnsent(tmps, rest);
    assert arrived == arrived + UnionOf(rest, |rest|);
  }

  lemma Shift(a: multiset<string>, b: multiset<string>, u: multiset<string>)
    ensures a + (u + b) == (a + b) + u
  {
  }

  lemma NothingCounted()
    ensures Counts(map[], multiset{})
  {
  }

  /** local_update2: the sum of two tables, built entry by entry. */
  method LocalUpdate2(a: Table, b: Table) returns (r: Table)
    ensures r == Merged(a, b)
  {
    r := a;
    var todo := b.Keys;
    while todo != {}
      invariant todo <= b.Keys && r.Keys == a.Keys + (b.Keys - todo)
      invariant forall w :: w in r ==> r[w] == At(a, w) + if w in todo then 0 else At(b, w)
    {
      var key :| key in todo;
      todo := todo - {key};
      if key in r {
        r := r[key := r[key] + b[key]];
      } else {
        r := r[key := b[key]];
      }
    }
  }

  function At(t: Table, w: string): int
  {
    if w in t then t[w] else 0
  }

  function Merged(a: Table, b: Table): (r: Table)
    ensures r.Keys == a.Keys + b.Keys && forall w :: w in r ==> r[w] == At(a, w) + At(b, w)
  {
    map w | w in a.Keys + b.Keys :: At(a, w) + At(b, w)
  }

  // ---------------------------------------------------------------- buckets

  /** The table counts exactly the occurrences whose word hashes to bucket k. */
  ghost predicate CountsBucket(t: Table, words: multiset<string>, hash: string -> nat, k: nat)
  {
    && (forall w :: w in t <==> w in words && hash(w) % DCT_SZ == k)
    && forall w :: w in t ==> t[w] == words[w]
  }

  /** The bucketing loop of optimized_learning. */
  method Bucketed(tmp: Table, words: seq<string>, hash: string -> nat) returns (localVd: seq<Table>)
    requires Counts(tmp, multiset(words))
    ensures |localVd| == DCT_SZ && forall k :: 0 <= k < DCT_SZ ==> CountsBucket(localVd[k], multiset(words), hash, k)
  {
    localVd := seq(DCT_SZ, _ => map[]);
    var todo := tmp.Keys;
    while todo != {}
      invariant todo <= tmp.Keys && |localVd| == DCT_SZ
      invariant forall k, w :: 0 <= k < DCT_SZ ==>
                  (w in localVd[k] <==> w in tmp && w !in todo && hash(w) % DCT_SZ == k)
      invariant forall k, w :: 0 <= k < DCT_SZ && w in localVd[k] ==> localVd[k][w] == tmp[w]
    {
      var w :| w in todo;
      todo := todo - {w};
      var indx := hash(w) % DCT_SZ;
      localVd := localVd[indx := localVd[indx][w := tmp[w]]];
    }
  }

  /** The occurrences on the workers in `done`, among the first n. */
  ghost function WordsOf(workers: seq<seq<string>>, done: set<nat>, n: nat): multiset<string>
    requires n <= |workers|
  {
    if n == 0 then multiset{}
    else WordsOf(workers, done, n - 1) + if n - 1 in done then multiset(workers[n - 1]) else multiset{}
  }

  lemma {:induction false} WordsOfAdd(workers: seq<seq<string>>, done: set<nat>, f: nat, n: nat)
    requires n <= |workers| && f < |workers| && f !in done
    ensures WordsOf(workers, done + {f}, n) == WordsOf(workers, done, n)
            + if f < n then multiset(workers[f]) else multiset{}
  {
    if n > 0 {
      WordsOfAdd(workers, done, f, n - 1);
    }
  }

  lemma {:induction false} WordsOfAll(workers: seq<seq<string>>, done: set<nat>, n: nat)
    requires n <= |workers| && forall f: nat :: f < n ==> f in done
    ensures WordsOf(workers, done, n) == AllWords(workers, n)
  {
    if n > 0 {
      WordsOfAll(workers, done, n - 1);
    }
  }

  lemma {:induction false} WordsOfNone(workers: seq<seq<string>>, n: nat)
    requires n <= |workers|
    ensures WordsOf(workers, {}, n) == multiset{}
  {
    if n > 0 {
      WordsOfNone(workers, n - 1);
    }
  }

  /** One bucket's entry on the server after the workers in `done` have updated it. */
  ghost predicate BucketAfter(server: map<nat, Table>, k: nat, workers: seq<seq<string>>, done: set<nat>,
        hash: string -> nat)
  {
    && (k in server <==> done != {})
    && (k in server ==> CountsBucket(server[k], WordsOf(workers, done, |workers|), hash, k))
  }

  /** Merging one more worker's bucket into the entry: the first one is stored, later ones are added. */
  method BucketUpdate(server: map<nat, Table>, k: nat, delta: Table, workers: seq<seq<string>>, f: nat,
        ghost done: set<nat>, hash: string -> nat)
    returns (server': map<nat, Table>)
    requires BucketAfter(server, k, workers, done, hash) && f < |workers| && f !in done
    requires CountsBucket(delta, multiset(workers[f]), hash, k)
    ensures BucketAfter(server', k, workers, done + {f}, hash)
    ensures forall j :: j != k ==> (j in server' <==> j in server) && (j in server ==> server'[j] == server[j])
  {
    WordsOfAdd(workers, done, f, |workers|);
    if k in server {
      var r := LocalUpdate2(server[k], delta);
      server' := server[k := r];
    } else {
      WordsOfNone(workers, |workers|);
      server' := server[k := delta];
    }
  }

  /** The updates of optimized_learning: each worker sends each of its buckets once, in any global order. */
  method SendBuckets(workers: seq<seq<string>>, buckets: seq<seq<Table>>,
        hash: string -> nat) returns (server: map<nat, Table>)
    requires |workers| > 0 && |buckets| == |workers|
    requires forall f :: 0 <= f < |workers| ==> |buckets[f]| == DCT_SZ
    requires forall f, k :: 0 <= f < |workers| && 0 <= k < DCT_SZ ==>
                CountsBucket(buckets[f][k], multiset(workers[f]), hash, k)
    ensures forall k: nat :: k in server <==> k < DCT_SZ
    ensures forall k :: k in server ==> CountsBucket(server[k], AllWords(workers, |workers|), hash, k)
  {
    server := map[];
    var pending := set f, k | 0 <= f < |workers| && 0 <= k < DCT_SZ :: (f, k);
    ghost var done := seq(DCT_SZ, _ => {});
    WordsOfNone(workers, |workers|);
    assert Delivered(workers, pending, done);
    hide CountsBucket, WordsOf, AllWords;
    while pending != {}
      invariant Delivered(workers, pending, done)
      invariant forall k: nat :: k < DCT_SZ ==> BucketAfter(server, k, workers, done[k], hash)
      invariant forall k :: k in server ==> k < DCT_SZ
    {
      var fk :| fk in pending;
      var (f, k) := fk;
      assert pending - {fk} + {fk} == pending;
      pending := pending - {fk};
      server := BucketUpdate(server, k, buckets[f][k], workers, f, done[k], hash);
      DeliveredStep(workers, pending + {fk}, done, f, k);
      done := done[k := done[k] + {f}];
    }
    forall k: nat | k < DCT_SZ
      ensures k in server && CountsBucket(server[k], AllWords(workers, |workers|), hash, k)
    {
      assert BucketAfter(server, k, workers, done[k], hash);
      assert 0 in done[k];
      WordsOfAll(workers, done[k], |workers|);
    }
  }

  /** A pair is pending until its worker is done with its bucket. */
  ghost predicate Delivered(workers: seq<seq<string>>, pending: set<(nat, nat)>, done: seq<set<nat>>)
  {
    && |done| == DCT_SZ
    && (forall f: nat, k: nat :: k < DCT_SZ && f < |workers| ==> ((f, k) in pending <==> f !in done[k]))
    && forall fk :: fk in pending ==> fk.0 < |workers| && fk.1 < DCT_SZ
  }

  lemma DeliveredStep(workers: seq<seq<string>>, pending: set<(nat, nat)>, done: seq<set<nat>>, f: nat, k: nat)
    requires Delivered(workers, pending, done) && (f, k) in pending
    ensures Delivered(workers, pending - {(f, k)}, done[k := done[k] + {f}])
  {
  }

  // ---------------------------------------------------------------- the top k

  type Entry = (string, int)

  /** Every entry is in the table. */
  ghost predicate FromTable(entries: set<Entry>, t: Table)
  {
    forall e :: e in entries ==> e.0 in t && t[e.0] == e.1
  }

  lemma {:induction false} LeastEntry(heap: set<Entry>) returns (m: Entry)
    requires heap != {}
    ensures m in heap && forall e :: e in heap ==> m.1 <= e.1
  {
    var x :| x in heap;
    var rest := heap - {x};
    assert forall e :: e in heap ==> e == x || e in rest;
    if rest == {} {
      m := x;
    } else {
      m := LeastEntry(rest);
      m := if x.1 < m.1 then x else m;
    }
  }

  /** priority_queue::top: some entry no other is below; ties are broken arbitrarily. */
  method Top(heap: set<Entry>) returns (m: Entry)
    requires heap != {}
    ensures m in heap && forall e :: e in heap ==> m.1 <= e.1
  {
    ghost var least := LeastEntry(heap);
    m :| m in heap && forall e :: e in heap ==> m.1 <= e.1;
  }

  /** The heap after some entries went through it: as many as fit, and nothing left out beats anything kept. */
  ghost predicate Keeps(heap: set<Entry>, seen: set<Entry>, k: nat)
  {
    && heap <= seen && |heap| == Min(k, |seen|)
    && forall e, o :: e in heap && o in seen && o !in heap ==> o.1 <= e.1
  }

  /** handler: push every entry and pop whenever the heap outgrows k. */
  method Collect(t: Table, k: nat) returns (heap: set<Entry>)
    ensures FromTable(heap, t) && |heap| == Min(k, |t|)
    ensures forall e, w :: e in heap && w in t && (w, t[w]) !in heap ==> t[w] <= e.1
  {
    heap := {};
    var todo := t.Keys;
    ghost var seen: set<Entry> := {};
    while todo != {}
      invariant todo <= t.Keys && Keeps(heap, seen, k) && FromTable(seen, t)
      invariant forall w :: w in t ==> ((w, t[w]) in seen <==> w !in todo)
      invariant |seen| + |todo| == |t|
    {
      var w :| w in todo;
      todo := todo - {w};
      var e := (w, t[w]);
      assert e !in seen;
      heap := PushPop(heap, e, k, seen);
      seen := seen + {e};
    }
    assert forall w :: w in t ==> (w, t[w]) in seen;
  }

  method PushPop(heap: set<Entry>, e: Entry, k: nat, ghost seen: set<Entry>) returns (heap': set<Entry>)
    requires Keeps(heap, seen, k) && e !in seen
    ensures Keeps(heap', seen + {e}, k)
  {
    SubsetSize(heap, seen);
    heap' := heap + {e};
    if |heap'| > k {
      var m := Top(heap');
      heap' := heap' - {m};
    }
  }

  /** The draining loop: entries come out lowest first and are reversed. */
  method Drain(heap: set<Entry>) returns (result: seq<Entry>)
    ensures |result| == |heap| && forall e :: e in result <==> e in heap
    ensures forall i, j :: 0 <= i < j < |result| ==> result[i].1 >= result[j].1
    ensures forall i, j :: 0 <= i < j < |result| ==> result[i] != result[j]
  {
    result := [];
    var rest := heap;
    while rest != {}
      invariant rest <= heap && |result| + |rest| == |heap|
      invariant forall e :: e in heap <==> e in rest || e in result
      invariant forall e :: e in result ==> e !in rest
      invariant forall i, e :: 0 <= i < |result| && e in rest ==> result[i].1 <= e.1
      invariant forall i, j :: 0 <= i < j < |result| ==> result[i].1 <= result[j].1 && result[i] != result[j]
    {
      var m := Top(rest);
      result := result + [m];
      rest := rest - {m};
    }
    var up := result;
    result := seq(|up|, i requires 0 <= i < |up| => up[|up| - 1 - i]);
    assert forall i :: 0 <= i < |up| ==> up[i] == result[|up| - 1 - i];
  }

  /** A correct answer to a top-k query. */
  ghost predicate IsTopK(t: Table, k: nat, result: seq<Entry>)
  {
    && |result| == Min(k, |t|)
    && (forall i :: 0 <= i < |result| ==> result[i].0 in t && t[result[i].0] == result[i].1)
    && (forall i, j :: 0 <= i < j < |result| ==> result[i].1 >= result[j].1 && result[i].0 != result[j].0)
    && (forall i, w :: 0 <= i < |result| && w in t && (w, t[w]) !in result ==> t[w] <= result[i].1)
  }

  method TopK(t: Table, k: nat) returns (result: seq<Entry>)
    ensures IsTopK(t, k, result)
  {
    var heap := Collect(t, k);
    result := Drain(heap);
    forall i, j | 0 <= i < j < |result|
      ensures result[i].0 != result[j].0
    {
      assert result[i] in heap && result[j] in heap;
    }
    forall i | 0 <= i < |result|
      ensures result[i] in heap
    {
    }
  }

  // ---------------------------------------------------------------- the optimized program

  /** Reading the buckets back: together they are one table. */
  method Gather(server: map<nat, Table>, words: multiset<string>, hash: string -> nat) returns (t: Table)
    requires forall k: nat :: k in server <==> k < DCT_SZ
    requires forall k :: k in server ==> CountsBucket(server[k], words, hash, k)
    ensures Counts(t, words)
  {
    t := map[];
    for k := 0 to DCT_SZ
      invariant forall w :: w in t <==> w in words && hash(w) % DCT_SZ < k
      invariant forall w :: w in t ==> t[w] == words[w]
    {
      t := t + server[k];
    }
  }

  /** optimized_learning, from the workers' word lists to the top k: the gathered table counts every occurrence on
      every worker, exactly as the one-update-per-occurrence program does. */
  method OptimizedLearning(workers: seq<seq<string>>, hash: string -> nat, k: nat) returns (t: Table,
        result: seq<Entry>)
    requires |workers| > 0
    ensures Counts(t, AllWords(workers, |workers|)) && IsTopK(t, k, result)
  {
    var buckets: seq<seq<Table>> := [];
    for f := 0 to |workers|
      invariant |buckets| == f && forall g :: 0 <= g < f ==> |buckets[g]| == DCT_SZ
      invariant forall g, b :: 0 <= g < f && 0 <= b < DCT_SZ ==>
                  CountsBucket(buckets[g][b], multiset(workers[g]), hash, b)
    {
      var tmp := CountWords(workers[f]);
      var localVd := Bucketed(tmp, workers[f], hash);
      buckets := buckets + [localVd];
    }
    var server := SendBuckets(workers, buckets, hash);
    t := Gather(server, AllWords(workers, |workers|), hash);
    result := TopK(t, k);
  }
}
