/** What redistribution does to the triples of all ranks (lines_organize and exchange of include/load/scheduler.hpp
    over alltoall of include/utils/comm.hpp).  Lists that cross ranks travel in the triple format, which has no
    escaping; a rank's own list does not travel. */
module Placement {
  import opened Arith
  import opened Kv
  import opened Redistribute
  import Codec
  import Words

  type Format = Codec.Format<real>

  // ---------------------------------------------------------------- sums that do not depend on order

  type Measure = Triple -> nat

  const RowSize: Measure := (t: Triple) => |t.row|
  const ColSize: Measure := (t: Triple) => |t.col|

  function Weight(ts: seq<Triple>, w: Measure): nat
  {
    if ts == [] then 0 else Weight(ts[..|ts| - 1], w) + w(ts[|ts| - 1])
  }

  lemma {:induction false} WeightJoin(a: seq<Triple>, b: seq<Triple>, w: Measure)
    ensures Weight(a + b, w) == Weight(a, w) + Weight(b, w)
  {
    if b == [] {
      assert a + b == a;
    } else {
      WeightJoin(a, b[..|b| - 1], w);
      assert (a + b)[..|a + b| - 1] == a + b[..|b| - 1];
    }
  }

  lemma {:induction false} WeightPermuted(a: seq<Triple>, b: seq<Triple>, w: Measure)
    requires multiset(a) == multiset(b)
    ensures Weight(a, w) == Weight(b, w)
    decreases |a|
  {
    if a == [] {
      assert |multiset(b)| == 0;
    } else {
      var j := Permuted(a, b);
      var rest := b[..j] + b[j + 1..];
      hide Weight;
      WeightPermuted(a[..|a| - 1], rest, w);
      WeightWithout(a, |a| - 1, w);
      assert a[..|a| - 1] + a[|a|..] == a[..|a| - 1];
      WeightWithout(b, j, w);
    }
  }

  /** The last element of one list, found in the other. */
  lemma Permuted(a: seq<Triple>, b: seq<Triple>) returns (j: nat)
    requires a != [] && multiset(a) == multiset(b)
    ensures j < |b| && b[j] == a[|a| - 1]
    ensures multiset(a[..|a| - 1]) == multiset(b[..j] + b[j + 1..])
  {
    var x := a[|a| - 1];
    assert x in multiset(b);
    j :| 0 <= j < |b| && b[j] == x;
    assert a == a[..|a| - 1] + [x];
    assert b == b[..j] + ([x] + b[j + 1..]);
    assert multiset(a) == multiset(a[..|a| - 1]) + multiset{x};
    assert multiset(b) == multiset(b[..j] + b[j + 1..]) + multiset{x};
    assert multiset(a[..|a| - 1]) == multiset(a) - multiset{x};
  }

  lemma WeightWithout(b: seq<Triple>, j: nat, w: Measure)
    requires j < |b|
    ensures Weight(b, w) == Weight(b[..j] + b[j + 1..], w) + w(b[j])
  {
    hide Weight;
    assert b == b[..j] + ([b[j]] + b[j + 1..]);
    WeightJoin(b[..j], [b[j]] + b[j + 1..], w);
    WeightJoin([b[j]], b[j + 1..], w);
    WeightJoin(b[..j], b[j + 1..], w);
    OneWeight(b[j], w);
  }

  lemma OneWeight(x: Triple, w: Measure)
    ensures Weight([x], w) == w(x)
  {
    assert Weight([], w) == 0;
  }

  /** A list that is nowhere heavier weighs no more, and as much only if it is nowhere lighter. */
  lemma {:induction false} WeightPointwise(a: seq<Triple>, b: seq<Triple>, w: Measure)
    requires |a| == |b| && forall i :: 0 <= i < |a| ==> w(a[i]) <= w(b[i])
    ensures Weight(a, w) <= Weight(b, w)
    ensures Weight(a, w) == Weight(b, w) ==> forall i :: 0 <= i < |a| ==> w(a[i]) == w(b[i])
  {
    if a != [] {
      WeightPointwise(a[..|a| - 1], b[..|b| - 1], w);
    }
  }

  function Weights(lists: seq<seq<Triple>>, w: Measure): (r: seq<nat>)
    ensures |r| == |lists| && forall i :: 0 <= i < |lists| ==> r[i] == Weight(lists[i], w)
  {
    seq(|lists|, i requires 0 <= i < |lists| => Weight(lists[i], w))
  }

  function Total(a: seq<nat>): nat
  {
    if a == [] then 0 else Total(a[..|a| - 1]) + a[|a| - 1]
  }

  lemma {:induction false} Squeeze(a: seq<nat>, b: seq<nat>)
    requires |a| == |b| && forall i :: 0 <= i < |a| ==> a[i] <= b[i]
    ensures Total(a) <= Total(b) && (Total(a) == Total(b) ==> a == b)
  {
    if a != [] {
      Squeeze(a[..|a| - 1], b[..|b| - 1]);
      assert a == a[..|a| - 1] + [a[|a| - 1]] && b == b[..|b| - 1] + [b[|b| - 1]];
    }
  }

  lemma {:induction false} WeightFlatten(lists: seq<seq<Triple>>, w: Measure)
    ensures Weight(Flatten(lists), w) == Total(Weights(lists, w))
  {
    if lists != [] {
      var init, last := lists[..|lists| - 1], lists[|lists| - 1];
      WeightFlatten(init, w);
      WeightJoin(Flatten(init), last, w);
      assert Weights(lists, w)[..|lists| - 1] == Weights(init, w);
    }
  }

  lemma {:induction false} FlattenUnion(lists: seq<seq<Triple>>, n: nat)
    requires n <= |lists|
    ensures multiset(Flatten(lists[..n])) == Union(lists, 0, n)
  {
    if n > 0 {
      FlattenUnion(lists, n - 1);
      assert lists[..n][..n - 1] == lists[..n - 1];
    }
  }

  lemma FlattenAll(lists: seq<seq<Triple>>)
    ensures multiset(Flatten(lists)) == Union(lists, 0, |lists|)
  {
    FlattenUnion(lists, |lists|);
    assert lists[..|lists|] == lists;
  }

  /** Lists with the same elements taken together weigh the same together. */
  lemma UnionWeight(a: seq<seq<Triple>>, b: seq<seq<Triple>>, w: Measure)
    requires Union(a, 0, |a|) == Union(b, 0, |b|)
    ensures Total(Weights(a, w)) == Total(Weights(b, w))
  {
    FlattenAll(a);
    FlattenAll(b);
    WeightPermuted(Flatten(a), Flatten(b), w);
    WeightFlatten(a, w);
    WeightFlatten(b, w);
  }

  // ---------------------------------------------------------------- one list on its way

  function Wire(fm: Format): seq<Triple> -> Option<seq<Triple>>
  {
    (ts: seq<Triple>) => Codec.Transferred(fm, ts)
  }

  predicate CleanRows(ts: seq<Triple>)
  {
    forall i :: 0 <= i < |ts| ==> Words.Clean(ts[i].row, Codec.INNER)
  }

  /** A list that arrives has lost nothing but characters: first of row ids, and if of none of these, of column ids. */
  lemma ListShrinks(fm: Format, ts: seq<Triple>, out: seq<Triple>)
    requires Codec.AllPrintable(fm, ts) && Codec.Transferred(fm, ts) == Some(out)
    ensures Weight(out, RowSize) <= Weight(ts, RowSize)
    ensures Weight(out, RowSize) == Weight(ts, RowSize) ==> CleanRows(ts)
    ensures CleanRows(ts) ==> Weight(out, ColSize) <= Weight(ts, ColSize)
    ensures CleanRows(ts) && Weight(out, ColSize) == Weight(ts, ColSize) ==> Codec.Sendable(fm, ts)
  {
    hide Codec.Transferred, Codec.Unpack, Codec.Pack, Codec.Printable, Words.Clean, Words.Uncut, Weight;
    Codec.ArrivesPointwise(fm, ts);
    forall i | 0 <= i < |ts|
      ensures |out[i].row| <= |ts[i].row| && (|out[i].row| == |ts[i].row| ==> Words.Clean(ts[i].row, Codec.INNER))
      ensures Words.Clean(ts[i].row, Codec.INNER) ==> |out[i].col| <= |ts[i].col|
      ensures Words.Clean(ts[i].row, Codec.INNER) && |out[i].col| == |ts[i].col| ==> Codec.CleanIds(ts[i])
    {
      Codec.PackedReads(fm, ts[i]);
    }
    WeightPointwise(out, ts, RowSize);
    if CleanRows(ts) {
      WeightPointwise(out, ts, ColSize);
    }
  }

  lemma RereadWeighs(fm: Format, ts: seq<Triple>)
    requires Codec.AllPrintable(fm, ts)
    ensures Weight(Codec.RereadAll(fm, ts), RowSize) == Weight(ts, RowSize)
    ensures Weight(Codec.RereadAll(fm, ts), ColSize) == Weight(ts, ColSize)
  {
    var all := Codec.RereadAll(fm, ts);
    WeightPointwise(all, ts, RowSize);
    WeightPointwise(ts, all, RowSize);
    WeightPointwise(all, ts, ColSize);
    WeightPointwise(ts, all, ColSize);
  }

  // ---------------------------------------------------------------- all lists

  ghost predicate PrintableLists(fm: Format, sbufs: seq<seq<seq<Triple>>>)
  {
    Square(sbufs) && forall f, r :: 0 <= f < |sbufs| && 0 <= r < |sbufs| ==> Codec.AllPrintable(fm, sbufs[f][r])
  }

  /** Every list that crosses ranks has clean ids only, and no packed triple in it holds the outer separator. */
  ghost predicate CrossingSendable(fm: Format, sbufs: seq<seq<seq<Triple>>>)
    requires Square(sbufs)
  {
    forall f, r :: 0 <= f < |sbufs| && 0 <= r < |sbufs| && f != r ==> Codec.Sendable(fm, sbufs[f][r])
  }

  /** What rank r should get from each rank: its own list as it is, the others with their values printed and read. */
  ghost function Intended(fm: Format, sbufs: seq<seq<seq<Triple>>>, r: nat): (lists: seq<seq<Triple>>)
    requires PrintableLists(fm, sbufs) && r < |sbufs|
    ensures |lists| == |sbufs|
    ensures forall f :: 0 <= f < |sbufs| ==>
              lists[f] == if f == r then sbufs[f][r] else Codec.RereadAll(fm, sbufs[f][r])
  {
    seq(|sbufs|, f requires 0 <= f < |sbufs| =>
      if f == r then sbufs[f][r] else Codec.RereadAll(fm, sbufs[f][r]))
  }

  ghost function Got(fm: Format, sbufs: seq<seq<seq<Triple>>>, r: nat): (lists: seq<seq<Triple>>)
    requires Square(sbufs) && r < |sbufs|
    ensures |lists| == |sbufs|
  {
    Arrivals(Wire(fm), Column(sbufs, r), r, [])
  }

  /** Every rank has run exchange. */
  ghost predicate Ran(fm: Format, sbufs: seq<seq<seq<Triple>>>, after: seq<Option<seq<Triple>>>)
    requires Square(sbufs)
  {
    |after| == |sbufs| && forall r :: 0 <= r < |after| ==> Exchanged(Wire(fm), sbufs, r, after[r])
  }

  ghost predicate NoneFails(after: seq<Option<seq<Triple>>>)
  {
    forall r :: 0 <= r < |after| ==> after[r].Some?
  }

  function Results(after: seq<Option<seq<Triple>>>): (lists: seq<seq<Triple>>)
    ensures |lists| == |after| && forall r :: 0 <= r < |after| && after[r].Some? ==> lists[r] == after[r].value
  {
    seq(|after|, r requires 0 <= r < |after| => if after[r].Some? then after[r].value else [])
  }

  /** What each rank should end with. */
  ghost function Wanted(fm: Format, sbufs: seq<seq<seq<Triple>>>): (lists: seq<seq<Triple>>)
    requires PrintableLists(fm, sbufs)
    ensures |lists| == |sbufs| && forall r :: 0 <= r < |sbufs| ==> lists[r] == Flatten(Intended(fm, sbufs, r))
  {
    seq(|sbufs|, r requires 0 <= r < |sbufs| => Flatten(Intended(fm, sbufs, r)))
  }

  /** One list at its receiver: it arrives, and against what was intended it is no heavier. */
  lemma GotShrinks(fm: Format, sbufs: seq<seq<seq<Triple>>>, r: nat, f: nat)
    requires PrintableLists(fm, sbufs) && r < |sbufs| && f < |sbufs|
    requires AllArrive(Wire(fm), Column(sbufs, r), r)
    ensures var got, want, ts := Got(fm, sbufs, r)[f], Intended(fm, sbufs, r)[f], sbufs[f][r];
            && Weight(got, RowSize) <= Weight(want, RowSize)
            && (f != r && Weight(got, RowSize) == Weight(want, RowSize) ==> CleanRows(ts))
            && (f == r || CleanRows(ts) ==> Weight(got, ColSize) <= Weight(want, ColSize))
            && (f != r && CleanRows(ts) && Weight(got, ColSize) == Weight(want, ColSize) ==> Codec.Sendable(fm, ts))
  {
    hide Weight, CleanRows, Codec.Sendable, Codec.AllPrintable, Codec.Transferred;
    var ts := sbufs[f][r];
    assert Arrival(Wire(fm), Column(sbufs, r), r, f).Some?;
    if f != r {
      ListShrinks(fm, ts, Got(fm, sbufs, r)[f]);
      RereadWeighs(fm, ts);
    }
  }

  /** A rank's result against what was intended for it, list by list. */
  lemma RankSqueeze(fm: Format, sbufs: seq<seq<seq<Triple>>>, r: nat, stf: seq<Triple>, w: Measure)
    requires PrintableLists(fm, sbufs) && r < |sbufs|
    requires multiset(stf) == Union(Got(fm, sbufs, r), 0, |sbufs|)
    requires forall f :: 0 <= f < |sbufs| ==> Weight(Got(fm, sbufs, r)[f], w) <= Weight(Intended(fm, sbufs, r)[f], w)
    ensures Weight(stf, w) <= Weight(Flatten(Intended(fm, sbufs, r)), w)
    ensures Weight(stf, w) == Weight(Flatten(Intended(fm, sbufs, r)), w) ==>
              forall f :: 0 <= f < |sbufs| ==> Weight(Got(fm, sbufs, r)[f], w) == Weight(Intended(fm, sbufs, r)[f], w)
  {
    var got, want := Got(fm, sbufs, r), Intended(fm, sbufs, r);
    hide *;
    FlattenAll(got);
    WeightPermuted(stf, Flatten(got), w);
    WeightFlatten(got, w);
    WeightFlatten(want, w);
    Squeeze(Weights(got, w), Weights(want, w));
    if Weight(stf, w) == Weight(Flatten(want), w) {
      assert Weights(got, w) == Weights(want, w);
      forall f | 0 <= f < |sbufs|
        ensures Weight(got[f], w) == Weight(want[f], w)
      {
        assert Weights(got, w)[f] == Weights(want, w)[f];
      }
    }
  }

  /** If together the ranks hold what was intended, then no rank's share is lighter than intended. */
  lemma AllRanksTight(fm: Format, sbufs: seq<seq<seq<Triple>>>, after: seq<seq<Triple>>, w: Measure)
    requires PrintableLists(fm, sbufs) && |after| == |sbufs|
    requires Union(after, 0, |sbufs|) == Union(Wanted(fm, sbufs), 0, |sbufs|)
    requires forall r :: 0 <= r < |sbufs| ==> multiset(after[r]) == Union(Got(fm, sbufs, r), 0, |sbufs|)
    requires forall r, f :: 0 <= r < |sbufs| && 0 <= f < |sbufs| ==>
               Weight(Got(fm, sbufs, r)[f], w) <= Weight(Intended(fm, sbufs, r)[f], w)
    ensures forall r, f :: 0 <= r < |sbufs| && 0 <= f < |sbufs| ==>
               Weight(Got(fm, sbufs, r)[f], w) == Weight(Intended(fm, sbufs, r)[f], w)
  {
    hide Weight, Union, Got, Intended, Flatten, Weights, Total;
    var want := Wanted(fm, sbufs);
    UnionWeight(after, want, w);
    forall r | 0 <= r < |sbufs|
      ensures Weight(after[r], w) <= Weight(want[r], w)
    {
      RankSqueeze(fm, sbufs, r, after[r], w);
    }
    Squeeze(Weights(after, w), Weights(want, w));
    forall r, f | 0 <= r < |sbufs| && 0 <= f < |sbufs|
      ensures Weight(Got(fm, sbufs, r)[f], w) == Weight(Intended(fm, sbufs, r)[f], w)
    {
      assert Weights(after, w)[r] == Weights(want, w)[r];
      RankSqueeze(fm, sbufs, r, after[r], w);
    }
  }

  lemma ConservedMeansSendable(fm: Format, sbufs: seq<seq<seq<Triple>>>, after: seq<Option<seq<Triple>>>)
    requires PrintableLists(fm, sbufs) && Ran(fm, sbufs, after) && NoneFails(after)
    requires Union(Results(after), 0, |sbufs|) == Union(Wanted(fm, sbufs), 0, |sbufs|)
    ensures CrossingSendable(fm, sbufs)
  {
    hide Weight, Union, Got, Intended, Wanted, AllArrive, CleanRows, Codec.Sendable, Codec.AllPrintable;
    var stf := Results(after);
    forall r | 0 <= r < |sbufs|
      ensures AllArrive(Wire(fm), Column(sbufs, r), r) && multiset(stf[r]) == Union(Got(fm, sbufs, r), 0, |sbufs|)
    {
      assert Exchanged(Wire(fm), sbufs, r, after[r]);
      GotIs(fm, sbufs, r);
    }
    hide Ran, NoneFails, Results;
    forall r, f | 0 <= r < |sbufs| && 0 <= f < |sbufs|
      ensures Weight(Got(fm, sbufs, r)[f], RowSize) <= Weight(Intended(fm, sbufs, r)[f], RowSize)
    {
      GotShrinks(fm, sbufs, r, f);
    }
    AllRanksTight(fm, sbufs, stf, RowSize);
    forall r, f | 0 <= r < |sbufs| && 0 <= f < |sbufs|
      ensures Weight(Got(fm, sbufs, r)[f], ColSize) <= Weight(Intended(fm, sbufs, r)[f], ColSize)
      ensures f != r ==> CleanRows(sbufs[f][r])
    {
      GotShrinks(fm, sbufs, r, f);
    }
    AllRanksTight(fm, sbufs, stf, ColSize);
    forall r, f | 0 <= r < |sbufs| && 0 <= f < |sbufs| && f != r
      ensures Codec.Sendable(fm, sbufs[f][r])
    {
      GotShrinks(fm, sbufs, r, f);
    }
  }

  lemma GotIs(fm: Format, sbufs: seq<seq<seq<Triple>>>, r: nat)
    requires Square(sbufs) && r < |sbufs|
    ensures Got(fm, sbufs, r) == Arrivals(Wire(fm), Column(sbufs, r), r, [])
  {
  }

  lemma SendableArrives(fm: Format, sbufs: seq<seq<seq<Triple>>>, r: nat)
    requires PrintableLists(fm, sbufs) && r < |sbufs| && CrossingSendable(fm, sbufs)
    ensures AllArrive(Wire(fm), Column(sbufs, r), r) && Got(fm, sbufs, r) == Intended(fm, sbufs, r)
  {
    hide Codec.Sendable, Codec.Transferred, Codec.RereadAll, Codec.AllPrintable;
    forall f: nat | f < |sbufs|
      ensures Arrival(Wire(fm), Column(sbufs, r), r, f) == Some(Intended(fm, sbufs, r)[f])
    {
      if f != r {
        Codec.RoundTripsExactly(fm, sbufs[f][r]);
      }
    }
  }

  /** The exchange of lists by any placement: over all ranks nothing is lost, changed or invented (up to the printing
      of values) if and only if every list that crosses ranks is sendable; and then each rank has exactly its share. */
  lemma ExchangeExactly(fm: Format, sbufs: seq<seq<seq<Triple>>>, after: seq<Option<seq<Triple>>>)
    requires PrintableLists(fm, sbufs) && Ran(fm, sbufs, after)
    ensures NoneFails(after) && Union(Results(after), 0, |sbufs|) == Union(Wanted(fm, sbufs), 0, |sbufs|)
            <==> CrossingSendable(fm, sbufs)
    ensures CrossingSendable(fm, sbufs) ==> forall r :: 0 <= r < |sbufs| ==>
              after[r].Some? && multiset(after[r].value) == Union(Intended(fm, sbufs, r), 0, |sbufs|)
  {
    hide CrossingSendable, Union, Got, Intended, Flatten;
    if CrossingSendable(fm, sbufs) {
      forall r | 0 <= r < |sbufs|
        ensures after[r].Some? && multiset(after[r].value) == Union(Intended(fm, sbufs, r), 0, |sbufs|)
        ensures multiset(Results(after)[r]) == multiset(Wanted(fm, sbufs)[r])
      {
        assert Exchanged(Wire(fm), sbufs, r, after[r]);
        SendableArrives(fm, sbufs, r);
        GotIs(fm, sbufs, r);
        FlattenAll(Intended(fm, sbufs, r));
      }
      SameUnion(Results(after), Wanted(fm, sbufs), |sbufs|);
    }
    if NoneFails(after) && Union(Results(after), 0, |sbufs|) == Union(Wanted(fm, sbufs), 0, |sbufs|) {
      ConservedMeansSendable(fm, sbufs, after);
    }
  }

  lemma {:induction false} SameUnion(a: seq<seq<Triple>>, b: seq<seq<Triple>>, n: nat)
    requires n <= |a| == |b| && forall i :: 0 <= i < n ==> multiset(a[i]) == multiset(b[i])
    ensures Union(a, 0, n) == Union(b, 0, n)
  {
    if n > 0 {
      SameUnion(a, b, n - 1);
    }
  }

  // ---------------------------------------------------------------- placed by hash

  /** Every rank has sorted its triples into slots by H. */
  ghost predicate Organized(all: seq<seq<Triple>>, hash: string -> nat, nx: nat, ny: nat, sbufs: seq<seq<seq<Triple>>>)
    requires nx > 0 && ny > 0
  {
    && |sbufs| == |all| == nx * ny && Square(sbufs)
    && forall f, k :: 0 <= f < |all| && 0 <= k < |all| ==> sbufs[f][k] == Placed(all[f], hash, nx, ny, k)
  }

  ghost predicate AllValuesPrintable(fm: Format, all: seq<seq<Triple>>)
  {
    forall r :: 0 <= r < |all| ==> Codec.AllPrintable(fm, all[r])
  }

  lemma {:induction false} PlacedFrom(triples: seq<Triple>, hash: string -> nat, nx: nat, ny: nat, k: nat, i: nat)
    requires nx > 0 && ny > 0 && i < |Placed(triples, hash, nx, ny, k)|
    ensures Placed(triples, hash, nx, ny, k)[i] in triples && H(hash, Placed(triples, hash, nx, ny, k)[i], nx, ny) == k
  {
    var init := triples[..|triples| - 1];
    if i < |Placed(init, hash, nx, ny, k)| {
      PlacedFrom(init, hash, nx, ny, k, i);
    }
  }

  lemma OrganizedPrintable(fm: Format, all: seq<seq<Triple>>, hash: string -> nat, nx: nat, ny: nat,
        sbufs: seq<seq<seq<Triple>>>)
    requires nx > 0 && ny > 0 && Organized(all, hash, nx, ny, sbufs) && AllValuesPrintable(fm, all)
    ensures PrintableLists(fm, sbufs)
  {
    hide Codec.Printable, Placed, H;
    forall f, r | 0 <= f < |sbufs| && 0 <= r < |sbufs|
      ensures Codec.AllPrintable(fm, sbufs[f][r])
    {
      forall i | 0 <= i < |sbufs[f][r]|
        ensures Codec.Printable(fm, sbufs[f][r][i].val)
      {
        PlacedFrom(all[f], hash, nx, ny, r, i);
        assert Codec.AllPrintable(fm, all[f]);
      }
    }
  }

  lemma {:induction false} InUnion(lists: seq<seq<Triple>>, n: nat, t: Triple) returns (f: nat)
    requires n <= |lists| && t in Union(lists, 0, n)
    ensures f < n && t in lists[f]
  {
    if t in lists[n - 1] {
      f := n - 1;
    } else {
      f := InUnion(lists, n - 1, t);
    }
  }

  /** What is intended for a rank hashes to it. */
  lemma IntendedInPlace(fm: Format, all: seq<seq<Triple>>, hash: string -> nat, nx: nat, ny: nat,
        sbufs: seq<seq<seq<Triple>>>, r: nat, t: Triple)
    requires nx > 0 && ny > 0 && Organized(all, hash, nx, ny, sbufs) && PrintableLists(fm, sbufs) && r < |sbufs|
    requires t in Union(Intended(fm, sbufs, r), 0, |sbufs|)
    ensures H(hash, t, nx, ny) == r
  {
    hide Union, Placed, Codec.Printable;
    var want := Intended(fm, sbufs, r);
    var f := InUnion(want, |sbufs|, t);
    var i :| 0 <= i < |want[f]| && want[f][i] == t;
    PlacedFrom(all[f], hash, nx, ny, r, i);
  }

  /** hashing and exchanging: nothing is lost, changed or invented (up to the printing of values) and every triple is
      on the rank it hashes to, if and only if every list that crosses ranks is sendable. */
  lemma RedistributesExactly(fm: Format, all: seq<seq<Triple>>, hash: string -> nat, nx: nat, ny: nat,
        sbufs: seq<seq<seq<Triple>>>, after: seq<Option<seq<Triple>>>)
    requires nx > 0 && ny > 0 && Organized(all, hash, nx, ny, sbufs) && AllValuesPrintable(fm, all)
    requires Ran(fm, sbufs, after)
    ensures PrintableLists(fm, sbufs)
    ensures NoneFails(after) && Union(Results(after), 0, |all|) == Union(Wanted(fm, sbufs), 0, |all|)
            && InTheirPlaces(Results(after), hash, nx, ny)
            <==> CrossingSendable(fm, sbufs)
  {
    OrganizedPrintable(fm, all, hash, nx, ny, sbufs);
    ExchangeExactly(fm, sbufs, after);
    hide Organized, PrintableLists, Union, H, Intended, Wanted;
    if CrossingSendable(fm, sbufs) {
      forall r, t | 0 <= r < |all| && t in Results(after)[r]
        ensures H(hash, t, nx, ny) == r
      {
        assert t in multiset(after[r].value);
        IntendedInPlace(fm, all, hash, nx, ny, sbufs, r, t);
      }
    }
  }

  /** Every rank holds triples that hash to it. */
  ghost predicate InTheirPlaces(all: seq<seq<Triple>>, hash: string -> nat, npx: nat, npy: nat)
    requires npx > 0 && npy > 0
  {
    forall r, t :: 0 <= r < |all| && t in all[r] ==> H(hash, t, npx, npy) == r
  }

  // ---------------------------------------------------------------- values that survive printing

  ghost predicate ValuesSurvive(fm: Format, all: seq<seq<Triple>>)
    requires AllValuesPrintable(fm, all)
  {
    forall r, i :: 0 <= r < |all| && 0 <= i < |all[r]| ==> Codec.Reread(fm, all[r][i]) == all[r][i]
  }

  lemma {:induction false} ColumnCount(all: seq<seq<Triple>>, hash: string -> nat, nx: nat, ny: nat,
        sbufs: seq<seq<seq<Triple>>>, r: nat, n: nat, x: Triple)
    requires nx > 0 && ny > 0 && Organized(all, hash, nx, ny, sbufs) && r < |all| && n <= |all|
    ensures Union(Column(sbufs, r), 0, n)[x] == if H(hash, x, nx, ny) == r then Union(all, 0, n)[x] else 0
  {
    hide H, Placed;
    if n > 0 {
      ColumnCount(all, hash, nx, ny, sbufs, r, n - 1, x);
      PlacedCount(all[n - 1], hash, nx, ny, r, x);
    }
  }

  lemma {:induction false} UnionOfOne(lists: seq<seq<Triple>>, x: Triple, home: nat, c: nat, b: nat)
    requires b <= |lists| && forall r :: 0 <= r < |lists| ==> multiset(lists[r])[x] == if r == home then c else 0
    ensures Union(lists, 0, b)[x] == if home < b then c else 0
  {
    if b > 0 {
      UnionOfOne(lists, x, home, c, b - 1);
    }
  }

  /** When printing keeps the values, what is intended for a rank is what was sent to it. */
  lemma IntendedIsSent(fm: Format, all: seq<seq<Triple>>, hash: string -> nat, nx: nat, ny: nat,
        sbufs: seq<seq<seq<Triple>>>, r: nat)
    requires nx > 0 && ny > 0 && Organized(all, hash, nx, ny, sbufs) && AllValuesPrintable(fm, all)
    requires PrintableLists(fm, sbufs) && ValuesSurvive(fm, all) && r < |all|
    ensures Intended(fm, sbufs, r) == Column(sbufs, r)
  {
    hide Codec.Printable, Codec.Reread, Placed;
    forall f, i | 0 <= f < |all| && 0 <= i < |sbufs[f][r]|
      ensures Codec.AllPrintable(fm, sbufs[f][r]) && Codec.Reread(fm, sbufs[f][r][i]) == sbufs[f][r][i]
    {
      PlacedFrom(all[f], hash, nx, ny, r, i);
      var j :| 0 <= j < |all[f]| && all[f][j] == sbufs[f][r][i];
      assert Codec.Reread(fm, all[f][j]) == all[f][j];
    }
    forall f | 0 <= f < |all|
      ensures Intended(fm, sbufs, r)[f] == Column(sbufs, r)[f]
    {
      assert Codec.AllPrintable(fm, sbufs[f][r]);
      assert Codec.RereadAll(fm, sbufs[f][r]) == sbufs[f][r];
    }
  }

  /** Then, if every list that crosses ranks is sendable, each rank holds exactly the triples of all ranks that hash to
      it, each as often as it occurred. */
  lemma InPlace(fm: Format, all: seq<seq<Triple>>, hash: string -> nat, nx: nat, ny: nat,
        sbufs: seq<seq<seq<Triple>>>, after: seq<Option<seq<Triple>>>, r: nat, x: Triple)
    requires nx > 0 && ny > 0 && Organized(all, hash, nx, ny, sbufs) && AllValuesPrintable(fm, all)
    requires ValuesSurvive(fm, all) && Ran(fm, sbufs, after) && CrossingSendable(fm, sbufs) && r < |all|
    ensures r < |after| && after[r].Some?
    ensures multiset(after[r].value)[x] == if H(hash, x, nx, ny) == r then Union(all, 0, |all|)[x] else 0
  {
    OrganizedSize(all, hash, nx, ny, sbufs);
    assert |after| == |all|;
    hide *;
    OrganizedPrintable(fm, all, hash, nx, ny, sbufs);
    ExchangeExactly(fm, sbufs, after);
    IntendedIsSent(fm, all, hash, nx, ny, sbufs, r);
    ColumnCount(all, hash, nx, ny, sbufs, r, |all|, x);
  }

  /** And the triples over all ranks are the same multiset as before if and only if every list that crosses ranks is
      sendable. */
  lemma ExchangeConserves(fm: Format, all: seq<seq<Triple>>, hash: string -> nat, nx: nat, ny: nat,
        sbufs: seq<seq<seq<Triple>>>, after: seq<Option<seq<Triple>>>)
    requires nx > 0 && ny > 0 && Organized(all, hash, nx, ny, sbufs) && AllValuesPrintable(fm, all)
    requires ValuesSurvive(fm, all) && Ran(fm, sbufs, after)
    ensures NoneFails(after) && Union(Results(after), 0, |all|) == Union(all, 0, |all|) <==> CrossingSendable(fm, sbufs)
  {
    OrganizedSize(all, hash, nx, ny, sbufs);
    hide *;
    OrganizedPrintable(fm, all, hash, nx, ny, sbufs);
    WantedIsAll(fm, all, hash, nx, ny, sbufs);
    ExchangeExactly(fm, sbufs, after);
  }

  lemma OrganizedSize(all: seq<seq<Triple>>, hash: string -> nat, nx: nat, ny: nat, sbufs: seq<seq<seq<Triple>>>)
    requires nx > 0 && ny > 0 && Organized(all, hash, nx, ny, sbufs)
    ensures |sbufs| == |all| == nx * ny && Square(sbufs)
  {
  }

  lemma WantedIsAll(fm: Format, all: seq<seq<Triple>>, hash: string -> nat, nx: nat, ny: nat,
        sbufs: seq<seq<seq<Triple>>>)
    requires nx > 0 && ny > 0 && Organized(all, hash, nx, ny, sbufs) && AllValuesPrintable(fm, all)
    requires PrintableLists(fm, sbufs) && ValuesSurvive(fm, all)
    ensures Union(Wanted(fm, sbufs), 0, |all|) == Union(all, 0, |all|)
  {
    hide Codec.Printable, Codec.Reread, Placed, Union, H, Flatten;
    forall x
      ensures Union(Wanted(fm, sbufs), 0, |all|)[x] == Union(all, 0, |all|)[x]
    {
      HInGrid(hash, x, nx, ny);
      forall r | 0 <= r < |all|
        ensures multiset(Wanted(fm, sbufs)[r])[x] == if r == H(hash, x, nx, ny) then Union(all, 0, |all|)[x] else 0
      {
        IntendedIsSent(fm, all, hash, nx, ny, sbufs, r);
        FlattenAll(Intended(fm, sbufs, r));
        ColumnCount(all, hash, nx, ny, sbufs, r, |all|, x);
      }
      UnionOfOne(Wanted(fm, sbufs), x, H(hash, x, nx, ny), Union(all, 0, |all|)[x], |all|);
    }
  }

  // ---------------------------------------------------------------- an exchange that changes a triple

  /** Two ranks; rank 0 sends one triple to rank 1. */
  ghost function ToOther(t: Triple): (sbufs: seq<seq<seq<Triple>>>)
    ensures Square(sbufs) && |sbufs| == 2
    ensures sbufs[0] == [[], [t]] && sbufs[1] == [[], []]
  {
    [[[], [t]], [[], []]]
  }

  const OneHash: string -> nat := (x: string) => if x == "u_ps" then 1 else 0

  lemma OneTriplePlaced(t: Triple)
    requires t.row == "u_ps"
    ensures Organized([[t], []], OneHash, 2, 1, ToOther(t))
  {
    assert [t][..0] == [];
    assert Placed([], OneHash, 2, 1, 0) == [] && Placed([], OneHash, 2, 1, 1) == [];
    assert H(OneHash, t, 2, 1) == 1;
    assert Placed([t], OneHash, 2, 1, 0) == [] && Placed([t], OneHash, 2, 1, 1) == [t];
  }

  lemma OnlyOneArrives(fm: Format, t: Triple, t': Triple)
    requires Codec.Transferred(fm, [t]) == Some([t'])
    ensures var sent := Column(ToOther(t), 1);
            && AllArrive(Wire(fm), sent, 1)
            && Union(Arrivals(Wire(fm), sent, 1, []), 0, 2) == multiset{t'}
  {
    hide Codec.Transferred;
    var sent := Column(ToOther(t), 1);
    var got := Arrivals(Wire(fm), sent, 1, []);
    assert Arrival(Wire(fm), sent, 1, 0) == Some([t']);
    assert got[0] == [t'] && got[1] == [];
    assert Union(got, 0, 0) == multiset{};
    assert Union(got, 0, 1) == Union(got, 0, 0) + multiset([t']);
  }

  /** Two ranks on a 2 by 1 grid and one triple whose row id ends in "_ps" and hashes to the other rank: it arrives
      with other ids, and does not even hash to the rank that now holds it. */
  lemma CutIdGoesAstray(fm: Format, v: real, after: seq<Option<seq<Triple>>>)
    requires Codec.Printable(fm, v) && Ran(fm, ToOther(Codec.Triple("u_ps", "v", v)), after)
    ensures Organized([[Codec.Triple("u_ps", "v", v)], []], OneHash, 2, 1, ToOther(Codec.Triple("u_ps", "v", v)))
    ensures var t' := Codec.Reread(fm, Codec.Triple("u", "ps_v", v));
            |after| == 2 && after[1].Some? && multiset(after[1].value) == multiset{t'} && H(OneHash, t', 2, 1) == 0
  {
    var t, t' := Codec.Triple("u_ps", "v", v), Codec.Reread(fm, Codec.Triple("u", "ps_v", v));
    assert H(OneHash, t', 2, 1) == 0;
    assert |after| == 2 && Exchanged(Wire(fm), ToOther(t), 1, after[1]);
    hide Codec.Transferred, Codec.Reread, Codec.Printable, Union, ToOther, Organized, H, AllArrive, Ran;
    OneTriplePlaced(t);
    Codec.ShortenedId(fm, v);
    OnlyOneArrives(fm, t, t');
  }
}
