/** Ring exchanges between ranks: bcastring and alltoall of include/utils/comm.hpp, and the placing of triples by hash
    (h, lines_organize and exchange of include/load/scheduler.hpp).  `wire` says what a message becomes on its way to
    another rank, None where its receiver fails; a rank's own data crosses no wire. */
module Redistribute {
  import opened Arith
  import opened Kv
  import Codec

  // ---------------------------------------------------------------- ring arithmetic

  /** The rank `me` receives from in step i of a ring of n. */
  function From(me: nat, i: nat, n: nat): nat
    requires n > 0
  {
    (me + i) % n
  }

  /** The rank `me` sends to in step i. */
  function To(me: nat, i: nat, n: nat): nat
    requires n > 0 && i <= n
  {
    (me + n - i) % n
  }

  lemma ModOnce(a: nat, n: nat)
    requires 0 < n && a < 2 * n
    ensures a % n == if a < n then a else a - n
  {
    if a >= n {
      assert a == n + (a - n);
      DivModOf(1, a - n, n, a);
    }
  }

  /** In every step, if `me` receives from f then f sends to `me`. */
  lemma RingMatched(me: nat, i: nat, n: nat)
    requires me < n && i <= n
    ensures From(me, i, n) < n && To(From(me, i, n), i, n) == me
  {
    ModOnce(me + i, n);
    ModOnce(From(me, i, n) + n - i, n);
  }

  /** Step by step the rank received from is the next one up, from oneself around to oneself; the one sent to is the
      next one down. */
  lemma RingOrder(me: nat, i: nat, n: nat)
    requires me < n && i < n
    ensures From(me, 0, n) == To(me, 0, n) == me
    ensures From(me, i + 1, n) == if From(me, i, n) + 1 == n then 0 else From(me, i, n) + 1
    ensures To(me, i, n) == if To(me, i + 1, n) + 1 == n then 0 else To(me, i + 1, n) + 1
  {
    OwnStep(me, n);
    ModOnce(me + i, n);
    ModOnce(me + i + 1, n);
    ModOnce(me + n - i, n);
    ModOnce(me + n - (i + 1), n);
  }

  lemma NotMyself(me: nat, i: nat, n: nat)
    requires me < n && 0 < i < n
    ensures From(me, i, n) < n && From(me, i, n) != me
  {
    ModOnce(me + i, n);
  }

  // ---------------------------------------------------------------- what arrives

  /** What rank f's message sent[f] is at rank `me`. */
  function Arrival<M>(wire: M -> Option<M>, sent: seq<M>, me: nat, f: nat): Option<M>
    requires f < |sent|
  {
    if f == me then Some(sent[f]) else wire(sent[f])
  }

  ghost predicate AllArrive<M>(wire: M -> Option<M>, sent: seq<M>, me: nat)
  {
    forall f: nat :: f < |sent| ==> Arrival(wire, sent, me, f).Some?
  }

  /** The messages as rank `me` sees them; `blank` stands where one does not arrive. */
  function Arrivals<M>(wire: M -> Option<M>, sent: seq<M>, me: nat, blank: M): (got: seq<M>)
    ensures |got| == |sent|
    ensures forall f :: 0 <= f < |sent| ==>
              got[f] == var a := Arrival(wire, sent, me, f); if a.Some? then a.value else blank
  {
    seq(|sent|, f requires 0 <= f < |sent| =>
      var a := Arrival(wire, sent, me, f); if a.Some? then a.value else blank)
  }

  /** The step in which rank f's message arrives. */
  function StepOf(me: nat, f: nat, n: nat): (i: nat)
    requires me < n && f < n
    ensures i < n && From(me, i, n) == f
  {
    var i := if me <= f then f - me else f + n - me;
    ModOnce(me + i, n);
    i
  }

  /** The messages of the first i steps arrived. */
  ghost predicate ArrivedBefore<M>(wire: M -> Option<M>, sent: seq<M>, me: nat, i: nat)
    requires me < |sent|
  {
    forall k: nat :: k < i ==> From(me, k, |sent|) < |sent| && Arrival(wire, sent, me, From(me, k, |sent|)).Some?
  }

  lemma ArrivedInAll<M>(wire: M -> Option<M>, sent: seq<M>, me: nat)
    requires me < |sent| && ArrivedBefore(wire, sent, me, |sent|)
    ensures AllArrive(wire, sent, me)
  {
    forall f: nat | f < |sent|
      ensures Arrival(wire, sent, me, f).Some?
    {
      assert From(me, StepOf(me, f, |sent|), |sent|) == f;
    }
  }

  lemma OwnArrives<M>(wire: M -> Option<M>, sent: seq<M>, me: nat)
    requires me < |sent|
    ensures ArrivedBefore(wire, sent, me, 1)
  {
    OwnStep(me, |sent|);
  }

  // ---------------------------------------------------------------- broadcasting around the ring

  /** The calls func gets, one per step: each is what the partner's data is when it arrives. */
  ghost predicate Handed<M>(wire: M -> Option<M>, data: seq<M>, me: nat, calls: seq<M>)
    requires me < |data|
  {
    forall k: nat :: k < |calls| ==>
      From(me, k, |data|) < |data| && Arrival(wire, data, me, From(me, k, |data|)) == Some(calls[k])
  }

  lemma HandedOwn<M>(wire: M -> Option<M>, data: seq<M>, me: nat)
    requires me < |data|
    ensures Handed(wire, data, me, [data[me]])
  {
    OwnStep(me, |data|);
  }

  lemma HandedMore<M>(wire: M -> Option<M>, data: seq<M>, me: nat, calls: seq<M>, f: nat, x: M)
    requires me < |data| && Handed(wire, data, me, calls) && f == From(me, |calls|, |data|) < |data|
    requires Arrival(wire, data, me, f) == Some(x)
    ensures Handed(wire, data, me, calls + [x])
  {
    hide From, Arrival;
  }

  lemma HandedAll<M>(wire: M -> Option<M>, data: seq<M>, me: nat, calls: seq<M>)
    requires me < |data| == |calls| && Handed(wire, data, me, calls)
    ensures AllArrive(wire, data, me)
  {
    hide From, Arrival;
    ArrivedInAll(wire, data, me);
  }

  /** bcastring as rank `me` runs it: func gets the own data first and then, in turn, that of the following ranks as
      it arrives.  In step i the rank receives what its partner sends. */
  method Bcastring<M>(wire: M -> Option<M>, data: seq<M>, me: nat) returns (handed: Option<seq<M>>)
    requires me < |data|
    ensures handed.Some? <==> AllArrive(wire, data, me)
    ensures handed.Some? ==> |handed.value| == |data| && Handed(wire, data, me, handed.value)
  {
    hide AllArrive, Arrival, Handed, From, To;
    var n := |data|;
    var calls := [data[me]];
    HandedOwn(wire, data, me);
    if n == 1 {
      HandedAll(wire, data, me, calls);
      return Some(calls);
    }
    for i := 1 to n
      invariant |calls| == i && Handed(wire, data, me, calls)
    {
      var f := From(me, i, n);
      FromOther(wire, data, me, i);
      var rbuf := wire(data[f]);
      if rbuf.None? {
        Missing(wire, data, me, f);
        return None;
      }
      HandedMore(wire, data, me, calls, f, rbuf.value);
      calls := calls + [rbuf.value];
    }
    HandedAll(wire, data, me, calls);
    handed := Some(calls);
  }

  /** After the first step a message comes from another rank, which sends it here in that step. */
  lemma FromOther<M>(wire: M -> Option<M>, sent: seq<M>, me: nat, i: nat)
    requires me < |sent| && 0 < i < |sent|
    ensures var f := From(me, i, |sent|);
            f < |sent| && f != me && To(f, i, |sent|) == me && Arrival(wire, sent, me, f) == wire(sent[f])
  {
    RingMatched(me, i, |sent|);
    NotMyself(me, i, |sent|);
  }

  lemma Missing<M>(wire: M -> Option<M>, sent: seq<M>, me: nat, f: nat)
    requires f < |sent| && Arrival(wire, sent, me, f).None?
    ensures !AllArrive(wire, sent, me)
  {
  }

  // ---------------------------------------------------------------- all to all

  /** The slot of the receive buffer that rank f's list ends up in at rank `me`. */
  function Slot(me: nat, f: nat, n: nat): nat
    requires me < n && f < n
  {
    (2 * me + n - f) % n
  }

  lemma SlotOfStep(me: nat, i: nat, n: nat)
    requires me < n && i < n
    ensures From(me, i, n) < n && Slot(me, From(me, i, n), n) == To(me, i, n) < n
  {
    ModOnce(me + i, n);
    ModOnce(me + n - i, n);
    var f := From(me, i, n);
    var a := 2 * me + n - f;
    if me + i < n {
      assert a == me + n - i;
    } else {
      assert a == me + n - i + n;
      if me + n - i < n {
        DivModOf(1, me + n - i, n, a);
      } else {
        DivModOf(2, me - i, n, a);
      }
    }
  }

  lemma ToInjective(me: nat, i: nat, k: nat, n: nat)
    requires me < n && i < n && k < n && To(me, i, n) == To(me, k, n)
    ensures i == k
  {
    ModOnce(me + n - i, n);
    ModOnce(me + n - k, n);
  }

  /** Every rank has one outgoing list per rank. */
  ghost predicate Square<T>(sbufs: seq<seq<seq<T>>>)
  {
    forall f :: 0 <= f < |sbufs| ==> |sbufs[f]| == |sbufs|
  }

  /** What all ranks send to rank `me`. */
  function Column<T>(sbufs: seq<seq<seq<T>>>, me: nat): (sent: seq<seq<T>>)
    requires me < |sbufs| && forall f :: 0 <= f < |sbufs| ==> |sbufs[f]| == |sbufs|
    ensures |sent| == |sbufs| && forall f :: 0 <= f < |sbufs| ==> sent[f] == sbufs[f][me]
  {
    seq(|sbufs|, f requires 0 <= f < |sbufs| => sbufs[f][me])
  }

  function Flatten<T>(bufs: seq<seq<T>>): seq<T>
  {
    if bufs == [] then [] else Flatten(bufs[..|bufs| - 1]) + bufs[|bufs| - 1]
  }

  lemma {:induction false} FlattenAppendTo<T>(bufs: seq<seq<T>>, t: nat, more: seq<T>)
    requires t < |bufs|
    ensures multiset(Flatten(bufs[t := bufs[t] + more])) == multiset(Flatten(bufs)) + multiset(more)
  {
    var last := |bufs| - 1;
    var bufs' := bufs[t := bufs[t] + more];
    if t == last {
      assert bufs'[..last] == bufs[..last];
      assert Flatten(bufs') == Flatten(bufs) + more;
    } else {
      assert bufs'[..last] == bufs[..last][t := bufs[..last][t] + more];
      FlattenAppendTo(bufs[..last], t, more);
    }
  }

  lemma {:induction false} FlattenEmpty<T>(bufs: seq<seq<T>>)
    requires forall i :: 0 <= i < |bufs| ==> bufs[i] == []
    ensures Flatten(bufs) == []
  {
    if bufs != [] {
      FlattenEmpty(bufs[..|bufs| - 1]);
    }
  }

  /** After i steps: the lists of these steps arrived and are in their slots, and together they fill the buffer. */
  ghost predicate Halfway<T>(wire: seq<T> -> Option<seq<T>>, sent: seq<seq<T>>, me: nat, rbuf: seq<seq<T>>, i: nat)
    requires me < |sent| && i <= |sent|
  {
    var got := Arrivals(wire, sent, me, []);
    && |rbuf| == |sent| && Filled(got, me, rbuf, i) && ArrivedBefore(wire, sent, me, i)
    && multiset(Flatten(rbuf)) == Received(got, me, i)
  }

  lemma OwnSlot<T>(wire: seq<T> -> Option<seq<T>>, sent: seq<seq<T>>, me: nat, rbuf: seq<seq<T>>)
    requires me < |sent| == |rbuf| && forall t :: 0 <= t < |rbuf| ==> rbuf[t] == if t == me then sent[me] else []
    ensures Halfway(wire, sent, me, rbuf, 1)
  {
    hide Filled, Received, Arrival, ArrivedBefore, Flatten;
    var got := Arrivals(wire, sent, me, []);
    Own(wire, sent, me);
    OwnArrives(wire, sent, me);
    FilledFirst(got, me, rbuf);
    var empty: seq<seq<T>> := seq(|sent|, _ => []);
    FlattenEmpty(empty);
    FlattenAppendTo(empty, me, sent[me]);
    assert empty[me] + sent[me] == sent[me];
    assert rbuf == empty[me := sent[me]];
  }

  lemma NextSlot<T>(wire: seq<T> -> Option<seq<T>>, sent: seq<seq<T>>, me: nat, rbuf: seq<seq<T>>, i: nat, x: seq<T>)
    requires me < |sent| && 0 < i < |sent| && Halfway(wire, sent, me, rbuf, i)
    requires From(me, i, |sent|) < |sent| && Arrival(wire, sent, me, From(me, i, |sent|)) == Some(x)
    ensures var t := To(me, i, |sent|);
            t < |rbuf| && Halfway(wire, sent, me, rbuf[t := rbuf[t] + x], i + 1)
  {
    hide Filled, Received, Arrival, ArrivedBefore, Flatten, From, To;
    var got := Arrivals(wire, sent, me, []);
    SlotOfStep(me, i, |sent|);
    FlattenAppendTo(rbuf, To(me, i, |sent|), x);
    FilledStep(got, me, rbuf, i);
    ReceivedStep(got, me, i);
    OneMoreArrived(wire, sent, me, i);
  }

  /** alltoall as rank `me` runs it.  `sbufs[f]` is what rank f wants to send; in step i rank f sends its list for
      rank To(f, i).  The lists that arrive end up in their slots, and together they are all that the slots hold. */
  method Alltoall<T>(wire: seq<T> -> Option<seq<T>>, sbufs: seq<seq<seq<T>>>, me: nat)
    returns (r: Option<seq<seq<T>>>)
    requires me < |sbufs| && Square(sbufs)
    ensures r.Some? <==> AllArrive(wire, Column(sbufs, me), me)
    ensures r.Some? ==>
              var got := Arrivals(wire, Column(sbufs, me), me, []);
              && |r.value| == |sbufs| && multiset(Flatten(r.value)) == Union(got, 0, |sbufs|)
              && forall f :: 0 <= f < |sbufs| ==> r.value[Slot(me, f, |sbufs|)] == got[f]
  {
    hide From, To, Slot, Halfway, Flatten, AllArrive, Arrival, Arrivals, Column, Union;
    var n := |sbufs|;
    ghost var sent := Column(sbufs, me);
    var rbuf := seq(n, _ => []);
    rbuf := rbuf[me := sbufs[me][me]];
    OwnSlot(wire, sent, me, rbuf);
    for i := 1 to n
      invariant |rbuf| == n && Halfway(wire, sent, me, rbuf, i)
    {
      FromOther(wire, sent, me, i);
      var f, t := From(me, i, n), To(me, i, n);
      var tmpr := wire(sbufs[f][To(f, i, n)]);
      if tmpr.None? {
        Missing(wire, sent, me, f);
        return None;
      }
      NextSlot(wire, sent, me, rbuf, i, tmpr.value);
      rbuf := rbuf[t := rbuf[t] + tmpr.value];
    }
    AllSlots(wire, sent, me, rbuf);
    r := Some(rbuf);
  }

  lemma AllSlots<T>(wire: seq<T> -> Option<seq<T>>, sent: seq<seq<T>>, me: nat, rbuf: seq<seq<T>>)
    requires me < |sent| && Halfway(wire, sent, me, rbuf, |sent|)
    ensures AllArrive(wire, sent, me)
    ensures var got := Arrivals(wire, sent, me, []);
            && |rbuf| == |sent| && multiset(Flatten(rbuf)) == Union(got, 0, |sent|)
            && forall f :: 0 <= f < |sent| ==> Slot(me, f, |sent|) < |sent| && rbuf[Slot(me, f, |sent|)] == got[f]
  {
    hide Filled, Received, Arrival, ArrivedBefore, Flatten, From, To, Slot, Union, AllArrive;
    var got := Arrivals(wire, sent, me, []);
    ArrivedInAll(wire, sent, me);
    FilledSlots(got, me, rbuf);
    ReceivedAll(got, me);
  }

  lemma Own<M>(wire: M -> Option<M>, sent: seq<M>, me: nat)
    requires me < |sent|
    ensures Arrival(wire, sent, me, me) == Some(sent[me])
  {
  }

  lemma OneMoreArrived<M>(wire: M -> Option<M>, sent: seq<M>, me: nat, i: nat)
    requires me < |sent| && i < |sent| && ArrivedBefore(wire, sent, me, i)
    requires From(me, i, |sent|) < |sent| && Arrival(wire, sent, me, From(me, i, |sent|)).Some?
    ensures ArrivedBefore(wire, sent, me, i + 1)
  {
  }

  /** The lists rank `me` gets in steps 0..k, as one multiset. */
  function Received<T>(got: seq<seq<T>>, me: nat, k: nat): multiset<T>
    requires me < |got| && k <= |got|
  {
    if k == 0 then multiset{}
    else
      RingMatched(me, k - 1, |got|);
      Received(got, me, k - 1) + multiset(got[From(me, k - 1, |got|)])
  }

  lemma ReceivedStep<T>(got: seq<seq<T>>, me: nat, i: nat)
    requires me < |got| && i < |got| && From(me, i, |got|) < |got|
    ensures Received(got, me, i + 1) == Received(got, me, i) + multiset(got[From(me, i, |got|)])
  {
  }

  /** The slots written in steps before i hold what arrived in them, the others are still empty. */
  ghost predicate Filled<T>(got: seq<seq<T>>, me: nat, rbuf: seq<seq<T>>, i: nat)
    requires me < |got| == |rbuf|
  {
    forall k :: 0 <= k < |got| ==>
      var f, t := From(me, k, |got|), To(me, k, |got|);
      f < |got| && t < |got| && rbuf[t] == if k < i then got[f] else []
  }

  lemma FilledFirst<T>(got: seq<seq<T>>, me: nat, rbuf: seq<seq<T>>)
    requires me < |got| == |rbuf|
    requires forall t :: 0 <= t < |rbuf| ==> rbuf[t] == if t == me then got[me] else []
    ensures Filled(got, me, rbuf, 1) && Received(got, me, 1) == multiset(got[me])
  {
    var n := |got|;
    OwnStep(me, n);
    forall k | 0 <= k < n
      ensures From(me, k, n) < n && To(me, k, n) < n && (To(me, k, n) == me <==> k == 0)
    {
      SlotOfStep(me, k, n);
      if To(me, k, n) == me {
        ToInjective(me, 0, k, n);
      }
    }
    assert Received(got, me, 0) == multiset{};
  }

  lemma FilledStep<T>(got: seq<seq<T>>, me: nat, rbuf: seq<seq<T>>, i: nat)
    requires me < |got| == |rbuf| && Filled(got, me, rbuf, i) && i < |got|
    requires From(me, i, |got|) < |got| && To(me, i, |got|) < |got|
    ensures var f, t := From(me, i, |got|), To(me, i, |got|);
            Filled(got, me, rbuf[t := rbuf[t] + got[f]], i + 1)
  {
    var n := |got|;
    var f, t := From(me, i, n), To(me, i, n);
    assert rbuf[t] + got[f] == got[f];
    forall k | 0 <= k < n && k != i
      ensures To(me, k, n) != t
    {
      if To(me, k, n) == t {
        ToInjective(me, i, k, n);
      }
    }
  }

  lemma FilledSlots<T>(got: seq<seq<T>>, me: nat, rbuf: seq<seq<T>>)
    requires me < |got| == |rbuf| && Filled(got, me, rbuf, |got|)
    ensures forall f :: 0 <= f < |got| ==> Slot(me, f, |got|) < |got| && rbuf[Slot(me, f, |got|)] == got[f]
  {
    forall f | 0 <= f < |got|
      ensures Slot(me, f, |got|) < |got| && rbuf[Slot(me, f, |got|)] == got[f]
    {
      SlotOfStep(me, StepOf(me, f, |got|), |got|);
    }
  }

  lemma OwnStep(me: nat, n: nat)
    requires me < n
    ensures From(me, 0, n) == To(me, 0, n) == me
  {
    ModOnce(me, n);
    ModOnce(me + n, n);
  }

  // ---------------------------------------------------------------- all of it

  /** Everything in the lists of ranks a..b. */
  function Union<T>(lists: seq<seq<T>>, a: nat, b: nat): multiset<T>
    requires a <= b <= |lists|
  {
    if a == b then multiset{} else Union(lists, a, b - 1) + multiset(lists[b - 1])
  }

  lemma {:induction false} UnionJoin<T>(lists: seq<seq<T>>, a: nat, b: nat, c: nat)
    requires a <= b <= c <= |lists|
    ensures Union(lists, a, c) == Union(lists, a, b) + Union(lists, b, c)
    decreases c - b
  {
    if b < c {
      UnionJoin(lists, a, b, c - 1);
    }
  }

  /** The lists of `me` and the k - 1 ranks after it on the ring. */
  function Around<T>(got: seq<seq<T>>, me: nat, k: nat): multiset<T>
    requires me < |got| && k <= |got|
  {
    if me + k <= |got| then Union(got, me, me + k) else Union(got, me, |got|) + Union(got, 0, me + k - |got|)
  }

  lemma AroundStep<T>(got: seq<seq<T>>, me: nat, k: nat)
    requires me < |got| && k < |got|
    ensures From(me, k, |got|) < |got|
    ensures Around(got, me, k + 1) == Around(got, me, k) + multiset(got[From(me, k, |got|)])
  {
    ModOnce(me + k, |got|);
  }

  lemma AroundNone<T>(got: seq<seq<T>>, me: nat)
    requires me < |got|
    ensures Around(got, me, 0) == Received(got, me, 0) == multiset{}
  {
  }

  lemma {:induction false} ReceivedAround<T>(got: seq<seq<T>>, me: nat, k: nat)
    requires me < |got| && k <= |got|
    ensures Received(got, me, k) == Around(got, me, k)
  {
    hide Around, Union, Received, From;
    if k == 0 {
      AroundNone(got, me);
    } else {
      var i := k - 1;
      ReceivedAround(got, me, i);
      AroundStep(got, me, i);
      ReceivedStep(got, me, i);
      assert i + 1 == k;
    }
  }

  /** Going once around the ring receives every list. */
  lemma ReceivedAll<T>(got: seq<seq<T>>, me: nat)
    requires me < |got|
    ensures Received(got, me, |got|) == Union(got, 0, |got|)
  {
    ReceivedAround(got, me, |got|);
    UnionJoin(got, 0, me, |got|);
  }

  // ---------------------------------------------------------------- placing triples by hash

  type Triple = Codec.Triple<real>

  /** h: the rank of an nx by ny grid that a triple belongs to. */
  function H(hash: string -> nat, t: Triple, nx: nat, ny: nat): nat
    requires nx > 0 && ny > 0
  {
    (hash(t.row) % nx) * ny + hash(t.col) % ny
  }

  /** Triples of one row id share a row of the grid, triples of one column id a column. */
  lemma HInGrid(hash: string -> nat, t: Triple, nx: nat, ny: nat)
    requires nx > 0 && ny > 0
    ensures H(hash, t, nx, ny) < nx * ny
    ensures H(hash, t, nx, ny) / ny == hash(t.row) % nx
    ensures H(hash, t, nx, ny) % ny == hash(t.col) % ny
  {
    var q, r := hash(t.row) % nx, hash(t.col) % ny;
    DivModOf(q, r, ny, H(hash, t, nx, ny));
    MulMonotone(q + 1, nx, ny);
    assert (q + 1) * ny == q * ny + ny;
  }

  /** The triples that belong to rank k, in order. */
  function Placed(triples: seq<Triple>, hash: string -> nat, nx: nat, ny: nat, k: nat): seq<Triple>
    requires nx > 0 && ny > 0
  {
    if triples == [] then []
    else
      var last := triples[|triples| - 1];
      Placed(triples[..|triples| - 1], hash, nx, ny, k) + if H(hash, last, nx, ny) == k then [last] else []
  }

  /** Placing keeps the order: each triple goes to its rank's list, behind those before it. */
  lemma {:induction false} PlacedInOrder(a: seq<Triple>, t: Triple, b: seq<Triple>, hash: string -> nat, nx: nat,
        ny: nat, k: nat)
    requires nx > 0 && ny > 0
    ensures Placed(a + [t] + b, hash, nx, ny, k)
            == Placed(a, hash, nx, ny, k) + (if H(hash, t, nx, ny) == k then [t] else []) + Placed(b, hash, nx, ny, k)
  {
    hide H;
    var all := a + [t] + b;
    if b == [] {
      assert all[..|all| - 1] == a && all[|all| - 1] == t;
    } else {
      var init := b[..|b| - 1];
      assert all[..|all| - 1] == a + [t] + init && all[|all| - 1] == b[|b| - 1];
      PlacedInOrder(a, t, init, hash, nx, ny, k);
    }
  }

  lemma {:induction false} PlacedCount(triples: seq<Triple>, hash: string -> nat, nx: nat, ny: nat, k: nat, x: Triple)
    requires nx > 0 && ny > 0
    ensures multiset(Placed(triples, hash, nx, ny, k))[x] == if H(hash, x, nx, ny) == k then multiset(triples)[x] else 0
  {
    if triples != [] {
      PlacedCount(triples[..|triples| - 1], hash, nx, ny, k, x);
      assert triples == triples[..|triples| - 1] + [triples[|triples| - 1]];
    }
  }

  /** lines_organize, on lines already split into triples: one slot per rank. */
  method LinesOrganize(triples: seq<Triple>, hash: string -> nat, nx: nat, ny: nat,
        size: nat) returns (slots: seq<seq<Triple>>)
    requires nx > 0 && ny > 0 && nx * ny == size
    ensures |slots| == size && forall k :: 0 <= k < size ==> slots[k] == Placed(triples, hash, nx, ny, k)
  {
    slots := seq(size, _ => []);
    for i := 0 to |triples|
      invariant |slots| == size && forall k :: 0 <= k < size ==> slots[k] == Placed(triples[..i], hash, nx, ny, k)
    {
      HInGrid(hash, triples[i], nx, ny);
      var k := H(hash, triples[i], nx, ny);
      assert triples[..i + 1][..i] == triples[..i];
      slots := slots[k := slots[k] + [triples[i]]];
    }
    assert triples[..|triples|] == triples;
  }

  /** exchange: what rank `me` ends up with, slot after slot. */
  method Exchange<T(!new)>(wire: seq<T> -> Option<seq<T>>, sbufs: seq<seq<seq<T>>>, me: nat)
    returns (stf: Option<seq<T>>)
    requires me < |sbufs| && Square(sbufs)
    ensures Exchanged(wire, sbufs, me, stf)
  {
    var recv := Alltoall(wire, sbufs, me);
    if recv.None? {
      return None;
    }
    var lists := recv.value;
    var all := [];
    for i := 0 to |lists|
      invariant all == Flatten(lists[..i])
    {
      assert lists[..i + 1][..i] == lists[..i];
      all := all + lists[i];
    }
    assert lists[..|lists|] == lists;
    assert SlotAfterSlot(Arrivals(wire, Column(sbufs, me), me, []), me, lists, all);
    stf := Some(all);
  }

  /** Rank `me` ends with exactly the lists that arrive, and fails exactly when one does not. */
  ghost predicate Exchanged<T(!new)>(wire: seq<T> -> Option<seq<T>>, sbufs: seq<seq<seq<T>>>, me: nat,
        stf: Option<seq<T>>)
    requires me < |sbufs| && Square(sbufs)
  {
    && (stf.Some? <==> AllArrive(wire, Column(sbufs, me), me))
    && (stf.Some? ==> multiset(stf.value) == Union(Arrivals(wire, Column(sbufs, me), me, []), 0, |sbufs|))
    && (stf.Some? ==> exists lists :: SlotAfterSlot(Arrivals(wire, Column(sbufs, me), me, []), me, lists, stf.value))
  }

  /** The list is the slots in order, slot To(me, i) holding what arrives in step i. */
  ghost predicate SlotAfterSlot<T(!new)>(got: seq<seq<T>>, me: nat, lists: seq<seq<T>>, all: seq<T>)
    requires me < |got|
  {
    && |lists| == |got| && all == Flatten(lists)
    && forall f: nat :: f < |got| ==> Slot(me, f, |got|) < |got| && lists[Slot(me, f, |got|)] == got[f]
  }

  // ---------------------------------------------------------------- the process grid

  /** The integer square root. */
  function Root(n: nat): (r: nat)
    ensures r * r <= n < (r + 1) * (r + 1)
  {
    if n == 0 then 0
    else
      var r := Root(n - 1);
      if (r + 1) * (r + 1) <= n then r + 1 else r
  }

  ghost predicate Divides(d: nat, n: nat)
  {
    d > 0 && n % d == 0
  }

  ghost predicate NotAbove(d: nat, np: nat)
  {
    d * d <= np
  }

  /** The largest divisor of np up to its root. */
  ghost predicate ShortSide(d: nat, np: nat)
  {
    Divides(d, np) && NotAbove(d, np) && forall e: nat :: Divides(e, np) && NotAbove(e, np) ==> e <= d
  }

  /** npfact2d: the most nearly square grid of np places; when its shorter side would be 1, a single column
      (row-master) or a single row. */
  method NpFact2d(np: nat, rowMaster: bool) returns (nx: nat, ny: nat)
    requires np > 0
    ensures nx * ny == np
    ensures exists d :: ShortSide(d, np) &&
              if rowMaster then nx == (if d == 1 then np else d) else ny == (if d == 1 then np else d)
  {
    var upbnd := Root(np);
    RootPositive(np);
    assert NotAbove(upbnd, np);
    while upbnd - 1 != 0
      invariant 1 <= upbnd && NotAbove(upbnd, np)
      invariant forall e: nat :: Divides(e, np) && NotAbove(e, np) ==> e <= upbnd
    {
      if np % upbnd == 0 {
        Quotient(np, upbnd);
        assert ShortSide(upbnd, np);
        if rowMaster {
          nx, ny := upbnd, np / upbnd;
        } else {
          nx, ny := np / upbnd, upbnd;
        }
        return;
      } else {
        SquareSmaller(upbnd);
        assert !Divides(upbnd, np);
        upbnd := upbnd - 1;
      }
    }
    assert ShortSide(1, np);
    if rowMaster {
      nx, ny := np, 1;
    } else {
      nx, ny := 1, np;
    }
  }

  lemma Quotient(np: nat, d: nat)
    requires d > 0 && np % d == 0
    ensures d * (np / d) == np && (np / d) * d == np
  {
  }

  lemma RootPositive(np: nat)
    requires np > 0
    ensures Root(np) > 0
    ensures forall d: nat :: NotAbove(d, np) ==> d <= Root(np)
  {
    var r := Root(np);
    forall d: nat | d > r
      ensures !NotAbove(d, np)
    {
      MulMonotone(r + 1, d, d);
      MulMonotone(r + 1, d, r + 1);
    }
  }

  lemma SquareSmaller(u: nat)
    requires u > 0
    ensures forall np: nat :: NotAbove(u, np) ==> NotAbove(u - 1, np)
  {
    assert (u - 1) * (u - 1) == u * u - 2 * u + 1;
  }

  /** dim_init: the grid always has as many places as there are ranks. */
  method DimInit(np: nat, pattern: string) returns (npx: nat, npy: nat)
    requires np > 0
    ensures npx * npy == np && npx > 0 && npy > 0
    ensures pattern != "fsmap" && pattern != "smap" ==> npx == np
    ensures pattern == "smap" ==> npy == np
    ensures pattern == "fsmap" ==> exists d :: ShortSide(d, np) && npx == if d == 1 then np else d
  {
    npx, npy := np, 1;
    if pattern == "fsmap" {
      npx, npy := NpFact2d(np, true);
    }
    if pattern == "smap" {
      npx, npy := 1, np;
    }
  }
}