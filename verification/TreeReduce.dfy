/** The tree reduction of include/utils/comm.hpp: every rank runs the same loop, and a combine function that need
    not be commutative must meet the ranks' data in rank order. */
module TreeReduce {
  import opened Arith
  import opened Kv

  // ---------------------------------------------------------------- powers of two

  function Pow(k: nat): nat
    ensures Pow(k) > 0
  {
    if k == 0 then 1 else 2 * Pow(k - 1)
  }

  /** The number of times 2 divides j. */
  function Twos(j: nat): nat
    requires j > 0
  {
    if j % 2 != 0 then 0 else 1 + Twos(j / 2)
  }

  lemma TwosDouble(j: nat)
    requires j > 0
    ensures Twos(2 * j) == 1 + Twos(j)
  {
    assert 2 * j / 2 == j;
  }

  lemma PowDouble(q: nat, k: nat)
    requires k > 0
    ensures q * Pow(k) == 2 * (q * Pow(k - 1))
  {
    MulAssociative(q, 2, Pow(k - 1));
  }

  lemma {:induction false} TwosScaled(q: nat, k: nat)
    requires q > 0
    ensures q * Pow(k) > 0 && Twos(q * Pow(k)) == k + Twos(q)
  {
    if k > 0 {
      TwosScaled(q, k - 1);
      PowDouble(q, k);
      TwosDouble(q * Pow(k - 1));
    } else {
      assert q * Pow(0) == q;
    }
  }

  lemma {:induction false} TwosSplit(j: nat) returns (q: nat)
    requires j > 0
    ensures j == (2 * q + 1) * Pow(Twos(j))
  {
    if j % 2 != 0 {
      q := j / 2;
      assert Pow(0) == 1;
    } else {
      q := TwosSplit(j / 2);
      assert Pow(Twos(j)) == 2 * Pow(Twos(j / 2));
      assert (2 * q + 1) * Pow(Twos(j)) == 2 * ((2 * q + 1) * Pow(Twos(j / 2)));
    }
  }

  lemma {:induction false} PowMonotone(a: nat, b: nat)
    requires a <= b
    ensures Pow(a) <= Pow(b)
    decreases b - a
  {
    if a < b {
      PowMonotone(a, b - 1);
    }
  }

  // ---------------------------------------------------------------- what the ranks hold

  ghost predicate Associative<T(!new)>(op: (T, T) -> T)
  {
    forall x, y, z {:trigger op(op(x, y), z)} {:trigger op(x, op(y, z))} :: op(op(x, y), z) == op(x, op(y, z))
  }

  /** data[a] op data[a + 1] op ... op data[b - 1], from the left. */
  function Fold<T>(data: seq<T>, op: (T, T) -> T, a: nat, b: nat): T
    requires a < b <= |data|
  {
    if b == a + 1 then data[a] else op(Fold(data, op, a, b - 1), data[b - 1])
  }

  lemma {:induction false} FoldJoin<T(!new)>(data: seq<T>, op: (T, T) -> T, a: nat, b: nat, c: nat)
    requires Associative(op) && a < b < c <= |data|
    ensures Fold(data, op, a, c) == op(Fold(data, op, a, b), Fold(data, op, b, c))
    decreases c
  {
    if b < c - 1 {
      FoldJoin(data, op, a, b, c - 1);
    }
  }

  /** What rank r holds after k rounds, following the messages: its own value combined, in turn, with what the
      ranks r + 1, r + 2, r + 4, ... sent it. */
  function Held<T>(data: seq<T>, op: (T, T) -> T, r: nat, k: nat): T
    requires r < |data|
    decreases k
  {
    if k == 0 then data[r]
    else if r + Pow(k - 1) < |data|
    then op(Held(data, op, r, k - 1), Held(data, op, r + Pow(k - 1), k - 1))
    else Held(data, op, r, k - 1)
  }

  lemma {:induction false} HeldIsFold<T(!new)>(data: seq<T>, op: (T, T) -> T, r: nat, k: nat)
    requires Associative(op) && r < |data|
    ensures Held(data, op, r, k) == Fold(data, op, r, Min(r + Pow(k), |data|))
    decreases k
  {
    if k > 0 {
      HeldIsFold(data, op, r, k - 1);
      if r + Pow(k - 1) < |data| {
        HeldIsFold(data, op, r + Pow(k - 1), k - 1);
        FoldJoin(data, op, r, r + Pow(k - 1), Min(r + Pow(k), |data|));
      }
    }
  }

  // ---------------------------------------------------------------- who talks to whom

  lemma {:induction false} TwosBound(j: nat)
    requires j > 0
    ensures Pow(Twos(j)) <= j
  {
    if j % 2 == 0 {
      TwosBound(j / 2);
    }
  }

  /** The rank that rank j > 0 sends to, once, in round Twos(j). */
  function Dest(j: nat): nat
    requires j > 0
  {
    TwosBound(j);
    j - Pow(Twos(j))
  }

  /** The sources i + 1, i + 2, i + 4, ... of rank i in its first k rounds, in order. */
  function Sources(n: nat, i: nat, k: nat): seq<nat>
  {
    if k == 0 then []
    else Sources(n, i, k - 1) + if i + Pow(k - 1) < n then [i + Pow(k - 1)] else []
  }

  /** Rounds of a run of n ranks: the least k with 2^k >= n, that is ceil(log2 n). */
  function Rounds(n: nat): (k: nat)
    requires n > 0
    ensures n <= Pow(k) && (k > 0 ==> Pow(k - 1) < n)
  {
    if n == 1 then 0 else 1 + Rounds((n + 1) / 2)
  }

  lemma RoundsUnique(n: nat, k: nat)
    requires n > 0 && n <= Pow(k) && (k > 0 ==> Pow(k - 1) < n)
    ensures k == Rounds(n)
  {
    if k < Rounds(n) {
      PowMonotone(k, Rounds(n) - 1);
    } else if k > Rounds(n) {
      PowMonotone(Rounds(n), k - 1);
    }
  }

  /** The rounds in which rank i receives: until it sends, or to the end for rank 0. */
  function Receiving(n: nat, i: nat): nat
    requires i < n
  {
    if i == 0 then Rounds(n) else Twos(i)
  }

  lemma {:induction false} InSources(n: nat, i: nat, k: nat, j: nat)
    ensures j in Sources(n, i, k) <==> j < n && exists m :: 0 <= m < k && j == i + Pow(m)
  {
    if k > 0 {
      InSources(n, i, k - 1, j);
      if j < n && j == i + Pow(k - 1) {
        assert j in Sources(n, i, k);
      }
      assert j in Sources(n, i, k) <==> j in Sources(n, i, k - 1) || (j < n && j == i + Pow(k - 1));
    }
  }

  /** A rank receives from nearer ranks first, and from none twice. */
  lemma {:induction false} SourcesAscend(n: nat, i: nat, k: nat, a: nat, b: nat)
    requires a < b < |Sources(n, i, k)|
    ensures Sources(n, i, k)[a] < Sources(n, i, k)[b]
  {
    if b < |Sources(n, i, k - 1)| {
      SourcesAscend(n, i, k - 1, a, b);
    } else {
      var x := Sources(n, i, k - 1)[a];
      InSources(n, i, k - 1, x);
      var m :| 0 <= m < k - 1 && x == i + Pow(m);
      PowMonotone(m + 1, k - 1);
    }
  }

  /** Sends and receives match up: i waits for a message from j exactly when j sends one to i, in one and the same
      round.  So each of the n - 1 ranks above 0 sends one message, and it is received. */
  lemma Matched(n: nat, i: nat, j: nat)
    requires i < n && j < n
    ensures j in Sources(n, i, Receiving(n, i)) <==> j > 0 && Dest(j) == i
    ensures j > 0 && Dest(j) == i ==> Twos(j) < Receiving(n, i) && j == i + Pow(Twos(j))
  {
    InSources(n, i, Receiving(n, i), j);
    if j in Sources(n, i, Receiving(n, i)) {
      var m :| 0 <= m < Receiving(n, i) && j == i + Pow(m);
      SourceSendsHere(i, m);
    }
    if j > 0 && Dest(j) == i {
      var q := TwosSplit(j);
      DestReceives(n, i, j, q);
    }
  }

  lemma SourceSendsHere(i: nat, m: nat)
    requires i > 0 ==> m < Twos(i)
    ensures Twos(i + Pow(m)) == m && Dest(i + Pow(m)) == i
  {
    if i == 0 {
      TwosScaled(1, m);
      assert 1 * Pow(m) == Pow(m);
    } else {
      var r := TwosAbove(i, m);
      assert i + Pow(m) == (2 * r + 1) * Pow(m);
      TwosScaled(2 * r + 1, m);
    }
  }

  /** Below the number of twos in i, i is an even multiple of each power. */
  lemma {:induction false} TwosAbove(i: nat, m: nat) returns (r: nat)
    requires i > 0 && m < Twos(i)
    ensures i == 2 * r * Pow(m)
  {
    if m == 0 {
      r := i / 2;
      assert Pow(0) == 1;
    } else {
      r := TwosAbove(i / 2, m - 1);
      PowDouble(2 * r, m);
    }
  }

  lemma DestReceives(n: nat, i: nat, j: nat, q: nat)
    requires 0 < j < n && Dest(j) == i && j == (2 * q + 1) * Pow(Twos(j))
    ensures i < n && Twos(j) < Receiving(n, i)
  {
    var m := Twos(j);
    assert i == 2 * q * Pow(m);
    if i == 0 {
      if m >= Rounds(n) {
        PowMonotone(Rounds(n), m);
      }
    } else {
      assert q > 0;
      assert i == q * Pow(m + 1);
      TwosScaled(q, m + 1);
    }
  }

  lemma MulAssociative(x: int, y: int, z: int)
    ensures x * y * z == x * (y * z)
  {
  }

  /** What ends up at rank 0 is the fold of all ranks' data in rank order. */
  lemma ReducesInRankOrder<T(!new)>(data: seq<T>, op: (T, T) -> T)
    requires Associative(op) && |data| > 0
    ensures Held(data, op, 0, Rounds(|data|)) == Fold(data, op, 0, |data|)
  {
    HeldIsFold(data, op, 0, Rounds(|data|));
  }

  // ---------------------------------------------------------------- one rank's program

  /** The message rank j > 0 sends upwards, given what it holds by then. */
  function Payload<T>(data: seq<T>, op: (T, T) -> T, j: nat): T
    requires 0 < j < |data|
  {
    Held(data, op, j, Twos(j))
  }

  /** Where the loop stands after k rounds: `me` is rank rk among num groups of Pow(k) ranks each. */
  ghost predicate InRound(n: nat, me: nat, rk: nat, num: nat, k: nat)
  {
    num > 0 && me == rk * Pow(k) && (num - 1) * Pow(k) < n <= num * Pow(k)
  }

  lemma RankInRange(n: nat, me: nat, rk: nat, num: nat, k: nat)
    requires InRound(n, me, rk, num, k) && me < n
    ensures rk < num
  {
    if rk >= num {
      MulMonotone(num, rk, Pow(k));
    }
  }

  lemma OddRank(rk: nat, k: nat)
    requires rk % 2 != 0
    ensures rk * Pow(k) > 0 && Twos(rk * Pow(k)) == k && Dest(rk * Pow(k)) == (rk - 1) * Pow(k)
  {
    TwosScaled(rk, k);
    MulPred(rk, Pow(k));
  }

  lemma EvenRank(rk: nat, k: nat)
    requires rk % 2 == 0
    ensures rk * Pow(k) == (rk / 2) * Pow(k + 1)
    ensures rk * Pow(k) > 0 ==> k + 1 <= Twos(rk * Pow(k))
  {
    MulAssociative(rk / 2, 2, Pow(k));
    if rk > 0 {
      TwosScaled(rk, k);
    }
  }

  /** An even rank is joined by its neighbour, if there is one, in round k. */
  lemma Neighbour(n: nat, me: nat, rk: nat, num: nat, k: nat)
    requires InRound(n, me, rk, num, k) && rk < num && rk % 2 == 0
    ensures (rk + 1) * Pow(k) == me + Pow(k)
    ensures me + Pow(k) < n <==> rk != num - 1
    ensures rk != num - 1 ==> Dest(me + Pow(k)) == me && Twos(me + Pow(k)) == k
  {
    MulPred(rk, Pow(k));
    if rk != num - 1 {
      MulMonotone(rk + 1, num - 1, Pow(k));
      OddRank(rk + 1, k);
    }
  }

  lemma SendsInRound(n: nat, me: nat, rk: nat, num: nat, k: nat)
    requires InRound(n, me, rk, num, k) && rk % 2 != 0
    ensures me > 0 && Twos(me) == k && Dest(me) == (rk - 1) * Pow(k)
  {
    OddRank(rk, k);
  }

  /** One group is left: only rank 0 gets there without sending, after all rounds. */
  lemma LastRound(n: nat, me: nat, rk: nat, k: nat)
    requires InRound(n, me, rk, 1, k) && me < n && (k > 0 ==> Pow(k - 1) < n)
    ensures me == 0 && k == Rounds(n)
  {
    RankInRange(n, me, rk, 1, k);
    RoundsUnique(n, k);
  }

  lemma NextRound(n: nat, me: nat, rk: nat, num: nat, k: nat)
    requires InRound(n, me, rk, num, k) && rk % 2 == 0 && num > 1
    ensures InRound(n, me, rk / 2, num / 2 + num % 2, k + 1) && 0 < num / 2 + num % 2 < num
    ensures Pow(k) < n && (me > 0 ==> k + 1 <= Twos(me))
  {
    EvenRank(rk, k);
    Halve(num, Pow(k), n);
  }

  lemma Halve(num: nat, d: nat, n: nat)
    requires num > 1 && (num - 1) * d < n <= num * d
    ensures var num' := num / 2 + num % 2;
            0 < num' < num && (num' - 1) * (2 * d) < n <= num' * (2 * d)
    ensures d < n
  {
    var num' := num / 2 + num % 2;
    MulMonotone(1, num - 1, d);
    assert num' * (2 * d) == (2 * num') * d && (num' - 1) * (2 * d) == (2 * num' - 2) * d;
    MulMonotone(num, 2 * num', d);
    MulMonotone(2 * num' - 2, num - 1, d);
  }

  /** An even rank's round: it takes in its neighbour's message, if it has a neighbour, and stays in the game. */
  lemma RoundReceives<T>(data: seq<T>, op: (T, T) -> T, me: nat, rk: nat, num: nat, k: nat)
    requires InRound(|data|, me, rk, num, k) && me < |data| && rk < num && rk % 2 == 0 && num > 1
    ensures var n, j := |data|, (rk + 1) * Pow(k);
            if rk != num - 1 then
              && 0 < j < n && Dest(j) == me
              && Held(data, op, me, k + 1) == op(Held(data, op, me, k), Payload(data, op, j))
              && Sources(n, me, k + 1) == Sources(n, me, k) + [j]
            else
              Held(data, op, me, k + 1) == Held(data, op, me, k) && Sources(n, me, k + 1) == Sources(n, me, k)
    ensures InRound(|data|, me, rk / 2, num / 2 + num % 2, k + 1) && 0 < num / 2 + num % 2 < num
    ensures Pow(k) < |data| && (me > 0 ==> k + 1 <= Twos(me)) && Pow(k + 1) == Pow(k) * 2
  {
    Neighbour(|data|, me, rk, num, k);
    NextRound(|data|, me, rk, num, k);
    hide Twos, Dest, InRound;
  }

  /** treereduce as rank `me` runs it.  `inbox(j)` is the message received from rank j; it is what rank j's own run
      sends, which by this very contract is Payload(j).  `sent` is the one message this rank sends upwards, `got`
      the ranks it received from, `r` the result at the requested rank and at rank 0. */
  method TreeReduce<T(!new)>(ghost data: seq<T>, op: (T, T) -> T, n: nat, me: nat, mine: T, inbox: nat -> T, rank: nat)
    returns (r: Option<T>, sent: Option<(nat, T)>, got: seq<nat>, forwarded: Option<(nat, T)>)
    requires me < n == |data| && mine == data[me] && rank < n
    requires forall j :: 0 < j < n && Dest(j) == me ==> inbox(j) == Payload(data, op, j)
    requires me == rank != 0 ==> inbox(0) == Held(data, op, 0, Rounds(n))
    ensures sent == if me == 0 then None else Some((Dest(me), Payload(data, op, me)))
    ensures got == Sources(n, me, Receiving(n, me))
    ensures r == if me == 0 || me == rank then Some(Held(data, op, 0, Rounds(n))) else None
    ensures forwarded == if me == 0 && rank != 0 then Some((rank, Held(data, op, 0, Rounds(n)))) else None
  {
    hide Twos, Dest, Associative;
    assert Pow(0) == 1 && Held(data, op, me, 0) == data[me] && Sources(n, me, 0) == [];
    assert InRound(n, me, me, n, 0);
    hide Held, Sources, Pow, InRound, Payload;
    var value := mine;
    var rk, num, isOdd, depth := me, n, 0, 1;
    sent, got, forwarded, r := None, [], None, None;
    ghost var k := 0;
    while num > 1
      invariant num >= 1 && depth == Pow(k) && InRound(n, me, rk, num, k)
      invariant k > 0 ==> Pow(k - 1) < n
      invariant value == Held(data, op, me, k) && got == Sources(n, me, k)
      invariant sent.None? && (me > 0 ==> k <= Twos(me))
      decreases num
    {
      RankInRange(n, me, rk, num, k);
      if rk < num {
        isOdd := num % 2;
        if rk % 2 != 0 {
          SendsInRound(n, me, rk, num, k);
          assert value == Payload(data, op, me);
          sent := Some(((rk - 1) * depth, value));
          rk := rk * num;
          break;
        } else {
          RoundReceives(data, op, me, rk, num, k);
          if rk != num - 1 {
            var recvbuf := inbox((rk + 1) * depth);
            value := op(value, recvbuf);
            got := got + [(rk + 1) * depth];
          }
          rk := rk / 2;
        }
        depth := depth * 2;
      }
      num := num / 2 + isOdd;
      k := k + 1;
    }
    if sent.None? {
      LastRound(n, me, rk, k);
    }
    if me == 0 {
      r := Some(value);
    }
    if rank != 0 {
      if me == 0 {
        forwarded := Some((rank, value));
      }
      if me == rank {
        r := Some(inbox(0));
      }
    }
  }
}
