/** All ranks of a tree reduction together (treereduce of include/utils/comm.hpp): one action per turn of a rank's
    loop, ranks in any order, and a receive waits for its message. */
module TreeRun {
  import opened Arith
  import opened Kv
  import opened TreeReduce

  /** What is reduced, and the rank that asked for the result. */
  datatype Job<!T> = Job(data: seq<T>, op: (T, T) -> T, target: nat)

  ghost predicate ValidJob<T(!new)>(g: Job<T>)
  {
    |g.data| > 0 && g.target < |g.data|
  }

  datatype Pc = Looping | After | Done

  /** The variables of one rank; `round` is a history variable that counts the turns of its loop. */
  datatype Rank<T> = Rank(pc: Pc, rk: nat, num: nat, depth: nat, value: T, result: Option<T>, round: nat)

  /** mail[j] is the message rank j has sent up the tree and nobody has received yet; fwd the one from rank 0 to the
      target; sends counts all messages sent. */
  datatype State<T> = State(ranks: seq<Rank<T>>, mail: seq<Option<(nat, T)>>, fwd: Option<T>, sends: nat)

  datatype Action =
    | Send(i: nat)      // an odd rank sends its value and leaves the loop
    | Recv(i: nat)      // an even rank takes in its neighbour's value
    | Skip(i: nat)      // an even rank without a neighbour goes on
    | Stop(i: nat)      // a rank leaves the loop when one group is left
    | Forward           // rank 0 sends the result to the target
    | Collect           // the target receives it
    | Exit(i: nat)      // any other rank returns

  ghost predicate Shape<T(!new)>(g: Job<T>, s: State<T>)
  {
    |s.ranks| == |s.mail| == |g.data|
  }

  ghost predicate InLoop<T(!new)>(g: Job<T>, s: State<T>, i: nat)
    requires Shape(g, s)
  {
    i < |g.data| && s.ranks[i].pc == Looping && s.ranks[i].num > 1 && s.ranks[i].rk < s.ranks[i].num
  }

  ghost predicate Enabled<T(!new)>(g: Job<T>, s: State<T>, a: Action)
    requires Shape(g, s)
  {
    match a
    case Send(i) => InLoop(g, s, i) && s.ranks[i].rk % 2 != 0
    case Recv(i) =>
      && InLoop(g, s, i) && s.ranks[i].rk % 2 == 0 && s.ranks[i].rk != s.ranks[i].num - 1
      && var j := (s.ranks[i].rk + 1) * s.ranks[i].depth;
         j < |s.mail| && s.mail[j].Some? && s.mail[j].value.0 == i
    case Skip(i) => InLoop(g, s, i) && s.ranks[i].rk % 2 == 0 && s.ranks[i].rk == s.ranks[i].num - 1
    case Stop(i) => i < |g.data| && s.ranks[i].pc == Looping && s.ranks[i].num <= 1
    case Forward => 0 < |g.data| && s.ranks[0].pc == After && g.target != 0
    case Collect => g.target < |g.data| && s.ranks[g.target].pc == After && g.target != 0 && s.fwd.Some?
    case Exit(i) => i < |g.data| && s.ranks[i].pc == After && (g.target == 0 || (i != 0 && i != g.target))
  }

  function Halved<T>(r: Rank<T>, value: T): Rank<T>
  {
    r.(rk := r.rk / 2, num := r.num / 2 + r.num % 2, depth := r.depth * 2, value := value, round := r.round + 1)
  }

  ghost function Do<T(!new)>(g: Job<T>, s: State<T>, a: Action): (s': State<T>)
    requires Shape(g, s) && Enabled(g, s, a)
    ensures Shape(g, s')
  {
    match a
    case Send(i) =>
      var r := s.ranks[i];
      var dest: nat := if r.rk > 0 then (r.rk - 1) * r.depth else 0;
      s.(ranks := s.ranks[i := r.(pc := After)], mail := s.mail[i := Some((dest, r.value))], sends := s.sends + 1)
    case Recv(i) =>
      var r := s.ranks[i];
      var j := (r.rk + 1) * r.depth;
      s.(ranks := s.ranks[i := Halved(r, g.op(r.value, s.mail[j].value.1))], mail := s.mail[j := None])
    case Skip(i) => s.(ranks := s.ranks[i := Halved(s.ranks[i], s.ranks[i].value)])
    case Stop(i) => s.(ranks := s.ranks[i := s.ranks[i].(pc := After)])
    case Forward =>
      s.(ranks := s.ranks[0 := s.ranks[0].(pc := Done, result := Some(s.ranks[0].value))],
         fwd := Some(s.ranks[0].value), sends := s.sends + 1)
    case Collect =>
      s.(ranks := s.ranks[g.target := s.ranks[g.target].(pc := Done, result := s.fwd)], fwd := None)
    case Exit(i) =>
      s.(ranks := s.ranks[i := s.ranks[i].(pc := Done, result := if i == 0 then Some(s.ranks[i].value) else None)])
  }

  ghost function Init<T(!new)>(g: Job<T>): State<T>
  {
    var n := |g.data|;
    State(seq(n, i requires 0 <= i < n => Rank(Looping, i, n, 1, g.data[i], None, 0)), seq(n, _ => None), None, 0)
  }

  // ---------------------------------------------------------------- invariant

  function Whole<T>(g: Job<T>): T
    requires |g.data| > 0
  {
    Held(g.data, g.op, 0, Rounds(|g.data|))
  }

  /** Where a rank stands: in round `round` of its loop, or past it with all its rounds done. */
  ghost predicate RankInv<T(!new)>(g: Job<T>, r: Rank<T>, i: nat)
    requires i < |g.data|
  {
    if r.pc == Looping then
      && InRound(|g.data|, i, r.rk, r.num, r.round) && r.depth == Pow(r.round)
      && r.value == Held(g.data, g.op, i, r.round) && r.result == None
      && (i > 0 ==> r.round <= Twos(i)) && (r.round > 0 ==> Pow(r.round - 1) < |g.data|)
    else
      && r.round == Receiving(|g.data|, i) && (i == 0 ==> r.value == Whole(g))
      && r.result == if r.pc == Done && (i == 0 || i == g.target) then Some(Whole(g)) else None
  }

  /** The message of rank j: not sent before j leaves its loop, and there to receive until its receiver has finished
      the round in which it takes it. */
  ghost predicate MailInv<T(!new)>(g: Job<T>, s: State<T>, j: nat)
    requires Shape(g, s) && j < |g.data|
  {
    if j == 0 then s.mail[0] == None
    else
      var d := Dest(j);
      && d < |g.data|
      && (s.ranks[j].pc == Looping ==> s.mail[j] == None && s.ranks[d].round <= Twos(j))
      && (s.ranks[j].pc != Looping ==>
            s.mail[j] == if s.ranks[d].round <= Twos(j) then Some((d, Payload(g.data, g.op, j))) else None)
  }

  ghost predicate FwdInv<T(!new)>(g: Job<T>, s: State<T>)
    requires Shape(g, s) && ValidJob(g)
  {
    && (g.target != 0 && s.ranks[g.target].pc == Done ==> s.ranks[0].pc == Done)
    && s.fwd == if g.target != 0 && s.ranks[0].pc == Done && s.ranks[g.target].pc != Done then Some(Whole(g)) else None
  }

  /** The ranks above 0 and below m that have left their loop. */
  function Left<T>(ranks: seq<Rank<T>>, m: nat): nat
    requires m <= |ranks|
  {
    if m <= 1 then 0 else Left(ranks, m - 1) + if ranks[m - 1].pc != Looping then 1 else 0
  }

  function Forwarded<T>(g: Job<T>, s: State<T>): nat
    requires |s.ranks| > 0
  {
    if g.target != 0 && s.ranks[0].pc == Done then 1 else 0
  }

  ghost predicate Inv<T(!new)>(g: Job<T>, s: State<T>)
  {
    && ValidJob(g) && Shape(g, s) && FwdInv(g, s)
    && (forall i: nat :: i < |g.data| ==> RankInv(g, s.ranks[i], i) && MailInv(g, s, i))
    && s.sends == Left(s.ranks, |g.data|) + Forwarded(g, s)
  }

  lemma {:induction false} LeftSet<T>(ranks: seq<Rank<T>>, i: nat, r: Rank<T>, m: nat)
    requires i < |ranks| && m <= |ranks|
    ensures Left(ranks[i := r], m)
            == Left(ranks, m) + if 0 < i < m
                                then (if r.pc != Looping then 1 else 0) - (if ranks[i].pc != Looping then 1 else 0)
                                else 0
  {
    if m > 1 {
      LeftSet(ranks, i, r, m - 1);
    }
  }

  lemma DestBelow(j: nat)
    requires j > 0
    ensures Dest(j) < j && j == Dest(j) + Pow(Twos(j))
  {
    TwosBound(j);
  }

  lemma InitInv<T(!new)>(g: Job<T>)
    requires ValidJob(g)
    ensures Inv(g, Init(g))
  {
    var s, n := Init(g), |g.data|;
    hide Twos, Dest, Held, Receiving, Whole, Payload, Rounds;
    forall i: nat | i < n
      ensures RankInv(g, s.ranks[i], i) && MailInv(g, s, i)
    {
      FirstRound(g, i);
      if i > 0 {
        DestBelow(i);
      }
    }
    NobodyLeft(s.ranks, n);
  }

  lemma FirstRound<T>(g: Job<T>, i: nat)
    requires i < |g.data|
    ensures Pow(0) == 1 && InRound(|g.data|, i, i, |g.data|, 0) && Held(g.data, g.op, i, 0) == g.data[i]
  {
  }

  lemma {:induction false} NobodyLeft<T>(ranks: seq<Rank<T>>, m: nat)
    requires m <= |ranks| && forall i :: 0 <= i < |ranks| ==> ranks[i].pc == Looping
    ensures Left(ranks, m) == 0
  {
    if m > 1 {
      NobodyLeft(ranks, m - 1);
    }
  }

  /** Rank i moved, from its loop or on from it, and message j with it; all others are as they were. */
  lemma OneMoved<T(!new)>(g: Job<T>, s: State<T>, s': State<T>, i: nat)
    requires Inv(g, s) && Shape(g, s') && i < |g.data| && s'.ranks == s.ranks[i := s'.ranks[i]]
    requires RankInv(g, s'.ranks[i], i) && FwdInv(g, s')
    requires forall j: nat :: j < |g.data| ==> MailInv(g, s', j)
    requires s'.sends == s.sends + Forwarded(g, s') - Forwarded(g, s)
                         + if i > 0 && s.ranks[i].pc == Looping && s'.ranks[i].pc != Looping then 1 else 0
    requires s'.ranks[i].pc == Looping ==> s.ranks[i].pc == Looping
    ensures Inv(g, s')
  {
    hide RankInv, MailInv, FwdInv;
    LeftSet(s.ranks, i, s'.ranks[i], |g.data|);
    forall k: nat | k < |g.data|
      ensures RankInv(g, s'.ranks[k], k)
    {
      assert k != i ==> s'.ranks[k] == s.ranks[k];
    }
  }

  /** A message whose sender, receiver's round and slot did not change. */
  lemma MailKept<T(!new)>(g: Job<T>, s: State<T>, s': State<T>, j: nat)
    requires Shape(g, s) && Shape(g, s') && j < |g.data| && MailInv(g, s, j)
    requires (s'.ranks[j].pc == Looping) == (s.ranks[j].pc == Looping) && s'.mail[j] == s.mail[j]
    requires j > 0 ==> s'.ranks[Dest(j)].round == s.ranks[Dest(j)].round
    ensures MailInv(g, s', j)
  {
    hide Dest, Twos;
  }

  // ---------------------------------------------------------------- one rank, one turn

  lemma SendRank<T(!new)>(g: Job<T>, r: Rank<T>, i: nat)
    requires i < |g.data| && RankInv(g, r, i) && r.pc == Looping && r.rk % 2 != 0
    ensures i > 0 && r.rk > 0 && (r.rk - 1) * r.depth == Dest(i) && r.value == Payload(g.data, g.op, i)
    ensures r.round == Twos(i) && RankInv(g, r.(pc := After), i)
  {
    SendsInRound(|g.data|, i, r.rk, r.num, r.round);
  }

  lemma StopRank<T(!new)>(g: Job<T>, r: Rank<T>, i: nat)
    requires i < |g.data| && RankInv(g, r, i) && r.pc == Looping && r.num <= 1
    ensures i == 0 && RankInv(g, r.(pc := After), i)
  {
    assert r.num == 1;
    LastRound(|g.data|, i, r.rk, r.round);
  }

  /** An even rank's turn: its neighbour is 2^round above it, if there is one, and it goes on to the next round. */
  lemma EvenTurn<T(!new)>(g: Job<T>, r: Rank<T>, i: nat)
    requires i < |g.data| && RankInv(g, r, i) && r.pc == Looping && r.num > 1 && r.rk < r.num && r.rk % 2 == 0
    ensures var j := (r.rk + 1) * r.depth;
            && j == i + Pow(r.round)
            && (if r.rk != r.num - 1
                then j < |g.data| && Dest(j) == i && Twos(j) == r.round
                     && RankInv(g, Halved(r, g.op(r.value, Payload(g.data, g.op, j))), i)
                else j >= |g.data| && RankInv(g, Halved(r, r.value), i))
  {
    hide Held, Sources, Dest, Twos, Payload, InRound, Pow, Receiving, Whole;
    RoundReceives(g.data, g.op, i, r.rk, r.num, r.round);
    Neighbour(|g.data|, i, r.rk, r.num, r.round);
  }

  lemma RankInBounds<T(!new)>(g: Job<T>, r: Rank<T>, i: nat)
    requires i < |g.data| && RankInv(g, r, i) && r.pc == Looping
    ensures r.rk < r.num && r.round <= Rounds(|g.data|)
  {
    RankInRange(|g.data|, i, r.rk, r.num, r.round);
    hide InRound, Held, Twos;
    if r.round > Rounds(|g.data|) {
      PowMonotone(Rounds(|g.data|), r.round - 1);
    }
  }

  // ---------------------------------------------------------------- every action keeps it

  lemma MailSent<T(!new)>(g: Job<T>, s: State<T>, s': State<T>, i: nat)
    requires Shape(g, s) && Shape(g, s') && 0 < i < |g.data| && MailInv(g, s, i)
    requires s.ranks[i].pc == Looping && s'.ranks[i].pc != Looping
    requires s'.mail[i] == Some((Dest(i), Payload(g.data, g.op, i)))
    requires Dest(i) < |g.data| ==> s'.ranks[Dest(i)].round == s.ranks[Dest(i)].round
    ensures MailInv(g, s', i)
  {
    hide Dest, Twos, Payload;
  }

  lemma SendInv<T(!new)>(g: Job<T>, s: State<T>, i: nat)
    requires Inv(g, s) && Enabled(g, s, Send(i))
    ensures Inv(g, Do(g, s, Send(i)))
  {
    var s', r := Do(g, s, Send(i)), s.ranks[i];
    assert RankInv(g, r, i) && MailInv(g, s, i);
    SendRank(g, r, i);
    assert s'.mail[i] == Some((Dest(i), Payload(g.data, g.op, i)));
    hide RankInv, MailInv, Dest, Payload, Pow, Whole, Left;
    forall j: nat | j < |g.data|
      ensures MailInv(g, s', j)
    {
      DestBelow(if j > 0 then j else 1);
      if j == i {
        MailSent(g, s, s', i);
      } else {
        MailKept(g, s, s', j);
      }
    }
    OneMoved(g, s, s', i);
  }

  lemma StopInv<T(!new)>(g: Job<T>, s: State<T>, i: nat)
    requires Inv(g, s) && Enabled(g, s, Stop(i))
    ensures Inv(g, Do(g, s, Stop(i)))
  {
    var s', r := Do(g, s, Stop(i)), s.ranks[i];
    assert RankInv(g, r, i);
    StopRank(g, r, i);
    FirstSlot(g, s, s');
    hide RankInv, MailInv, Dest, Payload, Pow, Whole, Left;
    forall j: nat | j < |g.data|
      ensures MailInv(g, s', j)
    {
      if j > 0 {
        DestBelow(j);
        MailKept(g, s, s', j);
      }
    }
    OneMoved(g, s, s', i);
  }

  lemma FirstSlot<T(!new)>(g: Job<T>, s: State<T>, s': State<T>)
    requires Inv(g, s) && Shape(g, s') && s'.mail[0] == s.mail[0]
    ensures MailInv(g, s', 0)
  {
    assert MailInv(g, s, 0);
  }

  /** A message to a rank that goes on a round, unless it is the one taken in that round. */
  lemma MailLater<T(!new)>(g: Job<T>, s: State<T>, s': State<T>, j: nat)
    requires Shape(g, s) && Shape(g, s') && 0 < j < |g.data| && MailInv(g, s, j) && Dest(j) < |g.data|
    requires (s'.ranks[j].pc == Looping) == (s.ranks[j].pc == Looping) && s'.mail[j] == s.mail[j]
    requires s'.ranks[Dest(j)].round == s.ranks[Dest(j)].round + 1 && s.ranks[Dest(j)].round != Twos(j)
    ensures MailInv(g, s', j)
  {
    hide Dest, Twos, Payload;
  }

  lemma MailTaken<T(!new)>(g: Job<T>, s: State<T>, s': State<T>, j: nat)
    requires Shape(g, s) && Shape(g, s') && 0 < j < |g.data| && MailInv(g, s, j) && Dest(j) < |g.data|
    requires s.mail[j].Some? && s'.mail[j] == None && s'.ranks[j].pc == s.ranks[j].pc
    requires s.ranks[Dest(j)].round == Twos(j) && s'.ranks[Dest(j)].round == Twos(j) + 1
    ensures MailInv(g, s', j) && s.mail[j] == Some((Dest(j), Payload(g.data, g.op, j)))
  {
    hide Dest, Twos, Payload;
  }

  lemma SkipInv<T(!new)>(g: Job<T>, s: State<T>, i: nat)
    requires Inv(g, s) && Enabled(g, s, Skip(i))
    ensures Inv(g, Do(g, s, Skip(i)))
  {
    var s', r := Do(g, s, Skip(i)), s.ranks[i];
    assert RankInv(g, r, i);
    EvenTurn(g, r, i);
    FirstSlot(g, s, s');
    hide RankInv, MailInv, Dest, Payload, Pow, Whole, Left;
    forall j: nat | j < |g.data|
      ensures MailInv(g, s', j)
    {
      if j > 0 {
        DestBelow(j);
        if Dest(j) == i {
          MailLater(g, s, s', j);
        } else {
          MailKept(g, s, s', j);
        }
      }
    }
    OneMoved(g, s, s', i);
  }

  lemma RecvInv<T(!new)>(g: Job<T>, s: State<T>, i: nat)
    requires Inv(g, s) && Enabled(g, s, Recv(i))
    ensures Inv(g, Do(g, s, Recv(i)))
  {
    hide RankInv, MailInv, FwdInv, Left;
    ReceivedInv(g, s, Do(g, s, Recv(i)), i, (s.ranks[i].rk + 1) * s.ranks[i].depth);
  }

  lemma ReceivedInv<T(!new)>(g: Job<T>, s: State<T>, s': State<T>, i: nat, src: nat)
    requires Shape(g, s) && Shape(g, s') && InLoop(g, s, i)
    requires s.ranks[i].rk % 2 == 0 && s.ranks[i].rk != s.ranks[i].num - 1
    requires src < |s.mail| && s.mail[src].Some? && s'.mail == s.mail[src := None]
    requires s'.ranks == s.ranks[i := Halved(s.ranks[i], g.op(s.ranks[i].value, s.mail[src].value.1))]
    requires s'.sends == s.sends && s'.fwd == s.fwd
    requires src == (s.ranks[i].rk + 1) * s.ranks[i].depth && Inv(g, s)
    ensures Inv(g, s')
  {
    hide RankInv, MailInv, Dest, Payload, Pow, Whole, Left, Twos;
    var r := s.ranks[i];
    assert RankInv(g, r, i);
    EvenTurn(g, r, i);
    Taken(g, s, s', i, src);
    FirstSlot(g, s, s');
    forall j: nat | j < |g.data|
      ensures MailInv(g, s', j)
    {
      if j > 0 && j != src {
        OthersMail(g, s, s', i, src, j);
      }
    }
    OneMoved(g, s, s', i);
  }

  lemma Taken<T(!new)>(g: Job<T>, s: State<T>, s': State<T>, i: nat, src: nat)
    requires Inv(g, s) && Shape(g, s') && i < |g.data| && src < |g.data| && src == i + Pow(s.ranks[i].round)
    requires Dest(src) == i && Twos(src) == s.ranks[i].round
    requires s.mail[src].Some? && s'.mail[src] == None
    requires s'.ranks == s.ranks[i := s'.ranks[i]] && s'.ranks[i].round == s.ranks[i].round + 1
    ensures MailInv(g, s', src) && s.mail[src] == Some((i, Payload(g.data, g.op, src)))
  {
    assert MailInv(g, s, src);
    hide RankInv, MailInv, Dest, Twos, Payload, Whole, Left;
    MailTaken(g, s, s', src);
  }

  /** Any other message, when rank i goes on a round. */
  lemma OthersMail<T(!new)>(g: Job<T>, s: State<T>, s': State<T>, i: nat, src: nat, j: nat)
    requires Inv(g, s) && Shape(g, s') && i < |g.data| && 0 < j < |g.data| && j != src
    requires src == i + Pow(s.ranks[i].round) && s'.mail[j] == s.mail[j]
    requires s'.ranks == s.ranks[i := s'.ranks[i]] && s'.ranks[i].round == s.ranks[i].round + 1
    requires s'.ranks[i].pc == s.ranks[i].pc
    ensures MailInv(g, s', j)
  {
    assert MailInv(g, s, j);
    DestBelow(j);
    hide RankInv, MailInv, Dest, Payload, Pow, Whole, Left, Twos;
    if Dest(j) == i {
      MailLater(g, s, s', j);
    } else {
      MailKept(g, s, s', j);
    }
  }

  /** Leaving: nothing of the tree changes any more. */
  lemma LeaveInv<T(!new)>(g: Job<T>, s: State<T>, a: Action)
    requires Inv(g, s) && Enabled(g, s, a) && (a.Forward? || a.Collect? || a.Exit?)
    ensures Inv(g, Do(g, s, a))
  {
    var s' := Do(g, s, a);
    var i := match a case Forward => 0 case Collect => g.target case Exit(i) => i case _ => 0;
    assert RankInv(g, s.ranks[i], i);
    assert RankInv(g, s.ranks[0], 0);
    assert RankInv(g, s'.ranks[i], i) && FwdInv(g, s');
    FirstSlot(g, s, s');
    hide RankInv, MailInv, Dest, Payload, Pow, Whole, Left, FwdInv;
    forall j: nat | j < |g.data|
      ensures MailInv(g, s', j)
    {
      if j > 0 {
        DestBelow(j);
        MailKept(g, s, s', j);
      }
    }
    OneMoved(g, s, s', i);
  }

  lemma StepInv<T(!new)>(g: Job<T>, s: State<T>, a: Action)
    requires Inv(g, s) && Enabled(g, s, a)
    ensures Inv(g, Do(g, s, a))
  {
    hide Inv, Enabled, Do;
    match a
    case Send(i) => SendInv(g, s, i);
    case Recv(i) => RecvInv(g, s, i);
    case Skip(i) => SkipInv(g, s, i);
    case Stop(i) => StopInv(g, s, i);
    case Forward => LeaveInv(g, s, a);
    case Collect => LeaveInv(g, s, a);
    case Exit(i) => LeaveInv(g, s, a);
  }

  // ---------------------------------------------------------------- termination

  function RankWork<T>(r: Rank<T>, rounds: nat): int
  {
    match r.pc
    case Looping => rounds - r.round + 2
    case After => 1
    case Done => 0
  }

  function Work<T>(ranks: seq<Rank<T>>, rounds: nat): int
  {
    if ranks == [] then 0 else Work(ranks[..|ranks| - 1], rounds) + RankWork(ranks[|ranks| - 1], rounds)
  }

  lemma {:induction false} WorkSet<T>(ranks: seq<Rank<T>>, i: nat, r: Rank<T>, rounds: nat)
    requires i < |ranks|
    ensures Work(ranks[i := r], rounds) == Work(ranks, rounds) - RankWork(ranks[i], rounds) + RankWork(r, rounds)
  {
    var last := |ranks| - 1;
    if i == last {
      assert ranks[i := r][..last] == ranks[..last];
    } else {
      assert ranks[i := r][..last] == ranks[..last][i := r];
      WorkSet(ranks[..last], i, r, rounds);
    }
  }

  lemma {:induction false} WorkNotNegative<T>(ranks: seq<Rank<T>>, rounds: nat)
    requires forall i :: 0 <= i < |ranks| ==> RankWork(ranks[i], rounds) >= 0
    ensures Work(ranks, rounds) >= 0
  {
    if ranks != [] {
      WorkNotNegative(ranks[..|ranks| - 1], rounds);
    }
  }

  lemma {:induction false} WorkAtMost<T>(ranks: seq<Rank<T>>, rounds: nat)
    requires forall i :: 0 <= i < |ranks| ==> RankWork(ranks[i], rounds) <= rounds + 2
    ensures Work(ranks, rounds) <= |ranks| * (rounds + 2)
  {
    if ranks != [] {
      WorkAtMost(ranks[..|ranks| - 1], rounds);
      MulPred(|ranks|, rounds + 2);
    }
  }

  lemma StepWorks<T(!new)>(g: Job<T>, s: State<T>, a: Action)
    requires Inv(g, s) && Enabled(g, s, a)
    ensures Work(Do(g, s, a).ranks, Rounds(|g.data|)) < Work(s.ranks, Rounds(|g.data|))
  {
    var s' := Do(g, s, a);
    var i := match a case Forward => 0 case Collect => g.target case Exit(i) => i case Send(i) => i case Recv(i) => i
                     case Skip(i) => i case Stop(i) => i;
    assert s'.ranks == s.ranks[i := s'.ranks[i]];
    if s.ranks[i].pc == Looping {
      assert RankInv(g, s.ranks[i], i);
      RankInBounds(g, s.ranks[i], i);
    }
    hide RankInv, MailInv, FwdInv, Work, Left, Rounds;
    WorkSet(s.ranks, i, s'.ranks[i], Rounds(|g.data|));
  }

  // ---------------------------------------------------------------- runs

  ghost predicate Run<T(!new)>(g: Job<T>, s: State<T>, acts: seq<Action>, t: State<T>)
    requires Shape(g, s)
    decreases |acts|
  {
    if acts == [] then s == t
    else Enabled(g, s, acts[0]) && Run(g, Do(g, s, acts[0]), acts[1..], t)
  }

  lemma {:induction false} RunInv<T(!new)>(g: Job<T>, s: State<T>, acts: seq<Action>, t: State<T>)
    requires Inv(g, s) && Run(g, s, acts, t)
    ensures Inv(g, t) && |acts| + Work(t.ranks, Rounds(|g.data|)) <= Work(s.ranks, Rounds(|g.data|))
    decreases |acts|
  {
    hide Enabled, Do, Work;
    if acts != [] {
      StepInv(g, s, acts[0]);
      StepWorks(g, s, acts[0]);
      RunInv(g, Do(g, s, acts[0]), acts[1..], t);
    }
  }

  ghost predicate Stuck<T(!new)>(g: Job<T>, s: State<T>)
    requires Shape(g, s)
  {
    forall a :: !Enabled(g, s, a)
  }

  lemma NotEnabled<T(!new)>(g: Job<T>, s: State<T>, a: Action)
    requires Shape(g, s) && Stuck(g, s)
    ensures !Enabled(g, s, a)
  {
    hide Enabled;
  }

  /** A stuck rank in its loop is an even one with a neighbour whose message is not there. */
  lemma StuckInLoop<T(!new)>(g: Job<T>, s: State<T>, i: nat)
    requires Shape(g, s) && Stuck(g, s) && i < |g.data| && s.ranks[i].pc == Looping && s.ranks[i].rk < s.ranks[i].num
    ensures var r := s.ranks[i];
            && r.num > 1 && r.rk % 2 == 0 && r.rk != r.num - 1
            && var j := (r.rk + 1) * r.depth;
               j < |g.data| ==> !(s.mail[j].Some? && s.mail[j].value.0 == i)
  {
    hide Stuck;
    NotEnabled(g, s, Send(i));
    NotEnabled(g, s, Skip(i));
    NotEnabled(g, s, Stop(i));
    NotEnabled(g, s, Recv(i));
  }

  /** A rank in its loop can go on unless it waits for a rank above it that is in its loop as well. */
  lemma WaitsForHigher<T(!new)>(g: Job<T>, s: State<T>, i: nat) returns (j: nat)
    requires Inv(g, s) && Stuck(g, s) && i < |g.data| && s.ranks[i].pc == Looping
    ensures i < j < |g.data| && s.ranks[j].pc == Looping
  {
    hide Stuck, Enabled, RankInv, MailInv, FwdInv, Left, Dest, Twos, Payload;
    var r := s.ranks[i];
    assert RankInv(g, r, i);
    RankInBounds(g, r, i);
    StuckInLoop(g, s, i);
    EvenTurn(g, r, i);
    j := (r.rk + 1) * r.depth;
    assert MailInv(g, s, j);
    Waiting(g, s, i, j);
  }

  lemma Waiting<T(!new)>(g: Job<T>, s: State<T>, i: nat, j: nat)
    requires Shape(g, s) && i < |g.data| && 0 < j < |g.data| && MailInv(g, s, j)
    requires Dest(j) == i && Twos(j) == s.ranks[i].round
    ensures s.ranks[j].pc != Looping ==> s.mail[j].Some? && s.mail[j].value.0 == i
  {
    hide Dest, Twos, Payload;
  }

  lemma {:induction false} NobodyWaits<T(!new)>(g: Job<T>, s: State<T>, i: nat)
    requires Inv(g, s) && Stuck(g, s) && i < |g.data|
    ensures s.ranks[i].pc != Looping
    decreases |g.data| - i
  {
    if s.ranks[i].pc == Looping {
      var j := WaitsForHigher(g, s, i);
      NobodyWaits(g, s, j);
    }
  }

  lemma {:induction false} AllLeft<T>(ranks: seq<Rank<T>>, m: nat)
    requires m <= |ranks| && forall i :: 0 <= i < |ranks| ==> ranks[i].pc != Looping
    ensures Left(ranks, m) == if m > 0 then m - 1 else 0
  {
    if m > 1 {
      AllLeft(ranks, m - 1);
    }
  }

  ghost predicate Finished<T(!new)>(g: Job<T>, s: State<T>)
    requires Shape(g, s)
  {
    && (forall i :: 0 <= i < |g.data| ==> s.ranks[i].pc == Done && s.mail[i] == None)
    && s.fwd == None
  }

  /** No deadlock: when nothing can happen every rank has returned and every message has been received. */
  lemma StuckIsFinished<T(!new)>(g: Job<T>, s: State<T>)
    requires Inv(g, s) && Stuck(g, s)
    ensures Finished(g, s) && s.sends == |g.data| - 1 + if g.target != 0 then 1 else 0
  {
    hide RankInv, MailInv, Left;
    forall i | 0 <= i < |g.data|
      ensures s.ranks[i].pc == Done
    {
      StuckIsDone(g, s, i);
    }
    AllLeft(s.ranks, |g.data|);
    assert g.target < |g.data| && FwdInv(g, s);
    assert s.ranks[0].pc == Done && s.ranks[g.target].pc == Done;
    hide Enabled;
    forall j: nat | j < |g.data|
      ensures s.mail[j] == None
    {
      assert MailInv(g, s, j);
      NoMoreMail(g, s, j);
    }
  }

  lemma StuckIsDone<T(!new)>(g: Job<T>, s: State<T>, i: nat)
    requires Inv(g, s) && Stuck(g, s) && i < |g.data|
    ensures s.ranks[i].pc == Done
  {
    hide Stuck, RankInv, MailInv, FwdInv, Left;
    NobodyWaits(g, s, i);
    NobodyWaits(g, s, 0);
    NobodyWaits(g, s, g.target);
    OutOfLoopIsDone(g, s, i);
  }

  lemma OutOfLoopIsDone<T(!new)>(g: Job<T>, s: State<T>, i: nat)
    requires ValidJob(g) && Shape(g, s) && FwdInv(g, s) && Stuck(g, s) && i < |g.data|
    requires s.ranks[i].pc != Looping && s.ranks[0].pc != Looping && s.ranks[g.target].pc != Looping
    ensures s.ranks[i].pc == Done
  {
    hide Stuck, Held, Rounds;
    NotEnabled(g, s, Forward);
    NotEnabled(g, s, Collect);
    NotEnabled(g, s, Exit(i));
  }

  /** A rank that has done its rounds has taken every message meant for it. */
  lemma NoMoreMail<T(!new)>(g: Job<T>, s: State<T>, j: nat)
    requires Inv(g, s) && j < |g.data| && forall i :: 0 <= i < |g.data| ==> s.ranks[i].pc == Done
    ensures s.mail[j] == None
  {
    assert MailInv(g, s, j);
    if j > 0 {
      DestBelow(j);
      assert RankInv(g, s.ranks[Dest(j)], Dest(j));
      hide Dest, Twos, Pow, Payload, Whole, Left, FwdInv;
      Matched(|g.data|, Dest(j), j);
    }
  }

  /** A tree reduction of any number of ranks, whatever their relative speed: every run is finite, and when nothing
      more can happen every rank has returned, exactly n - 1 messages have gone up the tree and one more to a target
      other than rank 0, all of them received; rank 0 and the target have the fold of all data in rank order. */
  lemma EveryRankReturns<T(!new)>(g: Job<T>, acts: seq<Action>, t: State<T>)
    requires ValidJob(g) && Associative(g.op) && Run(g, Init(g), acts, t)
    ensures Shape(g, t) && |acts| <= |g.data| * (Rounds(|g.data|) + 2)
    ensures Stuck(g, t) ==>
              && Finished(g, t) && t.sends == |g.data| - 1 + (if g.target != 0 then 1 else 0)
              && forall i :: 0 <= i < |g.data| ==>
                   t.ranks[i].result == if i == 0 || i == g.target then Some(Fold(g.data, g.op, 0, |g.data|)) else None
  {
    InitInv(g);
    RunInv(g, Init(g), acts, t);
    WorkLeft(g, t);
    WorkAtMost(Init(g).ranks, Rounds(|g.data|));
    if Stuck(g, t) {
      StuckIsFinished(g, t);
      ReducesInRankOrder(g.data, g.op);
      hide Rounds, Held, Fold, Associative, MailInv, FwdInv, Left;
      forall i: nat | i < |g.data|
        ensures t.ranks[i].result == if i == 0 || i == g.target then Some(Fold(g.data, g.op, 0, |g.data|)) else None
      {
        assert RankInv(g, t.ranks[i], i);
      }
    }
  }

  lemma WorkLeft<T(!new)>(g: Job<T>, t: State<T>)
    requires Inv(g, t)
    ensures Work(t.ranks, Rounds(|g.data|)) >= 0
  {
    hide Rounds, MailInv, FwdInv, Left;
    forall i: nat | i < |g.data|
      ensures RankWork(t.ranks[i], Rounds(|g.data|)) >= 0
    {
      assert RankInv(g, t.ranks[i], i);
      if t.ranks[i].pc == Looping {
        RankInBounds(g, t.ranks[i], i);
      }
    }
    WorkNotNegative(t.ranks, Rounds(|g.data|));
  }
}
