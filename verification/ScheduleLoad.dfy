/** The dynamic loader's leader/worker protocol (schedule_load of src/scheduler.cpp) as a step system:
    one action per message operation, channels from the leader are per-worker FIFO queues, and the
    leader's inbox may be served in any order. */
module ScheduleLoad {
  import opened Arith
  import Loader

  datatype Config = Config(sz: nat, blk: nat)  // ranks (rank 0 leads) and tasks per rank

  ghost predicate ValidConfig(c: Config)
  {
    c.sz > 0 && c.blk > 0
  }

  function NTasks(c: Config): int
  {
    c.sz * c.blk
  }

  /** The leader loops while its control count is below this bound. */
  function Bound(c: Config): int
  {
    NTasks(c) + c.sz - 2
  }

  datatype Pc = Top | WaitCnt | WaitFlag | Exited

  datatype Worker = Worker(pc: Pc, cnt: int, flag: int, loaded: seq<int>)

  datatype Leader = Receiving | SendingCnt(src: nat) | SendingFlag(src: nat)

  /** `given` is a history variable: given[t - blk] is the rank that task t was handed to. */
  datatype State = State(
    workers: seq<Worker>, inbox: set<nat>, chan: seq<seq<int>>,
    leader: Leader, cnt: int, flag: int, control: int, given: seq<nat>)

  datatype Action =
    | Request(i: nat)   // a worker passes both tests at the top of its loop and sends its rank
    | Exit(i: nat)      // a worker leaves its loop
    | Accept(i: nat)    // the leader receives the request of rank i
    | ReplyCnt          // the leader sends cnt
    | ReplyFlag         // the leader sends flag
    | TakeCnt(i: nat)   // a worker receives cnt
    | TakeFlag(i: nat)  // a worker receives flag, and loads its task unless the flag is set

  ghost predicate Shape(c: Config, s: State)
  {
    |s.workers| == |s.chan| == c.sz
  }

  predicate IsWorker(c: Config, i: nat)
  {
    0 < i < c.sz
  }

  ghost predicate Enabled(c: Config, s: State, a: Action)
    requires Shape(c, s)
  {
    match a
    case Request(i) => IsWorker(c, i) && s.workers[i].pc == Top && !Leaving(c, s.workers[i])
    case Exit(i) => IsWorker(c, i) && s.workers[i].pc == Top && Leaving(c, s.workers[i])
    case Accept(i) => IsWorker(c, i) && s.leader == Receiving && s.control < Bound(c) && i in s.inbox
    case ReplyCnt => s.leader.SendingCnt? && s.leader.src < c.sz
    case ReplyFlag => s.leader.SendingFlag? && s.leader.src < c.sz
    case TakeCnt(i) => IsWorker(c, i) && s.workers[i].pc == WaitCnt && s.chan[i] != []
    case TakeFlag(i) => IsWorker(c, i) && s.workers[i].pc == WaitFlag && s.chan[i] != []
  }

  predicate Leaving(c: Config, w: Worker)
  {
    w.flag != 0 || w.cnt == NTasks(c) - 1
  }

  ghost function Do(c: Config, s: State, a: Action): (s': State)
    requires Shape(c, s) && Enabled(c, s, a)
    ensures Shape(c, s')
  {
    match a
    case Request(i) =>
      s.(workers := s.workers[i := s.workers[i].(pc := WaitCnt)], inbox := s.inbox + {i})
    case Exit(i) =>
      s.(workers := s.workers[i := s.workers[i].(pc := Exited)])
    case Accept(i) =>
      s.(control := s.control + 1, inbox := s.inbox - {i}, leader := SendingCnt(i),
         cnt := if s.flag == 0 then s.cnt + 1 else s.cnt,
         given := if s.flag == 0 then s.given + [i] else s.given)
    case ReplyCnt =>
      var i := s.leader.src;
      s.(chan := s.chan[i := s.chan[i] + [s.cnt]], leader := SendingFlag(i))
    case ReplyFlag =>
      var i := s.leader.src;
      s.(chan := s.chan[i := s.chan[i] + [s.flag]], leader := Receiving,
         flag := if s.cnt == NTasks(c) - 1 && s.flag == 0 then 1 else s.flag)
    case TakeCnt(i) =>
      s.(workers := s.workers[i := s.workers[i].(pc := WaitFlag, cnt := s.chan[i][0])],
         chan := s.chan[i := s.chan[i][1..]])
    case TakeFlag(i) =>
      var w := s.workers[i];
      var f := s.chan[i][0];
      s.(workers := s.workers[i := w.(pc := Top, flag := f, loaded := if f == 0 then w.loaded + [w.cnt] else w.loaded)],
         chan := s.chan[i := s.chan[i][1..]])
  }

  ghost function Init(c: Config): State
  {
    State(seq(c.sz, _ => Worker(Top, c.blk - 1, 0, [])), {}, seq(c.sz, _ => []),
          Receiving, c.blk - 1, 0, c.blk, [])
  }

  // ---------------------------------------------------------------- invariant

  /** The tasks handed to rank r, in order. */
  function TasksOf(given: seq<nat>, blk: nat, r: nat): seq<int>
  {
    if given == [] then []
    else TasksOf(given[..|given| - 1], blk, r)
         + (if given[|given| - 1] == r then [blk + |given| - 1] else [])
  }

  predicate Serving(s: State, i: nat)
  {
    s.leader != Receiving && s.leader.src == i
  }

  /** A pair (cnt, flag) the leader may have sent to rank i: a task handed to it, or the end signal. */
  ghost predicate ReplyOk(c: Config, s: State, cnt: int, flag: int)
  {
    cnt <= s.cnt && (flag == 0 || (flag == 1 && s.flag == 1 && cnt == NTasks(c) - 1))
  }

  /** The numbers rank i has still to receive of its current reply, whether or not they were sent yet. */
  ghost function Incoming(s: State, i: nat): seq<int>
    requires i < |s.chan|
  {
    if Serving(s, i) then (if s.leader.SendingCnt? then s.chan[i] + [s.cnt, s.flag] else s.chan[i] + [s.flag])
    else s.chan[i]
  }

  /** The task rank i was handed and has not loaded yet. */
  ghost function Outstanding(s: State, i: nat): seq<int>
    requires i < |s.chan| == |s.workers|
  {
    var q := Incoming(s, i);
    if |q| == 2 && q[1] == 0 then [q[0]]
    else if |q| == 1 && q[0] == 0 then [s.workers[i].cnt]
    else []
  }

  /** Rank i has been, or is being, answered with the last task number: it will leave its loop. */
  ghost predicate Finishing(c: Config, s: State, i: nat)
    requires i < |s.chan| == |s.workers|
  {
    var q := Incoming(s, i);
    if |q| == 2 then q[0] == NTasks(c) - 1 else s.workers[i].cnt == NTasks(c) - 1
  }

  ghost predicate WorkerInv(c: Config, s: State, i: nat)
    requires Shape(c, s) && i < c.sz
  {
    var w, q := s.workers[i], Incoming(s, i);
    && w.loaded + Outstanding(s, i) == TasksOf(s.given, c.blk, i)
    && (w.flag == 0 || (w.cnt == NTasks(c) - 1 && (w.pc == Top || w.pc == Exited)))
    && match w.pc
       case Top => q == [] && i !in s.inbox && !Serving(s, i)
       case WaitCnt =>
         if i in s.inbox then q == [] && !Serving(s, i) && w.cnt != NTasks(c) - 1
         else |q| == 2 && ReplyOk(c, s, q[0], q[1])
       case WaitFlag => i !in s.inbox && |q| == 1 && ReplyOk(c, s, w.cnt, q[0])
       case Exited => q == [] && i !in s.inbox && !Serving(s, i) && w.cnt == NTasks(c) - 1
  }

  ghost function FinishingSet(c: Config, s: State): set<nat>
    requires Shape(c, s)
  {
    set i | 0 < i < c.sz && Finishing(c, s, i)
  }

  ghost predicate LeaderInv(c: Config, s: State)
  {
    && c.blk <= s.control && (s.control <= Bound(c) || s.control == c.blk)
    && s.cnt == (if s.control <= NTasks(c) then s.control else NTasks(c)) - 1
    && |s.given| == s.cnt - (c.blk - 1)
    && (s.flag == 0 || s.flag == 1)
    && (s.flag == 1 ==> s.cnt == NTasks(c) - 1)
    && (s.leader == Receiving && c.sz > 1 && s.cnt == NTasks(c) - 1 ==> s.flag == 1)
    && (s.leader != Receiving ==> IsWorker(c, s.leader.src))
    && (forall r :: r in s.given ==> IsWorker(c, r))
    && (forall i :: i in s.inbox ==> IsWorker(c, i))
    && (s.leader != Receiving && s.flag == 0 ==> |s.given| > 0 && s.given[|s.given| - 1] == s.leader.src)
  }

  ghost predicate Inv(c: Config, s: State)
  {
    && ValidConfig(c) && Shape(c, s) && LeaderInv(c, s)
    && (forall i :: 0 < i < c.sz ==> WorkerInv(c, s, i))
    && (c.sz > 1 ==> |FinishingSet(c, s)| == if s.control < NTasks(c) then 0 else s.control - NTasks(c) + 1)
  }

  lemma TasksAtLeast(c: Config)
    requires ValidConfig(c)
    ensures NTasks(c) >= c.blk && (c.sz > 1 ==> NTasks(c) >= c.blk + c.blk)
  {
    if c.sz > 1 {
      assert c.sz * c.blk == 2 * c.blk + (c.sz - 2) * c.blk;
      assert (c.sz - 2) * c.blk >= 0;
    }
  }

  lemma InitInv(c: Config)
    requires ValidConfig(c)
    ensures Inv(c, Init(c))
  {
    TasksAtLeast(c);
    var s := Init(c);
    assert FinishingSet(c, s) == {};
  }

  /** Rank j sees the same reply and the same request state before and after. */
  ghost predicate Untouched(c: Config, s: State, s': State, j: nat)
    requires Shape(c, s) && Shape(c, s') && j < c.sz
  {
    && s'.workers[j] == s.workers[j] && Incoming(s', j) == Incoming(s, j)
    && Serving(s', j) == Serving(s, j) && (j in s'.inbox <==> j in s.inbox)
    && TasksOf(s'.given, c.blk, j) == TasksOf(s.given, c.blk, j)
    && s.cnt <= s'.cnt && (s.flag == 1 ==> s'.flag == 1)
  }

  lemma UntouchedKeeps(c: Config, s: State, s': State, j: nat)
    requires Shape(c, s) && Shape(c, s') && j < c.sz && Untouched(c, s, s', j) && WorkerInv(c, s, j)
    ensures WorkerInv(c, s', j) && Finishing(c, s', j) == Finishing(c, s, j)
  {
  }

  lemma OneTouched(c: Config, s: State, s': State, i: nat)
    requires Shape(c, s) && Shape(c, s') && IsWorker(c, i)
    requires forall j :: 0 < j < c.sz ==> WorkerInv(c, s, j)
    requires forall j :: 0 < j < c.sz && j != i ==> Untouched(c, s, s', j)
    requires WorkerInv(c, s', i)
    ensures forall j :: 0 < j < c.sz ==> WorkerInv(c, s', j)
    ensures Finishing(c, s', i) == Finishing(c, s, i) ==> FinishingSet(c, s') == FinishingSet(c, s)
    ensures !Finishing(c, s, i) && Finishing(c, s', i) ==> FinishingSet(c, s') == FinishingSet(c, s) + {i}
  {
    hide WorkerInv, Untouched, Finishing;
    forall j | 0 < j < c.sz && j != i
      ensures WorkerInv(c, s', j) && Finishing(c, s', j) == Finishing(c, s, j)
    {
      UntouchedKeeps(c, s, s', j);
    }
  }

  lemma RequestInv(c: Config, s: State, i: nat)
    requires Inv(c, s) && Enabled(c, s, Request(i))
    ensures Inv(c, Do(c, s, Request(i)))
  {
    var s' := Do(c, s, Request(i));
    assert WorkerInv(c, s, i);
    assert WorkerInv(c, s', i) && Finishing(c, s', i) == Finishing(c, s, i);
    assert forall j :: 0 < j < c.sz && j != i ==> Untouched(c, s, s', j);
    OneTouched(c, s, s', i);
  }

  lemma ExitInv(c: Config, s: State, i: nat)
    requires Inv(c, s) && Enabled(c, s, Exit(i))
    ensures Inv(c, Do(c, s, Exit(i)))
  {
    var s' := Do(c, s, Exit(i));
    assert WorkerInv(c, s, i);
    assert WorkerInv(c, s', i) && Finishing(c, s', i) == Finishing(c, s, i);
    assert forall j :: 0 < j < c.sz && j != i ==> Untouched(c, s, s', j);
    OneTouched(c, s, s', i);
  }

  lemma TakeCntInv(c: Config, s: State, i: nat)
    requires Inv(c, s) && Enabled(c, s, TakeCnt(i))
    ensures Inv(c, Do(c, s, TakeCnt(i)))
  {
    var s' := Do(c, s, TakeCnt(i));
    assert WorkerInv(c, s, i);
    assert Incoming(s', i) == Incoming(s, i)[1..];
    assert WorkerInv(c, s', i) && Finishing(c, s', i) == Finishing(c, s, i);
    assert forall j :: 0 < j < c.sz && j != i ==> Untouched(c, s, s', j);
    OneTouched(c, s, s', i);
  }

  lemma TakeFlagInv(c: Config, s: State, i: nat)
    requires Inv(c, s) && Enabled(c, s, TakeFlag(i))
    ensures Inv(c, Do(c, s, TakeFlag(i)))
  {
    var s' := Do(c, s, TakeFlag(i));
    assert WorkerInv(c, s, i);
    assert Incoming(s', i) == [] && !Serving(s, i);
    assert WorkerInv(c, s', i) && Finishing(c, s', i) == Finishing(c, s, i);
    assert forall j :: 0 < j < c.sz && j != i ==> Untouched(c, s, s', j);
    OneTouched(c, s, s', i);
  }

  lemma ReplyStepInv(c: Config, s: State, a: Action)
    requires Inv(c, s) && Enabled(c, s, a)
    requires a.ReplyCnt? || a.ReplyFlag?
    ensures Inv(c, Do(c, s, a))
  {
    var s' := Do(c, s, a);
    var i := s.leader.src;
    assert WorkerInv(c, s, i);
    forall j | 0 < j < c.sz && j != i
      ensures Untouched(c, s, s', j)
    {
    }
    assert Incoming(s', i) == Incoming(s, i);
    assert WorkerInv(c, s', i) && Finishing(c, s', i) == Finishing(c, s, i);
    OneTouched(c, s, s', i);
  }

  lemma TasksOfAppend(given: seq<nat>, blk: nat, r: nat, i: nat)
    ensures TasksOf(given + [i], blk, r) == TasksOf(given, blk, r) + if i == r then [blk + |given|] else []
  {
    assert (given + [i])[..|given|] == given;
  }

  lemma AcceptStepInv(c: Config, s: State, i: nat)
    requires Inv(c, s) && Enabled(c, s, Accept(i))
    ensures Inv(c, Do(c, s, Accept(i)))
  {
    var s' := Do(c, s, Accept(i));
    TasksAtLeast(c);
    assert WorkerInv(c, s, i);
    forall j | 0 < j < c.sz
      ensures j != i ==> Untouched(c, s, s', j)
      ensures TasksOf(s'.given, c.blk, j)
              == TasksOf(s.given, c.blk, j) + if j == i && s.flag == 0 then [s'.cnt] else []
    {
      TasksOfAppend(s.given, c.blk, j, i);
    }
    assert Incoming(s', i) == [s'.cnt, s'.flag];
    assert WorkerInv(c, s', i) && !Finishing(c, s, i);
    assert Finishing(c, s', i) <==> s'.cnt == NTasks(c) - 1;
    OneTouched(c, s, s', i);
    assert LeaderInv(c, s');
  }

  lemma StepInv(c: Config, s: State, a: Action)
    requires Inv(c, s) && Enabled(c, s, a)
    ensures Inv(c, Do(c, s, a))
  {
    match a
    case Accept(i) => AcceptStepInv(c, s, i);
    case ReplyCnt => ReplyStepInv(c, s, a);
    case ReplyFlag => ReplyStepInv(c, s, a);
    case Request(i) => RequestInv(c, s, i);
    case Exit(i) => ExitInv(c, s, i);
    case TakeCnt(i) => TakeCntInv(c, s, i);
    case TakeFlag(i) => TakeFlagInv(c, s, i);
  }

  // ---------------------------------------------------------------- termination

  function PcWeight(w: Worker, requested: bool): nat
  {
    match w.pc
    case Top => 2
    case WaitCnt => if requested then 1 else 4
    case WaitFlag => 3
    case Exited => 0
  }

  function Weights(workers: seq<Worker>, inbox: set<nat>, n: nat): nat
    requires n <= |workers|
  {
    if n == 0 then 0 else Weights(workers, inbox, n - 1) + PcWeight(workers[n - 1], n - 1 in inbox)
  }

  ghost function Measure(c: Config, s: State): nat
    requires Shape(c, s)
  {
    10 * (if s.control < Bound(c) then Bound(c) - s.control else 0)
    + Weights(s.workers, s.inbox, c.sz)
    + match s.leader { case Receiving => 0 case SendingCnt(_) => 2 case SendingFlag(_) => 1 }
  }

  lemma {:induction false} WeightsChange(ws: seq<Worker>, inbox: set<nat>, ws': seq<Worker>, inbox': set<nat>, i: nat,
        n: nat)
    requires n <= |ws| == |ws'| && i < |ws|
    requires forall j :: 0 <= j < |ws| && j != i ==> ws'[j] == ws[j] && (j in inbox' <==> j in inbox)
    ensures Weights(ws', inbox', n) == Weights(ws, inbox, n)
            + if i < n then PcWeight(ws'[i], i in inbox') - PcWeight(ws[i], i in inbox) else 0
  {
    if n > 0 {
      WeightsChange(ws, inbox, ws', inbox', i, n - 1);
    }
  }

  /** Every action consumes some of a finite supply. */
  lemma StepDecreases(c: Config, s: State, a: Action)
    requires Inv(c, s) && Enabled(c, s, a)
    ensures Measure(c, Do(c, s, a)) < Measure(c, s)
  {
    var s' := Do(c, s, a);
    var i := match a { case Request(i) => i case Exit(i) => i case Accept(i) => i case TakeCnt(i) => i
                       case TakeFlag(i) => i case ReplyCnt => s.leader.src case ReplyFlag => s.leader.src };
    assert WorkerInv(c, s, i);
    WeightsChange(s.workers, s.inbox, s'.workers, s'.inbox, i, c.sz);
  }

  // ---------------------------------------------------------------- runs

  ghost predicate Run(c: Config, s: State, acts: seq<Action>, t: State)
    requires Shape(c, s)
    decreases |acts|
  {
    if acts == [] then s == t
    else Enabled(c, s, acts[0]) && Run(c, Do(c, s, acts[0]), acts[1..], t)
  }

  ghost predicate Stuck(c: Config, s: State)
    requires Shape(c, s)
  {
    forall a :: !Enabled(c, s, a)
  }

  /** Everybody is out of its loop and every message has been received. */
  ghost predicate Finished(c: Config, s: State)
    requires Shape(c, s)
  {
    && (forall i :: 0 < i < c.sz ==> s.workers[i].pc == Exited && s.chan[i] == [])
    && s.inbox == {} && s.leader == Receiving && s.control >= Bound(c)
  }

  lemma {:induction false} RunInv(c: Config, s: State, acts: seq<Action>, t: State)
    requires Inv(c, s) && Run(c, s, acts, t)
    ensures Inv(c, t) && |acts| + Measure(c, t) <= Measure(c, s)
    decreases |acts|
  {
    if acts != [] {
      StepInv(c, s, acts[0]);
      StepDecreases(c, s, acts[0]);
      RunInv(c, Do(c, s, acts[0]), acts[1..], t);
    }
  }

  lemma WorkersAreCounted(c: Config, s: State)
    requires Shape(c, s) && c.sz > 0
    ensures FinishingSet(c, s) <= Workers(c.sz) && |Workers(c.sz)| == c.sz - 1
  {
  }

  ghost function Workers(n: nat): (ws: set<nat>)
    ensures forall i :: i in ws <==> 0 < i < n
    ensures n > 0 ==> |ws| == n - 1
  {
    if n <= 1 then {} else Workers(n - 1) + {n - 1}
  }

  /** In a stuck state no worker is mid-reply; those still waiting have an unanswered request. */
  lemma StuckWorkers(c: Config, s: State, i: nat)
    requires Inv(c, s) && Stuck(c, s) && IsWorker(c, i)
    ensures s.leader == Receiving
    ensures s.workers[i].pc == Exited || (s.workers[i].pc == WaitCnt && i in s.inbox)
    ensures s.chan[i] == []
    ensures s.workers[i].pc == Exited <==> Finishing(c, s, i)
    ensures i in s.inbox ==> s.control >= Bound(c)
  {
    assert WorkerInv(c, s, i);
    assert !Enabled(c, s, ReplyCnt) && !Enabled(c, s, ReplyFlag);
    assert !Enabled(c, s, Request(i)) && !Enabled(c, s, Exit(i)) && !Enabled(c, s, Accept(i));
    assert !Enabled(c, s, TakeCnt(i)) && !Enabled(c, s, TakeFlag(i));
  }

  /** No deadlock: a state in which nothing can happen is a finished one. */
  lemma StuckIsFinished(c: Config, s: State)
    requires Inv(c, s) && Stuck(c, s)
    ensures Finished(c, s)
  {
    TasksAtLeast(c);
    if c.sz > 1 {
      WorkersAreCounted(c, s);
      StuckWorkers(c, s, 1);
      forall i | 0 < i < c.sz
        ensures s.workers[i].pc == Exited && s.chan[i] == []
      {
        StuckWorkers(c, s, i);
        assert i in Workers(c.sz);
        if s.workers[i].pc != Exited {
          assert s.control == Bound(c);
          SubsetSize(FinishingSet(c, s), Workers(c.sz));
          assert false;
        }
      }
      forall i: nat | 0 < i < c.sz
        ensures i in FinishingSet(c, s) && i !in s.inbox
      {
        StuckWorkers(c, s, i);
        assert WorkerInv(c, s, i);
      }
      assert s.inbox == {};
      assert FinishingSet(c, s) == Workers(c.sz);
    }
  }

  // ---------------------------------------------------------------- every task exactly once

  /** Rank r's tasks once the protocol is over: the leader loads its own first blk tasks. */
  ghost function LoadedBy(c: Config, s: State, r: nat): seq<int>
    requires Shape(c, s) && r < c.sz
  {
    if r == 0 then seq(c.blk, i => i) else s.workers[r].loaded
  }

  ghost predicate Ascending(q: seq<int>)
  {
    forall i, j :: 0 <= i < j < |q| ==> q[i] < q[j]
  }

  ghost predicate Loads(c: Config, s: State, r: nat, k: int)
    requires Shape(c, s)
  {
    r < c.sz && k in LoadedBy(c, s, r)
  }

  ghost predicate LoadedBySomebody(c: Config, s: State, k: int)
    requires Shape(c, s)
  {
    exists r :: Loads(c, s, r, k)
  }

  /** Exactly the tasks of [0, ntasks) were loaded, no task by two ranks or twice by one. */
  ghost predicate EachTaskOnce(c: Config, s: State)
    requires Shape(c, s)
  {
    && (forall k :: LoadedBySomebody(c, s, k) <==> 0 <= k < NTasks(c))
    && (forall k, r, r' :: Loads(c, s, r, k) && Loads(c, s, r', k) ==> r == r')
    && (forall r: nat :: r < c.sz ==> Ascending(LoadedBy(c, s, r)))
  }

  lemma {:induction false} TasksOfMember(given: seq<nat>, blk: nat, r: nat, t: int)
    ensures t in TasksOf(given, blk, r) <==> blk <= t < blk + |given| && given[t - blk] == r
  {
    if given != [] {
      TasksOfMember(given[..|given| - 1], blk, r, t);
    }
  }

  lemma {:induction false} TasksOfAscending(given: seq<nat>, blk: nat, r: nat)
    ensures Ascending(TasksOf(given, blk, r))
  {
    if given != [] {
      var g := given[..|given| - 1];
      TasksOfAscending(g, blk, r);
      forall i | 0 <= i < |TasksOf(g, blk, r)|
        ensures TasksOf(g, blk, r)[i] < blk + |g|
      {
        TasksOfMember(g, blk, r, TasksOf(g, blk, r)[i]);
      }
    }
  }

  /** Once finished, a rank's list is what it was handed. */
  lemma FinishedLists(c: Config, s: State, r: nat, k: int)
    requires Inv(c, s) && Finished(c, s) && r < c.sz
    ensures Loads(c, s, r, k) <==> if r == 0 then 0 <= k < c.blk else c.blk <= k < NTasks(c) && s.given[k - c.blk] == r
    ensures Ascending(LoadedBy(c, s, r))
  {
    TasksAtLeast(c);
    if r == 0 {
      assert 0 <= k < c.blk ==> LoadedBy(c, s, 0)[k] == k;
    } else {
      assert WorkerInv(c, s, r);
      assert Outstanding(s, r) == [];
      assert s.workers[r].loaded + [] == s.workers[r].loaded;
      assert c.blk + |s.given| == NTasks(c);
      TasksOfMember(s.given, c.blk, r, k);
      TasksOfAscending(s.given, c.blk, r);
    }
  }

  lemma FinishedMeansLoaded(c: Config, s: State)
    requires Inv(c, s) && Finished(c, s)
    ensures EachTaskOnce(c, s)
  {
    TasksAtLeast(c);
    forall k, r, r' | Loads(c, s, r, k) && Loads(c, s, r', k)
      ensures r == r' && 0 <= k < NTasks(c)
    {
      FinishedLists(c, s, r, k);
      FinishedLists(c, s, r', k);
    }
    forall k | 0 <= k < NTasks(c)
      ensures LoadedBySomebody(c, s, k)
    {
      var r := if k < c.blk then 0 else s.given[k - c.blk];
      assert k >= c.blk ==> r in s.given;
      FinishedLists(c, s, r, k);
      assert Loads(c, s, r, k);
    }
    forall r: nat | r < c.sz
      ensures Ascending(LoadedBy(c, s, r))
    {
      FinishedLists(c, s, r, 0);
    }
  }

  /** schedule_load, for every number of ranks, block size and order of arrival of the requests: a run is
      finite, and when nothing more can happen every worker is out of its loop, the leader has served exactly
      the requests that were sent, no message is left, and every task was loaded by exactly one rank, once. */
  lemma EveryTaskOnce(c: Config, acts: seq<Action>, t: State)
    requires ValidConfig(c) && Run(c, Init(c), acts, t)
    ensures Shape(c, t) && |acts| <= Measure(c, Init(c))
    ensures Stuck(c, t) ==> Finished(c, t) && EachTaskOnce(c, t)
  {
    InitInv(c);
    RunInv(c, Init(c), acts, t);
    if Stuck(c, t) {
      StuckIsFinished(c, t);
      FinishedMeansLoaded(c, t);
    }
  }

  // ---------------------------------------------------------------- every line exactly once

  /** What a rank's result holds after loading the given tasks, as a multiset of lines. */
  function LinesOf(files: seq<string>, slst: seq<int>, elst: seq<int>, tasks: seq<int>): multiset<string>
    requires Loader.Blocks(slst, elst) && forall i :: 0 <= i < |tasks| ==> 0 <= tasks[i] < |slst|
  {
    if tasks == [] then multiset{}
    else
      var t := tasks[|tasks| - 1];
      LinesOf(files, slst, elst, tasks[..|tasks| - 1])
      + multiset(Loader.Loaded(files, slst[t], elst[t], |files|))
  }

  /** The lines of ranks 0..n together. */
  function LinesOfRanks(files: seq<string>, slst: seq<int>, elst: seq<int>, given: seq<nat>, blk: nat,
        n: nat): multiset<string>
    requires Loader.Blocks(slst, elst) && blk + |given| <= |slst|
  {
    if n == 0 then multiset{}
    else
      TasksInRange(given, blk, n - 1);
      LinesOfRanks(files, slst, elst, given, blk, n - 1)
      + LinesOf(files, slst, elst, TasksOf(given, blk, n - 1))
  }

  lemma TasksInRange(given: seq<nat>, blk: nat, r: nat)
    ensures forall i :: 0 <= i < |TasksOf(given, blk, r)| ==> blk <= TasksOf(given, blk, r)[i] < blk + |given|
  {
    forall i | 0 <= i < |TasksOf(given, blk, r)|
      ensures blk <= TasksOf(given, blk, r)[i] < blk + |given|
    {
      TasksOfMember(given, blk, r, TasksOf(given, blk, r)[i]);
    }
  }

  lemma LinesOfAppend(files: seq<string>, slst: seq<int>, elst: seq<int>, tasks: seq<int>, t: nat)
    requires Loader.Blocks(slst, elst) && (forall i :: 0 <= i < |tasks| ==> 0 <= tasks[i] < |slst|) && t < |slst|
    ensures LinesOf(files, slst, elst, tasks + [t])
            == LinesOf(files, slst, elst, tasks) + multiset(Loader.Loaded(files, slst[t], elst[t], |files|))
  {
    hide Loader.Loaded;
    assert (tasks + [t])[..|tasks|] == tasks;
  }

  /** Handing one more task to rank r adds that block's lines to the total, whoever r is. */
  lemma {:induction false} OneMoreTask(files: seq<string>, slst: seq<int>, elst: seq<int>, given: seq<nat>, r: nat,
        blk: nat, n: nat)
    requires Loader.Blocks(slst, elst) && blk + |given| < |slst|
    ensures LinesOfRanks(files, slst, elst, given + [r], blk, n)
            == LinesOfRanks(files, slst, elst, given, blk, n)
               + if r < n then multiset(Loader.Loaded(files, slst[blk + |given|], elst[blk + |given|], |files|))
                 else multiset{}
  {
    hide Loader.Loaded, LinesOf, TasksOf;
    if n > 0 {
      OneMoreTask(files, slst, elst, given, r, blk, n - 1);
      TasksOfAppend(given, blk, n - 1, r);
      TasksInRange(given, blk, n - 1);
      TasksInRange(given + [r], blk, n - 1);
      var tasks := TasksOf(given, blk, n - 1);
      if r == n - 1 {
        LinesOfAppend(files, slst, elst, tasks, blk + |given|);
      } else {
        assert TasksOf(given + [r], blk, n - 1) == tasks;
      }
    }
  }

  lemma {:induction false} RanksTogether(files: seq<string>, slst: seq<int>, elst: seq<int>, given: seq<nat>, blk: nat,
        n: nat)
    requires Loader.Blocks(slst, elst) && blk + |given| <= |slst|
    requires forall i :: 0 <= i < |given| ==> given[i] < n
    ensures LinesOfRanks(files, slst, elst, given, blk, n)
            == multiset(Loader.BlocksLoaded(files, slst, elst, blk, blk + |given|))
  {
    hide Loader.Loaded, LinesOfRanks, LinesOf, TasksOf;
    if given == [] {
      NobodyLoads(files, slst, elst, blk, n);
    } else {
      var last := |given| - 1;
      var g, r := given[..last], given[last];
      assert given == g + [r];
      RanksTogether(files, slst, elst, g, blk, n);
      OneMoreTask(files, slst, elst, g, r, blk, n);
      var t := blk + last;
      assert Loader.BlocksLoaded(files, slst, elst, blk, t + 1)
          == Loader.BlocksLoaded(files, slst, elst, blk, t) + Loader.Loaded(files, slst[t], elst[t], |files|);
    }
  }

  lemma {:induction false} NobodyLoads(files: seq<string>, slst: seq<int>, elst: seq<int>, blk: nat, n: nat)
    requires Loader.Blocks(slst, elst) && blk <= |slst|
    ensures LinesOfRanks(files, slst, elst, [], blk, n) == multiset{}
  {
    if n > 0 {
      NobodyLoads(files, slst, elst, blk, n - 1);
    }
  }

  /** What the leader and the workers hold together when the tasks beyond the leader's have been handed out. */
  function LinesOfAll(files: seq<string>, slst: seq<int>, elst: seq<int>, given: seq<nat>, blk: nat,
        n: nat): multiset<string>
    requires Loader.Blocks(slst, elst) && blk + |given| <= |slst|
  {
    multiset(Loader.BlocksLoaded(files, slst, elst, 0, blk)) + LinesOfRanks(files, slst, elst, given, blk, n)
  }

  /** The two halves together: when the protocol ends, the lines all ranks hold are, as a multiset, the lines of all
      files if and only if the blank lines are harmless in the sense of the loader; otherwise they are fewer. */
  lemma ScheduledLoadIsComplete(c: Config, acts: seq<Action>, t: State,
        files: seq<string>, slst: seq<int>, elst: seq<int>)
    requires ValidConfig(c) && Run(c, Init(c), acts, t) && Shape(c, t) && Stuck(c, t)
    requires Loader.Tiles(slst, elst, Loader.Offset(files, |files|)) && |slst| == NTasks(c)
    ensures c.blk + |t.given| == |slst|
    ensures forall r :: 0 < r < c.sz ==> LoadedBy(c, t, r) == TasksOf(t.given, c.blk, r)
    ensures LinesOfAll(files, slst, elst, t.given, c.blk, c.sz) == multiset(Loader.AllLines(files, |files|))
            <==> Loader.BlanksHarmless(files, slst, elst, |slst|)
    ensures !Loader.BlanksHarmless(files, slst, elst, |slst|) ==>
              |LinesOfAll(files, slst, elst, t.given, c.blk, c.sz)| < |Loader.AllLines(files, |files|)|
  {
    InitInv(c);
    RunInv(c, Init(c), acts, t);
    StuckIsFinished(c, t);
    TasksAtLeast(c);
    forall r: nat | 0 < r < c.sz
      ensures LoadedBy(c, t, r) == TasksOf(t.given, c.blk, r)
    {
      assert WorkerInv(c, t, r);
      assert Outstanding(t, r) == [];
    }
    assert forall i :: 0 <= i < |t.given| ==> t.given[i] in t.given;
    WholeLoad(files, slst, elst, t.given, c.blk, c.sz);
  }

  lemma WholeLoad(files: seq<string>, slst: seq<int>, elst: seq<int>, given: seq<nat>, blk: nat, n: nat)
    requires Loader.Tiles(slst, elst, Loader.Offset(files, |files|)) && blk + |given| == |slst|
    requires forall i :: 0 <= i < |given| ==> given[i] < n
    ensures LinesOfAll(files, slst, elst, given, blk, n) == multiset(Loader.AllLines(files, |files|))
            <==> Loader.BlanksHarmless(files, slst, elst, |slst|)
    ensures !Loader.BlanksHarmless(files, slst, elst, |slst|) ==>
              |LinesOfAll(files, slst, elst, given, blk, n)| < |Loader.AllLines(files, |files|)|
  {
    hide Loader.BlanksHarmless, Loader.BlocksLoaded, LinesOfRanks, Loader.Owned, Loader.AllLines;
    RanksTogether(files, slst, elst, given, blk, n);
    Loader.BlocksJoin(files, slst, elst, 0, blk, |slst|);
    Loader.BlocksLoadTheirLines(files, slst, elst, |slst|);
    Loader.WholeOwnsAll(files, Loader.Offset(files, |files|), |files|);
    var got := Loader.BlocksLoaded(files, slst, elst, 0, |slst|);
    assert LinesOfAll(files, slst, elst, given, blk, n) == multiset(got);
    assert |multiset(got)| == |got| && |multiset(Loader.AllLines(files, |files|))| == |Loader.AllLines(files, |files|)|;
  }
}
