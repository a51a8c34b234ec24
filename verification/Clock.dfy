/** The bounded-staleness (SSP) clock: the server's counter table (thrd_exec_ssp in include/server.hpp), a
    worker's commits and gated reads (iter_commit and paracel_read in include/ps.hpp), and the step system
    they form.  The handler is modelled as written, where it falls through and counts a commit twice, and
    as meant, where a commit counts once. */
module Clock {
  import opened Arith
  import opened Kv

  datatype Key = ServerClock | WorkerSz | ClientClock(bucket: int)

  type Table = map<Key, int>

  // ---------------------------------------------------------------- the handler

  /** kvs::incr: a missing key is left missing. */
  function Incr(t: Table, key: Key, delta: int): Table
  {
    if key in t then t[key := t[key] + delta] else t
  }

  /** The counter of a client clock key passes worker_sz: a tick.  A missing worker_sz counts as passed. */
  predicate Ticks(t: Table, n: int)
  {
    WorkerSz !in t || n >= t[WorkerSz]
  }

  /** One commit to a client clock key, counted once. */
  function CountCommit(t: Table, key: Key): Table
  {
    var n := if key in t then t[key] + 1 else 1;
    if Ticks(t, n) then Incr(t, ServerClock, 1)[key := 0] else t[key := n]
  }

  function IncrAsMeant(t: Table, key: Key, delta: int): Table
  {
    if key.ClientClock? then CountCommit(t, key) else Incr(t, key, delta)
  }

  function IncrAsWritten(t: Table, key: Key, delta: int): Table
  {
    Incr(if key.ClientClock? then CountCommit(t, key) else t, key, delta)
  }

  datatype Reply = NoKey | Value(v: int)

  /** What the handler does to the table, case by case: another key is incremented if it is there; a client clock
      counts one and then the delta, and when the one count reaches worker_sz, or worker_sz is missing, it ticks the
      server clock, and restarts from the delta. */
  lemma HandlerCases(t: Table, key: Key, delta: int)
    ensures var t' := IncrAsWritten(t, key, delta);
            && (!key.ClientClock? && key !in t ==> t' == t)
            && (!key.ClientClock? && key in t ==> t' == t[key := t[key] + delta])
            && (key.ClientClock? ==>
                  var n := if key in t then t[key] + 1 else 1;
                  if WorkerSz in t && n < t[WorkerSz] then t' == t[key := n + delta]
                  else t' == (if ServerClock in t then t[ServerClock := t[ServerClock] + 1] else t)[key := delta])
  {
  }

  class SspServer {
    const tbl: Kvs<Key, int>

    /** thrd_exec_ssp starts by setting server_clock. */
    constructor ()
      ensures fresh(tbl) && tbl.kvdct == map[ServerClock := 0]
    {
      tbl := new Kvs();
      new;
      tbl.Set(ServerClock, 0);
    }

    method PushInt(key: Key, val: int)
      modifies tbl
      ensures tbl.kvdct == old(tbl.kvdct)[key := val]
    {
      tbl.Set(key, val);
    }

    /** A missing key is answered twice: with "nokey", and then with the default. */
    method PullInt(key: Key) returns (replies: seq<Reply>)
      ensures key in tbl.kvdct ==> replies == [Value(tbl.kvdct[key])]
      ensures key !in tbl.kvdct ==> replies == [NoKey, Value(0)]
    {
      var result := 0;
      replies := [];
      var r := tbl.Get(key);
      if r.Some? {
        result := r.value;
      } else {
        replies := replies + [NoKey];
      }
      replies := replies + [Value(result)];
    }

    method IncrInt(key: Key, delta: int)
      modifies tbl
      ensures tbl.kvdct == IncrAsWritten(old(tbl.kvdct), key, delta)
    {
      var plus := (x: int, y: int) => x + y;
      if key.ClientClock? {
        var n := tbl.Get(key);
        if n.Some? {
          var _ := tbl.Incr(key, 1, plus);
        } else {
          tbl.Set(key, 1);
        }
        var count := tbl.Get(key);
        var sz := tbl.Get(WorkerSz);
        if sz.None? || count.value >= sz.value {
          var _ := tbl.Incr(ServerClock, 1, plus);
          tbl.Set(key, 0);
        }
      }
      var _ := tbl.Incr(key, delta, plus);
    }
  }

  /** Start-up: the server thread starts, and rank 0 announces the number of workers before the first barrier.  This
      is the table every run of the step system starts from. */
  method Start(c: Config) returns (server: SspServer)
    ensures fresh(server) && fresh(server.tbl)
    ensures server.tbl.kvdct == Init(c).table == map[ServerClock := 0, WorkerSz := c.W]
  {
    server := new SspServer();
    server.PushInt(WorkerSz, c.W);
  }

  // ---------------------------------------------------------------- one worker

  function BucketKey(limit: nat, clock: nat): Key
  {
    ClientClock(if limit == 0 then 0 else clock % limit)
  }

  /** The bucket of a round is its number modulo the limit; with limit 0 there is one bucket. */
  lemma BucketOfRound(limit: nat, q: nat, r: nat)
    requires r < limit || (limit == 0 && r == 0)
    ensures BucketKey(limit, q * limit + r) == ClientClock(r)
    ensures limit == 0 ==> BucketKey(limit, q) == ClientClock(0)
  {
    if limit > 0 {
      DivModOf(q, r, limit, q * limit + r);
    }
  }

  /** The read goes to the server or the cache without waiting. */
  predicate GateOpen(limit: nat, total: nat, clock: nat, stale: int)
  {
    clock == 0 || clock == total || stale + limit >= clock
  }

  datatype Source = FromCache | FromServer | StillWaiting

  class Worker {
    var clock: nat
    var staleCache: int
    const limit: nat
    const total: nat

    constructor (limit: nat, total: nat)
      ensures clock == 0 && staleCache == 0 && this.limit == limit && this.total == total
    {
      clock, staleCache := 0, 0;
      this.limit, this.total := limit, total;
    }

    method IterCommit(server: SspServer)
      modifies this, server.tbl
      ensures clock == old(clock) + 1 && staleCache == old(staleCache)
      ensures var t := IncrAsWritten(old(server.tbl.kvdct), BucketKey(limit, old(clock)), 1);
              server.tbl.kvdct == if clock == total then IncrAsWritten(t, WorkerSz, -1) else t
    {
      var key := if limit == 0 then ClientClock(0) else ClientClock(clock % limit);
      server.IncrInt(key, 1);
      clock := clock + 1;
      if clock == total {
        server.IncrInt(WorkerSz, -1);
      }
    }

    /** The gate of a read.  `pulls` are the answers the clock server gives to successive pulls; the read is
        still waiting when they run out. */
    method ReadGate(pulls: seq<int>) returns (from: Source)
      modifies this`staleCache
      ensures from != StillWaiting ==> GateOpen(limit, total, clock, staleCache)
      ensures GateOpen(limit, total, clock, old(staleCache)) ==> staleCache == old(staleCache) && from != StillWaiting
      ensures from == FromCache <==> clock != 0 && clock != total && old(staleCache) + limit > clock
      ensures clock == 0 || clock == total || old(staleCache) + limit == clock ==>
                from == FromServer && staleCache == old(staleCache)
      ensures from == FromCache ==> staleCache == old(staleCache)
      ensures clock != 0 && clock != total && old(staleCache) + limit < clock ==>
                forall k :: 0 <= k < |pulls| && pulls[k] + limit >= clock
                            && (forall j :: 0 <= j < k ==> pulls[j] + limit < clock)
                            ==> from == FromServer && staleCache == pulls[k]
      ensures clock != 0 && clock != total && old(staleCache) + limit < clock
              && (forall j :: 0 <= j < |pulls| ==> pulls[j] + limit < clock) ==>
                from == StillWaiting && staleCache == if pulls == [] then old(staleCache) else pulls[|pulls| - 1]
    {
      if clock == 0 || clock == total {
        return FromServer;
      }
      if staleCache + limit > clock {
        return FromCache;
      }
      var k := 0;
      while staleCache + limit < clock
        invariant k <= |pulls|
        invariant k == 0 ==> staleCache == old(staleCache)
        invariant k > 0 ==> staleCache == pulls[k - 1] && old(staleCache) + limit < clock
        invariant forall j :: 0 <= j < k - 1 ==> pulls[j] + limit < clock
        decreases |pulls| - k
      {
        if k == |pulls| {
          return StillWaiting;
        }
        staleCache := pulls[k];
        k := k + 1;
      }
      from := FromServer;
    }
  }

  // ---------------------------------------------------------------- the step system

  /** W workers, staleness limit, committed rounds per worker, and which handler runs. */
  datatype Config = Config(W: nat, limit: nat, total: nat, meant: bool)

  datatype Pc = Reading | Ready | Leaving | Done

  datatype WState = WState(clock: nat, stale: int, pc: Pc)

  datatype State = State(table: Table, ws: seq<WState>)

  datatype Action =
    | Pull(i: nat)    // one turn of the waiting loop
    | Pass(i: nat)    // a read gets through
    | Commit(i: nat)  // iter_commit up to the increment of the worker's clock
    | Leave(i: nat)   // iter_commit's decrement of worker_sz

  function Handle(c: Config, t: Table, key: Key, delta: int): Table
  {
    if c.meant then IncrAsMeant(t, key, delta) else IncrAsWritten(t, key, delta)
  }

  ghost predicate Enabled(c: Config, s: State, a: Action)
  {
    && a.i < |s.ws|
    && var w := s.ws[a.i];
       match a
       case Pull(_) => w.pc == Reading && !GateOpen(c.limit, c.total, w.clock, w.stale) && ServerClock in s.table
       case Pass(_) => w.pc == Reading && GateOpen(c.limit, c.total, w.clock, w.stale)
       case Commit(_) => w.pc == Ready
       case Leave(_) => w.pc == Leaving
  }

  ghost function Do(c: Config, s: State, a: Action): (s': State)
    requires Enabled(c, s, a)
    ensures |s'.ws| == |s.ws|
  {
    var i, w := a.i, s.ws[a.i];
    match a
    case Pull(_) => s.(ws := s.ws[i := w.(stale := s.table[ServerClock])])
    case Pass(_) => s.(ws := s.ws[i := w.(pc := Ready)])
    case Commit(_) =>
      State(Handle(c, s.table, BucketKey(c.limit, w.clock), 1),
            s.ws[i := w.(clock := w.clock + 1, pc := if w.clock + 1 == c.total then Leaving else Reading)])
    case Leave(_) =>
      State(Handle(c, s.table, WorkerSz, -1), s.ws[i := w.(pc := Done)])
  }

  ghost function Init(c: Config): State
  {
    State(map[ServerClock := 0, WorkerSz := c.W], seq(c.W, _ => WState(0, 0, Reading)))
  }

  ghost predicate Run(c: Config, s: State, acts: seq<Action>, t: State)
    decreases |acts|
  {
    if acts == [] then s == t
    else Enabled(c, s, acts[0]) && Run(c, Do(c, s, acts[0]), acts[1..], t)
  }

  ghost predicate Reachable(c: Config, t: State)
  {
    exists acts :: Run(c, Init(c), acts, t)
  }

  function Buckets(c: Config): nat
  {
    if c.limit == 0 then 1 else c.limit
  }

  function Bucket(t: Table, k: int): int
  {
    if ClientClock(k) in t then t[ClientClock(k)] else 0
  }

  function BucketSum(t: Table, n: nat): int
  {
    if n == 0 then 0 else BucketSum(t, n - 1) + Bucket(t, n - 1)
  }

  function ClockSum(ws: seq<WState>): int
  {
    if ws == [] then 0 else ClockSum(ws[..|ws| - 1]) + ws[|ws| - 1].clock
  }

  // ---------------------------------------------------------------- both handlers: gate and monotonicity

  /** What holds whichever handler runs: the cached clock is not ahead of the server's, and a worker that got
      through its read with 0 < clock < total is at most `limit` ahead of the server clock. */
  ghost predicate GateInv(c: Config, s: State)
  {
    && |s.ws| == c.W
    && ServerClock in s.table && s.table[ServerClock] >= 0
    && WorkerSz in s.table && s.table[WorkerSz] <= c.W
    && forall i :: 0 <= i < c.W ==>
         var w := s.ws[i];
         && w.stale <= s.table[ServerClock]
         && (c.total > 0 ==> w.clock <= c.total)
         && (w.pc == Ready && w.clock != c.total ==> w.clock <= s.table[ServerClock] + c.limit)
         && (w.pc == Ready || w.pc == Reading ==> c.total > 0 ==> w.clock < c.total)
         && (w.pc == Leaving || w.pc == Done ==> w.clock == c.total > 0)
  }

  lemma HandleServerClock(c: Config, t: Table, key: Key, delta: int)
    requires ServerClock in t && WorkerSz in t && key != ServerClock
    ensures var t' := Handle(c, t, key, delta);
            && ServerClock in t' && WorkerSz in t'
            && t[ServerClock] <= t'[ServerClock] <= t[ServerClock] + 1
            && (key.ClientClock? ==> t'[WorkerSz] == t[WorkerSz])
            && (key == WorkerSz ==> t'[WorkerSz] == t[WorkerSz] + delta && t'[ServerClock] == t[ServerClock])
  {
  }

  lemma GateStep(c: Config, s: State, a: Action)
    requires GateInv(c, s) && Enabled(c, s, a)
    ensures GateInv(c, Do(c, s, a))
    ensures s.table[ServerClock] <= Do(c, s, a).table[ServerClock]
    ensures a.Pass? && 0 < s.ws[a.i].clock && s.ws[a.i].clock != c.total
            ==> s.ws[a.i].clock <= s.table[ServerClock] + c.limit
  {
    match a
    case Commit(i) => HandleServerClock(c, s.table, BucketKey(c.limit, s.ws[i].clock), 1);
    case Leave(i) => HandleServerClock(c, s.table, WorkerSz, -1);
    case _ =>
  }

  lemma {:induction false} GateRun(c: Config, s: State, acts: seq<Action>, t: State)
    requires GateInv(c, s) && Run(c, s, acts, t)
    ensures GateInv(c, t) && s.table[ServerClock] <= t.table[ServerClock]
    decreases |acts|
  {
    if acts != [] {
      GateStep(c, s, acts[0]);
      GateRun(c, Do(c, s, acts[0]), acts[1..], t);
    }
  }

  /** Whichever handler runs, in every reachable state: no cached clock is ahead of the server's, and a read
      that gets through with 0 < clock < total belongs to a worker at most `limit` ahead of the server clock;
      further steps never lower the server clock. */
  lemma ReadsAreGated(c: Config, acts: seq<Action>, s: State, more: seq<Action>, t: State)
    requires Run(c, Init(c), acts, s) && Run(c, s, more, t)
    ensures ServerClock in s.table && ServerClock in t.table && s.table[ServerClock] <= t.table[ServerClock]
    ensures forall w :: w in s.ws ==> w.stale <= s.table[ServerClock]
    ensures forall i: nat :: Enabled(c, s, Pass(i)) && s.ws[i].clock != 0 && s.ws[i].clock != c.total
              ==> s.ws[i].clock <= s.table[ServerClock] + c.limit
  {
    GateRun(c, Init(c), acts, s);
    GateRun(c, s, more, t);
    forall w | w in s.ws
      ensures w.stale <= s.table[ServerClock]
    {
      var i :| 0 <= i < |s.ws| && s.ws[i] == w;
    }
    forall i: nat | Enabled(c, s, Pass(i)) && s.ws[i].clock != 0 && s.ws[i].clock != c.total
      ensures s.ws[i].clock <= s.table[ServerClock] + c.limit
    {
      GateStep(c, s, Pass(i));
    }
  }

  // ---------------------------------------------------------------- sums

  lemma {:induction false} BucketSumSet(t: Table, k: int, v: int, n: nat)
    ensures BucketSum(t[ClientClock(k) := v], n) == BucketSum(t, n) + if 0 <= k < n then v - Bucket(t, k) else 0
  {
    if n > 0 {
      BucketSumSet(t, k, v, n - 1);
    }
  }

  lemma {:induction false} BucketSumSame(t: Table, t': Table, n: nat)
    requires forall k :: 0 <= k < n ==> Bucket(t', k) == Bucket(t, k)
    ensures BucketSum(t', n) == BucketSum(t, n)
  {
    if n > 0 {
      BucketSumSame(t, t', n - 1);
    }
  }

  lemma {:induction false} BucketSumBounds(t: Table, hi: int, n: nat)
    requires forall k :: 0 <= k < n ==> 0 <= Bucket(t, k) <= hi
    ensures 0 <= BucketSum(t, n) <= n * hi
  {
    if n > 0 {
      BucketSumBounds(t, hi, n - 1);
      assert n * hi == (n - 1) * hi + hi;
    }
  }

  lemma {:induction false} ClockSumSet(ws: seq<WState>, i: nat, w: WState)
    requires i < |ws|
    ensures ClockSum(ws[i := w]) == ClockSum(ws) - ws[i].clock + w.clock
  {
    var last := |ws| - 1;
    var ws' := ws[i := w];
    if i == last {
      assert ws'[..last] == ws[..last];
    } else {
      assert ws'[..last] == ws[..last][i := w];
      ClockSumSet(ws[..last], i, w);
    }
  }

  lemma {:induction false} ClockSumBelow(ws: seq<WState>, m: int, j: nat)
    requires j < |ws| && forall i :: 0 <= i < |ws| ==> ws[i].clock <= m
    ensures ClockSum(ws) <= (|ws| - 1) * m + ws[j].clock
  {
    var last := |ws| - 1;
    var init := ws[..last];
    assert |init| == last;
    if j == last {
      ClockSumAtMost(init, m);
    } else {
      ClockSumBelow(init, m, j);
      assert last * m == (last - 1) * m + m;
    }
  }

  lemma {:induction false} ClockSumAtMost(ws: seq<WState>, m: int)
    requires forall i :: 0 <= i < |ws| ==> ws[i].clock <= m
    ensures ClockSum(ws) <= |ws| * m
  {
    if ws != [] {
      ClockSumAtMost(ws[..|ws| - 1], m);
      assert |ws| * m == (|ws| - 1) * m + m;
    }
  }

  lemma {:induction false} ClockSumAtLeast(ws: seq<WState>, m: int)
    requires forall i :: 0 <= i < |ws| ==> m <= ws[i].clock
    ensures |ws| * m <= ClockSum(ws)
  {
    if ws != [] {
      ClockSumAtLeast(ws[..|ws| - 1], m);
      assert |ws| * m == (|ws| - 1) * m + m;
    }
  }

  lemma {:induction false} ClockSumZero(ws: seq<WState>)
    requires forall i :: 0 <= i < |ws| ==> ws[i].clock == 0
    ensures ClockSum(ws) == 0
  {
    if ws != [] {
      ClockSumZero(ws[..|ws| - 1]);
    }
  }

  // ---------------------------------------------------------------- as meant: conservation and the lead

  /** The furthest any worker may be ahead of any other. */
  function MaxLead(c: Config): nat
  {
    c.W * c.limit + 1
  }

  /** W ticks' worth of commits, plus what is in the buckets, is at least the commits made; exactly that many
      while no worker has taken itself out of worker_sz. */
  ghost predicate Conserved(c: Config, s: State)
    requires ServerClock in s.table && WorkerSz in s.table
  {
    var credit := c.W * s.table[ServerClock] + BucketSum(s.table, Buckets(c));
    && ClockSum(s.ws) <= credit
    && (s.table[WorkerSz] == c.W ==> ClockSum(s.ws) == credit)
  }

  ghost predicate MeantInv(c: Config, s: State)
  {
    && c.meant && c.W > 0 && GateInv(c, s) && Conserved(c, s)
    && (forall k :: 0 <= k < Buckets(c) ==> 0 <= Bucket(s.table, k) < c.W)
    && (s.table[WorkerSz] == c.W || exists d :: 0 <= d < c.W && s.ws[d].pc == Done)
    && (forall i, j :: 0 <= i < c.W && 0 <= j < c.W ==> s.ws[i].clock - s.ws[j].clock <= MaxLead(c))
  }

  lemma MeantInit(c: Config)
    requires c.meant && c.W > 0
    ensures MeantInv(c, Init(c))
  {
    var s := Init(c);
    ClockSumZero(s.ws);
    BucketSumBounds(s.table, 0, Buckets(c));
    assert Buckets(c) * 0 == 0;
  }

  /** The key a worker commits to is one of the buckets. */
  lemma BucketInRange(c: Config, clock: nat)
    ensures BucketKey(c.limit, clock).ClientClock? && 0 <= BucketKey(c.limit, clock).bucket < Buckets(c)
  {
  }

  /** One counted commit keeps the books: it adds one, and a tick trades at most W for one server clock. */
  lemma CountConserves(c: Config, t: Table, k: int)
    requires ServerClock in t && WorkerSz in t && t[WorkerSz] <= c.W && 0 <= k < Buckets(c) && 0 <= Bucket(t, k) < c.W
    ensures var t' := CountCommit(t, ClientClock(k));
            && ServerClock in t' && WorkerSz in t' && t'[WorkerSz] == t[WorkerSz]
            && 0 <= Bucket(t', k) < c.W
            && (forall j :: j != k ==> Bucket(t', j) == Bucket(t, j))
            && var before := c.W * t[ServerClock] + BucketSum(t, Buckets(c));
               var after := c.W * t'[ServerClock] + BucketSum(t', Buckets(c));
               before + 1 <= after && (t[WorkerSz] == c.W ==> after == before + 1)
  {
    var n := Bucket(t, k) + 1;
    if Ticks(t, n) {
      var up := t[ServerClock := t[ServerClock] + 1];
      BucketSumSame(t, up, Buckets(c));
      BucketSumSet(up, k, 0, Buckets(c));
      assert c.W * (t[ServerClock] + 1) == c.W * t[ServerClock] + c.W;
    } else {
      BucketSumSet(t, k, n, Buckets(c));
    }
  }

  lemma LeadArithmetic(W: nat, limit: nat, m: int, sc: int, buckets: int, sum: int, cj: int)
    requires W > 0 && m <= sc + limit && 0 <= buckets
    requires W * sc + buckets == sum && sum <= (W - 1) * m + cj
    ensures m - cj <= W * limit
  {
    assert W * m <= W * (sc + limit) == W * sc + W * limit;
    assert W * m == (W - 1) * m + m;
  }

  /** The step that matters: a worker through its gate that is level with the furthest cannot have left the
      slowest more than W * limit behind. */
  lemma LeadStep(c: Config, s: State, i: nat, j: nat)
    requires MeantInv(c, s) && i < c.W && j < c.W && i != j && s.ws[i].pc == Ready
    ensures s.ws[i].clock + 1 - s.ws[j].clock <= MaxLead(c)
  {
    hide MaxLead;
    if exists d: nat :: d < c.W && s.ws[d].clock > s.ws[i].clock {
      var d: nat :| d < c.W && s.ws[d].clock > s.ws[i].clock;
      assert s.ws[d].clock - s.ws[j].clock <= MaxLead(c);
    } else {
      assert s.ws[i].clock < c.total || c.total == 0;
      assert s.table[WorkerSz] == c.W;
      ClockSumBelow(s.ws, s.ws[i].clock, j);
      BucketSumBounds(s.table, c.W - 1, Buckets(c));
      LeadArithmetic(c.W, c.limit, s.ws[i].clock, s.table[ServerClock], BucketSum(s.table, Buckets(c)),
                     ClockSum(s.ws), s.ws[j].clock);
      MaxLeadIs(c);
    }
  }

  lemma MaxLeadIs(c: Config)
    ensures MaxLead(c) == c.W * c.limit + 1
  {
  }

  lemma CommitLead(c: Config, s: State, i: nat)
    requires MeantInv(c, s) && Enabled(c, s, Commit(i))
    ensures var s' := Do(c, s, Commit(i));
            forall a, b :: 0 <= a < c.W && 0 <= b < c.W ==> s'.ws[a].clock - s'.ws[b].clock <= MaxLead(c)
  {
    hide Handle, MaxLead, Conserved;
    var s' := Do(c, s, Commit(i));
    forall a, b | 0 <= a < c.W && 0 <= b < c.W
      ensures s'.ws[a].clock - s'.ws[b].clock <= MaxLead(c)
    {
      if a == i && b != i {
        LeadStep(c, s, i, b);
      } else {
        assert s.ws[a].clock - s.ws[b].clock <= MaxLead(c);
      }
    }
  }

  lemma CommitStep(c: Config, s: State, i: nat)
    requires MeantInv(c, s) && Enabled(c, s, Commit(i))
    ensures MeantInv(c, Do(c, s, Commit(i)))
  {
    var s' := Do(c, s, Commit(i));
    GateStep(c, s, Commit(i));
    var key := BucketKey(c.limit, s.ws[i].clock);
    BucketInRange(c, s.ws[i].clock);
    CountConserves(c, s.table, key.bucket);
    ClockSumSet(s.ws, i, s'.ws[i]);
    assert s'.table == CountCommit(s.table, key);
    CommitLead(c, s, i);
    hide CountCommit, BucketSum, ClockSum, BucketKey, MaxLead;
    if s.table[WorkerSz] != c.W {
      var d :| 0 <= d < c.W && s.ws[d].pc == Done;
      assert s'.ws[d].pc == Done;
    }
  }

  lemma OtherStep(c: Config, s: State, a: Action)
    requires MeantInv(c, s) && Enabled(c, s, a) && !a.Commit?
    ensures MeantInv(c, Do(c, s, a))
  {
    var s' := Do(c, s, a);
    GateStep(c, s, a);
    ClockSumSet(s.ws, a.i, s'.ws[a.i]);
    BucketSumSame(s.table, s'.table, Buckets(c));
    forall x, y | 0 <= x < c.W && 0 <= y < c.W
      ensures s'.ws[x].clock - s'.ws[y].clock <= MaxLead(c)
    {
      assert s.ws[x].clock - s.ws[y].clock <= MaxLead(c);
    }
    if a.Leave? {
      assert s'.ws[a.i].pc == Done;
    } else if s.table[WorkerSz] != c.W {
      var d :| 0 <= d < c.W && s.ws[d].pc == Done;
      assert s'.ws[d].pc == Done;
    }
  }

  lemma {:induction false} MeantRun(c: Config, s: State, acts: seq<Action>, t: State)
    requires MeantInv(c, s) && Run(c, s, acts, t)
    ensures MeantInv(c, t)
    decreases |acts|
  {
    if acts != [] {
      if acts[0].Commit? {
        CommitStep(c, s, acts[0].i);
      } else {
        OtherStep(c, s, acts[0]);
      }
      MeantRun(c, Do(c, s, acts[0]), acts[1..], t);
    }
  }

  /** Bounded staleness, as meant: whatever the interleaving, no two workers are ever more than
      W * limit + 1 clocks apart, workers that have finished included; with limit 0, never more than one. */
  lemma BoundedLead(c: Config, s: State)
    requires c.meant && c.W > 0 && Reachable(c, s)
    ensures |s.ws| == c.W
    ensures forall i, j :: 0 <= i < c.W && 0 <= j < c.W ==> s.ws[i].clock - s.ws[j].clock <= c.W * c.limit + 1
  {
    var acts :| Run(c, Init(c), acts, s);
    MeantInit(c);
    MeantRun(c, Init(c), acts, s);
    MaxLeadIs(c);
    forall i, j | 0 <= i < c.W && 0 <= j < c.W
      ensures s.ws[i].clock - s.ws[j].clock <= c.W * c.limit + 1
    {
      assert s.ws[i].clock - s.ws[j].clock <= MaxLead(c);
    }
  }

  /** Conservation of commits, as meant: while nobody has left, W ticks' worth plus the buckets is exactly the
      number of commits made. */
  lemma CommitsConserved(c: Config, s: State)
    requires c.meant && c.W > 0 && Reachable(c, s)
    ensures ServerClock in s.table && WorkerSz in s.table
    ensures s.table[WorkerSz] == c.W
            ==> c.W * s.table[ServerClock] + BucketSum(s.table, Buckets(c)) == ClockSum(s.ws)
  {
    var acts :| Run(c, Init(c), acts, s);
    MeantInit(c);
    MeantRun(c, Init(c), acts, s);
  }

  /** As meant: in every reachable state some worker is at most `limit` ahead of the server clock. */
  lemma SlowestIsNear(c: Config, s: State)
    requires c.meant && c.W > 0 && Reachable(c, s)
    ensures |s.ws| == c.W && ServerClock in s.table
    ensures exists i :: 0 <= i < c.W && s.ws[i].clock <= s.table[ServerClock] + c.limit
  {
    var acts :| Run(c, Init(c), acts, s);
    MeantInit(c);
    MeantRun(c, Init(c), acts, s);
    SlowestInInv(c, s);
  }

  lemma SlowestInInv(c: Config, s: State)
    requires MeantInv(c, s)
    ensures exists i :: 0 <= i < c.W && s.ws[i].clock <= s.table[ServerClock] + c.limit
  {
    var floor := s.table[ServerClock] + c.limit + 1;
    BucketSumBounds(s.table, c.W - 1, Buckets(c));
    StarvationArithmetic(c.W, c.limit, s.table[ServerClock], BucketSum(s.table, Buckets(c)));
    if forall i :: 0 <= i < c.W ==> s.ws[i].clock >= floor {
      ClockSumAtLeast(s.ws, floor);
    }
  }

  /** No deadlock, as meant: unless all are done, some worker can commit, leave, or read at once after pulling the
      server clock.  So a state in which no pull would help anybody and nothing else can happen is one where all are
      done. */
  lemma SomebodyCanMove(c: Config, s: State)
    requires c.meant && c.W > 0 && Reachable(c, s)
    ensures |s.ws| == c.W && ServerClock in s.table
    ensures (forall i :: 0 <= i < c.W ==> s.ws[i].pc == Done) || exists i :: 0 <= i < c.W && CanMove(c, s, i)
  {
    var acts :| Run(c, Init(c), acts, s);
    MeantInit(c);
    MeantRun(c, Init(c), acts, s);
    if k :| 0 <= k < c.W && s.ws[k].pc != Done {
      SlowestInInv(c, s);
      var i :| 0 <= i < c.W && s.ws[i].clock <= s.table[ServerClock] + c.limit;
      assert CanMove(c, s, if s.ws[i].pc == Done then k else i);
    }
  }

  ghost predicate CanMove(c: Config, s: State, i: nat)
    requires i < |s.ws| && ServerClock in s.table
  {
    || s.ws[i].pc == Ready
    || s.ws[i].pc == Leaving
    || (s.ws[i].pc == Reading && GateOpen(c.limit, c.total, s.ws[i].clock, s.table[ServerClock]))
  }

  lemma StarvationArithmetic(W: nat, limit: nat, sc: int, buckets: int)
    requires W > 0 && buckets <= (if limit == 0 then 1 else limit) * (W - 1)
    ensures W * sc + buckets < W * (sc + limit + 1)
  {
    assert W * (sc + limit + 1) == W * sc + W * limit + W;
    assert limit * (W - 1) == W * limit - limit;
  }

  // ---------------------------------------------------------------- progress

  /** The passes, commits and leaves a worker still has before it. */
  function WorkOf(w: WState, total: nat): int
  {
    match w.pc
    case Reading => 2 * (total - w.clock) + 2
    case Ready => 2 * (total - w.clock) + 1
    case Leaving => 1
    case Done => 0
  }

  function Work(ws: seq<WState>, total: nat): int
  {
    if ws == [] then 0 else Work(ws[..|ws| - 1], total) + WorkOf(ws[|ws| - 1], total)
  }

  ghost predicate InTime(c: Config, s: State)
  {
    forall w :: w in s.ws ==> w.pc == Reading || w.pc == Ready ==> w.clock < c.total
  }

  lemma {:induction false} WorkSet(ws: seq<WState>, total: nat, i: nat, w: WState)
    requires i < |ws|
    ensures Work(ws[i := w], total) == Work(ws, total) - WorkOf(ws[i], total) + WorkOf(w, total)
  {
    var last := |ws| - 1;
    if i == last {
      assert ws[i := w][..last] == ws[..last];
    } else {
      assert ws[i := w][..last] == ws[..last][i := w];
      WorkSet(ws[..last], total, i, w);
    }
  }

  lemma {:induction false} WorkNotNegative(c: Config, ws: seq<WState>)
    requires forall w :: w in ws ==> w.pc == Reading || w.pc == Ready ==> w.clock < c.total
    ensures Work(ws, c.total) >= 0
  {
    if ws != [] {
      WorkNotNegative(c, ws[..|ws| - 1]);
      assert ws[|ws| - 1] in ws;
    }
  }

  /** Whichever handler runs: every pass, commit and leave is work done, and a pull undoes none. */
  lemma StepWorks(c: Config, s: State, a: Action)
    requires InTime(c, s) && Enabled(c, s, a)
    ensures InTime(c, Do(c, s, a))
    ensures Work(Do(c, s, a).ws, c.total) + (if a.Pull? then 0 else 1) <= Work(s.ws, c.total)
  {
    hide Handle;
    var s' := Do(c, s, a);
    assert s.ws[a.i] in s.ws;
    WorkSet(s.ws, c.total, a.i, s'.ws[a.i]);
    assert s'.ws == s.ws[a.i := s'.ws[a.i]];
    forall w | w in s'.ws
      ensures w in s.ws || w == s'.ws[a.i]
    {
      var j :| 0 <= j < |s'.ws| && s'.ws[j] == w;
      assert j != a.i ==> s.ws[j] == w;
    }
  }

  function NonPulls(acts: seq<Action>): nat
  {
    if acts == [] then 0 else (if acts[0].Pull? then 0 else 1) + NonPulls(acts[1..])
  }

  lemma {:induction false} RunWorks(c: Config, s: State, acts: seq<Action>, t: State)
    requires InTime(c, s) && Run(c, s, acts, t)
    ensures InTime(c, t) && NonPulls(acts) + Work(t.ws, c.total) <= Work(s.ws, c.total)
    decreases |acts|
  {
    if acts != [] {
      StepWorks(c, s, acts[0]);
      RunWorks(c, Do(c, s, acts[0]), acts[1..], t);
    }
  }

  lemma {:induction false} WorkAtStart(ws: seq<WState>, total: nat, each: int)
    requires (forall i :: 0 <= i < |ws| ==> ws[i] == WState(0, 0, Reading)) && each == 2 * total + 2
    ensures Work(ws, total) == |ws| * each
  {
    if ws != [] {
      WorkAtStart(ws[..|ws| - 1], total, each);
      MulPred(|ws|, each);
    }
  }

  /** Whichever handler runs, a run has a bounded number of passes, commits and leaves, however often workers pull. */
  lemma ProgressIsBounded(c: Config, acts: seq<Action>, t: State)
    requires c.total > 0 && Run(c, Init(c), acts, t)
    ensures NonPulls(acts) <= c.W * (2 * c.total + 2)
  {
    RunWorks(c, Init(c), acts, t);
    WorkAtStart(Init(c).ws, c.total, 2 * c.total + 2);
    WorkNotNegative(c, t.ws);
  }

  ghost predicate AllDone(s: State)
  {
    forall w :: w in s.ws ==> w.pc == Done
  }

  /** The move that CanMove promises: a pull first, if the worker's cached clock needs it. */
  lemma SomeMove(c: Config, s: State, i: nat) returns (acts: seq<Action>, t: State)
    requires i < |s.ws| && ServerClock in s.table && CanMove(c, s, i) && InTime(c, s)
    ensures Run(c, s, acts, t) && InTime(c, t) && Work(t.ws, c.total) < Work(s.ws, c.total)
  {
    var w := s.ws[i];
    if w.pc == Reading && !GateOpen(c.limit, c.total, w.clock, w.stale) {
      var s1 := Do(c, s, Pull(i));
      StepWorks(c, s, Pull(i));
      StepWorks(c, s1, Pass(i));
      acts, t := [Pull(i), Pass(i)], Do(c, s1, Pass(i));
      TwoSteps(c, s, Pull(i), Pass(i));
    } else {
      var a := match w.pc case Reading => Pass(i) case Ready => Commit(i) case _ => Leave(i);
      StepWorks(c, s, a);
      acts, t := [a], Do(c, s, a);
      OneStep(c, s, a);
    }
  }

  lemma OneStep(c: Config, s: State, a: Action)
    requires Enabled(c, s, a)
    ensures Run(c, s, [a], Do(c, s, a))
  {
    hide Enabled;
    assert [a][1..] == [];
    assert Run(c, Do(c, s, a), [], Do(c, s, a));
  }

  lemma TwoSteps(c: Config, s: State, a: Action, b: Action)
    requires Enabled(c, s, a) && Enabled(c, Do(c, s, a), b)
    ensures Run(c, s, [a, b], Do(c, Do(c, s, a), b))
  {
    OneStep(c, Do(c, s, a), b);
    hide Enabled, Do;
    assert [a, b][1..] == [b];
  }

  /** No starvation, as meant: from every reachable state some continuation brings every worker through all its reads
      and commits. */
  lemma {:induction false} CanAlwaysFinish(c: Config, s: State) returns (acts: seq<Action>, t: State)
    requires c.meant && c.W > 0 && c.total > 0 && Reachable(c, s)
    ensures Run(c, s, acts, t) && AllDone(t)
    decreases WorkLeft(c, s)
  {
    ReachableInTime(c, s);
    SomebodyCanMove(c, s);
    if forall i :: 0 <= i < c.W ==> s.ws[i].pc == Done {
      acts, t := [], s;
    } else {
      var i :| 0 <= i < c.W && CanMove(c, s, i);
      var first, s1 := SomeMove(c, s, i);
      WorkNotNegative(c, s1.ws);
      ReachableOn(c, s, first, s1);
      var rest;
      rest, t := CanAlwaysFinish(c, s1);
      RunConcat(c, s, first, s1, rest, t);
      acts := first + rest;
    }
  }

  ghost function WorkLeft(c: Config, s: State): nat
  {
    if Work(s.ws, c.total) > 0 then Work(s.ws, c.total) else 0
  }

  lemma ReachableInTime(c: Config, s: State)
    requires c.total > 0 && Reachable(c, s)
    ensures InTime(c, s)
  {
    var acts :| Run(c, Init(c), acts, s);
    RunWorks(c, Init(c), acts, s);
  }

  lemma ReachableOn(c: Config, s: State, acts: seq<Action>, t: State)
    requires Reachable(c, s) && Run(c, s, acts, t)
    ensures Reachable(c, t)
  {
    var before :| Run(c, Init(c), before, s);
    RunConcat(c, Init(c), before, s, acts, t);
  }

  // ---------------------------------------------------------------- building runs

  lemma {:induction false} RunConcat(c: Config, s: State, a: seq<Action>, t: State, b: seq<Action>, u: State)
    requires Run(c, s, a, t) && Run(c, t, b, u)
    ensures Run(c, s, a + b, u)
    decreases |a|
  {
    if a == [] {
      assert a + b == b;
    } else {
      RunConcat(c, Do(c, s, a[0]), a[1..], t, b, u);
      assert (a + b)[1..] == a[1..] + b;
    }
  }

  /** A worker's whole turn: pull if it must, read, commit. */
  ghost function Turn(c: Config, s: State, i: nat): State
    requires i < |s.ws| && ServerClock in s.table
  {
    var w := s.ws[i];
    var stale := if GateOpen(c.limit, c.total, w.clock, w.stale) then w.stale else s.table[ServerClock];
    State(Handle(c, s.table, BucketKey(c.limit, w.clock), 1),
          s.ws[i := WState(w.clock + 1, stale, if w.clock + 1 == c.total then Leaving else Reading)])
  }

  lemma TurnReachable(c: Config, s: State, i: nat)
    requires Reachable(c, s) && i < |s.ws| && ServerClock in s.table && s.ws[i].pc == Reading
    requires s.ws[i].clock <= s.table[ServerClock] + c.limit
    ensures Reachable(c, Turn(c, s, i))
  {
    var acts :| Run(c, Init(c), acts, s);
    var w := s.ws[i];
    if GateOpen(c.limit, c.total, w.clock, w.stale) {
      TurnOpen(c, s, i);
      RunConcat(c, Init(c), acts, s, [Pass(i), Commit(i)], Turn(c, s, i));
    } else {
      var s1 := Do(c, s, Pull(i));
      assert Run(c, s1, [], s1);
      assert Run(c, s, [Pull(i)], s1);
      TurnOpen(c, s1, i);
      assert s1.ws[i := Turn(c, s, i).ws[i]] == s.ws[i := Turn(c, s, i).ws[i]];
      assert Turn(c, s1, i) == Turn(c, s, i);
      RunConcat(c, Init(c), acts, s, [Pull(i)], s1);
      RunConcat(c, Init(c), acts + [Pull(i)], s1, [Pass(i), Commit(i)], Turn(c, s, i));
    }
  }

  lemma TurnOpen(c: Config, s: State, i: nat)
    requires i < |s.ws| && ServerClock in s.table && s.ws[i].pc == Reading
    requires GateOpen(c.limit, c.total, s.ws[i].clock, s.ws[i].stale)
    ensures Run(c, s, [Pass(i), Commit(i)], Turn(c, s, i))
  {
    var s1 := Do(c, s, Pass(i));
    var s2 := Do(c, s1, Commit(i));
    assert s2.ws == Turn(c, s, i).ws;
    assert [Pass(i), Commit(i)][1..] == [Commit(i)];
    assert [Commit(i)][1..] == [];
    assert Run(c, s2, [], s2);
    assert Run(c, s1, [Commit(i)], s2);
  }

  lemma InitReachable(c: Config)
    ensures Reachable(c, Init(c))
  {
    assert Run(c, Init(c), [], Init(c));
  }

  // ---------------------------------------------------------------- as meant: the bound is reached

  /** What a bucket holds after q rounds of W - 1 commits, and after i more commits. */
  function Rest(W: nat, q: nat, i: nat): int
  {
    if q == 0 then i else if i < q then W - q + i else i - q
  }

  /** All workers but the last have committed q * limit + r rounds in step, the first i of them one more; the
      last worker has committed nothing. */
  ghost predicate InStep(c: Config, s: State, q: nat, r: nat, i: nat)
  {
    var round := q * c.limit + r;
    && c.W >= 2 && c.limit > 0 && c.meant && |s.ws| == c.W && r < c.limit && i < c.W
    && (forall k :: 0 <= k < c.W - 1 ==> s.ws[k].pc == Reading && s.ws[k].clock == if k < i then round + 1 else round)
    && s.ws[c.W - 1].clock == 0
    && ServerClock in s.table && WorkerSz in s.table && s.table[WorkerSz] == c.W
    && s.table[ServerClock] == (if q == 0 then 0 else round - c.limit + if i >= q then 1 else 0)
    && forall k :: 0 <= k < c.limit ==>
         Bucket(s.table, k) == if k < r then Rest(c.W, q, c.W - 1)
                 else if k == r then Rest(c.W, q, i) else Rest(c.W, q, 0)
  }

  lemma MeantCommit(c: Config, t: Table, k: nat)
    requires ServerClock in t && WorkerSz in t && t[WorkerSz] == c.W
    ensures var t' := CountCommit(t, ClientClock(k));
            && ServerClock in t' && WorkerSz in t' && t'[WorkerSz] == c.W
            && (forall j :: j != k ==> Bucket(t', j) == Bucket(t, j))
            && (if Bucket(t, k) + 1 >= c.W then t'[ServerClock] == t[ServerClock] + 1 && Bucket(t', k) == 0
                else t'[ServerClock] == t[ServerClock] && Bucket(t', k) == Bucket(t, k) + 1)
  {
  }

  lemma InStepCommit(c: Config, s: State, q: nat, r: nat, i: nat)
    requires InStep(c, s, q, r, i) && Reachable(c, s) && i < c.W - 1 && q < c.W
    requires q * c.limit + r + 1 < c.total
    ensures Reachable(c, Turn(c, s, i)) && InStep(c, Turn(c, s, i), q, r, i + 1)
  {
    var round := q * c.limit + r;
    DivModOf(q, r, c.limit, round);
    assert s.ws[i].clock == round;
    assert q == 0 ==> round == r;
    TurnReachable(c, s, i);
    var t := Turn(c, s, i);
    assert Bucket(s.table, r) == Rest(c.W, q, i);
    MeantCommit(c, s.table, r);
    assert Bucket(t.table, r) == Rest(c.W, q, i + 1);
  }

  lemma {:induction false} InStepRound(c: Config, s: State, q: nat, r: nat, i: nat) returns (t: State)
    requires InStep(c, s, q, r, i) && Reachable(c, s) && q < c.W
    requires q * c.limit + r + 1 < c.total
    ensures Reachable(c, t) && InStep(c, t, q, r, c.W - 1)
    decreases c.W - i
  {
    if i == c.W - 1 {
      t := s;
    } else {
      InStepCommit(c, s, q, r, i);
      t := InStepRound(c, Turn(c, s, i), q, r, i + 1);
    }
  }

  /** A finished round is the start of the next one. */
  lemma NextRound(c: Config, s: State, q: nat, r: nat)
    requires c.W > 0 && InStep(c, s, q, r, c.W - 1) && q < c.W
    ensures if r + 1 < c.limit then InStep(c, s, q, r + 1, 0) else InStep(c, s, q + 1, 0, 0)
  {
    assert (q + 1) * c.limit == q * c.limit + c.limit;
  }

  lemma RoundsInTime(c: Config, q: nat, r: nat)
    requires r < c.limit && q < c.W && c.total > c.W * c.limit
    ensures q * c.limit + r + 1 < c.total
  {
    assert (q + 1) * c.limit == q * c.limit + c.limit;
    assert (q + 1) * c.limit <= c.W * c.limit;
  }

  /** All but the last worker get W * limit rounds ahead of it. */
  lemma {:induction false} RunAhead(c: Config, q: nat, r: nat, s: State) returns (t: State)
    requires Reachable(c, s) && InStep(c, s, q, r, 0) && q < c.W && c.total > c.W * c.limit
    ensures Reachable(c, t) && InStep(c, t, c.W, 0, 0)
    decreases c.W - q, c.limit - r
  {
    RoundsInTime(c, q, r);
    var u := InStepRound(c, s, q, r, 0);
    NextRound(c, u, q, r);
    if r + 1 < c.limit {
      t := RunAhead(c, q, r + 1, u);
    } else if q + 1 < c.W {
      t := RunAhead(c, q + 1, 0, u);
    } else {
      t := u;
    }
  }

  ghost predicate LeadIs(s: State, n: int)
  {
    exists i, j :: 0 <= i < |s.ws| && 0 <= j < |s.ws| && s.ws[i].clock - s.ws[j].clock == n
  }

  /** The bound W * limit + 1 is exact, as meant: with two or more workers and enough rounds, some run reaches
      it.  In particular the lead can exceed `limit`. */
  lemma LeadIsReached(c: Config)
    requires c.meant && c.W >= 2 && c.total > c.W * c.limit + 1
    ensures exists s :: Reachable(c, s) && LeadIs(s, c.W * c.limit + 1)
  {
    InitReachable(c);
    var s := Init(c);
    if c.limit > 0 {
      assert InStep(c, s, 0, 0, 0);
      s := RunAhead(c, 0, 0, s);
    }
    assert s.ws[0].clock == c.W * c.limit && s.ws[c.W - 1].clock == 0;
    TurnReachable(c, s, 0);
    var t := Turn(c, s, 0);
    assert t.ws[0].clock - t.ws[c.W - 1].clock == c.W * c.limit + 1;
    assert LeadIs(t, c.W * c.limit + 1);
  }

  // ---------------------------------------------------------------- as written: tick counts

  /** k commits in a row to one key. */
  function Commits(t: Table, key: Key, k: nat): Table
  {
    if k == 0 then t else IncrAsWritten(Commits(t, key, k - 1), key, 1)
  }

  function CommitsMeant(t: Table, key: Key, k: nat): Table
  {
    if k == 0 then t else IncrAsMeant(CommitsMeant(t, key, k - 1), key, 1)
  }

  function TickCount(W: nat, k: nat): nat
    requires W > 0
  {
    if k <= W / 2 then 0 else 1 + (k - W / 2 - 1) / (W - W / 2)
  }

  /** As written a commit ticks and leaves one in the bucket, or adds two to it. */
  lemma WrittenOnce(t: Table, b: int)
    requires ServerClock in t && WorkerSz in t
    ensures var t' := IncrAsWritten(t, ClientClock(b), 1);
            && ServerClock in t' && WorkerSz in t' && t'[WorkerSz] == t[WorkerSz] && ClientClock(b) in t'
            && (if Bucket(t, b) + 1 >= t[WorkerSz]
                then t'[ServerClock] == t[ServerClock] + 1 && Bucket(t', b) == 1
                else t'[ServerClock] == t[ServerClock] && Bucket(t', b) == Bucket(t, b) + 2)
  {
  }

  /** As written, k commits to a fresh bucket under a fixed worker_sz W tick floor(W/2) + 1 commits after the
      start and then every ceil(W/2) commits: about twice as often as meant. */
  lemma {:induction false} TicksAsWritten(t: Table, b: int, k: nat)
    requires ServerClock in t && WorkerSz in t && t[WorkerSz] > 0 && ClientClock(b) !in t
    ensures var W: nat := t[WorkerSz];
            var t' := Commits(t, ClientClock(b), k);
            && ServerClock in t' && t'[ServerClock] == t[ServerClock] + TickCount(W, k)
            && WorkerSz in t' && t'[WorkerSz] == W
            && Bucket(t', b) == (if k <= W / 2 then 2 * k else 1 + 2 * ((k - W / 2 - 1) % (W - W / 2)))
            && (ClientClock(b) in t' <==> k > 0)
  {
    if k > 0 {
      TicksAsWritten(t, b, k - 1);
      var W: nat := t[WorkerSz];
      WrittenOnce(Commits(t, ClientClock(b), k - 1), b);
      hide IncrAsWritten, Bucket;
      if k > W / 2 + 1 {
        DivModSucc(k - W / 2 - 2, W - W / 2);
      } else if k == W / 2 + 1 {
        DivModOf(0, 0, W - W / 2, 0);
      }
    }
  }

  /** As meant, every W commits tick once. */
  lemma {:induction false} TicksAsMeant(t: Table, b: int, k: nat)
    requires ServerClock in t && WorkerSz in t && t[WorkerSz] > 0 && ClientClock(b) !in t
    ensures var W: nat := t[WorkerSz];
            var t' := CommitsMeant(t, ClientClock(b), k);
            && ServerClock in t' && t'[ServerClock] == t[ServerClock] + k / W
            && WorkerSz in t' && t'[WorkerSz] == W && Bucket(t', b) == k % W
  {
    var W: nat := t[WorkerSz];
    if k > 0 {
      TicksAsMeant(t, b, k - 1);
      DivModSucc(k - 1, W);
    } else {
      DivModOf(0, 0, W, 0);
    }
  }

  // ---------------------------------------------------------------- as written: no bound

  ghost predicate LeadAtLeast(s: State, n: int)
  {
    exists i, j :: 0 <= i < |s.ws| && 0 <= j < |s.ws| && s.ws[i].clock - s.ws[j].clock >= n
  }

  ghost predicate Sane(c: Config, s: State)
  {
    && !c.meant && |s.ws| == c.W >= 2
    && ServerClock in s.table && WorkerSz in s.table && s.table[WorkerSz] == c.W && s.table[ServerClock] >= 0
    && forall k :: 0 <= Bucket(s.table, k) <= c.W
  }

  /** As written a commit either ticks or adds two to its bucket; either way the bucket ends up positive. */
  lemma WrittenCommit(c: Config, s: State, i: nat)
    requires Sane(c, s) && i < c.W
    ensures var t := Turn(c, s, i);
            var k := BucketKey(c.limit, s.ws[i].clock).bucket;
            && Sane(c, t)
            && (forall j :: j != k ==> Bucket(t.table, j) == Bucket(s.table, j))
            && (if Bucket(s.table, k) + 1 >= c.W
                then t.table[ServerClock] == s.table[ServerClock] + 1 && Bucket(t.table, k) == 1
                else t.table[ServerClock] == s.table[ServerClock] && Bucket(t.table, k) == Bucket(s.table, k) + 2)
  {
    var t := Turn(c, s, i);
    var k := BucketKey(c.limit, s.ws[i].clock).bucket;
    forall j
      ensures 0 <= Bucket(t.table, j) <= c.W && (j != k ==> Bucket(t.table, j) == Bucket(s.table, j))
    {
      assert 0 <= Bucket(s.table, j) <= c.W && 0 <= Bucket(s.table, k) <= c.W;
    }
  }

  /** Three or more workers: all but the last go round by round, the first i of them one round further. */
  ghost predicate Pack(c: Config, s: State, round: nat, i: nat)
  {
    && Sane(c, s) && c.W >= 3 && i < c.W
    && (forall k :: 0 <= k < c.W - 1 ==> s.ws[k].pc == Reading && s.ws[k].clock == if k < i then round + 1 else round)
    && s.ws[c.W - 1].clock == 0
    && s.table[ServerClock] >= round
    && (s.table[ServerClock] == round ==> Bucket(s.table, BucketKey(c.limit, round).bucket) >= 2 * i)
  }

  lemma {:induction false} PackRound(c: Config, s: State, round: nat, i: nat) returns (t: State)
    requires Pack(c, s, round, i) && Reachable(c, s) && round + 1 < c.total
    ensures Reachable(c, t) && Pack(c, t, round + 1, 0)
    decreases c.W - i
  {
    if i == c.W - 1 {
      assert s.table[ServerClock] > round;
      t := s;
    } else {
      TurnReachable(c, s, i);
      WrittenCommit(c, s, i);
      t := PackRound(c, Turn(c, s, i), round, i + 1);
    }
  }

  /** Two workers: once every bucket has been touched, the first can go on alone. */
  ghost predicate Alone(c: Config, s: State)
  {
    && Sane(c, s) && c.W == 2 && s.ws[0].pc == Reading && s.ws[1].clock <= 1
    && s.ws[0].clock <= s.table[ServerClock] + c.limit
    && forall k :: 0 <= k < Buckets(c) && k < s.ws[0].clock ==> Bucket(s.table, k) >= 1
  }

  lemma AloneStep(c: Config, s: State)
    requires Alone(c, s) && Reachable(c, s) && s.ws[0].clock + 1 < c.total
    requires c.limit == 0 ==> s.ws[0].clock > 0
    ensures Reachable(c, Turn(c, s, 0)) && Alone(c, Turn(c, s, 0))
  {
    TurnReachable(c, s, 0);
    WrittenCommit(c, s, 0);
    var m := s.ws[0].clock;
    var k := BucketKey(c.limit, m).bucket;
    BucketInRange(c, m);
    if m < c.limit {
      DivModOf(0, m, c.limit, m);
    }
  }

  lemma {:induction false} AloneFor(c: Config, s: State, n: nat) returns (t: State)
    requires Alone(c, s) && Reachable(c, s) && (c.limit == 0 ==> s.ws[0].clock > 0)
    requires s.ws[0].clock <= n < c.total
    ensures Reachable(c, t) && Alone(c, t) && t.ws[0].clock == n
    decreases n - s.ws[0].clock
  {
    if s.ws[0].clock == n {
      t := s;
    } else {
      AloneStep(c, s);
      t := AloneFor(c, Turn(c, s, 0), n);
    }
  }

  lemma {:induction false} PackFor(c: Config, s: State, round: nat, n: nat) returns (t: State)
    requires Pack(c, s, round, 0) && Reachable(c, s) && round <= n < c.total
    ensures Reachable(c, t) && Pack(c, t, n, 0)
    decreases n - round
  {
    if round == n {
      t := s;
    } else {
      var u := PackRound(c, s, round, 0);
      t := PackFor(c, u, round + 1, n);
    }
  }

  /** As written there is no staleness bound at all: with two or more workers and any limit, some run puts one
      worker n clocks ahead of another, for every n. */
  lemma UnboundedLeadAsWritten(c: Config, n: nat)
    requires !c.meant && c.W >= 2 && c.total > n + 1
    ensures exists s :: Reachable(c, s) && LeadAtLeast(s, n)
  {
    InitReachable(c);
    var s := Init(c);
    assert Sane(c, s);
    if c.W >= 3 {
      assert Pack(c, s, 0, 0);
      var t := PackFor(c, s, 0, n);
      assert t.ws[0].clock - t.ws[c.W - 1].clock >= n;
    } else {
      var u := s;
      if c.limit == 0 {
        TurnReachable(c, s, 0);
        WrittenCommit(c, s, 0);
        var s1 := Turn(c, s, 0);
        TurnReachable(c, s1, 1);
        WrittenCommit(c, s1, 1);
        u := Turn(c, s1, 1);
      }
      assert Alone(c, u);
      var t := AloneFor(c, u, n + 1);
      assert t.ws[0].clock - t.ws[1].clock >= n;
    }
  }

  /** So the handler as written bounds the lead exactly when there is a single worker. */
  lemma BoundedExactlyForOneWorker(c: Config, bound: nat)
    requires !c.meant && c.W > 0 && c.total > bound + 2
    ensures (forall s :: Reachable(c, s) ==> !LeadAtLeast(s, bound + 1)) <==> c.W == 1
  {
    if c.W >= 2 {
      UnboundedLeadAsWritten(c, bound + 1);
    } else {
      forall s | Reachable(c, s)
        ensures !LeadAtLeast(s, bound + 1)
      {
        var acts :| Run(c, Init(c), acts, s);
        GateRun(c, Init(c), acts, s);
      }
    }
  }
}