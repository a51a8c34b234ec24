/** Max-value propagation in supersteps (alg/max_vertex_value/max_vertex_value.hpp and update.cpp): workers push
    the values of their active vertices to the server, which keeps maxima; a vertex whose value did not change
    votes to halt. */
module MaxVertex {
  import opened Arith
  import opened Graph

  /** local_update of update.cpp. */
  function Max(a: real, b: real): real
  {
    if a > b then a else b
  }

  /** The server's update of one key: the first value is stored, later ones are combined. */
  function Bupdate<V(==)>(server: map<V, real>, key: V, delta: real): map<V, real>
  {
    server[key := if key in server then Max(server[key], delta) else delta]
  }

  /** x is a value that v started with, for some tracked v that reaches k. */
  ghost predicate Originates<V(!new)>(g: Adjacency<V>, init: map<V, real>, k: V, x: real)
  {
    exists v :: v in init && init[v] == x && Reaches(g, v, k)
  }

  /** Everything v could send along its edges, the server already has. */
  ghost predicate Settled<V>(g: Adjacency<V>, server: map<V, real>, v: V, x: real)
  {
    forall w :: w in Adjacent(g, v) ==> w in server && server[w] >= x
  }

  /** The tracked vertices are those with an outgoing edge. */
  ghost predicate Tracks<V(!new)>(g: Adjacency<V>, init: map<V, real>)
  {
    forall v :: v in init <==> Adjacent(g, v) != {}
  }

  ghost predicate Sound<V(!new)>(g: Adjacency<V>, init: map<V, real>, server: map<V, real>)
  {
    forall k :: k in server ==> Originates(g, init, k, server[k])
  }

  /** Between supersteps: local values mirror the server, every value has an origin, no value has dropped below
      its start, and an inactive vertex has nothing left to send. */
  ghost predicate Inv<V(!new)>(g: Adjacency<V>, init: map<V, real>, val: map<V, real>, active: set<V>,
        server: map<V, real>)
  {
    && Tracks(g, init) && val.Keys == init.Keys && active <= init.Keys && init.Keys <= server.Keys
    && (forall v :: v in init ==> server[v] == val[v] >= init[v])
    && Sound(g, init, server)
    && (forall v :: v in init && v !in active ==> Settled(g, server, v, val[v]))
  }

  lemma Started<V(!new)>(g: Adjacency<V>, init: map<V, real>, server: map<V, real>)
    requires Tracks(g, init) && server == init
    ensures Inv(g, init, init, init.Keys, server)
  {
    hide Tracks;
    forall v | v in init
      ensures Originates(g, init, v, init[v])
    {
      ReachesSelf(g, v);
    }
  }

  // ---------------------------------------------------------------- one superstep

  ghost predicate Grown<V>(server: map<V, real>, server': map<V, real>)
  {
    forall k :: k in server ==> k in server' && server'[k] >= server[k]
  }

  /** Every entry is an old one or a pushed one. */
  ghost predicate Sourced<V(!new)>(g: Adjacency<V>, val: map<V, real>, active: set<V>, server: map<V, real>,
        server': map<V, real>)
    requires active <= val.Keys
  {
    forall k :: k in server' ==> (k in server && server'[k] == server[k])
                                 || exists v :: v in active && k in Adjacent(g, v) && server'[k] == val[v]
  }

  /** The server after the pushes: grown only at successors of active vertices, at least everything pushed, and
      every entry is an old one or a pushed one.  This pins the server down whatever the order of the pushes. */
  ghost predicate Pushed<V(!new)>(g: Adjacency<V>, val: map<V, real>, active: set<V>, server: map<V, real>,
        server': map<V, real>)
    requires active <= val.Keys
  {
    && Grown(server, server') && Sourced(g, val, active, server, server')
    && forall v :: v in active ==> Settled(g, server', v, val[v])
  }

  lemma PushedIsUnique<V(!new)>(g: Adjacency<V>, val: map<V, real>, active: set<V>, server: map<V, real>,
                                a: map<V, real>, b: map<V, real>)
    requires active <= val.Keys && Pushed(g, val, active, server, a) && Pushed(g, val, active, server, b)
    ensures a == b
  {
    forall k | k in a
      ensures k in b && a[k] <= b[k]
    {
      PushedBelow(g, val, active, server, a, b, k);
    }
    forall k | k in b
      ensures k in a && b[k] <= a[k]
    {
      PushedBelow(g, val, active, server, b, a, k);
    }
  }

  lemma PushedBelow<V(!new)>(g: Adjacency<V>, val: map<V, real>, active: set<V>, server: map<V, real>,
                             a: map<V, real>, b: map<V, real>, k: V)
    requires active <= val.Keys && Pushed(g, val, active, server, a) && Pushed(g, val, active, server, b) && k in a
    ensures k in b && a[k] <= b[k]
  {
    if !(k in server && a[k] == server[k]) {
      var v :| v in active && k in Adjacent(g, v) && a[k] == val[v];
      assert Settled(g, b, v, val[v]);
    }
  }

  ghost function Arcs<V(!new)>(g: Adjacency<V>, from: set<V>): (r: set<(V, V)>)
    ensures forall v, w :: (v, w) in r <==> v in from && w in Adjacent(g, v)
  {
    set v, w | v in from && w in Adjacent(g, v) :: (v, w)
  }

  /** Pushing and refreshing never lose the origin of a value. */
  lemma PushedIsSound<V(!new)>(g: Adjacency<V>, init: map<V, real>, val: map<V, real>, active: set<V>,
        server: map<V, real>,
                               server': map<V, real>)
    requires active <= val.Keys && Sound(g, init, server) && Pushed(g, val, active, server, server')
    requires forall v :: v in active ==> v in server && server[v] == val[v]
    ensures Sound(g, init, server')
  {
    forall k | k in server'
      ensures Originates(g, init, k, server'[k])
    {
      if k in server && server'[k] == server[k] {
        assert Originates(g, init, k, server[k]);
      } else {
        var v :| v in active && k in Adjacent(g, v) && server'[k] == val[v];
        assert Originates(g, init, v, server[v]);
        var u :| u in init && init[u] == server[v] && Reaches(g, u, v);
        ReachesEdge(g, v, k);
        ReachesTransitive(g, u, v, k);
      }
    }
  }

  lemma SettledAfterPush<V(!new)>(g: Adjacency<V>, val: map<V, real>, active: set<V>, server: map<V, real>,
        server': map<V, real>, v: V)
    requires active <= val.Keys && Pushed(g, val, active, server, server') && v in val
    requires v !in active ==> Settled(g, server, v, val[v])
    ensures Settled(g, server', v, val[v])
  {
  }

  /** What a refresh makes of the local values and the active set. */
  ghost predicate Refreshed<V(!new)>(init: map<V, real>, val: map<V, real>, server': map<V, real>, val': map<V, real>,
        active': set<V>)
    requires val.Keys == init.Keys
  {
    && val'.Keys == init.Keys <= server'.Keys && active' <= init.Keys
    && forall v :: v in init ==> val'[v] == server'[v] && (v in active' <==> val'[v] != val[v])
  }

  /** Inv is kept by pushing and then refreshing the local values and the active set. */
  lemma SuperstepInv<V(!new)>(g: Adjacency<V>, init: map<V, real>, val: map<V, real>, active: set<V>,
        server: map<V, real>,
                              server': map<V, real>, val': map<V, real>, active': set<V>)
    requires Inv(g, init, val, active, server) && Pushed(g, val, active, server, server')
    requires Refreshed(init, val, server', val', active')
    ensures Inv(g, init, val', active', server')
    ensures forall v :: v in init ==> val'[v] >= val[v]
  {
    hide Reaches, Originates, Settled, Sound, Adjacent, Tracks;
    PushedIsSound(g, init, val, active, server, server');
    forall v | v in init && v !in active'
      ensures Settled(g, server', v, val'[v])
    {
      SettledAfterPush(g, val, active, server, server', v);
    }
    forall v | v in init
      ensures server'[v] == val'[v] >= val[v] >= init[v]
    {
      assert server'[v] >= server[v] == val[v];
    }
  }

  // ---------------------------------------------------------------- termination

  /** The rises still possible: pairs of a vertex and a starting value above its current one. */
  ghost function Rises<V(!new)>(init: map<V, real>, val: map<V, real>): (r: set<(V, real)>)
    requires val.Keys == init.Keys
    ensures forall v, x :: (v, x) in r <==> v in init && x in init.Values && x > val[v]
  {
    set v, x | v in init && x in init.Values && x > val[v] :: (v, x)
  }

  ghost function RisesLeft<V(!new)>(init: map<V, real>, val: map<V, real>): nat
    requires val.Keys == init.Keys
  {
    |Rises(init, val)|
  }

  /** A superstep allows no new rise, and uses one up unless every vertex votes to halt. */
  lemma RisesShrink<V(!new)>(g: Adjacency<V>, init: map<V, real>, val: map<V, real>,
                             val': map<V, real>, active': set<V>, server': map<V, real>)
    requires val.Keys == init.Keys && Inv(g, init, val', active', server')
    requires Refreshed(init, val, server', val', active') && forall v :: v in init ==> val'[v] >= val[v]
    ensures RisesLeft(init, val') <= RisesLeft(init, val)
    ensures active' != {} ==> RisesLeft(init, val') < RisesLeft(init, val)
  {
    hide Rises, Reaches, Originates, Settled, Tracks, Adjacent;
    var r, r' := Rises(init, val), Rises(init, val');
    forall vx | vx in r'
      ensures vx in r
    {
      var (v, x) := vx;
    }
    if active' != {} {
      var v :| v in active';
      assert Sound(g, init, server') && v in server';
      OriginIsInitial(g, init, v, server'[v]);
      assert (v, val'[v]) in r && (v, val'[v]) !in r';
    }
    SubsetSize(r', r);
  }

  lemma OriginIsInitial<V(!new)>(g: Adjacency<V>, init: map<V, real>, v: V, x: real)
    requires Originates(g, init, v, x)
    ensures x in init.Values
  {
  }

  /** A superstep without active vertices changes nothing. */
  lemma NothingMoves<V(!new)>(g: Adjacency<V>, init: map<V, real>, val: map<V, real>, server: map<V, real>,
                              server': map<V, real>, val': map<V, real>, active': set<V>)
    requires Inv(g, init, val, {}, server) && Pushed(g, val, {}, server, server')
    requires Refreshed(init, val, server', val', active')
    ensures active' == {}
  {
  }

  lemma RefreshedKeys<V(!new)>(init: map<V, real>, val: map<V, real>, server': map<V, real>, val': map<V, real>,
        active': set<V>)
    requires val.Keys == init.Keys && Refreshed(init, val, server', val', active')
    ensures val'.Keys == init.Keys && active' <= init.Keys
  {
  }

  lemma PushedKeys<V(!new)>(g: Adjacency<V>, init: map<V, real>, val: map<V, real>, active: set<V>,
        server: map<V, real>,
                            server': map<V, real>)
    requires Inv(g, init, val, active, server)
    ensures val.Keys == init.Keys <= server.Keys && active <= init.Keys
    ensures Pushed(g, val, active, server, server') ==> init.Keys <= server'.Keys
  {
  }

  // ---------------------------------------------------------------- the result

  lemma {:induction false} ValuesGrowAlongWalks<V(!new)>(g: Adjacency<V>, init: map<V, real>, val: map<V, real>,
        server: map<V, real>,
                                                        p: seq<V>, u: V, x: V)
    requires Inv(g, init, val, {}, server) && IsWalk(g, p, u, x) && u in init && x in init
    ensures val[u] <= val[x]
    decreases |p|
  {
    hide Reaches, Originates, Sound;
    if |p| > 1 {
      var w := p[1];
      assert p[0 + 1] in Adjacent(g, p[0]);
      assert IsWalk(g, p[1..], w, x);
      assert w in init by {
        if |p| > 2 {
          assert p[1 + 1] in Adjacent(g, p[1]);
        }
      }
      assert Settled(g, server, u, val[u]);
      ValuesGrowAlongWalks(g, init, val, server, p[1..], w, x);
    }
  }

  /** x's final value: the largest starting value among the tracked vertices that reach x. */
  ghost predicate IsReachingMax<V(!new)>(g: Adjacency<V>, init: map<V, real>, x: V, m: real)
  {
    && Originates(g, init, x, m)
    && forall u :: u in init && Reaches(g, u, x) ==> init[u] <= m
  }

  lemma HaltedIsMax<V(!new)>(g: Adjacency<V>, init: map<V, real>, val: map<V, real>, server: map<V, real>)
    requires Inv(g, init, val, {}, server)
    ensures forall x :: x in init ==> IsReachingMax(g, init, x, val[x])
  {
    hide Originates, Settled, Adjacent, Tracks, IsWalk;
    forall x, u | x in init && u in init && Reaches(g, u, x)
      ensures init[u] <= val[x]
    {
      var p :| IsWalk(g, p, u, x);
      ValuesGrowAlongWalks(g, init, val, server, p, u, x);
    }
    forall x | x in init
      ensures IsReachingMax(g, init, x, val[x])
    {
      assert val[x] == server[x];
    }
  }

  // ---------------------------------------------------------------- pushing one by one

  /** All arcs of the active vertices but the pending ones have been pushed along. */
  ghost predicate SentBut<V(!new)>(g: Adjacency<V>, val: map<V, real>, active: set<V>, server': map<V, real>,
        pending: set<(V, V)>)
    requires active <= val.Keys
  {
    forall v, w :: (v, w) in Arcs(g, active) && (v, w) !in pending ==> w in server' && server'[w] >= val[v]
  }

  ghost predicate PushedBut<V(!new)>(g: Adjacency<V>, val: map<V, real>, active: set<V>, server: map<V, real>,
        server': map<V, real>, pending: set<(V, V)>)
    requires active <= val.Keys
  {
    && Grown(server, server') && SentBut(g, val, active, server', pending)
    && Sourced(g, val, active, server, server')
  }

  lemma NothingPushed<V(!new)>(g: Adjacency<V>, val: map<V, real>, active: set<V>, server: map<V, real>)
    requires active <= val.Keys
    ensures PushedBut(g, val, active, server, server, Arcs(g, active))
  {
  }

  lemma UpdateGrows<V>(server: map<V, real>, w: V, x: real)
    ensures Grown(server, Bupdate(server, w, x))
    ensures w in Bupdate(server, w, x) && Bupdate(server, w, x)[w] >= x
  {
  }

  lemma GrownTransitive<V>(a: map<V, real>, b: map<V, real>, c: map<V, real>)
    requires Grown(a, b) && Grown(b, c)
    ensures Grown(a, c)
  {
  }

  lemma OneSent<V(!new)>(g: Adjacency<V>, val: map<V, real>, active: set<V>, server: map<V, real>,
        server': map<V, real>, pending: set<(V, V)>, v: V, w: V)
    requires active <= val.Keys && SentBut(g, val, active, server, pending) && v in val
    requires Grown(server, server') && w in server' && server'[w] >= val[v]
    ensures SentBut(g, val, active, server', pending - {(v, w)})
  {
    hide Arcs;
  }

  lemma OneSourced<V(!new)>(g: Adjacency<V>, val: map<V, real>, active: set<V>, server: map<V, real>,
        server': map<V, real>, v: V, w: V)
    requires active <= val.Keys && Sourced(g, val, active, server, server') && v in active && w in Adjacent(g, v)
    ensures Sourced(g, val, active, server, Bupdate(server', w, val[v]))
  {
    hide Adjacent;
  }

  lemma OnePushed<V(!new)>(g: Adjacency<V>, val: map<V, real>, active: set<V>, server: map<V, real>,
        server': map<V, real>, pending: set<(V, V)>, v: V, w: V)
    requires active <= val.Keys && PushedBut(g, val, active, server, server', pending) && (v, w) in Arcs(g, active)
    ensures v in val && PushedBut(g, val, active, server, Bupdate(server', w, val[v]), pending - {(v, w)})
  {
    hide Grown, SentBut, Sourced, Bupdate, Adjacent, Arcs;
    UpdateGrows(server', w, val[v]);
    GrownTransitive(server, server', Bupdate(server', w, val[v]));
    OneSent(g, val, active, server', Bupdate(server', w, val[v]), pending, v, w);
    OneSourced(g, val, active, server, server', v, w);
  }

  lemma AllPushed<V(!new)>(g: Adjacency<V>, val: map<V, real>, active: set<V>, server: map<V, real>,
        server': map<V, real>)
    requires active <= val.Keys && PushedBut(g, val, active, server, server', {})
    ensures Pushed(g, val, active, server, server')
  {
    forall v | v in active
      ensures Settled(g, server', v, val[v])
    {
      forall w | w in Adjacent(g, v)
        ensures w in server' && server'[w] >= val[v]
      {
        assert (v, w) in Arcs(g, active);
      }
    }
  }

  // ---------------------------------------------------------------- the program

  /** All workers together; `owner` says which worker holds a vertex.  Barriers separate the phases, and within
      a phase the workers' updates reach the server in any order. */
  class MaxVertexValue<V(==, !new)> {
    const grp: Adjacency<V>
    const init: map<V, real>
    const workers: nat
    const owner: map<V, nat>
    var val: map<V, real>
    var active: set<V>
    var server: map<V, real>

    constructor (grp: Adjacency<V>, init: map<V, real>, workers: nat, owner: map<V, nat>)
      requires Tracks(grp, init)
      ensures this.grp == grp && this.init == init && this.workers == workers && this.owner == owner
      ensures val == init && active == init.Keys && server == map[]
    {
      this.grp, this.init, this.workers, this.owner := grp, init, workers, owner;
      val, active, server := init, init.Keys, map[];
    }

    /** Superstep 0: every vertex publishes its own value. */
    method Publish()
      requires val == init && active == init.Keys && server == map[] && Tracks(grp, init)
      modifies this`server
      ensures Inv(grp, init, val, active, server)
    {
      hide Inv, Tracks;
      var todo := init.Keys;
      while todo != {}
        invariant todo <= init.Keys && server.Keys == init.Keys - todo
        invariant forall v :: v in server ==> server[v] == init[v]
      {
        var v :| v in todo;
        todo := todo - {v};
        server := Bupdate(server, v, val[v]);
      }
      Started(grp, init, server);
    }

    /** The pushes of one superstep, in any order. */
    method Push()
      requires active <= val.Keys
      modifies this`server
      ensures Pushed(grp, val, active, old(server), server)
    {
      var pending := set v, w | v in active && w in Adjacent(grp, v) :: (v, w);
      assert pending == Arcs(grp, active);
      NothingPushed(grp, val, active, server);
      hide PushedBut;
      while pending != {}
        invariant pending <= Arcs(grp, active) && PushedBut(grp, val, active, old(server), server, pending)
        decreases pending
      {
        var arc :| arc in pending;
        var (v, w) := arc;
        assert (v, w) in Arcs(grp, active);
        OnePushed(grp, val, active, old(server), server, pending, v, w);
        pending := pending - {arc};
        server := Bupdate(server, w, val[v]);
      }
      AllPushed(grp, val, active, old(server), server);
    }

    /** The votes: how many workers had no active vertex. */
    method HaltVotes() returns (votes: nat)
      requires forall v :: v in active ==> v in owner && owner[v] < workers
      ensures votes <= workers && (votes == workers <==> active == {})
    {
      votes := 0;
      for k := 0 to workers
        invariant votes <= k
        invariant votes == k <==> forall v :: v in active ==> owner[v] >= k
      {
        var mine := set v | v in active && owner[v] == k;
        if mine == {} {
          assert forall v :: v in active ==> owner[v] != k by {
            assert forall v :: v in active && owner[v] == k ==> v in mine;
          }
          votes := votes + 1;
        } else {
          var v :| v in mine;
        }
      }
      if active != {} {
        var v :| v in active;
      }
    }

    /** Reading the values back; unchanged vertices vote to halt. */
    method Refresh()
      requires val.Keys == init.Keys <= server.Keys && active <= init.Keys
      modifies this`val, this`active
      ensures Refreshed(init, old(val), server, val, active)
    {
      var todo := init.Keys;
      while todo != {}
        invariant todo <= init.Keys && val.Keys == init.Keys
        invariant forall v :: v in init ==> val[v] == if v in todo then old(val)[v] else server[v]
        invariant forall v :: v in init && v !in todo ==> (v in active <==> server[v] != old(val)[v])
        invariant active <= init.Keys
      {
        var v :| v in todo;
        todo := todo - {v};
        var newVal, oldVal := server[v], val[v];
        val := val[v := newVal];
        active := if newVal == oldVal then active - {v} else active + {v};
      }
    }

    /** One superstep with its votes. */
    method Superstep() returns (votes: nat)
      requires Inv(grp, init, val, active, server)
      requires forall v :: v in init ==> v in owner && owner[v] < workers
      modifies this`val, this`active, this`server
      ensures Inv(grp, init, val, active, server)
      ensures val.Keys == old(val).Keys == init.Keys && RisesLeft(init, val) <= RisesLeft(init, old(val))
      ensures active != {} ==> RisesLeft(init, val) < RisesLeft(init, old(val))
      ensures votes == workers <==> old(active) == {}
      ensures votes == workers ==> active == {}
    {
      hide Pushed, Refreshed, RisesLeft, Tracks, Settled, Originates, Sound, Reaches;
      ghost var val0, active0, server0 := val, active, server;
      Push();
      votes := HaltVotes();
      PushedKeys(grp, init, val, active, server0, server);
      Refresh();
      RefreshedKeys(init, val0, server, val, active);
      SuperstepInv(grp, init, val0, active0, server0, server, val, active);
      RisesShrink(grp, init, val0, val, active, server);
      if votes == workers {
        NothingMoves(grp, init, val0, server0, server, val, active);
      }
    }

    /** Terminates on every finite graph and leaves each tracked vertex with the largest starting value among
        the tracked vertices that reach it. */
    method Solve()
      requires val == init && active == init.Keys && server == map[] && Tracks(grp, init)
      requires workers > 0 && forall v :: v in init ==> v in owner && owner[v] < workers
      modifies this`val, this`active, this`server
      ensures val.Keys == init.Keys && forall x :: x in init ==> IsReachingMax(grp, init, x, val[x])
    {
      Publish();
      hide Inv, RisesLeft, IsReachingMax, Tracks;
      while true
        invariant Inv(grp, init, val, active, server) && val.Keys == init.Keys
        decreases RisesLeft(init, val), active != {}
      {
        var votes := Superstep();
        if votes == workers {
          HaltedIsMax(grp, init, val, server);
          break;
        }
      }
    }
  }
}
