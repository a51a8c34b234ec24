/** Dense local indices for the row and column ids of a process grid (string index_mapping of
    include/load/scheduler.hpp): the ranks of a row group should agree on one sorted table of row ids, those of a
    column group on one of column ids.  Lists of ids cross ranks in the string-list format of include/utils/comm.hpp. */
module IndexMapping {
  import opened Arith
  import opened Kv
  import opened Redistribute
  import opened Placement
  import Codec
  import Words

  // ---------------------------------------------------------------- ordered sets of strings

  /** Lexicographic order, as std::set uses it. */
  predicate Less(a: string, b: string)
  {
    if b == [] then false
    else if a == [] then true
    else a[0] < b[0] || (a[0] == b[0] && Less(a[1..], b[1..]))
  }

  /** Which order Less is: a comes before b when it is a proper beginning of b, or has the smaller character at the
      first place where they differ. */
  ghost predicate Before(a: string, b: string, p: nat)
  {
    p <= |a| && p < |b| && a[..p] == b[..p] && (p == |a| || a[p] < b[p])
  }

  lemma {:induction false} LessMeans(a: string, b: string)
    ensures Less(a, b) <==> exists p :: Before(a, b, p)
  {
    if a == [] {
      assert b != [] ==> Before(a, b, 0);
    } else if b != [] {
      LessMeans(a[1..], b[1..]);
      if a[0] < b[0] {
        assert Before(a, b, 0);
      }
      if a[0] == b[0] && Less(a[1..], b[1..]) {
        var p :| Before(a[1..], b[1..], p);
        OneFurther(a, b, p);
      }
      forall p: nat | Before(a, b, p)
        ensures a[0] < b[0] || (a[0] == b[0] && Before(a[1..], b[1..], p - 1))
      {
        OneNearer(a, b, p);
      }
    }
  }

  lemma OneFurther(a: string, b: string, p: nat)
    requires a != [] && b != [] && a[0] == b[0] && Before(a[1..], b[1..], p)
    ensures Before(a, b, p + 1)
  {
    assert a[..p + 1] == [a[0]] + a[1..][..p] && b[..p + 1] == [b[0]] + b[1..][..p];
  }

  lemma OneNearer(a: string, b: string, p: nat)
    requires a != [] && b != [] && Before(a, b, p)
    ensures a[0] < b[0] || (a[0] == b[0] && p > 0 && Before(a[1..], b[1..], p - 1))
  {
    if p > 0 {
      assert a[..p][0] == b[..p][0];
      assert a[1..][..p - 1] == a[..p][1..] && b[1..][..p - 1] == b[..p][1..];
    }
  }

  lemma {:induction false} LessIrreflexive(a: string)
    ensures !Less(a, a)
  {
    if a != [] {
      LessIrreflexive(a[1..]);
    }
  }

  lemma {:induction false} LessTransitive(a: string, b: string, c: string)
    requires Less(a, b) && Less(b, c)
    ensures Less(a, c)
  {
    if a != [] && a[0] == b[0] && b[0] == c[0] {
      LessTransitive(a[1..], b[1..], c[1..]);
    }
  }

  lemma {:induction false} LessTotal(a: string, b: string)
    ensures a == b || Less(a, b) || Less(b, a)
  {
    if a != [] && b != [] && a[0] == b[0] {
      LessTotal(a[1..], b[1..]);
      if a[1..] == b[1..] {
        assert a == [a[0]] + a[1..] && b == [b[0]] + b[1..];
      }
    }
  }

  ghost predicate Sorted(s: seq<string>)
  {
    forall i, j :: 0 <= i < j < |s| ==> Less(s[i], s[j])
  }

  /** Two sorted lists with the same elements are the same list. */
  lemma {:induction false} SortedUnique(a: seq<string>, b: seq<string>)
    requires Sorted(a) && Sorted(b) && forall x :: x in a <==> x in b
    ensures a == b
  {
    if a == [] {
      assert forall i :: 0 <= i < |b| ==> b[i] in b;
    } else {
      assert a[0] in b;
      assert b[0] in a;
      if a[0] != b[0] {
        LessTransitive(a[0], b[0], a[0]);
        LessIrreflexive(a[0]);
      } else {
        TailElements(a);
        TailElements(b);
        SortedUnique(a[1..], b[1..]);
      }
    }
  }

  lemma TailElements(a: seq<string>)
    requires a != [] && Sorted(a)
    ensures forall x :: x in a[1..] <==> x in a && x != a[0]
    ensures Sorted(a[1..])
  {
    LessIrreflexive(a[0]);
    forall x | x in a && x != a[0]
      ensures x in a[1..]
    {
      var i :| 0 <= i < |a| && a[i] == x;
      assert a[1..][i - 1] == x;
    }
    forall x | x in a[1..]
      ensures x != a[0]
    {
      var i :| 0 <= i < |a[1..]| && a[1..][i] == x;
      assert a[i + 1] == x;
    }
  }

  /** set::insert. */
  function Insert(s: seq<string>, x: string): (r: seq<string>)
    ensures forall y :: y in r <==> y in s || y == x
  {
    if s == [] then [x]
    else if x == s[0] then s
    else if Less(x, s[0]) then [x] + s
    else
      var t := Insert(s[1..], x);
      assert s == [s[0]] + s[1..];
      [s[0]] + t
  }

  lemma {:induction false} InsertSorted(s: seq<string>, x: string)
    requires Sorted(s)
    ensures Sorted(Insert(s, x))
  {
    if s != [] && x != s[0] {
      if Less(x, s[0]) {
        forall j | 0 <= j < |s|
          ensures Less(x, s[j])
        {
          if j > 0 {
            LessTransitive(x, s[0], s[j]);
          }
        }
      } else {
        LessTotal(x, s[0]);
        TailElements(s);
        InsertSorted(s[1..], x);
        var t := Insert(s[1..], x);
        forall j | 0 <= j < |t|
          ensures Less(s[0], t[j])
        {
          if t[j] != x {
            assert t[j] in s[1..];
            var i :| 0 <= i < |s[1..]| && s[1..][i] == t[j];
            assert s[i + 1] == t[j];
          }
        }
      }
    }
  }

  // ---------------------------------------------------------------- groups of ranks

  /** Comm::split: the ranks below n of one color, in order. */
  function Split(n: nat, color: nat -> nat, c: nat): (members: seq<nat>)
    ensures forall r: nat :: r in members <==> r < n && color(r) == c
  {
    if n == 0 then [] else Split(n - 1, color, c) + (if color(n - 1) == c then [n - 1] else [])
  }

  function IndexOf(members: seq<nat>, r: nat): (i: nat)
    requires r in members
    ensures i < |members| && members[i] == r
  {
    if members[0] == r then 0 else 1 + IndexOf(members[1..], r)
  }

  /** x occurs in one of the lists. */
  ghost predicate InSome(lists: seq<seq<string>>, x: string)
  {
    exists f :: 0 <= f < |lists| && x in lists[f]
  }

  /** How a list of ids travels to another rank. */
  function IdWire(): seq<string> -> Option<seq<string>>
  {
    (l: seq<string>) => Codec.TransferredStrings(l)
  }

  /** Rank `me` of a group sees x in one of the group's lists. */
  ghost predicate Sees(lists: seq<seq<string>>, me: nat, x: string)
  {
    InSome(Arrivals(IdWire(), lists, me, []), x)
  }

  /** One call of the union function. */
  method InsertAll(before: seq<string>, l: seq<string>) returns (table: seq<string>)
    requires Sorted(before)
    ensures Sorted(table) && forall x :: x in table <==> x in before || x in l
  {
    hide Sorted;
    table := before;
    for j := 0 to |l|
      invariant Sorted(table) && forall x :: x in table <==> x in before || x in l[..j]
    {
      InsertSorted(table, l[j]);
      assert l[..j + 1] == l[..j] + [l[j]];
      table := Insert(table, l[j]);
    }
    assert l[..|l|] == l;
  }

  lemma InSomeMore(handed: seq<seq<string>>, i: nat)
    requires i < |handed|
    ensures forall x :: InSome(handed[..i + 1], x) <==> InSome(handed[..i], x) || x in handed[i]
  {
    forall x
      ensures InSome(handed[..i + 1], x) <==> InSome(handed[..i], x) || x in handed[i]
    {
      if InSome(handed[..i], x) {
        var f :| 0 <= f < i && x in handed[..i][f];
        assert x in handed[..i + 1][f];
      }
      if x in handed[i] {
        assert x in handed[..i + 1][i];
      }
      if InSome(handed[..i + 1], x) {
        var f :| 0 <= f < i + 1 && x in handed[..i + 1][f];
        assert f < i ==> x in handed[..i][f];
      }
    }
  }

  /** bcastring with a union function, as rank `me` runs it: the sorted set of all ids it sees. */
  method CollectIds(lists: seq<seq<string>>, me: nat) returns (r: Option<seq<string>>)
    requires me < |lists|
    ensures r.Some? <==> AllArrive(IdWire(), lists, me)
    ensures r.Some? ==> Sorted(r.value) && forall x :: x in r.value <==> Sees(lists, me, x)
  {
    hide AllArrive, Handed, Sees, InSome;
    var calls := Bcastring(IdWire(), lists, me);
    if calls.None? {
      return None;
    }
    var handed := calls.value;
    var table := [];
    NothingYet(handed);
    for i := 0 to |handed|
      invariant Sorted(table) && forall x :: x in table <==> InSome(handed[..i], x)
    {
      InSomeMore(handed, i);
      table := InsertAll(table, handed[i]);
    }
    assert handed[..|handed|] == handed;
    SameLists(lists, me, handed);
    r := Some(table);
  }

  lemma NothingYet(handed: seq<seq<string>>)
    ensures forall x :: !InSome(handed[..0], x)
  {
  }

  lemma SameLists(lists: seq<seq<string>>, me: nat, handed: seq<seq<string>>)
    requires me < |lists| == |handed| && Handed(IdWire(), lists, me, handed)
    ensures forall x :: InSome(handed, x) <==> Sees(lists, me, x)
  {
    hide Codec.TransferredStrings, From;
    var got := Arrivals(IdWire(), lists, me, []);
    forall f: nat | f < |lists|
      ensures StepOf(me, f, |lists|) < |lists| && got[f] == handed[StepOf(me, f, |lists|)]
    {
      assert From(me, StepOf(me, f, |lists|), |lists|) == f;
    }
    forall k: nat | k < |lists|
      ensures From(me, k, |lists|) < |lists| && handed[k] == got[From(me, k, |lists|)]
    {
    }
  }

  // ---------------------------------------------------------------- when a group agrees

  /** Rank `me` collects exactly the ids the group has. */
  ghost predicate Collects(lists: seq<seq<string>>, me: nat)
  {
    AllArrive(IdWire(), lists, me) && forall x :: Sees(lists, me, x) <==> InSome(lists, x)
  }

  /** The lists that cross ranks come back from the wire whole. */
  ghost predicate CrossingApart(lists: seq<seq<string>>, me: nat)
  {
    forall f :: 0 <= f < |lists| && f != me ==> Words.Apart(lists[f], Codec.OUTER)
  }

  /** A rank is handed the lists of its group unchanged if and only if those of the other ranks are apart. */
  lemma HandedWhole(lists: seq<seq<string>>, me: nat)
    ensures AllArrive(IdWire(), lists, me) && Arrivals(IdWire(), lists, me, []) == lists <==> CrossingApart(lists, me)
  {
    hide Codec.TransferredStrings, Words.Apart;
    var got := Arrivals(IdWire(), lists, me, []);
    forall f | 0 <= f < |lists| && f != me
      ensures IdWire()(lists[f]) == Some(lists[f]) <==> Words.Apart(lists[f], Codec.OUTER)
    {
      Codec.StringsRoundTripExactly(lists[f]);
    }
    if AllArrive(IdWire(), lists, me) && got == lists {
      forall f | 0 <= f < |lists| && f != me
        ensures IdWire()(lists[f]) == Some(lists[f])
      {
        assert Arrival(IdWire(), lists, me, f) == Some(got[f]);
      }
    }
  }

  lemma WholeCollects(lists: seq<seq<string>>, me: nat)
    requires CrossingApart(lists, me)
    ensures Collects(lists, me)
  {
    HandedWhole(lists, me);
  }

  ghost predicate Within(lists: seq<seq<string>>, ids: iset<string>)
  {
    forall x :: InSome(lists, x) ==> x in ids
  }

  lemma CleanCrosses(lists: seq<seq<string>>, me: nat)
    requires forall x :: InSome(lists, x) ==> Words.Clean(x, Codec.OUTER)
    ensures CrossingApart(lists, me)
  {
    hide Words.Clean, Words.Apart;
    forall f | 0 <= f < |lists|
      ensures Words.Apart(lists[f], Codec.OUTER)
    {
      forall i | 0 <= i < |lists[f]|
        ensures Words.Clean(lists[f][i], Codec.OUTER)
      {
        assert InSome(lists, lists[f][i]);
      }
      Words.CleanApart(lists[f], Codec.OUTER);
    }
  }

  /** An id that is not clean breaks the smallest group: the other rank sees a shorter id, or fails. */
  lemma UncleanBreaks(x: string)
    requires !Words.Clean(x, Codec.OUTER)
    ensures !Collects([[x, x], []], 1)
  {
    var l, lists := [x, x], [[x, x], []];
    hide Codec.TransferredStrings, Words.Clean;
    assert !Words.Apart(l, Codec.OUTER);
    var i := Codec.CutStrings(l);
    var r := Codec.TransferredStrings(l);
    assert Arrival(IdWire(), lists, 1, 0) == r;
    if r.Some? {
      var y := r.value[i];
      assert y in Arrivals(IdWire(), lists, 1, [])[0];
      assert Sees(lists, 1, y);
      assert forall z :: InSome(lists, z) ==> z == x;
    }
  }

  /** Which ids can be relied on: every rank of every group whose ids are among these collects exactly the group's ids,
      in whatever numbers and order they occur, if and only if each of these ids is clean. */
  lemma AgreementExactly(ids: iset<string>)
    ensures (forall lists, me: nat :: me < |lists| && Within(lists, ids) ==> Collects(lists, me))
            <==> forall x :: x in ids ==> Words.Clean(x, Codec.OUTER)
  {
    hide Collects, Words.Clean, InSome;
    if forall x :: x in ids ==> Words.Clean(x, Codec.OUTER) {
      forall lists, me: nat | me < |lists| && Within(lists, ids)
        ensures Collects(lists, me)
      {
        CleanCrosses(lists, me);
        WholeCollects(lists, me);
      }
    }
    forall x | x in ids && !Words.Clean(x, Codec.OUTER)
      ensures Within([[x, x], []], ids) && !Collects([[x, x], []], 1)
    {
      OnlyThatId(x);
      UncleanBreaks(x);
    }
  }

  lemma OnlyThatId(x: string)
    ensures forall z :: InSome([[x, x], []], z) ==> z == x
  {
  }

  /** For instance an id that ends in the outer separator but for its last character. */
  lemma UnreliableId()
    ensures !Words.Clean("a_PARACEL", Codec.OUTER)
  {
    Words.CleanMeans("a_PARACEL", Codec.OUTER);
    assert "a_PARACEL"[1..] == "_PARACEL" == Words.Stem(Codec.OUTER);
  }

  // ---------------------------------------------------------------- index_mapping

  /** The ids of one kind that the ranks of a group hold. */
  ghost predicate GroupHas(all: seq<seq<Triple>>, color: nat -> nat, c: nat, id: Triple -> string, x: string)
  {
    exists r: nat, t :: r < |all| && color(r) == c && t in all[r] && id(t) == x
  }

  function IdsOf(triples: seq<Triple>, id: Triple -> string): (ids: seq<string>)
    ensures |ids| == |triples| && forall k :: 0 <= k < |ids| ==> ids[k] == id(triples[k])
  {
    seq(|triples|, k requires 0 <= k < |triples| => id(triples[k]))
  }

  function Pick(all: seq<seq<Triple>>, members: seq<nat>, id: Triple -> string): (lists: seq<seq<string>>)
    requires forall k :: 0 <= k < |members| ==> members[k] < |all|
    ensures |lists| == |members| && forall k :: 0 <= k < |lists| ==> lists[k] == IdsOf(all[members[k]], id)
  {
    if members == [] then []
    else [IdsOf(all[members[0]], id)] + Pick(all, members[1..], id)
  }

  /** A dense table: 0..n-1 onto exactly these ids, ascending, hence one-to-one. */
  ghost predicate IsTable(m: map<nat, string>, ids: iset<string>)
  {
    && (forall i: nat :: i in m <==> i < |m|)
    && (forall i: nat, j: nat :: i in m && j in m && i < j ==> Less(m[i], m[j]))
    && (forall x :: x in m.Values <==> x in ids)
  }

  /** Indices grow with the ids: the id of a smaller index is a proper beginning of that of a larger one, or has the
      smaller character at the first place where they differ. */
  lemma TableAscends(m: map<nat, string>, ids: iset<string>, i: nat, j: nat)
    requires IsTable(m, ids) && i < j < |m|
    ensures i in m && j in m
    ensures exists p: nat :: p <= |m[i]| && p < |m[j]| && m[i][..p] == m[j][..p] && (p == |m[i]| || m[i][p] < m[j][p])
  {
    LessMeans(m[i], m[j]);
    var p :| Before(m[i], m[j], p);
  }

  function TableList(m: map<nat, string>, n: nat): (s: seq<string>)
    requires forall i: nat :: i < n ==> i in m
    ensures |s| == n && forall i :: 0 <= i < n ==> s[i] == m[i]
  {
    seq(n, i requires 0 <= i < n => m[i])
  }

  /** The table of a set of ids is determined, whatever order they were met in. */
  lemma TableIsUnique(m: map<nat, string>, m': map<nat, string>, ids: iset<string>)
    requires IsTable(m, ids) && IsTable(m', ids)
    ensures m == m'
  {
    var s, s' := TableList(m, |m|), TableList(m', |m'|);
    forall x
      ensures x in s <==> x in s'
    {
      TableListHas(m, x);
      TableListHas(m', x);
    }
    SortedUnique(s, s');
    forall i: nat | i in m
      ensures i in m' && m[i] == m'[i]
    {
      assert s[i] == s'[i];
    }
  }

  lemma TableListHas(m: map<nat, string>, x: string)
    requires forall i: nat :: i in m <==> i < |m|
    ensures x in TableList(m, |m|) <==> x in m.Values
  {
    if x in m.Values {
      var i: nat :| i in m && m[i] == x;
      assert TableList(m, |m|)[i] == x;
    }
  }

  /** The ids of one kind that a group has. */
  ghost function GroupIds(all: seq<seq<Triple>>, color: nat -> nat, c: nat, id: Triple -> string): iset<string>
  {
    iset x | GroupHas(all, color, c, id, x)
  }

  /** The lists of ids in the group of rank rk, and the rank's place among them. */
  function GroupLists(all: seq<seq<Triple>>, rk: nat, color: nat -> nat, id: Triple -> string): seq<seq<string>>
  {
    var members := Split(|all|, color, color(rk));
    assert forall k :: 0 <= k < |members| ==> members[k] in members;
    Pick(all, members, id)
  }

  function Place(all: seq<seq<Triple>>, rk: nat, color: nat -> nat, id: Triple -> string): (me: nat)
    requires rk < |all|
    ensures me < |GroupLists(all, rk, color, id)| && GroupLists(all, rk, color, id)[me] == IdsOf(all[rk], id)
  {
    IndexOf(Split(|all|, color, color(rk)), rk)
  }

  /** The ids of its group that rank rk sees. */
  ghost function SeenIds(all: seq<seq<Triple>>, rk: nat, color: nat -> nat, id: Triple -> string): iset<string>
    requires rk < |all|
  {
    iset x | Sees(GroupLists(all, rk, color, id), Place(all, rk, color, id), x)
  }

  ghost predicate GroupArrives(all: seq<seq<Triple>>, rk: nat, color: nat -> nat, id: Triple -> string)
    requires rk < |all|
  {
    AllArrive(IdWire(), GroupLists(all, rk, color, id), Place(all, rk, color, id))
  }

  datatype Numbering = Numbering(m: map<nat, string>, rev: map<string, nat>)

  /** One of the two halves of index_mapping: collect the group's ids and number them; `rev` looks ids up. */
  method NumberIds(all: seq<seq<Triple>>, rk: nat, color: nat -> nat, id: Triple -> string)
    returns (r: Option<Numbering>)
    requires rk < |all|
    ensures r.Some? <==> GroupArrives(all, rk, color, id)
    ensures r.Some? ==> IsTable(r.value.m, SeenIds(all, rk, color, id))
    ensures r.Some? ==> forall t :: t in all[rk] ==>
              && id(t) in r.value.rev && r.value.rev[id(t)] in r.value.m
              && r.value.m[r.value.rev[id(t)]] == id(t)
  {
    hide AllArrive, Sees, InSome, IsTable;
    var lists, me := GroupLists(all, rk, color, id), Place(all, rk, color, id);
    var collected := CollectIds(lists, me);
    if collected.None? {
      return None;
    }
    var ids := collected.value;
    var m, rev := Number(ids);
    NumbersTable(m, ids, SeenIds(all, rk, color, id));
    forall t | t in all[rk]
      ensures id(t) in ids
    {
      OwnIdsSeen(all, rk, color, id, t);
    }
    r := Some(Numbering(m, rev));
  }

  /** A rank sees its own ids: they cross no wire. */
  lemma OwnIdsSeen(all: seq<seq<Triple>>, rk: nat, color: nat -> nat, id: Triple -> string, t: Triple)
    requires rk < |all| && t in all[rk]
    ensures Sees(GroupLists(all, rk, color, id), Place(all, rk, color, id), id(t))
  {
    hide GroupLists, Place, IdWire;
    var lists, me := GroupLists(all, rk, color, id), Place(all, rk, color, id);
    var k :| 0 <= k < |all[rk]| && all[rk][k] == t;
    Own(IdWire(), lists, me);
    assert Arrivals(IdWire(), lists, me, [])[me] == IdsOf(all[rk], id);
    assert Arrivals(IdWire(), lists, me, [])[me][k] == id(t);
  }

  lemma NumbersTable(m: map<nat, string>, ids: seq<string>, seen: iset<string>)
    requires Sorted(ids) && Numbers(m, ids, |ids|) && forall x :: x in ids <==> x in seen
    ensures IsTable(m, seen)
  {
    forall x
      ensures x in m.Values <==> x in seen
    {
      if x in ids {
        var i :| 0 <= i < |ids| && ids[i] == x;
        assert i in m && m[i] == x;
      }
    }
  }

  ghost predicate Numbers(m: map<nat, string>, ids: seq<string>, n: nat)
    requires n <= |ids|
  {
    |m| == n && (forall i: nat :: i in m <==> i < n) && forall i: nat :: i in m ==> m[i] == ids[i]
  }

  lemma NumbersStep(m: map<nat, string>, ids: seq<string>, n: nat)
    requires n < |ids| && Numbers(m, ids, n)
    ensures Numbers(m[n := ids[n]], ids, n + 1)
  {
    assert n !in m;
  }

  /** The numbering loop: indices in table order, and the inverse map. */
  method Number(ids: seq<string>) returns (m: map<nat, string>, rev: map<string, nat>)
    ensures Numbers(m, ids, |ids|)
    ensures forall k :: 0 <= k < |ids| ==> ids[k] in rev
    ensures forall x :: x in rev ==> rev[x] < |ids| && ids[rev[x]] == x
  {
    m, rev := map[], map[];
    for indx := 0 to |ids|
      invariant Numbers(m, ids, indx)
      invariant forall k :: 0 <= k < indx ==> ids[k] in rev
      invariant forall x :: x in rev ==> rev[x] < indx && ids[rev[x]] == x
    {
      NumbersStep(m, ids, indx);
      m := m[indx := ids[indx]];
      rev := rev[ids[indx] := indx];
    }
  }

  lemma GroupSees(all: seq<seq<Triple>>, rk: nat, color: nat -> nat, id: Triple -> string, x: string)
    ensures InSome(GroupLists(all, rk, color, id), x) <==> GroupHas(all, color, color(rk), id, x)
  {
    var members := Split(|all|, color, color(rk));
    assert forall k :: 0 <= k < |members| ==> members[k] in members;
    var lists := Pick(all, members, id);
    if InSome(lists, x) {
      var f :| 0 <= f < |lists| && x in lists[f];
      var k :| 0 <= k < |lists[f]| && lists[f][k] == x;
      var r := members[f];
      assert r in members && all[r][k] in all[r] && id(all[r][k]) == x;
    }
    if GroupHas(all, color, color(rk), id, x) {
      var r: nat, t :| r < |all| && color(r) == color(rk) && t in all[r] && id(t) == x;
      var k :| 0 <= k < |all[r]| && all[r][k] == t;
      var f := IndexOf(members, r);
      assert lists[f] == IdsOf(all[r], id);
      assert lists[f][k] == x;
    }
  }

  /** The lists that rank rk gets from the rest of its group are apart. */
  ghost predicate GroupApart(all: seq<seq<Triple>>, rk: nat, color: nat -> nat, id: Triple -> string)
    requires rk < |all|
  {
    CrossingApart(GroupLists(all, rk, color, id), Place(all, rk, color, id))
  }

  /** Then it sees exactly the ids of its group. */
  lemma SeesItsGroup(all: seq<seq<Triple>>, rk: nat, color: nat -> nat, id: Triple -> string)
    requires rk < |all| && GroupApart(all, rk, color, id)
    ensures GroupArrives(all, rk, color, id) && SeenIds(all, rk, color, id) == GroupIds(all, color, color(rk), id)
  {
    hide AllArrive, Sees, InSome, GroupHas, CrossingApart, GroupLists, Place;
    WholeCollects(GroupLists(all, rk, color, id), Place(all, rk, color, id));
    forall x
      ensures x in SeenIds(all, rk, color, id) <==> x in GroupIds(all, color, color(rk), id)
    {
      GroupSees(all, rk, color, id, x);
    }
  }

  function RowColor(npy: nat): nat -> nat
    requires npy > 0
  {
    (r: nat) => r / npy
  }

  function ColColor(npy: nat): nat -> nat
    requires npy > 0
  {
    (r: nat) => r % npy
  }

  const RowId: Triple -> string := (t: Triple) => t.row
  const ColId: Triple -> string := (t: Triple) => t.col

  /** Two ranks of one row group, of which one holds a row id that is not clean twice: they do not end with the same
      row ids. */
  lemma RanksDisagree(t: Triple)
    requires !Words.Clean(t.row, Codec.OUTER)
    ensures var all := [[t, t], []];
            && GroupArrives(all, 0, RowColor(2), RowId) && SeenIds(all, 0, RowColor(2), RowId) == iset{t.row}
            && !(GroupArrives(all, 1, RowColor(2), RowId)
                 && SeenIds(all, 1, RowColor(2), RowId) == SeenIds(all, 0, RowColor(2), RowId))
  {
    var all := [[t, t], []];
    TwoRankLists(t);
    hide Words.Clean, GroupLists, Place, IdWire, Sees, InSome, AllArrive;
    var lists := [[t.row, t.row], []];
    EmptyListsCross(lists);
    WholeCollects(lists, 0);
    OnlyThatId(t.row);
    UncleanBreaks(t.row);
    assert InSome(lists, t.row) by {
      IsThere(t.row);
    }
    if GroupArrives(all, 1, RowColor(2), RowId) {
      var y :| Sees(lists, 1, y) != InSome(lists, y);
      assert y in SeenIds(all, 1, RowColor(2), RowId) <==> y !in SeenIds(all, 0, RowColor(2), RowId);
    }
  }

  lemma IsThere(x: string)
    ensures InSome([[x, x], []], x)
  {
    assert x in [[x, x], []][0];
  }

  lemma EmptyListsCross(lists: seq<seq<string>>)
    requires |lists| == 2 && lists[1] == []
    ensures CrossingApart(lists, 0)
  {
  }

  lemma TwoRankLists(t: Triple)
    ensures var all := [[t, t], []];
            forall rk: nat :: rk < 2 ==>
              && GroupLists(all, rk, RowColor(2), RowId) == [[t.row, t.row], []]
              && Place(all, rk, RowColor(2), RowId) == rk
  {
    var all, color := [[t, t], []], RowColor(2);
    assert Split(0, color, 0) == [];
    assert Split(1, color, 0) == [0];
    assert Split(2, color, 0) == [0, 1];
    assert [0, 1][1..] == [1];
    assert IdsOf(all[0], RowId) == [t.row, t.row] && IdsOf(all[1], RowId) == [];
    assert Pick(all, [1], RowId) == [[]];
    assert Pick(all, [0, 1], RowId) == [[t.row, t.row], []];
    assert IndexOf([0, 1], 0) == 0 && IndexOf([0, 1], 1) == 1;
  }

  datatype Mapping = Mapping(stf: seq<(nat, nat, real)>, rm: map<nat, string>, cm: map<nat, string>)

  /** index_mapping as rank rk runs it, over what every rank holds.  Whatever the wire does to the ids of others, the
      rank's own triples translate back to the originals. */
  method IndexMapping(all: seq<seq<Triple>>, rk: nat, npy: nat) returns (r: Option<Mapping>)
    requires rk < |all| && npy > 0
    ensures r.Some? <==> GroupArrives(all, rk, RowColor(npy), RowId) && GroupArrives(all, rk, ColColor(npy), ColId)
    ensures r.Some? ==> Mapped(all, rk, npy, r.value)
  {
    hide GroupArrives, IsTable, SeenIds;
    var rows := NumberIds(all, rk, RowColor(npy), RowId);
    var cols := NumberIds(all, rk, ColColor(npy), ColId);
    if rows.None? || cols.None? {
      return None;
    }
    var rm, cm := rows.value.m, cols.value.m;
    var stf: seq<(nat, nat, real)> := [];
    for k := 0 to |all[rk]|
      invariant |stf| == k
      invariant forall j :: 0 <= j < k ==>
                  && stf[j].0 in rm && rm[stf[j].0] == all[rk][j].row
                  && stf[j].1 in cm && cm[stf[j].1] == all[rk][j].col
                  && stf[j].2 == all[rk][j].val
    {
      var t := all[rk][k];
      assert t in all[rk];
      stf := stf + [(rows.value.rev[RowId(t)], cols.value.rev[ColId(t)], t.val)];
    }
    r := Some(Mapping(stf, rm, cm));
  }

  /** Both tables are dense tables of the ids the rank sees, and the remapped triples translate back in order. */
  ghost predicate Mapped(all: seq<seq<Triple>>, rk: nat, npy: nat, r: Mapping)
    requires rk < |all| && npy > 0
  {
    && IsTable(r.rm, SeenIds(all, rk, RowColor(npy), RowId))
    && IsTable(r.cm, SeenIds(all, rk, ColColor(npy), ColId))
    && |r.stf| == |all[rk]|
    && forall k :: 0 <= k < |r.stf| ==>
         && r.stf[k].0 in r.rm && r.rm[r.stf[k].0] == all[rk][k].row
         && r.stf[k].1 in r.cm && r.cm[r.stf[k].1] == all[rk][k].col
         && r.stf[k].2 == all[rk][k].val
  }

  // ---------------------------------------------------------------- groups do not overlap

  /** With triples placed by hash, an id's hash tells its group: different row groups own disjoint row ids, and
      different column groups disjoint column ids. */
  lemma GroupsAreDisjoint(all: seq<seq<Triple>>, hash: string -> nat, npx: nat, npy: nat, c: nat, x: string)
    requires npx > 0 && npy > 0 && InTheirPlaces(all, hash, npx, npy)
    ensures GroupHas(all, RowColor(npy), c, RowId, x) ==> c == hash(x) % npx
    ensures GroupHas(all, ColColor(npy), c, ColId, x) ==> c == hash(x) % npy
  {
    if GroupHas(all, RowColor(npy), c, RowId, x) {
      var r: nat, t :| r < |all| && RowColor(npy)(r) == c && t in all[r] && RowId(t) == x;
      HInGrid(hash, t, npx, npy);
    }
    if GroupHas(all, ColColor(npy), c, ColId, x) {
      var r: nat, t :| r < |all| && ColColor(npy)(r) == c && t in all[r] && ColId(t) == x;
      HInGrid(hash, t, npx, npy);
    }
  }

  lemma TablesDisjoint(all: seq<seq<Triple>>, hash: string -> nat, npx: nat, npy: nat,
        m: map<nat, string>, m': map<nat, string>, c: nat, c': nat)
    requires npx > 0 && npy > 0 && InTheirPlaces(all, hash, npx, npy) && c != c'
    ensures IsTable(m, GroupIds(all, RowColor(npy), c, RowId)) && IsTable(m', GroupIds(all, RowColor(npy), c', RowId))
            ==> m.Values !! m'.Values
    ensures IsTable(m, GroupIds(all, ColColor(npy), c, ColId)) && IsTable(m', GroupIds(all, ColColor(npy), c', ColId))
            ==> m.Values !! m'.Values
  {
    hide GroupHas, InTheirPlaces;
    forall x
      ensures x in GroupIds(all, RowColor(npy), c, RowId) ==> x !in GroupIds(all, RowColor(npy), c', RowId)
      ensures x in GroupIds(all, ColColor(npy), c, ColId) ==> x !in GroupIds(all, ColColor(npy), c', ColId)
    {
      GroupsAreDisjoint(all, hash, npx, npy, c, x);
      GroupsAreDisjoint(all, hash, npx, npy, c', x);
    }
  }

  /** Two ranks compared: one table where they share a group, no common id where they do not. */
  lemma SameTableOrDisjoint(held: seq<seq<Triple>>, hash: string -> nat, npx: nat, npy: nat, r: nat, r': nat,
        mapping: Mapping, mapping': Mapping)
    requires npx > 0 && npy > 0 && InTheirPlaces(held, hash, npx, npy) && r < |held| && r' < |held|
    requires GroupApart(held, r, RowColor(npy), RowId) && GroupApart(held, r, ColColor(npy), ColId)
    requires GroupApart(held, r', RowColor(npy), RowId) && GroupApart(held, r', ColColor(npy), ColId)
    requires Mapped(held, r, npy, mapping) && Mapped(held, r', npy, mapping')
    ensures if r / npy == r' / npy then mapping.rm == mapping'.rm else mapping.rm.Values !! mapping'.rm.Values
    ensures if r % npy == r' % npy then mapping.cm == mapping'.cm else mapping.cm.Values !! mapping'.cm.Values
  {
    hide IsTable, GroupIds, SeenIds, GroupApart, InTheirPlaces, GroupArrives;
    var rows, cols := RowColor(npy), ColColor(npy);
    SeesItsGroup(held, r, rows, RowId);
    SeesItsGroup(held, r', rows, RowId);
    SeesItsGroup(held, r, cols, ColId);
    SeesItsGroup(held, r', cols, ColId);
    if r / npy == r' / npy {
      TableIsUnique(mapping.rm, mapping'.rm, GroupIds(held, rows, r / npy, RowId));
    } else {
      TablesDisjoint(held, hash, npx, npy, mapping.rm, mapping'.rm, r / npy, r' / npy);
    }
    if r % npy == r' % npy {
      TableIsUnique(mapping.cm, mapping'.cm, GroupIds(held, cols, r % npy, ColId));
    } else {
      TablesDisjoint(held, hash, npx, npy, mapping.cm, mapping'.cm, r % npy, r' % npy);
    }
  }

  // ---------------------------------------------------------------- the whole path

  /** Every id is clean for the string-list format. */
  ghost predicate CleanOutside(all: seq<seq<Triple>>)
  {
    forall r, t :: 0 <= r < |all| && t in all[r] ==>
      Words.Clean(t.row, Codec.OUTER) && Words.Clean(t.col, Codec.OUTER)
  }

  lemma CleanIsApart(held: seq<seq<Triple>>, r: nat, npy: nat)
    requires CleanOutside(held) && r < |held| && npy > 0
    ensures GroupApart(held, r, RowColor(npy), RowId) && GroupApart(held, r, ColColor(npy), ColId)
  {
    hide Words.Clean, CrossingApart, InSome, GroupLists, Place;
    var rows, cols := GroupLists(held, r, RowColor(npy), RowId), GroupLists(held, r, ColColor(npy), ColId);
    forall x
      ensures InSome(rows, x) ==> Words.Clean(x, Codec.OUTER)
      ensures InSome(cols, x) ==> Words.Clean(x, Codec.OUTER)
    {
      GroupSees(held, r, RowColor(npy), RowId, x);
      GroupSees(held, r, ColColor(npy), ColId, x);
    }
    CleanCrosses(rows, Place(held, r, RowColor(npy), RowId));
    CleanCrosses(cols, Place(held, r, ColColor(npy), ColId));
  }

  /** A sendable exchange brings no ids that were not there. */
  lemma HeldIdsAreOld(fm: Format, all: seq<seq<Triple>>, hash: string -> nat, npx: nat, npy: nat,
        sbufs: seq<seq<seq<Triple>>>, after: seq<Option<seq<Triple>>>)
    requires npx > 0 && npy > 0 && Organized(all, hash, npx, npy, sbufs) && AllValuesPrintable(fm, all)
    requires Ran(fm, sbufs, after) && CrossingSendable(fm, sbufs) && CleanOutside(all)
    ensures CleanOutside(Results(after))
  {
    hide Words.Clean, Codec.Printable, Codec.Sendable, Placed, Union, H;
    OrganizedPrintable(fm, all, hash, npx, npy, sbufs);
    ExchangeExactly(fm, sbufs, after);
    forall r, t | 0 <= r < |after| && t in Results(after)[r]
      ensures Words.Clean(t.row, Codec.OUTER) && Words.Clean(t.col, Codec.OUTER)
    {
      assert t in multiset(after[r].value);
      var want := Intended(fm, sbufs, r);
      var f := InUnion(want, |sbufs|, t);
      var i :| 0 <= i < |want[f]| && want[f][i] == t;
      PlacedFrom(all[f], hash, npx, npy, r, i);
    }
  }

  /** Hashing, exchanging and mapping together, on triples whose ids survive both formats: no rank fails, and any two
      ranks have the same row (column) table if they are in the same row (column) of the grid and share no row
      (column) id if they are not. */
  lemma WholePath(fm: Format, all: seq<seq<Triple>>, hash: string -> nat, npx: nat, npy: nat,
        sbufs: seq<seq<seq<Triple>>>, after: seq<Option<seq<Triple>>>, r: nat, r': nat)
    requires npx > 0 && npy > 0 && Organized(all, hash, npx, npy, sbufs) && AllValuesPrintable(fm, all)
    requires Ran(fm, sbufs, after) && CrossingSendable(fm, sbufs) && CleanOutside(all)
    requires r < |after| && r' < |after|
    ensures var held := Results(after);
            && NoneFails(after) && |held| == |after|
            && GroupArrives(held, r, RowColor(npy), RowId) && GroupArrives(held, r, ColColor(npy), ColId)
            && forall m, m' :: Mapped(held, r, npy, m) && Mapped(held, r', npy, m') ==>
                 && (if r / npy == r' / npy then m.rm == m'.rm else m.rm.Values !! m'.rm.Values)
                 && (if r % npy == r' % npy then m.cm == m'.cm else m.cm.Values !! m'.cm.Values)
  {
    hide Mapped, GroupArrives, GroupApart, CleanOutside, Organized, CrossingSendable, InTheirPlaces, NoneFails, Wanted;
    RedistributesExactly(fm, all, hash, npx, npy, sbufs, after);
    HeldIdsAreOld(fm, all, hash, npx, npy, sbufs, after);
    var held := Results(after);
    CleanIsApart(held, r, npy);
    CleanIsApart(held, r', npy);
    SeesItsGroup(held, r, RowColor(npy), RowId);
    SeesItsGroup(held, r, ColColor(npy), ColId);
    forall m, m' | Mapped(held, r, npy, m) && Mapped(held, r', npy, m')
      ensures if r / npy == r' / npy then m.rm == m'.rm else m.rm.Values !! m'.rm.Values
      ensures if r % npy == r' % npy then m.cm == m'.cm else m.cm.Values !! m'.cm.Values
    {
      SameTableOrDisjoint(held, hash, npx, npy, r, r', m, m');
    }
  }
}
