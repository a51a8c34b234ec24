/** The parallel file loader (include/load/partition.hpp, structure_load of src/scheduler.cpp).

    Files are their contents; the concatenation of all files is cut into byte blocks, and a block
    loads the lines that START inside it.  The reference notion is `Owned`, which walks byte
    positions and knows nothing about seeking, resynchronising or the walk from file to file. */
module Loader {
  import opened Arith

  const BLK_SZ: nat := 32

  // ---------------------------------------------------------------- one file

  /** Index of the first newline at or after p, or the end of the file. */
  function LineEnd(f: string, p: nat): (e: nat)
    requires p <= |f|
    ensures p <= e <= |f|
    ensures forall k :: p <= k < e ==> f[k] != '\n'
    ensures e < |f| ==> f[e] == '\n'
    decreases |f| - p
  {
    if p == |f| || f[p] == '\n' then p else LineEnd(f, p + 1)
  }

  function LineAt(f: string, p: nat): string
    requires p <= |f|
  {
    f[p..LineEnd(f, p)]
  }

  /** std::getline at stream position p: the text up to the newline, and the position after it.
      At the end of the file the text is empty and the position stays. */
  function GetLine(f: string, p: nat): (r: (string, nat))
    requires p <= |f|
    ensures r.1 <= |f|
  {
    var e := LineEnd(f, p);
    (f[p..e], if e < |f| then e + 1 else e)
  }

  predicate IsLineStart(f: string, p: nat)
  {
    p < |f| && (p == 0 || f[p - 1] == '\n')
  }

  predicate IsBlankLine(f: string, p: nat)
  {
    IsLineStart(f, p) && f[p] == '\n'
  }

  /** The lines of f that start at a position in [lo, hi), in order. */
  function LinesStarting(f: string, lo: nat, hi: nat): seq<string>
    requires lo <= hi <= |f|
    decreases hi - lo
  {
    if lo == hi then []
    else (if IsLineStart(f, lo) then [LineAt(f, lo)] else []) + LinesStarting(f, lo + 1, hi)
  }

  /** The part of a list of lines before its first empty one. */
  function UpToBlank(lines: seq<string>): (r: seq<string>)
    ensures |r| <= |lines|
    ensures r == lines <==> "" !in lines
    ensures r == lines || |r| < |lines|
  {
    if lines == [] || lines[0] == "" then [] else [lines[0]] + UpToBlank(lines[1..])
  }

  function Unlines(lines: seq<string>): string
  {
    if lines == [] then [] else lines[0] + "\n" + Unlines(lines[1..])
  }

  lemma {:induction false} LinesSplit(f: string, lo: nat, mid: nat, hi: nat)
    requires lo <= mid <= hi <= |f|
    ensures LinesStarting(f, lo, hi) == LinesStarting(f, lo, mid) + LinesStarting(f, mid, hi)
    decreases mid - lo
  {
    if lo < mid {
      LinesSplit(f, lo + 1, mid, hi);
    }
  }

  lemma {:induction false} NoStartsNoLines(f: string, lo: nat, hi: nat)
    requires lo <= hi <= |f|
    requires forall p :: lo <= p < hi ==> !IsLineStart(f, p)
    ensures LinesStarting(f, lo, hi) == []
    decreases hi - lo
  {
    if lo < hi {
      NoStartsNoLines(f, lo + 1, hi);
    }
  }

  /** Reading one line moves from a line start to the next one. */
  lemma LineStep(f: string, p: nat, hi: nat)
    requires IsLineStart(f, p) && p < hi <= |f|
    ensures var n := LineEnd(f, p) + 1;
            && LinesStarting(f, p, hi) == [LineAt(f, p)] + LinesStarting(f, if n < hi then n else hi, hi)
            && (n < |f| ==> IsLineStart(f, n))
  {
    var n := LineEnd(f, p) + 1;
    var m := if n < hi then n else hi;
    forall q | p + 1 <= q < m
      ensures !IsLineStart(f, q)
    {
      assert p <= q - 1 < LineEnd(f, p);
    }
    assert n < |f| ==> IsLineStart(f, n);
    assert LinesStarting(f, p, hi) == [LineAt(f, p)] + LinesStarting(f, p + 1, hi);
    hide LinesStarting, IsLineStart, LineEnd, LineAt;
    NoStartsNoLines(f, p + 1, m);
    LinesSplit(f, p + 1, m, hi);
    assert [] + LinesStarting(f, m, hi) == LinesStarting(f, m, hi);
  }

  /** Resynchronisation: reading from o - 1 to the end of that line lands on the first start at or after o. */
  lemma Resync(f: string, o: nat, hi: nat)
    requires 0 < o <= |f| && hi <= |f|
    ensures var n := LineEnd(f, o - 1) + 1;
            && o <= n
            && (n < |f| ==> IsLineStart(f, n))
            && (o <= hi ==> LinesStarting(f, o, hi) == LinesStarting(f, if n < hi then n else hi, hi))
  {
    var n := LineEnd(f, o - 1) + 1;
    if o <= hi {
      var m := if n < hi then n else hi;
      forall q | o <= q < m
        ensures !IsLineStart(f, q)
      {
        assert o - 1 <= q - 1 < LineEnd(f, o - 1);
      }
      NoStartsNoLines(f, o, m);
      LinesSplit(f, o, m, hi);
    }
  }

  /** An empty line among those starting in [lo, hi) is a blank line of the file there. */
  lemma {:induction false} BlankAmongLines(f: string, lo: nat, hi: nat)
    requires lo <= hi <= |f|
    ensures "" in LinesStarting(f, lo, hi) <==> exists p :: lo <= p < hi && IsBlankLine(f, p)
    decreases hi - lo
  {
    if lo < hi {
      BlankAmongLines(f, lo + 1, hi);
      var head := if IsLineStart(f, lo) then [LineAt(f, lo)] else [];
      assert LinesStarting(f, lo, hi) == head + LinesStarting(f, lo + 1, hi);
      BlankHead(f, lo);
      hide LinesStarting, LineAt, IsBlankLine, IsLineStart;
      assert "" in head <==> IsBlankLine(f, lo);
    }
  }

  lemma BlankHead(f: string, p: nat)
    requires p < |f|
    ensures IsBlankLine(f, p) <==> IsLineStart(f, p) && LineAt(f, p) == ""
  {
  }

  lemma UnlinesCons(l: string, rest: seq<string>)
    ensures Unlines([l] + rest) == l + "\n" + Unlines(rest)
  {
    assert ([l] + rest)[1..] == rest;
  }

  /** What completes the last line of a text. */
  function Completion(f: string): string
  {
    if f != "" && f[|f| - 1] != '\n' then "\n" else ""
  }

  /** The lines of a file, each ended by a newline, spell the file (with its last newline completed). */
  lemma {:induction false} LinesSpellFile(f: string, p: nat)
    requires p <= |f|
    requires p < |f| ==> IsLineStart(f, p)
    ensures Unlines(LinesStarting(f, p, |f|)) == f[p..] + Completion(f[p..])
    decreases |f| - p
  {
    if p < |f| {
      var e := LineEnd(f, p);
      var next := if e < |f| then e + 1 else e;
      LineStep(f, p, |f|);
      LinesSpellFile(f, next);
      SpellJoin(f, p);
      var rest := LinesStarting(f, next, |f|);
      assert LinesStarting(f, p, |f|) == [f[p..e]] + rest;
      hide *;
      UnlinesCons(f[p..e], rest);
    }
  }

  lemma SpellJoin(f: string, p: nat)
    requires p < |f|
    ensures var e := LineEnd(f, p);
            var next := if e < |f| then e + 1 else e;
            f[p..e] + "\n" + (f[next..] + Completion(f[next..])) == f[p..] + Completion(f[p..])
  {
    hide LineEnd;
    var e := LineEnd(f, p);
    if e < |f| {
      assert f[p..] == f[p..e] + "\n" + f[e + 1..];
      assert f[p..][|f| - p - 1] == f[|f| - 1];
    } else {
      assert f[p..e] == f[p..] && f[e..] == "";
      assert f[p..][|f| - p - 1] == f[|f| - 1];
    }
  }

  // ---------------------------------------------------------------- many files

  /** Bytes in the first k files: displs[k]. */
  function Offset(files: seq<string>, k: nat): nat
    requires k <= |files|
  {
    if k == 0 then 0 else Offset(files, k - 1) + |files[k - 1]|
  }

  lemma {:induction false} OffsetMonotone(files: seq<string>, i: nat, j: nat)
    requires i <= j <= |files|
    ensures Offset(files, i) <= Offset(files, j)
    decreases j - i
  {
    if i < j {
      OffsetMonotone(files, i, j - 1);
    }
  }

  /** Global byte position g as a position in a file that starts at `base`, clamped to the file. */
  function Within(f: string, base: nat, g: nat): (p: nat)
    ensures p <= |f|
  {
    if g <= base then 0 else if g - base <= |f| then g - base else |f|
  }

  /** The lines of one file, placed at `base`, that start at a global position in [lo, hi). */
  function OwnedIn(f: string, base: nat, lo: nat, hi: nat): seq<string>
    requires lo <= hi
  {
    LinesStarting(f, Within(f, base, lo), Within(f, base, hi))
  }

  /** The lines of the first k files that start at a global position in [lo, hi): what a block should load. */
  function Owned(files: seq<string>, lo: nat, hi: nat, k: nat): seq<string>
    requires lo <= hi && k <= |files|
  {
    if k == 0 then []
    else Owned(files, lo, hi, k - 1) + OwnedIn(files[k - 1], Offset(files, k - 1), lo, hi)
  }

  /** What the loader takes from one file for the block [st, en): a file that ends before the block does is
      scanned up to the first empty line, the block's last file up to the block's end. */
  function Scanned(f: string, base: nat, st: nat, en: nat): seq<string>
    requires st <= en
  {
    if en <= base + |f| then OwnedIn(f, base, st, en)
    else UpToBlank(LinesStarting(f, Within(f, base, st), |f|))
  }

  function Loaded(files: seq<string>, st: nat, en: nat, k: nat): seq<string>
    requires st <= en && k <= |files|
  {
    if k == 0 then []
    else Loaded(files, st, en, k - 1) + Scanned(files[k - 1], Offset(files, k - 1), st, en)
  }

  /** All lines of the first k files, in order. */
  function AllLines(files: seq<string>, k: nat): seq<string>
    requires k <= |files|
  {
    if k == 0 then [] else AllLines(files, k - 1) + LinesStarting(files[k - 1], 0, |files[k - 1]|)
  }

  /** Every blank line of the file that starts in the block lies in a file that reaches the block's end. */
  ghost predicate BlanksReachEndIn(f: string, base: nat, st: nat, en: nat)
  {
    forall p: nat :: IsBlankLine(f, p) && st <= base + p < en ==> en <= base + |f|
  }

  ghost predicate BlanksReachEnd(files: seq<string>, st: nat, en: nat, k: nat)
    requires k <= |files|
  {
    forall i: nat :: i < k ==> BlanksReachEndIn(files[i], Offset(files, i), st, en)
  }

  lemma ScannedVersusOwned(f: string, base: nat, st: nat, en: nat)
    requires st <= en
    ensures AllOrFewer(Scanned(f, base, st, en), OwnedIn(f, base, st, en), BlanksReachEndIn(f, base, st, en))
  {
    if en > base + |f| {
      var lo := Within(f, base, st);
      BlankAmongLines(f, lo, |f|);
      forall p: nat | IsBlankLine(f, p)
        ensures st <= base + p < en <==> lo <= p < |f|
      {
      }
    }
  }

  lemma BlanksStep(files: seq<string>, st: nat, en: nat, k: nat)
    requires 0 < k <= |files|
    ensures BlanksReachEnd(files, st, en, k) <==>
            BlanksReachEnd(files, st, en, k - 1) && BlanksReachEndIn(files[k - 1], Offset(files, k - 1), st, en)
  {
    hide BlanksReachEndIn, Offset;
  }

  /** The two ways a load can relate to what it should be: all of it, or strictly less. */
  ghost predicate AllOrFewer<T>(got: seq<T>, want: seq<T>, whole: bool)
  {
    if whole then got == want else |got| < |want|
  }

  lemma ConcatShorter<T>(a: seq<T>, b: seq<T>, p: bool, c: seq<T>, d: seq<T>, q: bool)
    requires AllOrFewer(a, b, p) && AllOrFewer(c, d, q)
    ensures AllOrFewer(a + c, b + d, p && q)
  {
  }

  lemma NothingOwed(files: seq<string>, st: nat, en: nat)
    requires st <= en
    ensures AllOrFewer(Loaded(files, st, en, 0), Owned(files, st, en, 0), BlanksReachEnd(files, st, en, 0))
  {
  }

  /** A block loads exactly the lines that start in it if its blank lines are harmless, and fewer otherwise. */
  lemma {:induction false} BlockLoadsItsLines(files: seq<string>, st: nat, en: nat, k: nat)
    requires st <= en && k <= |files|
    ensures AllOrFewer(Loaded(files, st, en, k), Owned(files, st, en, k), BlanksReachEnd(files, st, en, k))
  {
    hide Scanned, OwnedIn, BlanksReachEnd, BlanksReachEndIn, Offset, AllOrFewer;
    if k == 0 {
      NothingOwed(files, st, en);
    } else {
      BlockLoadsItsLines(files, st, en, k - 1);
      BlanksStep(files, st, en, k);
      var f, base := files[k - 1], Offset(files, k - 1);
      ScannedVersusOwned(f, base, st, en);
      ConcatShorter(Loaded(files, st, en, k - 1), Owned(files, st, en, k - 1), BlanksReachEnd(files, st, en, k - 1),
                    Scanned(f, base, st, en), OwnedIn(f, base, st, en), BlanksReachEndIn(f, base, st, en));
    }
  }

  lemma OwnedInSplit(f: string, base: nat, lo: nat, mid: nat, hi: nat)
    requires lo <= mid <= hi
    ensures OwnedIn(f, base, lo, hi) == OwnedIn(f, base, lo, mid) + OwnedIn(f, base, mid, hi)
    ensures mid <= base ==> OwnedIn(f, base, lo, mid) == []
  {
    LinesSplit(f, Within(f, base, lo), Within(f, base, mid), Within(f, base, hi));
  }

  lemma {:induction false} OwnedOutside(files: seq<string>, lo: nat, hi: nat, k: nat)
    requires lo <= hi && k <= |files|
    requires Offset(files, k) <= lo
    ensures Owned(files, lo, hi, k) == []
  {
    if k > 0 {
      OwnedOutside(files, lo, hi, k - 1);
    }
  }

  lemma Regroup<T>(a: seq<T>, b: seq<T>, c: seq<T>, d: seq<T>)
    requires b == [] || c == []
    ensures (a + b) + (c + d) == (a + c) + (b + d)
  {
  }

  /** Consecutive blocks own consecutive runs of the lines. */
  lemma {:induction false} OwnedSplit(files: seq<string>, lo: nat, mid: nat, hi: nat, k: nat)
    requires lo <= mid <= hi && k <= |files|
    ensures Owned(files, lo, hi, k) == Owned(files, lo, mid, k) + Owned(files, mid, hi, k)
  {
    if k > 0 {
      OwnedSplit(files, lo, mid, hi, k - 1);
      var f, base := files[k - 1], Offset(files, k - 1);
      OwnedInSplit(f, base, lo, mid, hi);
      if mid > base {
        OwnedOutside(files, mid, hi, k - 1);
      }
      Regroup(Owned(files, lo, mid, k - 1), Owned(files, mid, hi, k - 1),
              OwnedIn(f, base, lo, mid), OwnedIn(f, base, mid, hi));
    }
  }

  /** The whole byte range owns every line. */
  lemma {:induction false} WholeOwnsAll(files: seq<string>, hi: nat, k: nat)
    requires k <= |files| && Offset(files, k) <= hi
    ensures Owned(files, 0, hi, k) == AllLines(files, k)
  {
    if k > 0 {
      WholeOwnsAll(files, hi, k - 1);
    }
  }

  lemma UpToBlankCons(l: string, rest: seq<string>)
    ensures UpToBlank([l] + rest) == if l == "" then [] else [l] + UpToBlank(rest)
  {
    assert ([l] + rest)[1..] == rest;
  }

  /** Files before the block's first and after its last contribute nothing. */
  lemma {:induction false} NothingBefore(files: seq<string>, st: nat, en: nat, k: nat)
    requires st <= en && k <= |files| && Offset(files, k) <= st
    ensures Loaded(files, st, en, k) == []
  {
    if k > 0 {
      NothingBefore(files, st, en, k - 1);
    }
  }

  lemma ScannedAfter(f: string, base: nat, st: nat, en: nat)
    requires st <= en <= base
    ensures Scanned(f, base, st, en) == []
  {
  }

  lemma {:induction false} NothingAfter(files: seq<string>, st: nat, en: nat, k: nat, n: nat)
    requires st <= en && k <= n <= |files| && en <= Offset(files, k)
    ensures Loaded(files, st, en, n) == Loaded(files, st, en, k)
    decreases n - k
  {
    hide OwnedIn, UpToBlank, LinesStarting;
    if k < n {
      OffsetMonotone(files, k, n - 1);
      ScannedAfter(files[n - 1], Offset(files, n - 1), st, en);
      NothingAfter(files, st, en, k, n - 1);
    }
  }

  // ---------------------------------------------------------------- block arithmetic

  /** Where block i of nbk starts, and where block i - 1 ends. */
  function Cut(sz: nat, nbk: nat, i: nat): int
    requires i <= nbk && nbk > 0
  {
    if i == nbk then sz else i * (sz / nbk)
  }

  lemma MulStep(i: nat, q: nat)
    ensures (i + 1) * q == i * q + q
  {
  }

  lemma Division(sz: nat, nbk: nat)
    requires nbk > 0
    ensures var q := sz / nbk;
            nbk * q <= sz < nbk * q + nbk && (q > 0 <==> sz >= nbk)
  {
  }

  lemma CutBounds(sz: nat, nbk: nat, i: nat)
    requires i < nbk
    ensures var q := sz / nbk;
            && q <= Cut(sz, nbk, i + 1) - Cut(sz, nbk, i)
            && (i + 1 < nbk ==> Cut(sz, nbk, i + 1) - Cut(sz, nbk, i) == q)
            && (i + 1 == nbk ==> Cut(sz, nbk, i + 1) - Cut(sz, nbk, i) < q + nbk)
            && 0 <= Cut(sz, nbk, i) <= Cut(sz, nbk, i + 1) <= sz
  {
    var q := sz / nbk;
    MulStep(i, q);
    MulMonotone(i + 1, nbk, q);
    Division(sz, nbk);
  }

  lemma CutsTile(slst: seq<int>, elst: seq<int>, sz: nat, nbk: nat)
    requires 0 < nbk == |slst| == |elst|
    requires forall k :: 0 <= k < nbk ==> slst[k] == Cut(sz, nbk, k) && elst[k] == Cut(sz, nbk, k + 1)
    requires forall k :: 0 <= k < nbk ==> slst[k] < elst[k]
    ensures Tiles(slst, elst, sz)
  {
    forall k: nat | k < nbk
      ensures 0 <= slst[k] && elst[k] <= sz && sz / nbk <= elst[k] - slst[k]
      ensures if k + 1 < nbk then elst[k] - slst[k] == sz / nbk else elst[k] - slst[k] < sz / nbk + nbk
    {
      CutBounds(sz, nbk, k);
    }
    assert slst[0] == Cut(sz, nbk, 0) && elst[nbk - 1] == Cut(sz, nbk, nbk - 1 + 1);
    assert elst[0] - slst[0] >= sz / nbk;
  }

  // ---------------------------------------------------------------- the partition object

  /** `slst` and `elst` cut [0, sz) into consecutive non-empty blocks, equal ones except for a last
      block that also takes the remainder. */
  ghost predicate Tiles(slst: seq<int>, elst: seq<int>, sz: nat)
  {
    && |slst| == |elst| > 0
    && slst[0] == 0 && elst[|elst| - 1] == sz
    && (forall i :: 0 <= i < |slst| ==> 0 <= slst[i] < elst[i] <= sz)
    && (forall i :: 0 < i < |slst| ==> slst[i] == elst[i - 1])
    && (forall i :: 0 < i < |slst| - 1 ==> elst[i] - slst[i] == elst[0] - slst[0])
    && elst[0] <= elst[|elst| - 1] - slst[|elst| - 1] < elst[0] + |elst|
  }

  predicate SingleBlockPattern(pattern: string)
  {
    pattern == "linesplit" || pattern == "fvec"
  }

  class Partition {
    const namelst: seq<string>  // the named files, as their contents
    const np: nat
    const pattern: string
    var slst: seq<int>
    var elst: seq<int>
    var displs: seq<int>

    constructor (namelst: seq<string>, np: nat, pattern: string)
      requires np > 0
      ensures this.namelst == namelst && this.np == np && this.pattern == pattern
    {
      this.namelst, this.np, this.pattern := namelst, np, pattern;
      slst, elst, displs := [], [], [];
    }

    function Size(): nat
    {
      Offset(namelst, |namelst|)
    }

    /** The tables agree with the files. */
    ghost predicate Indexed()
      reads this
    {
      |displs| == |namelst| + 1 && forall k :: 0 <= k <= |namelst| ==> displs[k] == Offset(namelst, k)
    }

    ghost predicate Partitioned(blkSz: nat)
      reads this
    {
      Indexed() && Tiles(slst, elst, Size()) && |slst| == np * blkSz
    }

    method SetDispls()
      modifies this`displs
      ensures Indexed()
    {
      displs := [0];
      for i := 0 to |namelst|
        invariant |displs| == i + 1 && forall k :: 0 <= k <= i ==> displs[k] == Offset(namelst, k)
      {
        displs := displs + [displs[i] + |namelst[i]|];
      }
    }

    /** Cuts the files into np * blkSz blocks; `ok` is false where the source's assertion s < e fails. */
    method FilesPartition(blkSz': nat := BLK_SZ) returns (ok: bool)
      requires np > 0 && blkSz' > 0
      modifies this
      ensures var blkSz := if SingleBlockPattern(pattern) then 1 else blkSz';
              && (ok <==> Size() >= np * blkSz)
              && (ok ==> Partitioned(blkSz))
      ensures ok ==> |slst| == if pattern == "linesplit" || pattern == "fvec" then np else np * blkSz'
    {
      var blkSz := if SingleBlockPattern(pattern) then 1 else blkSz';
      slst, elst := [], [];
      SetDispls();
      var sz := displs[|displs| - 1];
      MulMonotone(1, np, blkSz);
      var nbk: nat := np * blkSz;
      var bkSz := sz / nbk;
      Division(sz, nbk);
      for i := 0 to nbk
        invariant Indexed() && |slst| == |elst| == i
        invariant i > 0 ==> sz >= nbk
        invariant forall k :: 0 <= k < i ==> slst[k] == Cut(sz, nbk, k)
        invariant forall k :: 0 <= k < i ==> elst[k] == Cut(sz, nbk, k + 1)
        invariant forall k :: 0 <= k < i ==> slst[k] < elst[k]
      {
        var s := i * bkSz;
        var e := if i == nbk - 1 then sz else (i + 1) * bkSz;
        CutBounds(sz, nbk, i);
        if !(s < e) {
          return false;
        }
        slst, elst := slst + [s], elst + [e];
      }
      CutsTile(slst, elst, sz, nbk);
      ok := true;
    }

    /** The files the block starts and ends in. */
    method LocateFiles(st: nat, en: nat) returns (fst: nat, fen: nat)
      requires Indexed() && st < en <= Size()
      ensures fst <= fen < |namelst|
      ensures Offset(namelst, fst) <= st < Offset(namelst, fst + 1)
      ensures Offset(namelst, fen) < en <= Offset(namelst, fen + 1)
    {
      var n := |namelst|;
      fst, fen := 0, 0;
      for i := 0 to n
        invariant (fst < i || fst == 0) && displs[fst] <= st
        invariant fst + 1 < i ==> st < displs[fst + 1]
        invariant fen <= i && displs[fen] < en && (fen < i ==> en <= displs[fen + 1])
      {
        if st >= displs[i] {
          fst := i;
        }
        if en > displs[i + 1] {
          fen := i + 1;
        }
      }
      assert fen < n;
      OffsetMonotone(namelst, if fst <= fen then fst else fen + 1, fst);
    }

    /** The lines of one block, read by seeking and getline as the source does. */
    method FilesLoadLines(st: nat, en: nat) returns (lines: seq<string>)
      requires Indexed() && st < en <= Size()
      ensures lines == Loaded(namelst, st, en, |namelst|)
    {
      hide Scanned, OwnedIn, UpToBlank, LinesStarting, LinesFrom;
      lines := [];
      var fst, fen := LocateFiles(st, en);
      NothingBefore(namelst, st, en, fst);
      var flag := false;
      for fi := fst to fen + 1
        invariant lines == Loaded(namelst, st, en, fi)
        invariant fi <= fen ==> flag == (fi > fst)
      {
        OffsetMonotone(namelst, fst + 1, if fi > fst then fi else fst + 1);
        OffsetMonotone(namelst, if fi < fen then fi + 1 else fen, fen);
        var offset := if flag then 0 else st - displs[fi];
        ScannedByCode(namelst[fi], displs[fi], st, en, offset);
        var more;
        if fi == fen {
          more := ScanBlockEnd(namelst[fi], offset, en - displs[fi]);
        } else {
          flag := true;
          more := ScanToBlank(namelst[fi], offset);
        }
        lines := lines + more;
      }
      NothingAfter(namelst, st, en, fen + 1, |namelst|);
    }
  }

  lemma ScannedByCode(f: string, base: nat, st: nat, en: nat, offset: nat)
    requires st < en && base < en
    requires offset == if base <= st then st - base else 0
    requires offset <= |f|
    ensures Scanned(f, base, st, en)
            == if en <= base + |f| then LinesFrom(f, offset, en - base)
               else UpToBlank(LinesStarting(f, offset, |f|))
  {
  }

  /** The lines from the counted offset o on, which may have run past hi. */
  function LinesFrom(f: string, o: nat, hi: nat): seq<string>
    requires hi <= |f|
  {
    if o < hi then LinesStarting(f, o, hi) else []
  }

  lemma AppendHead<T>(a: seq<T>, x: T, b: seq<T>)
    ensures a + ([x] + b) == (a + [x]) + b
  {
  }

  lemma ReadStep(f: string, o: nat, hi: nat, lines: seq<string>)
    requires IsLineStart(f, o) && o < hi <= |f|
    ensures var (l, next) := GetLine(f, o);
            var n := o + |l| + 1;
            && (n < |f| ==> IsLineStart(f, n) && next == n)
            && lines + LinesFrom(f, o, hi) == (lines + [l]) + LinesFrom(f, n, hi)
  {
    LineStep(f, o, hi);
    var n := LineEnd(f, o) + 1;
    assert LinesFrom(f, o, hi) == [LineAt(f, o)] + LinesFrom(f, n, hi);
    AppendHead(lines, LineAt(f, o), LinesFrom(f, n, hi));
  }

  lemma BlankScanStep(f: string, p: nat, lines: seq<string>)
    requires p <= |f| && (p < |f| ==> IsLineStart(f, p))
    ensures var (l, n) := GetLine(f, p);
            && (n < |f| ==> IsLineStart(f, n))
            && (l == "" ==> UpToBlank(LinesStarting(f, p, |f|)) == [])
            && (l != "" ==> p < n && lines + UpToBlank(LinesStarting(f, p, |f|))
                            == (lines + [l]) + UpToBlank(LinesStarting(f, n, |f|)))
  {
    if p < |f| {
      var (l, n) := GetLine(f, p);
      LineStep(f, p, |f|);
      assert LinesStarting(f, p, |f|) == [l] + LinesStarting(f, n, |f|);
      UpToBlankCons(l, LinesStarting(f, n, |f|));
      AppendHead(lines, l, UpToBlank(LinesStarting(f, n, |f|)));
    }
  }

  lemma ResyncFrom(f: string, o: nat, hi: nat)
    requires 0 < o <= |f| && hi <= |f|
    ensures var n := LineEnd(f, o - 1) + 1;
            && n == o + |GetLine(f, o - 1).0| && (n < |f| ==> IsLineStart(f, n) && GetLine(f, o - 1).1 == n)
            && LinesFrom(f, n, hi) == LinesFrom(f, o, hi)
  {
    Resync(f, o, hi);
  }

  lemma StartIsLineStart(f: string)
    ensures f != "" ==> IsLineStart(f, 0)
  {
  }

  /** The scan of the block's last file: resynchronise, then read while the counted offset is before hi. */
  method ScanBlockEnd(f: string, offset: nat, hi: nat) returns (lines: seq<string>)
    requires offset <= |f| && hi <= |f|
    ensures lines == LinesFrom(f, offset, hi)
  {
    hide LinesStarting, GetLine, LineEnd, IsLineStart;
    lines := [];
    var o, pos := offset, offset;  // the counted offset and the stream position
    if o == 0 {
      StartIsLineStart(f);
    } else {
      var (l, pos') := GetLine(f, o - 1);
      ResyncFrom(f, offset, hi);
      o, pos := o + |l|, pos';
    }
    while o < hi
      invariant o < |f| ==> IsLineStart(f, o) && pos == o
      invariant lines + LinesFrom(f, o, hi) == LinesFrom(f, offset, hi)
      decreases hi - o
    {
      var (l, pos') := GetLine(f, pos);
      ReadStep(f, o, hi, lines);
      o, pos := o + |l| + 1, pos';
      lines := lines + [l];
    }
  }

  /** The scan of any other file: resynchronise, then read until getline gives an empty line. */
  method ScanToBlank(f: string, offset: nat) returns (lines: seq<string>)
    requires offset <= |f|
    ensures lines == UpToBlank(LinesStarting(f, offset, |f|))
  {
    lines := [];
    var pos: nat := offset;
    if offset != 0 {
      var (_, pos') := GetLine(f, offset - 1);
      Resync(f, offset, |f|);
      pos := pos';
    }
    assert LinesStarting(f, pos, |f|) == LinesStarting(f, offset, |f|);
    while true
      invariant pos <= |f| && (pos < |f| ==> IsLineStart(f, pos))
      invariant lines + UpToBlank(LinesStarting(f, pos, |f|)) == UpToBlank(LinesStarting(f, offset, |f|))
      decreases |f| - pos
    {
      var (l, pos') := GetLine(f, pos);
      BlankScanStep(f, pos, lines);
      if |l| == 0 {
        break;
      }
      lines, pos := lines + [l], pos';
    }
  }

  // ---------------------------------------------------------------- all blocks, all ranks

  ghost predicate Blocks(slst: seq<int>, elst: seq<int>)
  {
    |slst| == |elst| && forall i :: 0 <= i < |slst| ==> 0 <= slst[i] <= elst[i]
  }

  /** What the blocks a..b load, in block order. */
  function BlocksLoaded(files: seq<string>, slst: seq<int>, elst: seq<int>, a: nat, b: nat): seq<string>
    requires Blocks(slst, elst) && a <= b <= |slst|
  {
    if a == b then []
    else BlocksLoaded(files, slst, elst, a, b - 1) + Loaded(files, slst[b - 1], elst[b - 1], |files|)
  }

  method LoadBlocks(p: Partition, a: nat, b: nat) returns (result: seq<string>)
    requires p.Indexed() && Tiles(p.slst, p.elst, p.Size()) && a <= b <= |p.slst|
    ensures result == BlocksLoaded(p.namelst, p.slst, p.elst, a, b)
  {
    hide Loaded, Offset;
    result := [];
    for i := a to b
      invariant result == BlocksLoaded(p.namelst, p.slst, p.elst, a, i)
    {
      var lines := p.FilesLoadLines(p.slst[i], p.elst[i]);
      result := result + lines;
    }
  }

  /** structure_load: a rank loads its own run of blocks. */
  method StructureLoad(p: Partition, rank: nat) returns (result: seq<string>)
    requires rank < p.np
    requires p.Partitioned(if SingleBlockPattern(p.pattern) then 1 else BLK_SZ)
    ensures var blkSz := if SingleBlockPattern(p.pattern) then 1 else BLK_SZ;
            && rank * blkSz <= (rank + 1) * blkSz <= |p.slst|
            && result == BlocksLoaded(p.namelst, p.slst, p.elst, rank * blkSz, (rank + 1) * blkSz)
  {
    var blkSz := if SingleBlockPattern(p.pattern) then 1 else BLK_SZ;
    MulStep(rank, blkSz);
    MulMonotone(rank + 1, p.np, blkSz);
    result := LoadBlocks(p, rank * blkSz, (rank + 1) * blkSz);
  }

  /** What ranks 0..r load together, in rank order. */
  function RanksLoaded(files: seq<string>, slst: seq<int>, elst: seq<int>, blkSz: nat, r: nat): seq<string>
    requires Blocks(slst, elst) && r * blkSz <= |slst|
  {
    if r == 0 then []
    else
      MulStep(r - 1, blkSz);
      RanksLoaded(files, slst, elst, blkSz, r - 1)
      + BlocksLoaded(files, slst, elst, (r - 1) * blkSz, r * blkSz)
  }

  lemma {:induction false} BlocksJoin(files: seq<string>, slst: seq<int>, elst: seq<int>, a: nat, b: nat, c: nat)
    requires Blocks(slst, elst) && a <= b <= c <= |slst|
    ensures BlocksLoaded(files, slst, elst, a, c)
            == BlocksLoaded(files, slst, elst, a, b) + BlocksLoaded(files, slst, elst, b, c)
    decreases c - b
  {
    hide Loaded;
    if b < c {
      BlocksJoin(files, slst, elst, a, b, c - 1);
    }
  }

  lemma {:induction false} RanksLoadBlocks(files: seq<string>, slst: seq<int>, elst: seq<int>, blkSz: nat, r: nat)
    requires Blocks(slst, elst) && r * blkSz <= |slst|
    ensures RanksLoaded(files, slst, elst, blkSz, r) == BlocksLoaded(files, slst, elst, 0, r * blkSz)
  {
    hide BlocksLoaded;
    if r > 0 {
      MulStep(r - 1, blkSz);
      RanksLoadBlocks(files, slst, elst, blkSz, r - 1);
      BlocksJoin(files, slst, elst, 0, (r - 1) * blkSz, r * blkSz);
    } else {
      BlocksJoin(files, slst, elst, 0, 0, 0);
      assert |BlocksLoaded(files, slst, elst, 0, 0)| == 2 * |BlocksLoaded(files, slst, elst, 0, 0)|;
    }
  }

  ghost predicate BlanksHarmless(files: seq<string>, slst: seq<int>, elst: seq<int>, b: nat)
    requires Blocks(slst, elst) && b <= |slst|
  {
    forall i :: 0 <= i < b ==> BlanksReachEnd(files, slst[i], elst[i], |files|)
  }

  lemma {:induction false} BlocksLoadTheirLines(files: seq<string>, slst: seq<int>, elst: seq<int>, b: nat)
    requires Tiles(slst, elst, Offset(files, |files|)) && b <= |slst|
    ensures var end := if b == 0 then 0 else elst[b - 1];
            AllOrFewer(BlocksLoaded(files, slst, elst, 0, b), Owned(files, 0, end, |files|),
                       BlanksHarmless(files, slst, elst, b))
  {
    hide Loaded, Owned, BlanksReachEnd, Offset;
    if b == 0 {
      OwnsNothing(files, |files|);
    } else {
      BlocksLoadTheirLines(files, slst, elst, b - 1);
      var st, en := slst[b - 1], elst[b - 1];
      BlockLoadsItsLines(files, st, en, |files|);
      OwnedSplit(files, 0, st, en, |files|);
      ConcatShorter(BlocksLoaded(files, slst, elst, 0, b - 1), Owned(files, 0, st, |files|),
                    BlanksHarmless(files, slst, elst, b - 1),
                    Loaded(files, st, en, |files|), Owned(files, st, en, |files|),
                    BlanksReachEnd(files, st, en, |files|));
    }
  }

  lemma {:induction false} OwnsNothing(files: seq<string>, k: nat)
    requires k <= |files|
    ensures Owned(files, 0, 0, k) == []
  {
    if k > 0 {
      OwnsNothing(files, k - 1);
    }
  }

  /** The ranks together load every line of every file exactly once and in order if and only if every blank
      line lies in a file that reaches the end of the block the blank line starts in.  Otherwise lines are lost. */
  lemma EveryLineOnce(files: seq<string>, slst: seq<int>, elst: seq<int>, blkSz: nat, np: nat)
    requires Tiles(slst, elst, Offset(files, |files|)) && |slst| == np * blkSz
    ensures RanksLoaded(files, slst, elst, blkSz, np) == AllLines(files, |files|)
            <==> BlanksHarmless(files, slst, elst, |slst|)
    ensures !BlanksHarmless(files, slst, elst, |slst|)
            ==> |RanksLoaded(files, slst, elst, blkSz, np)| < |AllLines(files, |files|)|
  {
    RanksLoadBlocks(files, slst, elst, blkSz, np);
    BlocksLoadTheirLines(files, slst, elst, |slst|);
    WholeOwnsAll(files, Offset(files, |files|), |files|);
  }

  /** In particular, files without blank lines are loaded whole however they are cut. */
  lemma NoBlankLinesNothingLost(files: seq<string>, slst: seq<int>, elst: seq<int>, blkSz: nat, np: nat)
    requires Tiles(slst, elst, Offset(files, |files|)) && |slst| == np * blkSz
    requires forall k, p: nat :: 0 <= k < |files| ==> !IsBlankLine(files[k], p)
    ensures RanksLoaded(files, slst, elst, blkSz, np) == AllLines(files, |files|)
  {
    EveryLineOnce(files, slst, elst, blkSz, np);
  }

  /** A single file is loaded whole, blank lines and all: it reaches the end of every block. */
  lemma {:induction false} SingleFileNothingLost(f: string, slst: seq<int>, elst: seq<int>, blkSz: nat, np: nat)
    requires Tiles(slst, elst, |f|) && |slst| == np * blkSz
    ensures Unlines(RanksLoaded([f], slst, elst, blkSz, np)) == f + Completion(f)
  {
    assert Offset([f], 1) == Offset([f], 0) + |f|;
    EveryLineOnce([f], slst, elst, blkSz, np);
    forall i | 0 <= i < |slst|
      ensures BlanksReachEnd([f], slst[i], elst[i], 1)
    {
      assert elst[i] <= |f| && Offset([f], 0) == 0 && [f][0] == f;
    }
    assert BlanksHarmless([f], slst, elst, |slst|);
    var files := [f];
    var lines := LinesStarting(f, 0, |f|);
    assert |files| == 1 && files[1 - 1] == f && AllLines(files, 1 - 1) == [];
    assert AllLines(files, 1) == lines;
    assert RanksLoaded(files, slst, elst, blkSz, np) == lines;
    LinesSpellFile(f, 0);
    assert f[0..] == f;
  }

  /** Two files, one block: the blank line at the head of the first file loses the rest of that file. */
  lemma BlankLineLosesLines()
    ensures var files := ["\na\n", "b\n"];
            Tiles([0], [5], Offset(files, 2)) && AllLines(files, 2) == ["", "a", "b"]
            && RanksLoaded(files, [0], [5], 1, 1) != AllLines(files, 2)
  {
    var files := ["\na\n", "b\n"];
    assert Offset(files, 0) == 0 && Offset(files, 1) == 3 && Offset(files, 2) == 5;
    var f, g := "\na\n", "b\n";
    LineStep(f, 0, 3);
    LineStep(f, 1, 3);
    assert LineEnd(f, 0) == 0 && LineEnd(f, 2) == 2 && LineEnd(f, 1) == 2;
    assert LineAt(f, 0) == "" && LineAt(f, 1) == "a";
    assert LinesStarting(f, 0, 3) == ["", "a"];
    LineStep(g, 0, 2);
    assert LineEnd(g, 1) == 1 && LineEnd(g, 0) == 1 && LineAt(g, 0) == "b";
    assert LinesStarting(g, 0, 2) == ["b"];
    assert AllLines(files, 0) == [];
    assert AllLines(files, 1) == AllLines(files, 0) + LinesStarting("\na\n", 0, 3);
    assert AllLines(files, 2) == AllLines(files, 1) + LinesStarting("b\n", 0, 2);
    assert !BlanksReachEndIn(files[0], 0, 0, 5) by {
      assert IsBlankLine(files[0], 0);
    }
    EveryLineOnce(files, [0], [5], 1, 1);
  }
}
