/** Splitting text at a separator word (str_split_by_word of include/utils/ext_utility.hpp), and when a word written
    before a separator is read back whole. */
module Words {
  // ---------------------------------------------------------------- searching and splitting

  predicate MatchAt(s: string, sep: string, p: nat)
  {
    p + |sep| <= |s| && s[p..p + |sep|] == sep
  }

  /** The first match of sep at or after position p, or the length of s. */
  function Find(s: string, sep: string, p: nat): (i: nat)
    requires p <= |s| && |sep| > 0
    ensures p <= i <= |s| && (i < |s| ==> MatchAt(s, sep, i))
    ensures forall q :: p <= q < i ==> !MatchAt(s, sep, q)
    decreases |s| - p
  {
    if p == |s| || MatchAt(s, sep, p) then p else Find(s, sep, p + 1)
  }

  lemma FindIs(s: string, sep: string, i: nat)
    requires |sep| > 0 && i <= |s| && (forall q :: 0 <= q < i ==> !MatchAt(s, sep, q))
    requires i == |s| || MatchAt(s, sep, i)
    ensures Find(s, sep, 0) == i
  {
    hide MatchAt;
  }

  predicate Contains(s: string, sep: string)
    requires |sep| > 0
  {
    Find(s, sep, 0) < |s|
  }

  /** split_regex with a literal pattern: the pieces between leftmost, non-overlapping matches. */
  function Split(s: string, sep: string): (pieces: seq<string>)
    requires |sep| > 0
    ensures |pieces| > 0 && (|pieces| == 1 <==> !Contains(s, sep)) && (|pieces| == 1 ==> pieces == [s])
    decreases |s|
  {
    var i := Find(s, sep, 0);
    if i == |s| then [s] else [s[..i]] + Split(s[i + |sep|..], sep)
  }

  /** str_split_by_word drops one trailing empty piece. */
  function SplitByWord(s: string, sep: string): seq<string>
    requires |sep| > 0
  {
    var r := Split(s, sep);
    if r[|r| - 1] == "" then r[..|r| - 1] else r
  }

  /** The last character of a is none of the separator's. */
  predicate Sealed(a: string, sep: string)
  {
    |a| > 0 && a[|a| - 1] !in sep
  }

  /** A match puts the separator's characters at its position. */
  lemma MatchChars(s: string, sep: string, q: nat, k: nat)
    requires MatchAt(s, sep, q) && k < |sep|
    ensures s[q + k] == sep[k]
  {
    assert s[q..q + |sep|][k] == s[q + k];
  }

  /** No match straddles the end of a sealed string. */
  lemma NoStraddle(a: string, sep: string, b: string, q: nat)
    requires |sep| > 0 && Sealed(a, sep) && q < |a|
    ensures MatchAt(a + b, sep, q) <==> MatchAt(a, sep, q)
  {
    if q + |sep| <= |a| {
      assert (a + b)[q..q + |sep|] == a[q..q + |sep|];
    } else if MatchAt(a + b, sep, q) {
      MatchChars(a + b, sep, q, |a| - 1 - q);
    }
  }

  lemma SealedTail(a: string, sep: string, i: nat)
    requires |sep| > 0 && Sealed(a, sep) && MatchAt(a, sep, i)
    ensures i + |sep| < |a| && Sealed(a[i + |sep|..], sep)
  {
    MatchChars(a, sep, i, |sep| - 1);
  }

  /** One step of the split, at the first match. */
  lemma SplitAt(s: string, sep: string, i: nat)
    requires |sep| > 0 && Find(s, sep, 0) == i < |s|
    ensures i + |sep| <= |s| && Split(s, sep) == [s[..i]] + Split(s[i + |sep|..], sep)
  {
    hide Find, Contains;
    assert MatchAt(s, sep, i);
  }

  /** The first match in sealed text followed by the separator is the first in the text itself. */
  lemma FindJoined(a: string, sep: string, b: string)
    requires |sep| > 0 && Sealed(a, sep)
    ensures Find(a + sep + b, sep, 0) == Find(a, sep, 0)
  {
    var s := a + sep + b;
    var i := Find(a, sep, 0);
    assert s == a + (sep + b);
    forall q | 0 <= q < |a|
      ensures MatchAt(s, sep, q) <==> MatchAt(a, sep, q)
    {
      NoStraddle(a, sep, sep + b, q);
    }
    assert MatchAt(s, sep, |a|);
    FindIs(s, sep, i);
  }

  /** Splitting a sealed string, a separator and more text is splitting the two parts. */
  lemma {:induction false} SplitJoin(a: string, sep: string, b: string)
    requires |sep| > 0 && Sealed(a, sep)
    ensures Split(a + sep + b, sep) == Split(a, sep) + Split(b, sep)
    decreases |a|
  {
    hide Split, Find, MatchAt, Sealed;
    var s := a + sep + b;
    var i := Find(a, sep, 0);
    FindJoined(a, sep, b);
    assert |s| > |a|;
    SplitAt(s, sep, i);
    if i == |a| {
      assert s[..i] == a && s[i + |sep|..] == b;
      assert Split(a, sep) == [a];
    } else {
      SealedTail(a, sep, i);
      SplitAt(a, sep, i);
      var rest := a[i + |sep|..];
      SplitJoin(rest, sep, b);
      assert s[..i] == a[..i] && s[i + |sep|..] == rest + sep + b;
    }
  }

  /** The last piece of a sealed string is not empty. */
  lemma {:induction false} LastPiece(a: string, sep: string)
    requires |sep| > 0 && Sealed(a, sep)
    ensures Split(a, sep)[|Split(a, sep)| - 1] != ""
    decreases |a|
  {
    hide Split, Find, MatchAt;
    var i := Find(a, sep, 0);
    if i < |a| {
      SealedTail(a, sep, i);
      SplitAt(a, sep, i);
      LastPiece(a[i + |sep|..], sep);
    } else {
      assert Split(a, sep) == [a];
    }
  }

  // ---------------------------------------------------------------- reading one word

  /** The first separator in id + separator is at the id's end. */
  predicate Clean(id: string, sep: string)
    requires |sep| > 0
  {
    Find(id + sep, sep, 0) == |id|
  }

  /** A separator that overlaps itself in its first and last character only, as both separators in use do. */
  predicate Fence(sep: string)
  {
    |sep| > 1 && sep[0] == sep[|sep| - 1] && forall k :: 0 < k < |sep| - 1 ==> sep[k] != sep[0]
  }

  /** The separator without its last character. */
  function Stem(sep: string): string
    requires |sep| > 0
  {
    sep[..|sep| - 1]
  }

  predicate EndsIn(id: string, tail: string)
  {
    |tail| <= |id| && id[|id| - |tail|..] == tail
  }

  /** An id is clean exactly when it neither contains the separator nor ends in all of it but the last character. */
  lemma CleanMeans(id: string, sep: string)
    requires Fence(sep)
    ensures Clean(id, sep) <==> !Contains(id, sep) && !EndsIn(id, Stem(sep))
  {
    var t := id + sep;
    assert MatchAt(t, sep, |id|);
    forall q | 0 <= q < |id|
      ensures MatchAt(t, sep, q) <==> MatchAt(id, sep, q) || (q + |sep| - 1 == |id| && id[q..] == Stem(sep))
    {
      CleanAt(id, sep, q);
    }
    hide MatchAt;
    if Clean(id, sep) {
      FindIs(id, sep, |id|);
    } else {
      var f := Find(t, sep, 0);
      assert f < |id| && MatchAt(t, sep, f);
    }
  }

  lemma CleanAt(id: string, sep: string, q: nat)
    requires Fence(sep) && q < |id|
    ensures MatchAt(id + sep, sep, q) <==> MatchAt(id, sep, q) || (q + |sep| - 1 == |id| && id[q..] == Stem(sep))
  {
    var t, n := id + sep, |sep|;
    assert t[|id|] == sep[0];
    if q + n <= |id| {
      assert t[q..q + n] == id[q..q + n];
    } else if q + n - 1 == |id| {
      assert t[q..q + n] == id[q..] + [sep[0]];
      assert sep == Stem(sep) + [sep[0]];
      assert (id[q..] + [sep[0]])[..n - 1] == id[q..];
    }
  }

  /** What follows the separator does not move its first match. */
  lemma FirstMatch(id: string, sep: string, rest: string) returns (i: nat)
    requires |sep| > 0
    ensures i == Find(id + sep + rest, sep, 0) == Find(id + sep, sep, 0) <= |id|
  {
    var s := id + sep + rest;
    var t := id + sep;
    i := Find(t, sep, 0);
    assert MatchAt(t, sep, |id|);
    forall q | 0 <= q <= |id|
      ensures MatchAt(s, sep, q) <==> MatchAt(t, sep, q)
    {
      assert s[q..q + |sep|] == t[q..q + |sep|];
    }
    FindIs(s, sep, i);
  }

  /** Reading up to the first separator gives the id exactly when the id is clean, and otherwise a shorter text. */
  lemma FirstPiece(id: string, sep: string, rest: string)
    requires |sep| > 0
    ensures var pieces := Split(id + sep + rest, sep);
            && |pieces| > 1
            && (if Clean(id, sep) then pieces == [id] + Split(rest, sep) else |pieces[0]| < |id|)
  {
    var s := id + sep + rest;
    var i := FirstMatch(id, sep, rest);
    hide Find, Split, MatchAt;
    SplitAt(s, sep, i);
    assert s[..i] == id[..i];
    if i == |id| {
      assert s[i + |sep|..] == rest && id[..i] == id;
    }
  }

  lemma EmptySplits(sep: string)
    requires |sep| > 0
    ensures Split("", sep) == [""]
  {
  }

  // ---------------------------------------------------------------- joined words

  /** The words with a separator between any two. */
  function Join(l: seq<string>, sep: string): string
    requires |l| > 0
  {
    if |l| == 1 then l[0] else l[0] + sep + Join(l[1..], sep)
  }

  lemma {:induction false} JoinSnoc(l: seq<string>, sep: string, x: string)
    requires |l| > 0
    ensures Join(l + [x], sep) == Join(l, sep) + sep + x
  {
    assert (l + [x])[1..] == l[1..] + [x];
    if |l| > 1 {
      JoinSnoc(l[1..], sep, x);
      assert Join(l + [x], sep) == l[0] + sep + (Join(l[1..], sep) + sep + x);
    } else {
      assert l[1..] + [x] == [x];
    }
  }

  lemma CutAround(s: string, sep: string, i: nat)
    requires i + |sep| <= |s| && s[i..i + |sep|] == sep
    ensures s == s[..i] + sep + s[i + |sep|..]
  {
  }

  lemma JoinCons(x: string, l: seq<string>, sep: string)
    requires |l| > 0
    ensures Join([x] + l, sep) == x + sep + Join(l, sep)
  {
    assert ([x] + l)[1..] == l;
  }

  /** Splitting undoes joining the other way round: the pieces joined again are the text. */
  lemma {:induction false} JoinSplit(s: string, sep: string)
    requires |sep| > 0
    ensures Join(Split(s, sep), sep) == s
    decreases |s|
  {
    var i := Find(s, sep, 0);
    if i < |s| {
      SplitAt(s, sep, i);
      assert i + |sep| <= |s| && s[i..i + |sep|] == sep;
      var rest := s[i + |sep|..];
      hide *;
      CutAround(s, sep, i);
      JoinSplit(rest, sep);
      JoinCons(s[..i], Split(rest, sep), sep);
    }
  }

  /** What str_split_by_word drops is one trailing empty piece and nothing else. */
  lemma SplitByWordDrops(s: string, sep: string)
    requires |sep| > 0
    ensures var r := SplitByWord(s, sep);
            if r == [] then s == ""
            else s == Join(r, sep) + (if Split(s, sep)[|Split(s, sep)| - 1] == "" then sep else "")
  {
    hide Split;
    JoinSplit(s, sep);
    var all := Split(s, sep);
    var last := |all| - 1;
    if all[last] == "" && last > 0 {
      JoinSnoc(all[..last], sep, "");
      assert all[..last] + [""] == all;
    } else if last == 0 {
      assert all == [all[0]];
    }
  }

  /** The appending loop of both senders: every word but the last followed by a separator, then the last. */
  method AppendAll(l: seq<string>, sep: string) returns (str: string)
    requires |l| > 0
    ensures str == Join(l, sep)
  {
    str := "";
    var i := 0;
    while i < |l| - 1
      invariant 0 <= i <= |l| - 1
      invariant str == if i == 0 then "" else Join(l[..i], sep) + sep
    {
      if i > 0 {
        JoinSnoc(l[..i], sep, l[i]);
      }
      assert l[..i + 1] == l[..i] + [l[i]];
      str := str + (l[i] + sep);
      i := i + 1;
    }
    if i > 0 {
      JoinSnoc(l[..i], sep, l[i]);
    }
    assert l[..i] + [l[i]] == l;
    str := str + l[i];
  }

  /** The pieces of all words, one after another. */
  function Pieces(l: seq<string>, sep: string): seq<string>
    requires |sep| > 0
  {
    if l == [] then [] else Split(l[0], sep) + Pieces(l[1..], sep)
  }

  ghost predicate AllSealed(l: seq<string>, sep: string)
  {
    forall i :: 0 <= i < |l| ==> Sealed(l[i], sep)
  }

  /** Words that end in no separator character are kept apart: splitting the joined text splits each word. */
  lemma {:induction false} JoinedPieces(l: seq<string>, sep: string)
    requires |sep| > 0 && |l| > 0 && AllSealed(l, sep)
    ensures Split(Join(l, sep), sep) == Pieces(l, sep)
    ensures Pieces(l, sep) != [] && Pieces(l, sep)[|Pieces(l, sep)| - 1] != ""
  {
    hide Split, Sealed;
    if |l| == 1 {
      assert l[1..] == [];
      assert Pieces(l, sep) == Split(l[0], sep) + [];
      LastPiece(l[0], sep);
    } else {
      JoinedPieces(l[1..], sep);
      SplitJoin(l[0], sep, Join(l[1..], sep));
    }
  }

  /** No word holds the separator. */
  predicate Uncut(l: seq<string>, sep: string)
    requires |sep| > 0
  {
    forall i :: 0 <= i < |l| ==> !Contains(l[i], sep)
  }

  /** The pieces are the words, unless a word is cut and there are more. */
  lemma {:induction false} PieceCount(l: seq<string>, sep: string)
    requires |sep| > 0
    ensures if Uncut(l, sep) then Pieces(l, sep) == l else |Pieces(l, sep)| > |l|
  {
    hide Split, Contains;
    if l != [] {
      PieceCount(l[1..], sep);
      assert l == [l[0]] + l[1..];
      assert Uncut(l, sep) <==> !Contains(l[0], sep) && Uncut(l[1..], sep) by {
        assert forall i :: 1 <= i < |l| ==> l[i] == l[1..][i - 1];
        assert forall i :: 0 <= i < |l| - 1 ==> l[1..][i] == l[i + 1];
      }
    }
  }

  // ---------------------------------------------------------------- joined words of any kind

  /** Every word but the last is clean, and the last one does not hold the separator. */
  predicate Apart(l: seq<string>, sep: string)
    requires |sep| > 0
  {
    l == [] || if |l| == 1 then !Contains(l[0], sep) else Clean(l[0], sep) && Apart(l[1..], sep)
  }

  /** Words that are apart are the pieces of their joined text. */
  lemma {:induction false} ApartPieces(l: seq<string>, sep: string)
    requires |sep| > 0 && |l| > 0 && Apart(l, sep)
    ensures Split(Join(l, sep), sep) == l
  {
    hide Split, Contains, Clean;
    if |l| == 1 {
      assert l == [l[0]];
    } else {
      ApartPieces(l[1..], sep);
      FirstPiece(l[0], sep, Join(l[1..], sep));
      assert l == [l[0]] + l[1..];
    }
  }

  /** Words that are not apart: the first one that is cut is read back shorter than it was. */
  lemma {:induction false} CutPieces(l: seq<string>, sep: string) returns (i: nat)
    requires |sep| > 0 && !Apart(l, sep)
    ensures i < |l| && i < |Split(Join(l, sep), sep)| && |Split(Join(l, sep), sep)[i]| < |l[i]|
  {
    if |l| == 1 {
      i := 0;
      CutWord(l[0], sep);
    } else {
      var x, rest := l[0], l[1..];
      assert Join(l, sep) == x + sep + Join(rest, sep);
      FirstPiece(x, sep, Join(rest, sep));
      i := 0;
      if Clean(x, sep) {
        var j := CutPieces(rest, sep);
        i := j + 1;
        hide *;
        assert l[i] == rest[j];
      }
    }
  }

  lemma CutWord(x: string, sep: string)
    requires |sep| > 0 && Contains(x, sep)
    ensures |Split(x, sep)[0]| < |x|
  {
    SplitAt(x, sep, Find(x, sep, 0));
  }

  /** Clean words are apart in any order and number. */
  lemma {:induction false} CleanApart(l: seq<string>, sep: string)
    requires Fence(sep) && forall i :: 0 <= i < |l| ==> Clean(l[i], sep)
    ensures Apart(l, sep)
  {
    hide Clean, Contains;
    if |l| == 1 {
      CleanMeans(l[0], sep);
    } else if |l| > 1 {
      CleanApart(l[1..], sep);
    }
  }
}
