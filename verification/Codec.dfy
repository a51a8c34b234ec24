/** The wire formats of triple lists and of string lists (isend and recv in include/utils/comm.hpp): ids and values
    joined by one separator, triples or strings by another, without any escaping. */
module Codec {
  import opened Kv
  import opened Words

  const OUTER := "_PARACEL_"
  const INNER := "_ps_"

  // ---------------------------------------------------------------- one triple

  datatype Triple<V> = Triple(row: string, col: string, val: V)

  /** How values are printed and read back (std::to_string and std::stod); blank is a value-initialised triple. */
  datatype Format<!V> = Format(printed: V -> string, parse: string -> Option<V>, blank: Triple<V>)

  /** A printed value that can be read back, ends in a digit and has no underscore. */
  predicate Printable<V>(fm: Format<V>, v: V)
  {
    var s := fm.printed(v);
    && fm.parse(s).Some? && |s| > 0 && '0' <= s[|s| - 1] <= '9'
    && '_' !in s
  }

  /** What is written for one triple. */
  function Pack<V>(fm: Format<V>, t: Triple<V>): string
  {
    t.row + INNER + (t.col + INNER + fm.printed(t.val))
  }

  lemma PackIsSealed<V>(fm: Format<V>, t: Triple<V>)
    requires Printable(fm, t.val)
    ensures Sealed(Pack(fm, t), OUTER)
  {
    var s := fm.printed(t.val);
    assert Pack(fm, t)[|Pack(fm, t)| - 1] == s[|s| - 1];
  }

  /** The triple with its value printed and read back: all the wire can carry of it. */
  function Reread<V>(fm: Format<V>, t: Triple<V>): Triple<V>
    requires Printable(fm, t.val)
  {
    t.(val := fm.parse(fm.printed(t.val)).value)
  }

  /** The triple read from one piece; None where the source reads past the parts or std::stod throws. */
  function Unpack<V>(fm: Format<V>, piece: string): Option<Triple<V>>
  {
    var tpl := SplitByWord(piece, INNER);
    if |tpl| < 3 then None
    else
      var v := fm.parse(tpl[2]);
      if v.None? then None else Some(Triple(tpl[0], tpl[1], v.value))
  }

  /** Of a piece only the first three parts count: two ids and a value, whatever follows. */
  lemma FirstThreeParts<V>(fm: Format<V>, a: string, b: string, c: string, d: string)
    requires Clean(a, INNER) && Clean(b, INNER) && Clean(c, INNER)
    ensures Unpack(fm, a + INNER + (b + INNER + (c + INNER + d)))
            == if fm.parse(c).None? then None else Some(Triple(a, b, fm.parse(c).value))
  {
    hide Clean, Split;
    FirstPiece(a, INNER, b + INNER + (c + INNER + d));
    FirstPiece(b, INNER, c + INNER + d);
    FirstPiece(c, INNER, d);
  }

  lemma NoUnderscoreNoMatch(s: string)
    requires '_' !in s
    ensures Split(s, INNER) == [s]
  {
    forall q | 0 <= q < |s|
      ensures MatchAt(s, INNER, q) ==> s[q] == INNER[0]
    {
      if MatchAt(s, INNER, q) {
        MatchChars(s, INNER, q, 0);
      }
    }
    FindIs(s, INNER, |s|);
  }

  predicate CleanIds<V>(t: Triple<V>)
  {
    Clean(t.row, INNER) && Clean(t.col, INNER)
  }

  /** A packed triple reads back, up to the printing of its value, when both ids are clean.  Otherwise it either
      cannot be read or comes back with a shorter row id, or with its row id and a shorter column id. */
  lemma PackedReads<V>(fm: Format<V>, t: Triple<V>)
    requires Printable(fm, t.val)
    ensures var u := Unpack(fm, Pack(fm, t));
            && (CleanIds(t) ==> u == Some(Reread(fm, t)))
            && (u.Some? && !Clean(t.row, INNER) ==> |u.value.row| < |t.row|)
            && (u.Some? && Clean(t.row, INNER) ==> u.value.row == t.row)
            && (u.Some? && Clean(t.row, INNER) && !Clean(t.col, INNER) ==> |u.value.col| < |t.col|)
  {
    hide Find, Split, MatchAt, Clean;
    var s := fm.printed(t.val);
    assert Pack(fm, t) == t.row + INNER + (t.col + INNER + s);
    FirstPiece(t.row, INNER, t.col + INNER + s);
    FirstPiece(t.col, INNER, s);
    NoUnderscoreNoMatch(s);
  }

  /** So a packed triple comes back exactly when both ids are clean. */
  lemma PackRoundTrip<V>(fm: Format<V>, t: Triple<V>)
    requires Printable(fm, t.val)
    ensures Unpack(fm, Pack(fm, t)) == Some(Reread(fm, t)) <==> CleanIds(t)
  {
    hide Unpack, Pack, Clean;
    PackedReads(fm, t);
  }

  // ---------------------------------------------------------------- the receiver's list

  /** A receiver's list resized to the announced size; a size of zero leaves it alone. */
  function Resized<T>(lst: seq<T>, sz: nat, blank: T): (r: seq<T>)
    ensures |r| == if sz == 0 then |lst| else sz
    ensures forall i :: 0 <= i < |r| ==> r[i] == if i < |lst| then lst[i] else blank
  {
    if sz == 0 then lst
    else if sz <= |lst| then lst[..sz]
    else lst + seq(sz - |lst|, _ => blank)
  }

  // ---------------------------------------------------------------- lists of triples

  function Packs<V>(fm: Format<V>, ts: seq<Triple<V>>): (l: seq<string>)
    ensures |l| == |ts| && forall i :: 0 <= i < |ts| ==> l[i] == Pack(fm, ts[i])
  {
    seq(|ts|, i requires 0 <= i < |ts| => Pack(fm, ts[i]))
  }

  /** What is sent for a list: nothing, one triple with a trailing separator, or the triples joined. */
  function Encoded<V>(fm: Format<V>, ts: seq<Triple<V>>): string
  {
    if |ts| == 0 then "" else if |ts| == 1 then Pack(fm, ts[0]) + OUTER else Join(Packs(fm, ts), OUTER)
  }

  /** The sending side: the size and the string built by appending. */
  method Send<V>(fm: Format<V>, ts: seq<Triple<V>>) returns (sz: nat, str: string)
    ensures sz == |ts| && str == Encoded(fm, ts)
    ensures |ts| == 1 ==> str == Pack(fm, ts[0]) + OUTER
  {
    sz, str := |ts|, "";
    if |ts| != 0 {
      if |ts| == 1 {
        str := Pack(fm, ts[0]) + OUTER;
      } else {
        str := AppendAll(Packs(fm, ts), OUTER);
      }
    }
  }

  /** Every piece can be read. */
  predicate Readable<V>(fm: Format<V>, pieces: seq<string>)
  {
    forall i :: 0 <= i < |pieces| ==> Unpack(fm, pieces[i]).Some?
  }

  function Unpacked<V>(fm: Format<V>, pieces: seq<string>): (ts: seq<Triple<V>>)
    requires Readable(fm, pieces)
    ensures |ts| == |pieces| && forall i :: 0 <= i < |ts| ==> Unpack(fm, pieces[i]) == Some(ts[i])
  {
    seq(|pieces|, i requires 0 <= i < |pieces| => Unpack(fm, pieces[i]).value)
  }

  /** The list the receiver ends with; None where it writes past the list or cannot read a piece. */
  function Decoded<V>(fm: Format<V>, lst: seq<Triple<V>>, sz: nat, str: string): Option<seq<Triple<V>>>
  {
    var pieces := SplitByWord(str, OUTER);
    var room := Resized(lst, sz, fm.blank);
    if |pieces| <= |room| && Readable(fm, pieces) then Some(Unpacked(fm, pieces) + room[|pieces|..]) else None
  }

  /** The receiving side: resize, split, and overwrite the entries one by one. */
  method Receive<V>(fm: Format<V>, lst: seq<Triple<V>>, sz: nat, str: string) returns (r: Option<seq<Triple<V>>>)
    ensures r == Decoded(fm, lst, sz, str)
  {
    hide Unpack, SplitByWord, Resized;
    var room := Resized(lst, sz, fm.blank);
    var out := room;
    var pieces := SplitByWord(str, OUTER);
    var i := 0;
    while i < |pieces|
      invariant 0 <= i <= |pieces| && i <= |out| == |room|
      invariant Readable(fm, pieces[..i]) && out == Unpacked(fm, pieces[..i]) + room[i..]
    {
      if i >= |out| {
        return None;
      }
      var t := Unpack(fm, pieces[i]);
      if t.None? {
        return None;
      }
      Overwrite(fm, pieces, room, i);
      out := out[i := t.value];
      i := i + 1;
    }
    assert pieces[..i] == pieces;
    r := Some(out);
  }

  lemma Overwrite<V>(fm: Format<V>, pieces: seq<string>, room: seq<Triple<V>>, i: nat)
    requires i < |pieces| && i < |room| && Readable(fm, pieces[..i]) && Unpack(fm, pieces[i]).Some?
    ensures Readable(fm, pieces[..i + 1])
    ensures (Unpacked(fm, pieces[..i]) + room[i..])[i := Unpack(fm, pieces[i]).value]
            == Unpacked(fm, pieces[..i + 1]) + room[i + 1..]
  {
    hide Unpack;
    assert pieces[..i + 1] == pieces[..i] + [pieces[i]];
  }

  predicate AllPrintable<V>(fm: Format<V>, ts: seq<Triple<V>>)
  {
    forall i :: 0 <= i < |ts| ==> Printable(fm, ts[i].val)
  }

  /** Dropping the trailing empty piece undoes the separator after a single triple and touches nothing else. */
  lemma EncodedPieces<V>(fm: Format<V>, ts: seq<Triple<V>>)
    requires AllPrintable(fm, ts)
    ensures SplitByWord(Encoded(fm, ts), OUTER) == Pieces(Packs(fm, ts), OUTER)
  {
    hide Pack, Printable, Sealed, Split;
    var l := Packs(fm, ts);
    forall i | 0 <= i < |l|
      ensures Sealed(l[i], OUTER)
    {
      PackIsSealed(fm, ts[i]);
    }
    if |ts| == 0 {
      EmptySplits(OUTER);
    } else if |ts| == 1 {
      JoinedPieces(l, OUTER);
      SplitJoin(l[0], OUTER, "");
      EmptySplits(OUTER);
      assert l[0] + OUTER + "" == l[0] + OUTER;
    } else {
      JoinedPieces(l, OUTER);
    }
  }

  function RereadAll<V>(fm: Format<V>, ts: seq<Triple<V>>): (r: seq<Triple<V>>)
    requires AllPrintable(fm, ts)
    ensures |r| == |ts| && forall i :: 0 <= i < |ts| ==> r[i] == Reread(fm, ts[i])
  {
    seq(|ts|, i requires 0 <= i < |ts| => Reread(fm, ts[i]))
  }

  /** Every id is clean and no packed triple holds the outer separator. */
  predicate Sendable<V>(fm: Format<V>, ts: seq<Triple<V>>)
  {
    Uncut(Packs(fm, ts), OUTER) && forall i :: 0 <= i < |ts| ==> CleanIds(ts[i])
  }

  /** What a list of triples becomes on its way to another rank, which receives into an empty list. */
  function Transferred<V>(fm: Format<V>, ts: seq<Triple<V>>): Option<seq<Triple<V>>>
  {
    Decoded(fm, [], |ts|, Encoded(fm, ts))
  }

  /** sendrecv, one way. */
  method SendRecv<V>(fm: Format<V>, ts: seq<Triple<V>>) returns (r: Option<seq<Triple<V>>>)
    ensures r == Transferred(fm, ts)
  {
    var sz, str := Send(fm, ts);
    r := Receive(fm, [], sz, str);
  }

  /** A list that arrives at all was not cut, and each of its triples is what its own packed text reads as. */
  lemma ArrivesPointwise<V>(fm: Format<V>, ts: seq<Triple<V>>)
    requires AllPrintable(fm, ts)
    ensures var l := Packs(fm, ts);
            if Uncut(l, OUTER) && Readable(fm, l) then Transferred(fm, ts) == Some(Unpacked(fm, l))
            else Transferred(fm, ts) == None
  {
    hide Unpack, Pack, Printable, SplitByWord, Encoded, Uncut, Pieces;
    var l := Packs(fm, ts);
    EncodedPieces(fm, ts);
    PieceCount(l, OUTER);
    if Uncut(l, OUTER) && Readable(fm, l) {
      var room := Resized([], |ts|, fm.blank);
      assert Unpacked(fm, l) + room[|l|..] == Unpacked(fm, l);
    }
  }

  /** A list of any length comes back, up to the printing of its values, exactly when every id is clean and no
      packed triple holds the outer separator. */
  lemma RoundTripsExactly<V>(fm: Format<V>, ts: seq<Triple<V>>)
    requires AllPrintable(fm, ts)
    ensures Transferred(fm, ts) == Some(RereadAll(fm, ts)) <==> Sendable(fm, ts)
  {
    hide Unpack, Pack, Printable, Uncut, Transferred, Reread, CleanIds;
    var l, all := Packs(fm, ts), RereadAll(fm, ts);
    ArrivesPointwise(fm, ts);
    forall i | 0 <= i < |ts|
      ensures Unpack(fm, l[i]) == Some(all[i]) <==> CleanIds(ts[i])
    {
      PackRoundTrip(fm, ts[i]);
    }
    if Sendable(fm, ts) {
      assert Unpacked(fm, l) == all;
    }
  }

  // ---------------------------------------------------------------- an id that is cut

  lemma NoUpperCase(s: string)
    requires '_' !in s
    ensures !Contains("u_ps_ps_v_ps_" + s, OUTER)
  {
    var head := "u_ps_ps_v_ps_";
    var p := head + s;
    forall q | 0 <= q < |p|
      ensures MatchAt(p, OUTER, q) ==> q + 8 < |p| && p[q] == p[q + 8] == '_' && p[q + 1] == 'P'
    {
      if MatchAt(p, OUTER, q) {
        MatchChars(p, OUTER, q, 0);
        MatchChars(p, OUTER, q, 1);
        MatchChars(p, OUTER, q, 8);
      }
    }
    forall q | |head| <= q < |p|
      ensures p[q] != '_'
    {
      assert p[q] == s[q - |head|] && s[q - |head|] in s;
    }
    forall q | 0 <= q < |p| && MatchAt(p, OUTER, q)
      ensures q + 8 < |head| && head[q] == '_' && head[q + 1] == 'P'
    {
      assert p[q + 8] == '_';
      assert p[q] == head[q] && p[q + 1] == head[q + 1];
    }
    hide MatchAt;
    assert head[1] != 'P' && head[2] != 'P' && head[3] != 'P' && head[4] != 'P' && head[5] != 'P';
    FindIs(p, OUTER, |p|);
  }

  /** A list with one triple whose row id ends in "_ps" arrives as a different triple: the row id loses that ending
      to the column id. */
  lemma ShortenedId<V>(fm: Format<V>, v: V)
    requires Printable(fm, v)
    ensures Transferred(fm, [Triple("u_ps", "v", v)]) == Some([Reread(fm, Triple("u", "ps_v", v))])
  {
    var t, t', s := Triple("u_ps", "v", v), Triple("u", "ps_v", v), fm.printed(v);
    assert Pack(fm, t) == "u_ps_ps_v_ps_" + s == Pack(fm, t');
    NoUpperCase(s);
    CleanLiterals();
    hide Pack, Printable, Reread, Clean, Contains;
    assert Packs(fm, [t]) == Packs(fm, [t']);
    RoundTripsExactly(fm, [t']);
    assert RereadAll(fm, [t']) == [Reread(fm, t')];
  }

  lemma CleanLiterals()
    ensures Clean("u", INNER) && Clean("ps_v", INNER)
  {
    CleanMeans("u", INNER);
    FindIs("u", INNER, 1);
    CleanMeans("ps_v", INNER);
    FindIs("ps_v", INNER, 4);
  }

  // ---------------------------------------------------------------- lists of strings

  /** What is sent for a list of strings. */
  function EncodedStrings(l: seq<string>): string
  {
    if |l| == 0 then "" else Join(l, OUTER)
  }

  method SendStrings(l: seq<string>) returns (sz: nat, str: string)
    ensures sz == |l| && str == EncodedStrings(l)
  {
    sz, str := |l|, "";
    if |l| != 0 {
      if |l| == 1 {
        str := l[0];
      } else {
        str := AppendAll(l, OUTER);
      }
    }
  }

  /** The receiver's list; None where it writes past the list. */
  function DecodedStrings(lst: seq<string>, sz: nat, str: string): Option<seq<string>>
  {
    var pieces := SplitByWord(str, OUTER);
    var room := Resized(lst, sz, "");
    if |pieces| <= |room| then Some(pieces + room[|pieces|..]) else None
  }

  method ReceiveStrings(lst: seq<string>, sz: nat, str: string) returns (r: Option<seq<string>>)
    ensures r == DecodedStrings(lst, sz, str)
  {
    hide SplitByWord, Resized;
    var room := Resized(lst, sz, "");
    var out := room;
    var pieces := SplitByWord(str, OUTER);
    var i := 0;
    while i < |pieces|
      invariant 0 <= i <= |pieces| && i <= |room|
      invariant out == pieces[..i] + room[i..]
    {
      if i >= |out| {
        return None;
      }
      out := out[i := pieces[i]];
      i := i + 1;
    }
    assert pieces[..i] == pieces;
    r := Some(out);
  }

  /** What a list of strings becomes on its way to another rank. */
  function TransferredStrings(l: seq<string>): Option<seq<string>>
  {
    DecodedStrings([], |l|, EncodedStrings(l))
  }

  method SendRecvStrings(l: seq<string>) returns (r: Option<seq<string>>)
    ensures r == TransferredStrings(l)
  {
    var sz, str := SendStrings(l);
    r := ReceiveStrings([], sz, str);
  }

  /** A list of strings comes back exactly when every string but the last is clean and the last one does not hold the
      separator.  Empty strings survive: a dropped trailing piece leaves the blank entry it would have filled. */
  lemma StringsRoundTripExactly(l: seq<string>)
    ensures TransferredStrings(l) == Some(l) <==> Apart(l, OUTER)
  {
    hide Apart, Split, Join;
    if l == [] {
      EmptySplits(OUTER);
      NothingApart();
    } else {
      assert Resized([], |l|, "") == seq(|l|, _ => "");
      if Apart(l, OUTER) {
        ApartPieces(l, OUTER);
        WholeAgain(l);
      } else {
        var i := CutStrings(l);
      }
    }
  }

  lemma NothingApart()
    ensures Apart([], OUTER)
  {
  }

  lemma WholeAgain(l: seq<string>)
    requires |l| > 0 && Split(Join(l, OUTER), OUTER) == l
    ensures TransferredStrings(l) == Some(l)
  {
    hide Split, Join, Resized;
    TailRestored(l);
    var pieces := if l[|l| - 1] == "" then l[..|l| - 1] else l;
    assert EncodedStrings(l) == Join(l, OUTER) && SplitByWord(Join(l, OUTER), OUTER) == pieces;
    hide SplitByWord, EncodedStrings;
  }

  lemma TailRestored(l: seq<string>)
    requires |l| > 0
    ensures var pieces := if l[|l| - 1] == "" then l[..|l| - 1] else l;
            pieces + Resized([], |l|, "")[|pieces|..] == l
  {
    var room := Resized([], |l|, "");
    assert room == seq(|l|, _ => "");
    assert l[..|l| - 1] + [l[|l| - 1]] == l;
    if l[|l| - 1] == "" {
      assert room[|l| - 1..] == [""];
    }
  }

  lemma StillCut(l: seq<string>, i: nat)
    requires |l| > 0
    requires i < |l| && i < |Split(Join(l, OUTER), OUTER)| && |Split(Join(l, OUTER), OUTER)[i]| < |l[i]|
    ensures var r := TransferredStrings(l); r.Some? ==> |r.value| == |l| && |r.value[i]| < |l[i]|
  {
    hide Split, Join;
  }

  /** A list that is not apart and arrives all the same has a string that became shorter. */
  lemma CutStrings(l: seq<string>) returns (i: nat)
    requires !Apart(l, OUTER)
    ensures i < |l|
    ensures var r := TransferredStrings(l); r.Some? ==> |r.value| == |l| && |r.value[i]| < |l[i]|
  {
    hide TransferredStrings;
    i := CutPieces(l, OUTER);
    StillCut(l, i);
  }
}
