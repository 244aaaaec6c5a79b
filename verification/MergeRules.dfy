/** What a merge gives, said of the three texts: when it conflicts, and what it is when changes lie apart. */
module MergeRules {
  import opened Text
  import opened Chunker
  import opened Lines
  import opened Splicing
  import opened Scripts
  import opened SequenceDiff
  import opened ByteEdits
  import opened Shifting
  import opened Reports
  import opened Merging
  import opened ThreeWay

  // ----- when a merge conflicts -----

  /** The piece has three different texts. */
  predicate AllDiffer(p: Piece) {
    p.base != p.ours && p.base != p.theirs && p.ours != p.theirs
  }

  /** The side that changed the piece; where neither did, or both alike, the text they have. */
  function ChangedSide(p: Piece): Bytes {
    if p.ours == p.base then p.theirs else p.ours
  }

  function ChangedSides(ps: seq<Piece>): Bytes {
    if ps == [] then [] else ChangedSide(ps[0]) + ChangedSides(ps[1..])
  }

  lemma {:induction false} SettledIff(ps: seq<Piece>)
    ensures Settled(ps).None? <==> exists i | 0 <= i < |ps| :: AllDiffer(ps[i])
    ensures Settled(ps).Some? ==> Settled(ps).value == ChangedSides(ps)
    decreases |ps|
  {
    if ps != [] {
      SettledIff(ps[1..]);
      assert forall i | 0 <= i < |ps[1..]| :: ps[1..][i] == ps[i + 1];
      if Settled(ps[1..]).None? {
        var i :| 0 <= i < |ps[1..]| && AllDiffer(ps[1..][i]);
        assert AllDiffer(ps[i + 1]);
      }
      if i :| 0 <= i < |ps| && AllDiffer(ps[i]) && i > 0 {
        assert AllDiffer(ps[1..][i - 1]);
      }
    }
  }

  /** A merge conflicts exactly when some piece has three different texts; else each piece is as the side
      that changed it has it. */
  lemma {:induction false} ConflictIff(base: Bytes, ours: Bytes, theirs: Bytes)
    ensures var ps := AlignedPieces(base, ours, theirs);
      && (Diff3(base, ours, theirs).Conflict? <==> exists i | 0 <= i < |ps| :: AllDiffer(ps[i]))
      && (Diff3(base, ours, theirs).Clean? ==> Diff3(base, ours, theirs).text == ChangedSides(ps))
  {
    SettledIff(AlignedPieces(base, ours, theirs));
  }

  // ----- changes of one line by both sides -----

  /** A line and what a side has in its place, which may be nothing. */
  predicate OneLine(ls: seq<Bytes>) {
    |ls| <= 1 && forall l | l in ls :: Terminated(l)
  }

  lemma LinesOfLine(ls: seq<Bytes>)
    requires OneLine(ls)
    ensures SplitLines(Concat(ls)) == ls
  {
    JoinSplits(ls);
  }

  lemma {:induction false} LineReplaced(b: Bytes, ls: seq<Bytes>)
    requires Terminated(b) && OneLine(ls) && ls != [b]
    ensures DiffHunks([b], ls, MAX_LINE_D) == [Hunk(0, 1, 0, |ls|)]
  {
    hide DiffHunks;
    var none: seq<Bytes> := [];
    assert ls != [] ==> ls == [ls[0]];
    OneHunk(none, [b], ls, none, MAX_LINE_D);
    assert none + [b] + none == [b] && none + ls + none == ls;
  }

  lemma {:induction false} BothReplacedSides(b: Bytes, o: seq<Bytes>, t: seq<Bytes>)
    requires Terminated(b) && OneLine(o) && OneLine(t) && o != [b] && t != [b]
    ensures SidesOf(b, Concat(o), Concat(t)) == Sides([b], o, t, [Hunk(0, 1, 0, |o|)], [Hunk(0, 1, 0, |t|)])
  {
    hide DiffHunks, SplitLines;
    ConcatOne(b);
    LinesOfLine([b]);
    LinesOfLine(o);
    LinesOfLine(t);
    LineReplaced(b, o);
    LineReplaced(b, t);
  }

  lemma {:induction false} BothReplacedPieces(s: Sides, b: Bytes, o: seq<Bytes>, t: seq<Bytes>)
    requires s == Sides([b], o, t, [Hunk(0, 1, 0, |o|)], [Hunk(0, 1, 0, |t|)]) && At(s, 0, 0, 0) && Concat([b]) == b
    ensures Pieces(s, 0, 0, 0) == [Untouched([]), Piece(b, Concat(o), Concat(t)), Untouched([])]
  {
    hide Concat;
    var none: seq<Bytes> := [];
    NoText();
    RegionFollows(s, 0, 0, 0);
    assert Absorb(s.ho, s.ht, 0, 1, 1, 1) == (1, 1, 1);
    assert Absorb(s.ho, s.ht, 0, 1, 0, 1) == (1, 1, 1);
    assert NextRegion(s, 0, 0) == Region(0, 1, 1, 1);
    OneHunkSide(s.base, o, s.ho, 0);
    OneHunkSide(s.base, t, s.ht, 0);
    assert o[0..|o|] == o && t[0..|t|] == t && [b][0..1] == [b] && [b][0..0] == none && [b][1..] == none;
    assert Pieces(s, 1, 1, 1) == [Untouched([])];
  }

  lemma NoText()
    ensures Concat([]) == []
  {
  }

  /** One line that each side deletes or changes into another, not both alike, is a conflict. */
  lemma {:induction false} OneLineConflicts(b: Bytes, o: seq<Bytes>, t: seq<Bytes>)
    requires Terminated(b) && OneLine(o) && OneLine(t) && o != [b] && t != [b] && o != t
    ensures Diff3(b, Concat(o), Concat(t)) == Conflict
  {
    hide Pieces, Concat;
    BothReplacedSides(b, o, t);
    ConcatOne(b);
    BothReplacedPieces(SidesOf(b, Concat(o), Concat(t)), b, o, t);
    LinesOfLine(o);
    LinesOfLine(t);
    LinesOfLine([b]);
    var ps := AlignedPieces(b, Concat(o), Concat(t));
    assert AllDiffer(ps[1]);
    ConflictIff(b, Concat(o), Concat(t));
  }

  /** A line deleted by one side and changed by the other. */
  lemma {:induction false} DeletedAndChanged(b: Bytes, x: Bytes)
    requires Terminated(b) && Terminated(x) && b != x
    ensures Diff3(b, [], x) == Conflict && Diff3(b, x, []) == Conflict
  {
    NoText();
    ConcatOne(x);
    OneLineConflicts(b, [], [x]);
    OneLineConflicts(b, [x], []);
  }

  /** A line changed by both. */
  lemma {:induction false} ChangedByBoth(b: Bytes, x: Bytes, y: Bytes)
    requires Terminated(b) && Terminated(x) && Terminated(y) && b != x && b != y && x != y
    ensures Diff3(b, x, y) == Conflict
  {
    ConcatOne(x);
    ConcatOne(y);
    OneLineConflicts(b, [x], [y]);
  }

  // ----- changes that lie apart -----

  /** A hunk of lines as an edit of the text. */
  function HunkEdit(base: seq<Bytes>, side: seq<Bytes>, h: Hunk): Edit
    requires h.aFrom <= h.aTo <= |base| && h.bFrom <= h.bTo <= |side|
  {
    Edit(Offset(base, h.aFrom), Offset(base, h.aTo), Concat(side[h.bFrom..h.bTo]))
  }

  function HunkEdits(base: seq<Bytes>, side: seq<Bytes>, hs: seq<Hunk>, i: nat): seq<Edit>
    requires AllFollow(base, side, hs) && i <= |hs|
    decreases |hs| - i
  {
    if i == |hs| then []
    else
      assert Follows(base, side, hs, i);
      [HunkEdit(base, side, hs[i])] + HunkEdits(base, side, hs, i + 1)
  }

  /** Of two hunks one ends before the other starts, or where it does, and not both start there. */
  predicate LiesApart(g: Hunk, h: Hunk) {
    g.aFrom != h.aFrom && (g.aTo <= h.aFrom || h.aTo <= g.aFrom)
  }

  ghost predicate HunksApart(ho: seq<Hunk>, ht: seq<Hunk>) {
    forall i, j | 0 <= i < |ho| && 0 <= j < |ht| :: LiesApart(ho[i], ht[j])
  }

  /** What both sides still have to change, from their hunks `i` and `j` on. */
  ghost function BothEdits(s: Sides, i: nat, j: nat): seq<Edit>
    requires s.Valid() && i <= |s.ho| && j <= |s.ht|
  {
    Interleave(HunkEdits(s.base, s.ours, s.ho, i), HunkEdits(s.base, s.theirs, s.ht, j))
  }

  ghost predicate NoLineEmpty(ls: seq<Bytes>) {
    forall l | l in ls :: l != []
  }

  lemma {:induction false} OffsetsAscend(ls: seq<Bytes>, i: nat, j: nat)
    requires i <= j <= |ls|
    ensures Offset(ls, i) <= Offset(ls, j) <= |Concat(ls)|
    ensures Concat(ls)[Offset(ls, i)..Offset(ls, j)] == Concat(ls[i..j])
    ensures NoLineEmpty(ls) && i < j ==> Offset(ls, i) < Offset(ls, j)
  {
    ConcatThree(ls, i, j);
    if NoLineEmpty(ls) && i < j {
      ConcatThree(ls, i, i + 1);
      ConcatThree(ls, i + 1, j);
      assert ls[i..i + 1] == [ls[i]] && ls[i] in ls;
      ConcatOne(ls[i]);
      assert |Concat(ls)[Offset(ls, i)..Offset(ls, i + 1)]| == |ls[i]| > 0;
    }
  }

  lemma {:induction false} OffsetsEnd(ls: seq<Bytes>, i: nat)
    requires i <= |ls|
    ensures Offset(ls, i) <= |Concat(ls)| && Concat(ls)[Offset(ls, i)..] == Concat(ls[i..])
  {
    OffsetsAscend(ls, i, |ls|);
    assert ls[..|ls|] == ls && ls[i..|ls|] == ls[i..];
  }

  /** Both sides' next edits in the order of their hunks. */
  lemma {:induction false} NextOurs(s: Sides, i: nat, j: nat)
    requires s.Valid() && NoLineEmpty(s.base) && i < |s.ho| && j <= |s.ht| && OursFirst(s, i, j)
    ensures s.ho[i].aFrom <= s.ho[i].aTo <= |s.base| && s.ho[i].bFrom <= s.ho[i].bTo <= |s.ours|
    ensures BothEdits(s, i, j) == [HunkEdit(s.base, s.ours, s.ho[i])] + BothEdits(s, i + 1, j)
  {
    hide Offset, Concat;
    assert Follows(s.base, s.ours, s.ho, i);
    var e, rest := HunkEdit(s.base, s.ours, s.ho[i]), HunkEdits(s.base, s.ours, s.ho, i + 1);
    assert ([e] + rest)[1..] == rest;
    if j < |s.ht| {
      assert Follows(s.base, s.theirs, s.ht, j);
      OffsetsAscend(s.base, s.ho[i].aFrom, s.ht[j].aFrom);
    } else {
      assert HunkEdits(s.base, s.theirs, s.ht, j) == [];
      InterleaveNone(rest);
      InterleaveNone([e] + rest);
    }
  }

  lemma InterleaveNone(es: seq<Edit>)
    ensures Interleave(es, []) == es
  {
  }

  lemma {:induction false} NextTheirs(s: Sides, i: nat, j: nat)
    requires s.Valid() && NoLineEmpty(s.base) && i <= |s.ho| && j < |s.ht| && OursFirst(s.Swapped(), j, i)
    ensures s.ht[j].aFrom <= s.ht[j].aTo <= |s.base| && s.ht[j].bFrom <= s.ht[j].bTo <= |s.theirs|
    ensures BothEdits(s, i, j) == [HunkEdit(s.base, s.theirs, s.ht[j])] + BothEdits(s, i, j + 1)
  {
    hide Offset, Concat;
    assert Follows(s.base, s.theirs, s.ht, j);
    var e, rest := HunkEdit(s.base, s.theirs, s.ht[j]), HunkEdits(s.base, s.theirs, s.ht, j + 1);
    assert ([e] + rest)[1..] == rest;
    if i < |s.ho| {
      assert Follows(s.base, s.ours, s.ho, i);
      OffsetsAscend(s.base, s.ht[j].aFrom, s.ho[i].aFrom);
    } else {
      assert HunkEdits(s.base, s.ours, s.ho, i) == [];
    }
  }

  /** The rest of the text with both sides' edits in it. */
  ghost predicate Combines(s: Sides, i: nat, j: nat, bi: nat) {
    && At(s, i, j, bi)
    && var t, all := Concat(s.base), BothEdits(s, i, j);
      Ascending(all, Offset(s.base, bi), |t|) && Settled(Pieces(s, i, j, bi)) == Some(SpliceFrom(t, all, Offset(s.base,
        bi)))
  }

  lemma {:induction false} ApartCombines(s: Sides, i: nat, j: nat, bi: nat)
    requires At(s, i, j, bi) && NoLineEmpty(s.base) && HunksApart(s.ho, s.ht)
    ensures Combines(s, i, j, bi)
    decreases |s.ho| - i + |s.ht| - j
  {
    hide Combines, Pieces, Settled, BothEdits;
    if i == |s.ho| && j == |s.ht| {
      NothingLeft(s, i, j, bi);
    } else {
      RegionFollows(s, i, j, bi);
      if i < |s.ho| && j < |s.ht| {
        assert LiesApart(s.ho[i], s.ht[j]);
      }
      var r := NextRegion(s, i, j);
      ApartCombines(s, r.i, r.j, r.hi);
      OneSided(s, i, j, bi);
      if OursFirst(s, i, j) {
        NextOurs(s, i, j);
        CombinesMore(s, i, j, bi, HunkEdit(s.base, s.ours, s.ho[i]));
      } else {
        NextTheirs(s, i, j);
        CombinesMore(s, i, j, bi, HunkEdit(s.base, s.theirs, s.ht[j]));
      }
    }
  }

  lemma {:induction false} NothingLeft(s: Sides, i: nat, j: nat, bi: nat)
    requires At(s, i, j, bi) && i == |s.ho| && j == |s.ht|
    ensures Combines(s, i, j, bi)
  {
    OffsetsEnd(s.base, bi);
    assert BothEdits(s, i, j) == [];
    var u := Untouched(Concat(s.base[bi..]));
    var none: seq<Piece> := [];
    assert Pieces(s, i, j, bi) == [u] && [u][1..] == none && Settled(none) == Some([]);
    assert u.base + [] == u.base;
  }

  /** One more region, which one side changed. */
  lemma {:induction false} CombinesMore(s: Sides, i: nat, j: nat, bi: nat, e: Edit)
    requires RegionFits(s, i, j, bi) && At(s, i, j, bi)
    requires var r := NextRegion(s, i, j);
      && i <= r.i && j <= r.j && e.from == Offset(s.base, r.lo) && r.hi <= |s.base| && e.to == Offset(s.base, r.hi)
      && RegionPiece(s, i, j, r).Resolved() == Some(e.replacement)
      && BothEdits(s, i, j) == [e] + BothEdits(s, r.i, r.j) && Combines(s, r.i, r.j, r.hi)
    ensures Combines(s, i, j, bi)
  {
    hide BothEdits, RegionPiece, Piece.Resolved;
    var r := NextRegion(s, i, j);
    var rest := BothEdits(s, r.i, r.j);
    assert ([e] + rest)[1..] == rest;
    OffsetsAscend(s.base, bi, r.lo);
    OffsetsAscend(s.base, r.lo, r.hi);
    var u, p, ps := Untouched(Concat(s.base[bi..r.lo])), RegionPiece(s, i, j, r), Pieces(s, r.i, r.j, r.hi);
    assert Pieces(s, i, j, bi) == [u, p] + ps;
    SettledTwo(u, p, ps);
  }

  lemma SettledTwo(u: Piece, p: Piece, ps: seq<Piece>)
    requires u == Untouched(u.base) && p.Resolved().Some? && Settled(ps).Some?
    ensures Settled([u, p] + ps) == Some(u.base + p.Resolved().value + Settled(ps).value)
  {
    assert ([u, p] + ps)[1..] == [p] + ps && ([p] + ps)[1..] == ps;
    assert u.base + (p.Resolved().value + Settled(ps).value) == u.base + p.Resolved().value + Settled(ps).value;
  }

  /** Changes that lie apart merge, to the base with both sides' changes made in it. */
  lemma {:induction false} ApartMerges(base: Bytes, ours: Bytes, theirs: Bytes)
    requires HunksApart(LineDiff(base, ours), LineDiff(base, theirs))
    ensures AllFollow(SplitLines(base), SplitLines(ours), LineDiff(base, ours))
      && AllFollow(SplitLines(base), SplitLines(theirs), LineDiff(base, theirs))
    ensures var all := Interleave(HunkEdits(SplitLines(base), SplitLines(ours), LineDiff(base, ours), 0),
        HunkEdits(SplitLines(base), SplitLines(theirs), LineDiff(base, theirs), 0));
      Ascending(all, 0, |base|) && Diff3(base, ours, theirs) == Clean(Splice(base, all))
  {
    hide LineDiff, Pieces, Settled;
    var s := SidesOf(base, ours, theirs);
    SplitJoins(base);
    ApartCombines(s, 0, 0, 0);
    NoText();
    assert s.base[..0] == [];
  }

  // ----- changes that overlap -----

  /** Whatever hunk starts within [lo, h), or at `lo`, or ends behind `h` when it starts there, ends by `h`. */
  ghost predicate ClosedAt(hs: seq<Hunk>, i: nat, lo: nat, h: nat) {
    forall k | i <= k < |hs| && hs[k].aFrom <= h && (hs[k].aFrom < h || hs[k].aFrom == lo || hs[k].aTo > h) ::
      hs[k].aTo <= h
  }

  /** Where the next hunks of both sides do not lie apart, they are merged over the least range of base lines
      that starts with the first of them and cuts through no hunk of either side. */
  lemma {:induction false} OverlapIsLeast(s: Sides, i: nat, j: nat)
    requires s.Valid() && i < |s.ho| && j < |s.ht| && !LiesApart(s.ho[i], s.ht[j])
    requires s.ho[i].aFrom <= s.ho[i].aTo && s.ht[j].aFrom <= s.ht[j].aTo
    ensures var r, o, t := NextRegion(s, i, j), s.ho[i], s.ht[j];
      && r.lo == Min(o.aFrom, t.aFrom) && o.aTo <= r.hi && t.aTo <= r.hi
      && ClosedAt(s.ho, i, r.lo, r.hi) && ClosedAt(s.ht, j, r.lo, r.hi)
      && forall h: nat | o.aTo <= h && t.aTo <= h && ClosedAt(s.ho, i, r.lo, h) && ClosedAt(s.ht, j, r.lo, h) ::
           r.hi <= h
  {
    var lo, hi := Min(s.ho[i].aFrom, s.ht[j].aFrom), Max(s.ho[i].aTo, s.ht[j].aTo);
    AbsorbIsLeast(s.base, s.ours, s.theirs, s.ho, s.ht, lo, i, j, hi);
    hide Absorb;
    forall h: nat
      ensures ClosedAt(s.ho, i, lo, h) <==> Holds(s.ho, i, lo, h)
      ensures ClosedAt(s.ht, j, lo, h) <==> Holds(s.ht, j, lo, h)
    {
    }
  }

  // ----- how a conflict is written -----

  /** A text, and a line end where it needs one. */
  ghost predicate Finished(t: Bytes, eol: Bytes, r: Bytes) {
    r == if t == [] || t[|t| - 1] == 10 then t else t + eol
  }

  /** The signs, labels and texts of a conflict, in order. */
  lemma {:induction false} MarkedIs(p: Piece, labels: Labels, eol: Bytes) returns (ours: Bytes, theirs: Bytes)
    ensures Finished(p.ours, eol, ours) && Finished(p.theirs, eol, theirs)
    ensures Marked(p, labels, eol) ==
      [60, 60, 60, 60, 60, 60, 60, 32] + labels.ours + eol + ours + [61, 61, 61, 61, 61, 61, 61] + eol + theirs
        + [62, 62, 62, 62, 62, 62, 62, 32] + labels.theirs + eol
  {
    ours, theirs := PushText(p.ours, eol), PushText(p.theirs, eol);
  }

  /** Line ends are those of the sides: CRLF when one of them has any. */
  lemma EolIs(ours: Bytes, theirs: Bytes)
    ensures Eol(ours, theirs) == [13, 10] <==>
      (exists i | 0 < i < |ours| :: ours[i] == 10 && ours[i - 1] == 13)
        || exists i | 0 < i < |theirs| :: theirs[i] == 10 && theirs[i - 1] == 13
    ensures Eol(ours, theirs) == [13, 10] || Eol(ours, theirs) == [10]
  {
    if i :| 0 < i < |ours| && ours[i] == 10 && ours[i - 1] == 13 {
      assert ours[i - 1] == CR && ours[(i - 1) + 1] == NL;
    }
    if i :| 0 < i < |theirs| && theirs[i] == 10 && theirs[i - 1] == 13 {
      assert theirs[i - 1] == CR && theirs[(i - 1) + 1] == NL;
    }
    if HasCrlf(ours) {
      var i :| 0 <= i < |ours| - 1 && ours[i] == CR && ours[i + 1] == NL;
      assert ours[i + 1] == 10;
    }
    if HasCrlf(theirs) {
      var i :| 0 <= i < |theirs| - 1 && theirs[i] == CR && theirs[i + 1] == NL;
      assert theirs[i + 1] == 10;
    }
  }
}
