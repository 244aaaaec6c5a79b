/** What marks a conflict in a file, and that a merge with conflicts puts it there. */
module Markers {
  import opened Text
  import opened Chunker
  import opened Lines
  import opened Scripts
  import opened Merging
  import opened ThreeWay

  /** A line that starts at `i` begins with the sign. */
  predicate MarkerAt(t: Bytes, i: nat, sign: Bytes) {
    i + |sign| <= |t| && (i == 0 || t[i - 1] == NL) && t[i..i + |sign|] == sign
  }

  ghost predicate Shows(t: Bytes, sign: Bytes) {
    exists i: nat :: MarkerAt(t, i, sign)
  }

  /** Both the sign that opens a conflict and the one that closes it begin some line. */
  ghost predicate HasMarkers(t: Bytes) {
    Shows(t, OURS_SIGN) && Shows(t, THEIRS_SIGN)
  }

  /** Look at every line in turn. */
  method FindSign(t: Bytes, sign: Bytes) returns (found: bool)
    ensures found <==> Shows(t, sign)
  {
    var i := 0;
    while i <= |t|
      invariant i <= |t| + 1 && forall k: nat | k < i :: !MarkerAt(t, k, sign)
    {
      if (i == 0 || t[i - 1] == NL) && i + |sign| <= |t| && t[i..i + |sign|] == sign {
        assert MarkerAt(t, i, sign);
        return true;
      }
      i := i + 1;
    }
    assert forall k: nat | MarkerAt(t, k, sign) :: k <= |t|;
    return false;
  }

  method FindMarkers(t: Bytes) returns (found: bool)
    ensures found <==> HasMarkers(t)
  {
    found := FindSign(t, OURS_SIGN);
    if found {
      found := FindSign(t, THEIRS_SIGN);
    }
  }

  /** What comes next begins a line. */
  predicate Ended(t: Bytes) {
    t == [] || t[|t| - 1] == NL
  }

  lemma EndedConcat(s: Bytes, t: Bytes)
    requires Ended(s) && Ended(t)
    ensures Ended(s + t)
  {
    if t == [] {
      assert s + t == s;
    }
  }

  lemma SignBehind(front: Bytes, sign: Bytes, rest: Bytes)
    requires Ended(front)
    ensures Shows(front + sign + rest, sign)
  {
    assert MarkerAt(front + sign + rest, |front|, sign);
  }

  /** A conflict written out where a line begins has both signs. */
  lemma {:induction false} MarkedShows(out: Bytes, p: Piece, labels: Labels, eol: Bytes, rest: Bytes)
    requires Ended(out) && eol != [] && Ended(eol)
    ensures HasMarkers(out + Marked(p, labels, eol) + rest)
  {
    hide Shows, PushText;
    var first := labels.ours + eol + PushText(p.ours, eol) + MIDDLE_SIGN + eol;
    var theirs := PushText(p.theirs, eol);
    var last := labels.theirs + eol;
    assert Marked(p, labels, eol) == OURS_SIGN + first + theirs + THEIRS_SIGN + last;
    Regroup(out, OURS_SIGN, first, theirs, THEIRS_SIGN, last, rest);
    SignBehind(out, OURS_SIGN, first + theirs + THEIRS_SIGN + last + rest);
    EndedBehind(OURS_SIGN + (labels.ours + eol + PushText(p.ours, eol) + MIDDLE_SIGN), eol);
    assert OURS_SIGN + first == OURS_SIGN + (labels.ours + eol + PushText(p.ours, eol) + MIDDLE_SIGN) + eol;
    PushedEnds(p.theirs, eol);
    EndedConcat(OURS_SIGN + first, theirs);
    EndedConcat(out, OURS_SIGN + first + theirs);
    SignBehind(out + (OURS_SIGN + first + theirs), THEIRS_SIGN, last + rest);
  }

  lemma Regroup(out: Bytes, sign: Bytes, first: Bytes, theirs: Bytes, sign': Bytes, last: Bytes, rest: Bytes)
    ensures out + (sign + first + theirs + sign' + last) + rest == out + sign + (first + theirs + sign' + last + rest)
    ensures out + (sign + first + theirs + sign' + last) + rest
      == out + (sign + first + theirs) + sign' + (last + rest)
  {
  }

  lemma EndedBehind(s: Bytes, eol: Bytes)
    requires eol != [] && Ended(eol)
    ensures Ended(s + eol)
  {
  }

  lemma PushedEnds(t: Bytes, eol: Bytes)
    requires eol != [] && Ended(eol)
    ensures Ended(PushText(t, eol))
  {
  }

  // ----- lines before a conflict all end -----

  /** Behind base line `bi` something is left of the base, or of both sides. */
  ghost predicate MoreBehind(s: Sides, i: nat, j: nat, bi: nat)
    requires At(s, i, j, bi)
  {
    bi < |s.base| || (Opposite(s.ho, i, bi) < |s.ours| && Opposite(s.ht, j, bi) < |s.theirs|)
  }

  lemma {:induction false} ConflictTexts(ps: seq<Piece>)
    requires Conflicts(ps) > 0 && BaseText(ps) == []
    ensures OursText(ps) != [] && TheirsText(ps) != []
    decreases |ps|
  {
    var p, rest := ps[0], ps[1..];
    assert |BaseText(ps)| == |p.base| + |BaseText(rest)|;
    if p.Resolved().Some? {
      ConflictTexts(rest);
    }
  }

  /** Where a conflict is still to come, there is more. */
  lemma {:induction false} ConflictMeansMore(s: Sides, i: nat, j: nat, bi: nat)
    requires At(s, i, j, bi) && Conflicts(Pieces(s, i, j, bi)) > 0
    ensures MoreBehind(s, i, j, bi)
  {
    hide Pieces;
    if bi == |s.base| {
      PiecesAlign(s, i, j, bi);
      assert s.base[bi..] == [];
      ConflictTexts(Pieces(s, i, j, bi));
      NothingBehind(s.ours, Opposite(s.ho, i, bi));
      NothingBehind(s.theirs, Opposite(s.ht, j, bi));
    }
  }

  lemma NothingBehind(ls: seq<Bytes>, y: nat)
    requires y <= |ls|
    ensures y == |ls| ==> Concat(ls[y..]) == []
  {
  }

  /** Behind the last hunk both sequences have as many lines left. */
  lemma LastCut(base: seq<Bytes>, side: seq<Bytes>, hs: seq<Hunk>, bi: nat)
    requires Script(base, side, hs) && Between(base, hs, |hs|, bi)
    ensures |base| - bi == |side| - Opposite(hs, |hs|, bi)
  {
    assert |base[EndA(hs, |hs|)..|base|]| == |side[EndB(hs, |hs|)..|side|]|;
  }

  /** Where there is more, what is dealt with of a side ends with a whole line. */
  lemma {:induction false} CutEnds(base: seq<Bytes>, side: seq<Bytes>, hs: seq<Hunk>, i: nat, bi: nat)
    requires Script(base, side, hs) && Between(base, hs, i, bi) && AreLines(base) && AreLines(side)
    requires bi < |base| || Opposite(hs, i, bi) < |side|
    ensures var y := Opposite(hs, i, bi); y <= |side| && (y > 0 ==> Terminated(side[y - 1]))
  {
    hide Terminated;
    BetweenCorresponds(base, side, hs, i, bi);
    var x, y := EndA(hs, i), Opposite(hs, i, bi);
    if i == |hs| {
      LastCut(base, side, hs, bi);
    } else {
      assert Follows(base, side, hs, i);
      HunkFacts(base, side, hs, i);
      OppositeStart(base, side, hs, i);
      if i > 0 {
        HunkFacts(base, side, hs, i - 1);
      }
    }
    if y == |side| && y > 0 {
      assert x < bi;
      assert base[x..bi][bi - x - 1] == side[EndB(hs, i)..y][bi - x - 1];
    }
  }

  lemma WholeLinesEnd(ls: seq<Bytes>, y: nat, y': nat)
    requires y <= y' <= |ls| && (y' > 0 ==> Terminated(ls[y' - 1]))
    ensures Ended(Concat(ls[y..y']))
  {
    if y < y' {
      var l := ls[y' - 1];
      assert ls[y..y'] == ls[y..y' - 1] + [l];
      ConcatAppend(ls[y..y' - 1], [l]);
      ConcatOne(l);
    }
  }

  ghost predicate AllLines(s: Sides) {
    AreLines(s.base) && AreLines(s.ours) && AreLines(s.theirs)
  }

  /** The lines between two cuts of one side end with a whole one, where there is more behind. */
  lemma {:induction false} SideEnds(base: seq<Bytes>, side: seq<Bytes>, hs: seq<Hunk>, i: nat, i': nat, lo: nat,
      hi: nat)
    requires i <= i' <= |hs| && Script(base, side, hs) && Between(base, hs, i, lo) && Between(base, hs, i', hi)
    requires lo <= hi
    requires AreLines(base) && AreLines(side) && (hi < |base| || Opposite(hs, i', hi) < |side|)
    ensures Ended(Concat(Side(base, side, hs, i, i', lo, hi)))
  {
    hide Side, Opposite, AreLines, Script, Terminated, Concat;
    SideIs(base, side, hs, i, i', lo, hi);
    CutEnds(base, side, hs, i', hi);
    WholeLinesEnd(side, Opposite(hs, i, lo), Opposite(hs, i', hi));
  }

  lemma SameFromRegion(s: Sides, i: nat, j: nat, bi: nat)
    requires At(s, i, j, bi) && (i < |s.ho| || j < |s.ht|)
    ensures var r := NextRegion(s, i, j); At(s, i, j, r.lo)
    ensures var r := NextRegion(s, i, j); Conflicts(Pieces(s, i, j, r.lo)) == Conflicts(Pieces(s, i, j, bi))
  {
    RegionFollows(s, i, j, bi);
    var r := NextRegion(s, i, j);
    RegionFollows(s, i, j, r.lo);
    var p, rest := RegionPiece(s, i, j, r), Pieces(s, r.i, r.j, r.hi);
    TwoConflicts(Untouched(Concat(s.base[bi..r.lo])), p, rest);
    TwoConflicts(Untouched(Concat(s.base[r.lo..r.lo])), p, rest);
  }

  lemma LastIsUntouched(s: Sides, i: nat, j: nat, bi: nat)
    requires At(s, i, j, bi) && i == |s.ho| && j == |s.ht|
    ensures Conflicts(Pieces(s, i, j, bi)) == 0
  {
    assert Pieces(s, i, j, bi)[1..] == [];
  }

  lemma TwoConflicts(u: Piece, p: Piece, rest: seq<Piece>)
    requires u == Untouched(u.base)
    ensures Conflicts([u, p] + rest) == (if p.Resolved().None? then 1 else 0) + Conflicts(rest)
    ensures forall labels, eol ::
      ShownAll([u, p] + rest, labels, eol) == u.base + (Shown(p, labels, eol) + ShownAll(rest, labels, eol))
  {
    assert ([u, p] + rest)[1..] == [p] + rest && ([p] + rest)[1..] == rest;
  }

  /** Wherever a merge has a conflict, its signs begin lines of what it writes. */
  lemma {:induction false} ShownHasMarkers(s: Sides, i: nat, j: nat, bi: nat, labels: Labels, eol: Bytes, out: Bytes)
    requires At(s, i, j, bi) && AllLines(s) && Ended(out) && eol != [] && Ended(eol)
    requires Conflicts(Pieces(s, i, j, bi)) > 0
    ensures HasMarkers(out + ShownAll(Pieces(s, i, j, bi), labels, eol))
    decreases |s.ho| - i + |s.ht| - j
  {
    if i == |s.ho| && j == |s.ht| {
      LastIsUntouched(s, i, j, bi);
      assert false;
    } else {
      RegionFollows(s, i, j, bi);
      var r := NextRegion(s, i, j);
      var u, p, rest := Concat(s.base[bi..r.lo]), RegionPiece(s, i, j, r), Pieces(s, r.i, r.j, r.hi);
      assert Pieces(s, i, j, bi) == [Untouched(u), p] + rest;
      TwoConflicts(Untouched(u), p, rest);
      SameFromRegion(s, i, j, bi);
      ConflictMeansMore(s, i, j, r.lo);
      SideEnds(s.base, s.ours, s.ho, i, i, bi, r.lo);
      assert Side(s.base, s.ours, s.ho, i, i, bi, r.lo) == s.base[bi..r.lo];
      hide Pieces, RegionPiece, AllLines, HasMarkers, Marked, ShownAll, Side, At;
      EndedConcat(out, u);
      if p.Resolved().None? {
        MarkedShows(out + u, p, labels, eol, ShownAll(rest, labels, eol));
        Regroup3(out, u, Marked(p, labels, eol), ShownAll(rest, labels, eol));
      } else {
        ConflictMeansMore(s, r.i, r.j, r.hi);
        PieceEnds(s, i, j, r);
        EndedConcat(out + u, p.Resolved().value);
        ShownHasMarkers(s, r.i, r.j, r.hi, labels, eol, out + u + p.Resolved().value);
        Regroup3(out, u, p.Resolved().value, ShownAll(rest, labels, eol));
      }
    }
  }

  lemma Regroup3(a: Bytes, b: Bytes, c: Bytes, d: Bytes)
    ensures a + (b + (c + d)) == a + b + c + d
  {
  }

  /** Whichever side a piece resolves to, it ends with a whole line. */
  lemma {:induction false} PieceEnds(s: Sides, i: nat, j: nat, r: Region)
    requires i <= r.i && j <= r.j && r.lo <= r.hi && At(s, r.i, r.j, r.hi) && AllLines(s)
    requires Between(s.base, s.ho, i, r.lo) && Between(s.base, s.ht, j, r.lo) && MoreBehind(s, r.i, r.j, r.hi)
    ensures RegionPiece(s, i, j, r).Resolved().Some? ==> Ended(RegionPiece(s, i, j, r).Resolved().value)
  {
    hide Side, AreLines, Opposite;
    SideEnds(s.base, s.ours, s.ho, i, r.i, r.lo, r.hi);
    SideEnds(s.base, s.theirs, s.ht, j, r.j, r.lo, r.hi);
  }

  /** A merge that counts a conflict writes its markers. */
  lemma {:induction false} ConflictsAreMarked(base: Bytes, ours: Bytes, theirs: Bytes, labels: Labels)
    requires Conflicts(AlignedPieces(base, ours, theirs)) > 0
    ensures HasMarkers(ShownAll(AlignedPieces(base, ours, theirs), labels, Eol(ours, theirs)))
  {
    hide Pieces, ShownAll, HasMarkers, Conflicts, SplitLines, AreLines;
    SplitJoins(base);
    SplitJoins(ours);
    SplitJoins(theirs);
    var s := SidesOf(base, ours, theirs);
    var shown := ShownAll(AlignedPieces(base, ours, theirs), labels, Eol(ours, theirs));
    ShownHasMarkers(s, 0, 0, 0, labels, Eol(ours, theirs), []);
    assert [] + shown == shown;
  }
}
