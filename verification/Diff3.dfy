/** diff3 and its marked form, and the laws of a merge. */
module ThreeWay {
  import opened Text
  import opened Chunker
  import opened Lines
  import opened Scripts
  import opened SequenceDiff
  import opened ByteEdits
  import opened Merging

  const CR: byte := 13
  const OURS_SIGN: Bytes := [60, 60, 60, 60, 60, 60, 60, 32]
  const MIDDLE_SIGN: Bytes := [61, 61, 61, 61, 61, 61, 61]
  const THEIRS_SIGN: Bytes := [62, 62, 62, 62, 62, 62, 62, 32]

  datatype Merge = Clean(text: Bytes) | Conflict

  datatype Labels = Labels(ours: Bytes, theirs: Bytes)

  predicate HasCrlf(t: Bytes) {
    exists i | 0 <= i < |t| - 1 :: t[i] == CR && t[i + 1] == NL
  }

  function Eol(ours: Bytes, theirs: Bytes): Bytes {
    if HasCrlf(ours) || HasCrlf(theirs) then [CR, NL] else [NL]
  }

  function SidesOf(base: Bytes, ours: Bytes, theirs: Bytes): (s: Sides)
    ensures s.Valid() && At(s, 0, 0, 0)
  {
    DiffIsScript(SplitLines(base), SplitLines(ours), MAX_LINE_D);
    DiffIsScript(SplitLines(base), SplitLines(theirs), MAX_LINE_D);
    Sides(SplitLines(base), SplitLines(ours), SplitLines(theirs), LineDiff(base, ours), LineDiff(base, theirs))
  }

  /** The three texts in aligned pieces. */
  function AlignedPieces(base: Bytes, ours: Bytes, theirs: Bytes): seq<Piece> {
    Pieces(SidesOf(base, ours, theirs), 0, 0, 0)
  }

  /** All pieces resolved, or nothing when one conflicts. */
  function Settled(ps: seq<Piece>): Option<Bytes> {
    if ps == [] then Some([])
    else if ps[0].Resolved().None? || Settled(ps[1..]).None? then None
    else Some(ps[0].Resolved().value + Settled(ps[1..]).value)
  }

  function Diff3(base: Bytes, ours: Bytes, theirs: Bytes): Merge {
    var t := Settled(AlignedPieces(base, ours, theirs));
    if t.Some? then Clean(t.value) else Conflict
  }

  /** A side's lines in front of a marker, which has to begin on a line of its own. */
  function PushText(t: Bytes, eol: Bytes): Bytes {
    if t != [] && t[|t| - 1] != NL then t + eol else t
  }

  function Marked(p: Piece, labels: Labels, eol: Bytes): Bytes {
    OURS_SIGN + labels.ours + eol + PushText(p.ours, eol) + MIDDLE_SIGN + eol
      + PushText(p.theirs, eol) + THEIRS_SIGN + labels.theirs + eol
  }

  function Shown(p: Piece, labels: Labels, eol: Bytes): Bytes {
    if p.Resolved().Some? then p.Resolved().value else Marked(p, labels, eol)
  }

  /** Every piece written out, conflicts between markers. */
  function ShownAll(ps: seq<Piece>, labels: Labels, eol: Bytes): Bytes {
    if ps == [] then [] else Shown(ps[0], labels, eol) + ShownAll(ps[1..], labels, eol)
  }

  function Conflicts(ps: seq<Piece>): nat {
    if ps == [] then 0 else (if ps[0].Resolved().None? then 1 else 0) + Conflicts(ps[1..])
  }

  /** What the merge yields: with labels, conflicts are marked and counted; without, one ends it. */
  function Outcome(ps: seq<Piece>, labels: Option<Labels>, eol: Bytes): Option<(Bytes, nat)> {
    match labels
    case Some(l) => Some((ShownAll(ps, l, eol), Conflicts(ps)))
    case None => if Settled(ps).Some? then Some((Settled(ps).value, 0)) else None
  }

  // ----- the merge loop -----

  /** The outcome of all pieces is what has been written of them so far, and the rest. */
  ghost predicate Merged(whole: Option<(Bytes, nat)>, labels: Option<Labels>, eol: Bytes, out: Bytes, conflicts: nat,
      rest: seq<Piece>) {
    var r := Outcome(rest, labels, eol);
    && (labels.None? ==> conflicts == 0)
    && (r.None? ==> whole.None?)
    && (r.Some? ==> whole == Some((out + r.value.0, conflicts + r.value.1)))
  }

  lemma {:induction false} MergedStep(whole: Option<(Bytes, nat)>, labels: Option<Labels>, eol: Bytes, out: Bytes,
      conflicts: nat, p: Piece, rest: seq<Piece>)
    requires Merged(whole, labels, eol, out, conflicts, [p] + rest)
    ensures p.Resolved().Some? ==> Merged(whole, labels, eol, out + p.Resolved().value, conflicts, rest)
    ensures p.Resolved().None? && labels.None? ==> whole == None
    ensures p.Resolved().None? && labels.Some? ==>
      Merged(whole, labels, eol, out + Marked(p, labels.value, eol), conflicts + 1, rest)
  {
    assert ([p] + rest)[1..] == rest;
    var r := Outcome(rest, labels, eol);
    if r.Some? {
      if p.Resolved().Some? {
        Assoc(out, p.Resolved().value, r.value.0);
      } else if labels.Some? {
        Assoc(out, Marked(p, labels.value, eol), r.value.0);
      }
    }
  }

  lemma Assoc(x: Bytes, y: Bytes, z: Bytes)
    ensures x + (y + z) == (x + y) + z
  {
  }

  method Emit(out: Bytes, ls: seq<Bytes>, i: nat, j: nat) returns (out': Bytes)
    requires i <= j <= |ls|
    ensures out' == out + Concat(ls[i..j])
  {
    out' := out;
    var k := i;
    while k < j
      invariant i <= k <= j && out' == out + Concat(ls[i..k])
    {
      assert ls[i..k + 1] == ls[i..k] + [ls[k]];
      ConcatAppend(ls[i..k], [ls[k]]);
      ConcatOne(ls[k]);
      out' := out' + ls[k];
      k := k + 1;
    }
  }

  /** A side's text for base lines [lo, hi). */
  method SideText(base: seq<Bytes>, side: seq<Bytes>, hs: seq<Hunk>, i0: nat, i': nat, lo: nat, hi: nat)
      returns (v: Bytes)
    requires i0 <= i' <= |hs| && AllFollow(base, side, hs) && Between(base, hs, i0, lo) && Between(base, hs, i', hi)
    requires lo <= hi
    ensures v == Concat(Side(base, side, hs, i0, i', lo, hi))
  {
    hide Side, AllFollow, Concat;
    v := [];
    var b: nat, i: nat := lo, i0;
    while i < i'
      invariant i0 <= i <= i' && Between(base, hs, i, b) && b <= hi
      invariant v + Concat(Side(base, side, hs, i, i', b, hi)) == Concat(Side(base, side, hs, i0, i', lo, hi))
    {
      SideStep(base, side, hs, i, i', b, hi, v);
      v := Emit(v, base, b, hs[i].aFrom);
      v := Emit(v, side, hs[i].bFrom, hs[i].bTo);
      b := hs[i].aTo;
      i := i + 1;
    }
    SideEnd(base, side, hs, i', b, hi);
    v := Emit(v, base, b, hi);
  }

  lemma {:induction false} SideEnd(base: seq<Bytes>, side: seq<Bytes>, hs: seq<Hunk>, i: nat, lo: nat, hi: nat)
    requires i <= |hs| && AllFollow(base, side, hs) && Between(base, hs, i, lo) && Between(base, hs, i, hi) && lo <= hi
    ensures Side(base, side, hs, i, i, lo, hi) == base[lo..hi]
  {
  }

  lemma {:induction false} SideStep(base: seq<Bytes>, side: seq<Bytes>, hs: seq<Hunk>, i: nat, i': nat, lo: nat,
      hi: nat, v: Bytes)
    requires i < i' <= |hs| && AllFollow(base, side, hs) && Between(base, hs, i, lo) && Between(base, hs, i', hi)
    requires lo <= hi
    ensures Follows(base, side, hs, i) && Between(base, hs, i + 1, hs[i].aTo) && lo <= hs[i].aFrom <= hs[i].aTo <= hi
    ensures v + Concat(Side(base, side, hs, i, i', lo, hi)) ==
      ((v + Concat(base[lo..hs[i].aFrom])) + Concat(side[hs[i].bFrom..hs[i].bTo])) + Concat(Side(base, side, hs, i + 1,
        i', hs[i].aTo, hi))
  {
    HunkFacts(base, side, hs, i);
    EndsAscend(base, side, hs, i + 1, i');
    assert Follows(base, side, hs, i);
    var x, y, z := base[lo..hs[i].aFrom], side[hs[i].bFrom..hs[i].bTo], Side(base, side, hs, i + 1, i', hs[i].aTo, hi);
    assert Side(base, side, hs, i, i', lo, hi) == x + y + z;
    hide Side, AllFollow, Concat;
    ConcatAppend(x + y, z);
    ConcatAppend(x, y);
  }

  method WritePiece(p: Piece, labels: Option<Labels>, eol: Bytes, out: Bytes, conflicts: nat,
      ghost whole: Option<(Bytes, nat)>, ghost rest: seq<Piece>)
      returns (out': Bytes, conflicts': nat, stop: bool)
    requires Merged(whole, labels, eol, out, conflicts, [p] + rest)
    ensures stop ==> whole == None
    ensures !stop ==> Merged(whole, labels, eol, out', conflicts', rest)
  {
    hide Merged;
    MergedStep(whole, labels, eol, out, conflicts, p, rest);
    out', conflicts', stop := out, conflicts, false;
    if p.ours == p.theirs {
      out' := out + p.ours;
    } else if p.ours == p.base {
      out' := out + p.theirs;
    } else if p.theirs == p.base {
      out' := out + p.ours;
    } else if labels.None? {
      stop := true;
    } else {
      var l := labels.value;
      var text := OURS_SIGN + l.ours + eol;
      text := text + PushText(p.ours, eol) + MIDDLE_SIGN + eol;
      text := text + PushText(p.theirs, eol) + THEIRS_SIGN + l.theirs + eol;
      out' := out + text;
      conflicts' := conflicts + 1;
    }
  }

  /** Only ours changed the region, so its piece is settled by our lines; with the sides swapped, theirs. */
  lemma {:induction false} OneSided(s: Sides, i: nat, j: nat, bi: nat)
    requires At(s, i, j, bi) && (i < |s.ho| || j < |s.ht|)
    ensures OursFirst(s, i, j) ==>
      var r := NextRegion(s, i, j);
      RegionFits(s, i, j, bi) && s.ho[i].bFrom <= s.ho[i].bTo <= |s.ours|
      && RegionPiece(s, i, j, r).Resolved() == Some(Concat(s.ours[s.ho[i].bFrom..s.ho[i].bTo]))
    ensures !OursFirst(s, i, j) && OursFirst(s.Swapped(), j, i) ==>
      var r := NextRegion(s, i, j);
      RegionFits(s, i, j, bi) && s.ht[j].bFrom <= s.ht[j].bTo <= |s.theirs|
      && RegionPiece(s, i, j, r).Resolved() == Some(Concat(s.theirs[s.ht[j].bFrom..s.ht[j].bTo]))
  {
    RegionFollows(s, i, j, bi);
    if OursFirst(s, i, j) {
      OneHunkSide(s.base, s.ours, s.ho, i);
    } else if OursFirst(s.Swapped(), j, i) {
      OneHunkSide(s.base, s.theirs, s.ht, j);
    }
  }

  ghost predicate RegionFits(s: Sides, i: nat, j: nat, bi: nat) {
    i <= |s.ho| && j <= |s.ht| && (i < |s.ho| || j < |s.ht|) && (
      var r := NextRegion(s, i, j);
      && bi <= r.lo <= r.hi && At(s, r.i, r.j, r.hi)
      && Between(s.base, s.ho, i, r.lo) && Between(s.base, s.ht, j, r.lo))
  }

  lemma OneHunkSide(base: seq<Bytes>, side: seq<Bytes>, hs: seq<Hunk>, i: nat)
    requires AllFollow(base, side, hs) && i < |hs|
    ensures Follows(base, side, hs, i) && Between(base, hs, i, hs[i].aFrom) && Between(base, hs, i + 1, hs[i].aTo)
    ensures Side(base, side, hs, i, i + 1, hs[i].aFrom, hs[i].aTo) == side[hs[i].bFrom..hs[i].bTo]
  {
    HunkFacts(base, side, hs, i);
    assert Follows(base, side, hs, i);
    var h := hs[i];
    assert base[h.aFrom..h.aFrom] == [] && base[h.aTo..h.aTo] == [];
  }

  /** The next region: unchanged lines before it, then what the sides make of it. */
  method OneRegion(s: Sides, i0: nat, j0: nat, bi0: nat, labels: Option<Labels>, eol: Bytes, out0: Bytes,
      conflicts0: nat, ghost whole: Option<(Bytes, nat)>)
      returns (i: nat, j: nat, bi: nat, out: Bytes, conflicts: nat, stop: bool)
    requires At(s, i0, j0, bi0) && (i0 < |s.ho| || j0 < |s.ht|)
    requires Merged(whole, labels, eol, out0, conflicts0, Pieces(s, i0, j0, bi0))
    ensures i0 + j0 < i + j && i <= |s.ho| && j <= |s.ht|
    ensures stop ==> whole == None
    ensures !stop ==> At(s, i, j, bi) && Merged(whole, labels, eol, out, conflicts, Pieces(s, i, j, bi))
  {
    hide Merged, Pieces, RegionPiece, Absorb, Side, Piece.Resolved, Concat, Script;
    NextPieces(s, i0, j0, bi0, labels, eol, out0, conflicts0, whole);
    OneSided(s, i0, j0, bi0);
    ghost var r := NextRegion(s, i0, j0);
    ghost var u, p, rest := Concat(s.base[bi0..r.lo]), RegionPiece(s, i0, j0, r), Pieces(s, r.i, r.j, r.hi);
    i, j, conflicts, stop := i0, j0, conflicts0, false;
    if OursFirst(s, i, j) {
      i, bi := i + 1, s.ho[i].aTo;
      out := EmitHunk(out0, s.base, bi0, s.ho[i0], s.ours);
      PieceWritten(whole, labels, eol, out0 + u, conflicts, p, rest);
    } else if OursFirst(s.Swapped(), j, i) {
      j, bi := j + 1, s.ht[j].aTo;
      out := EmitHunk(out0, s.base, bi0, s.ht[j0], s.theirs);
      PieceWritten(whole, labels, eol, out0 + u, conflicts, p, rest);
    } else {
      var piece;
      i, j, bi, out, piece := Overlap(s, i0, j0, bi0, out0);
      out, conflicts, stop := WritePiece(piece, labels, eol, out, conflicts, whole, rest);
    }
  }

  /** The lines before the next region count as written, once they are. */
  lemma {:induction false} NextPieces(s: Sides, i: nat, j: nat, bi: nat, labels: Option<Labels>, eol: Bytes, out: Bytes,
      conflicts: nat, whole: Option<(Bytes, nat)>)
    requires At(s, i, j, bi) && (i < |s.ho| || j < |s.ht|)
    requires Merged(whole, labels, eol, out, conflicts, Pieces(s, i, j, bi))
    ensures RegionFits(s, i, j, bi) && i + j < NextRegion(s, i, j).i + NextRegion(s, i, j).j
    ensures var r := NextRegion(s, i, j);
      Merged(whole, labels, eol, out + Concat(s.base[bi..r.lo]), conflicts,
        [RegionPiece(s, i, j, r)] + Pieces(s, r.i, r.j, r.hi))
  {
    RegionFollows(s, i, j, bi);
    var r := NextRegion(s, i, j);
    var u, p, rest := Concat(s.base[bi..r.lo]), RegionPiece(s, i, j, r), Pieces(s, r.i, r.j, r.hi);
    assert Pieces(s, i, j, bi) == [Untouched(u)] + ([p] + rest);
    hide Merged, Pieces, RegionPiece;
    UnchangedWritten(whole, labels, eol, out, conflicts, u, [p] + rest);
  }

  /** The unchanged lines before a hunk, and the hunk's lines. */
  method EmitHunk(out0: Bytes, base: seq<Bytes>, bi: nat, h: Hunk, side: seq<Bytes>) returns (out: Bytes)
    requires bi <= h.aFrom <= |base| && h.bFrom <= h.bTo <= |side|
    ensures out == (out0 + Concat(base[bi..h.aFrom])) + Concat(side[h.bFrom..h.bTo])
  {
    out := Emit(out0, base, bi, h.aFrom);
    out := Emit(out, side, h.bFrom, h.bTo);
  }

  lemma {:induction false} UnchangedWritten(whole: Option<(Bytes, nat)>, labels: Option<Labels>, eol: Bytes, out: Bytes,
      conflicts: nat, u: Bytes, rest: seq<Piece>)
    requires Merged(whole, labels, eol, out, conflicts, [Untouched(u)] + rest)
    ensures Merged(whole, labels, eol, out + u, conflicts, rest)
  {
    MergedStep(whole, labels, eol, out, conflicts, Untouched(u), rest);
  }

  lemma {:induction false} PieceWritten(whole: Option<(Bytes, nat)>, labels: Option<Labels>, eol: Bytes, out: Bytes,
      conflicts: nat, p: Piece, rest: seq<Piece>)
    requires Merged(whole, labels, eol, out, conflicts, [p] + rest) && p.Resolved().Some?
    ensures Merged(whole, labels, eol, out + p.Resolved().value, conflicts, rest)
  {
    MergedStep(whole, labels, eol, out, conflicts, p, rest);
  }

  /** Both sides changed lines here: absorb every hunk that touches the region. */
  method Overlap(s: Sides, i0: nat, j0: nat, bi: nat, out0: Bytes) returns (i: nat, j: nat, hi: nat, out: Bytes,
      piece: Piece)
    requires RegionFits(s, i0, j0, bi) && !OursFirst(s, i0, j0) && !OursFirst(s.Swapped(), j0, i0)
    ensures var r := NextRegion(s, i0, j0);
      i == r.i && j == r.j && hi == r.hi && out == out0 + Concat(s.base[bi..r.lo]) && piece == RegionPiece(s, i0, j0, r)
  {
    hide Absorb, Side, Concat, Script;
    var o, t := s.ho[i0], s.ht[j0];
    var lo := Min(o.aFrom, t.aFrom);
    out := Emit(out0, s.base, bi, lo);
    i, j, hi := AbsorbLoop(s.ho, s.ht, lo, i0, j0, Max(o.aTo, t.aTo));
    piece := PieceTexts(s, i0, j0, Region(lo, hi, i, j));
  }

  method PieceTexts(s: Sides, i: nat, j: nat, r: Region) returns (p: Piece)
    requires s.Valid() && i <= r.i && j <= r.j && r.lo <= r.hi && At(s, r.i, r.j, r.hi)
    requires Between(s.base, s.ho, i, r.lo) && Between(s.base, s.ht, j, r.lo)
    ensures p == RegionPiece(s, i, j, r)
  {
    var o := SideText(s.base, s.ours, s.ho, i, r.i, r.lo, r.hi);
    var t := SideText(s.base, s.theirs, s.ht, j, r.j, r.lo, r.hi);
    var b := Emit([], s.base, r.lo, r.hi);
    p := Piece(b, o, t);
  }

  lemma StartMerge(labels: Option<Labels>, eol: Bytes, ps: seq<Piece>)
    ensures Merged(Outcome(ps, labels, eol), labels, eol, [], 0, ps)
  {
    var r := Outcome(ps, labels, eol);
    if r.Some? {
      assert [] + r.value.0 == r.value.0;
    }
  }

  lemma EndMerge(whole: Option<(Bytes, nat)>, labels: Option<Labels>, eol: Bytes, out: Bytes, conflicts: nat, t: Bytes)
    requires Merged(whole, labels, eol, out, conflicts, [Untouched(t)])
    ensures whole == Some((out + t, conflicts))
  {
    var none: seq<Piece> := [];
    assert [Untouched(t)] + none == [Untouched(t)];
    MergedStep(whole, labels, eol, out, conflicts, Untouched(t), none);
    assert (out + t) + [] == out + t;
  }

  /** One pass over the aligned pieces, for both forms of the merge: with labels a conflict is marked and
      counted, and without them it ends the pass. */
  method Merge3(base: Bytes, ours: Bytes, theirs: Bytes, labels: Option<Labels>) returns (r: Option<(Bytes, nat)>)
    ensures r == Outcome(AlignedPieces(base, ours, theirs), labels, Eol(ours, theirs))
  {
    var eol := Eol(ours, theirs);
    var bl := SplitIntoLines(base);
    var ol := SplitIntoLines(ours);
    var tl := SplitIntoLines(theirs);
    var ho := DiffSeq(bl, ol, MAX_LINE_D);
    var ht := DiffSeq(bl, tl, MAX_LINE_D);
    var s := Sides(bl, ol, tl, ho, ht);
    assert s == SidesOf(base, ours, theirs);
    ghost var whole := Outcome(Pieces(s, 0, 0, 0), labels, eol);
    StartMerge(labels, eol, Pieces(s, 0, 0, 0));
    hide Merged, Pieces, SplitLines, LineDiff, DiffHunks;
    var out, conflicts: nat, bi: nat, i: nat, j: nat := [], 0, 0, 0, 0;
    while i < |ho| || j < |ht|
      invariant At(s, i, j, bi)
      invariant Merged(whole, labels, eol, out, conflicts, Pieces(s, i, j, bi))
      decreases |ho| - i + |ht| - j
    {
      var stop;
      i, j, bi, out, conflicts, stop := OneRegion(s, i, j, bi, labels, eol, out, conflicts, whole);
      if stop {
        return None;
      }
    }
    AllMerged(s, i, j, bi, whole, labels, eol, out, conflicts);
    out := Emit(out, bl, bi, |bl|);
    return Some((out, conflicts));
  }

  lemma AllMerged(s: Sides, i: nat, j: nat, bi: nat, whole: Option<(Bytes, nat)>, labels: Option<Labels>, eol: Bytes,
      out: Bytes, conflicts: nat)
    requires i == |s.ho| && j == |s.ht| && At(s, i, j, bi)
    requires Merged(whole, labels, eol, out, conflicts, Pieces(s, i, j, bi))
    ensures whole == Some((out + Concat(s.base[bi..|s.base|]), conflicts))
  {
    EndMerge(whole, labels, eol, out, conflicts, Concat(s.base[bi..]));
    assert s.base[bi..|s.base|] == s.base[bi..];
  }

  // ----- laws -----

  /** The pieces are cut from the three texts: nothing is invented, dropped or reordered. */
  lemma MergeIsAligned(base: Bytes, ours: Bytes, theirs: Bytes)
    ensures var ps := AlignedPieces(base, ours, theirs);
      BaseText(ps) == base && OursText(ps) == ours && TheirsText(ps) == theirs
  {
    var s := SidesOf(base, ours, theirs);
    PiecesAlign(s, 0, 0, 0);
    SplitJoins(base);
    SplitJoins(ours);
    SplitJoins(theirs);
    WholeFrom(s.base);
    WholeFrom(s.ours);
    WholeFrom(s.theirs);
  }

  lemma WholeFrom(ls: seq<Bytes>)
    ensures ls[0..] == ls
  {
  }

  /** A sequence has no diff against itself. */
  lemma NoDiff<T>(a: seq<T>, maxD: nat)
    ensures DiffHunks(a, a, maxD) == []
  {
    AllShared(a, 0);
  }

  lemma {:induction false} AllShared<T>(a: seq<T>, i: nat)
    requires i <= |a|
    ensures SharedPrefix(a, a, i) == |a|
    decreases |a| - i
  {
    if i < |a| {
      AllShared(a, i + 1);
    }
  }

  predicate OursUnchanged(p: Piece) {
    p.ours == p.base
  }

  predicate SidesAgree(p: Piece) {
    p.ours == p.theirs
  }

  lemma {:induction false} SettledTheirs(ps: seq<Piece>)
    requires forall p | p in ps :: OursUnchanged(p)
    ensures Settled(ps) == Some(TheirsText(ps))
    decreases |ps|
  {
    if ps != [] {
      assert OursUnchanged(ps[0]);
      SettledTheirs(ps[1..]);
    }
  }

  lemma {:induction false} SettledOurs(ps: seq<Piece>)
    requires forall p | p in ps :: SidesAgree(p)
    ensures Settled(ps) == Some(OursText(ps))
    decreases |ps|
  {
    if ps != [] {
      assert SidesAgree(ps[0]);
      SettledOurs(ps[1..]);
    }
  }

  lemma {:induction false} NoHunksUnchanged(s: Sides, j: nat, bi: nat)
    requires At(s, 0, j, bi) && s.ho == []
    ensures forall p | p in Pieces(s, 0, j, bi) :: OursUnchanged(p)
    decreases |s.ht| - j
  {
    if j < |s.ht| {
      RegionFollows(s, 0, j, bi);
      var r := NextRegion(s, 0, j);
      NoHunksUnchanged(s, r.j, r.hi);
    }
  }

  lemma {:induction false} SameHunksAgree(s: Sides, i: nat, bi: nat)
    requires At(s, i, i, bi) && s.ho == s.ht && s.ours == s.theirs
    ensures forall p | p in Pieces(s, i, i, bi) :: SidesAgree(p)
    decreases |s.ho| - i
  {
    if i < |s.ho| {
      RegionFollows(s, i, i, bi);
      var r := NextRegion(s, i, i);
      AbsorbSwap(s.ho, s.ht, s.ho[i].aFrom, i, i, s.ho[i].aTo);
      assert r.i == r.j;
      SameHunksAgree(s, r.i, r.hi);
    }
  }

  /** When ours did not change, the merge is theirs. */
  lemma UnchangedOursGivesTheirs(base: Bytes, theirs: Bytes)
    ensures Diff3(base, base, theirs) == Clean(theirs)
  {
    NoDiff(SplitLines(base), MAX_LINE_D);
    NoHunksUnchanged(SidesOf(base, base, theirs), 0, 0);
    SettledTheirs(AlignedPieces(base, base, theirs));
    MergeIsAligned(base, base, theirs);
  }

  /** When both sides agree, the merge is what they agree on. */
  lemma EqualSidesGiveThatSide(base: Bytes, side: Bytes)
    ensures Diff3(base, side, side) == Clean(side)
  {
    SameHunksAgree(SidesOf(base, side, side), 0, 0);
    SettledOurs(AlignedPieces(base, side, side));
    MergeIsAligned(base, side, side);
  }

  lemma {:induction false} SettledSwap(ps: seq<Piece>)
    ensures Settled(SwapAll(ps)) == Settled(ps)
    ensures Conflicts(SwapAll(ps)) == Conflicts(ps)
    decreases |ps|
  {
    if ps != [] {
      SettledSwap(ps[1..]);
      assert SwapAll(ps)[1..] == SwapAll(ps[1..]);
    }
  }

  /** Swapping the sides changes neither the outcome nor, where it conflicts, how often. */
  lemma MergeIsSymmetric(base: Bytes, ours: Bytes, theirs: Bytes)
    ensures Diff3(base, ours, theirs) == Diff3(base, theirs, ours)
    ensures Conflicts(AlignedPieces(base, ours, theirs)) == Conflicts(AlignedPieces(base, theirs, ours))
  {
    PiecesSwap(SidesOf(base, ours, theirs), 0, 0, 0);
    SettledSwap(AlignedPieces(base, ours, theirs));
  }

  lemma UnchangedTheirsGivesOurs(base: Bytes, ours: Bytes)
    ensures Diff3(base, ours, base) == Clean(ours)
  {
    MergeIsSymmetric(base, ours, base);
    UnchangedOursGivesTheirs(base, ours);
  }

  lemma {:induction false} SettledShown(ps: seq<Piece>, labels: Labels, eol: Bytes)
    ensures Settled(ps).Some? <==> Conflicts(ps) == 0
    ensures Settled(ps).Some? ==> ShownAll(ps, labels, eol) == Settled(ps).value
    decreases |ps|
  {
    if ps != [] {
      SettledShown(ps[1..], labels, eol);
    }
  }

  /** The merge is clean exactly when its marked form counts no conflicts, and then it is the same text. */
  lemma CleanIffNothingMarked(base: Bytes, ours: Bytes, theirs: Bytes, labels: Labels, text: Bytes)
    ensures Diff3(base, ours, theirs) == Clean(text) <==>
      Outcome(AlignedPieces(base, ours, theirs), Some(labels), Eol(ours, theirs)) == Some((text, 0))
  {
    SettledShown(AlignedPieces(base, ours, theirs), labels, Eol(ours, theirs));
  }

  // ----- changes that touch but do not overlap -----

  /** The diffs of a line followed by another one of ours, and deleted by the other side. */
  lemma FollowedHunks(b: Bytes, x: Bytes)
    requires Terminated(b) && Terminated(x)
    ensures SplitLines(b) == [b] && SplitLines(b + x) == [b, x] && SplitLines([]) == []
    ensures DiffHunks([b], [b, x], MAX_LINE_D) == [Hunk(1, 1, 1, 2)]
    ensures DiffHunks([b], [], MAX_LINE_D) == [Hunk(0, 1, 0, 0)]
  {
    ConcatOne(b);
    ConcatOne(x);
    ConcatAppend([b], [x]);
    assert [b] + [x] == [b, x];
    JoinSplits([b]);
    JoinSplits([b, x]);
    var none: seq<Bytes> := [];
    assert SharedPrefix([b], [b, x], 1) == 1 && SharedPrefix([b], [b, x], 0) == 1;
    assert [b][1..1] == none && [b, x][1..2] == [x];
    assert CoreHunks(none, [x], MAX_LINE_D) == [Hunk(0, 0, 0, 1)];
    assert [b][0..1] == [b] && none[0..0] == none;
    assert CoreHunks([b], none, MAX_LINE_D) == [Hunk(0, 1, 0, 0)];
  }

  /** The line the other side deletes, and then the line we put behind it. */
  lemma {:induction false} FollowedPieces(b: Bytes, x: Bytes)
    requires Terminated(b) && Terminated(x)
    ensures AlignedPieces(b, b + x, [])
      == [Untouched([]), Piece(b, b, []), Untouched([]), Piece([], x, []), Untouched([])]
  {
    hide DiffHunks, SplitLines;
    FollowedHunks(b, x);
    var s := SidesOf(b, b + x, []);
    assert s == Sides([b], [b, x], [], [Hunk(1, 1, 1, 2)], [Hunk(0, 1, 0, 0)]);
    ConcatOne(b);
    ConcatOne(x);
    FollowedSteps(s, b, x);
  }

  lemma {:induction false} FollowedSteps(s: Sides, b: Bytes, x: Bytes)
    requires s == Sides([b], [b, x], [], [Hunk(1, 1, 1, 2)], [Hunk(0, 1, 0, 0)]) && At(s, 0, 0, 0)
    requires Concat([b]) == b && Concat([x]) == x
    ensures Pieces(s, 0, 0, 0) == [Untouched([]), Piece(b, b, []), Untouched([]), Piece([], x, []), Untouched([])]
  {
    var none: seq<Bytes> := [];
    assert Concat(none) == [];
    RegionFollows(s, 0, 0, 0);
    assert NextRegion(s, 0, 0) == Region(0, 1, 0, 1);
    RegionFollows(s, 0, 1, 1);
    assert NextRegion(s, 0, 1) == Region(1, 1, 1, 1);
    assert [b][0..0] == none && [b][0..1] == [b] && [b][1..] == none && [b][1..1] == none;
    assert [b, x][1..2] == [x] && none[0..0] == none;
    FirstPiece(s, b);
    SecondPiece(s, x);
    assert Pieces(s, 1, 1, 1) == [Untouched([])];
    assert Pieces(s, 0, 1, 1) == [Untouched([]), Piece([], x, [])] + Pieces(s, 1, 1, 1);
    assert Pieces(s, 0, 0, 0) == [Untouched([]), Piece(b, b, [])] + Pieces(s, 0, 1, 1);
  }

  lemma {:induction false} FirstPiece(s: Sides, b: Bytes)
    requires s.base == [b] && s.theirs == [] && s.ht == [Hunk(0, 1, 0, 0)] && |s.ho| == 1 && s.ho[0] == Hunk(1, 1, 1, 2)
    requires s.Valid() && At(s, 0, 1, 1) && Between(s.base, s.ho, 0, 0) && Between(s.base, s.ht, 0, 0)
    requires Concat([b]) == b
    ensures RegionPiece(s, 0, 0, Region(0, 1, 0, 1)) == Piece(b, b, [])
  {
    var none: seq<Bytes> := [];
    assert [b][0..1] == [b] && [b][0..0] == none && none[0..0] == none && [b][1..1] == none;
    assert Side(s.base, s.ours, s.ho, 0, 0, 0, 1) == [b];
    assert Side(s.base, s.theirs, s.ht, 1, 1, 1, 1) == none;
    assert Side(s.base, s.theirs, s.ht, 0, 1, 0, 1) == none + none + none;
    assert none + none + none == none && Concat(none) == [];
  }

  lemma {:induction false} SecondPiece(s: Sides, x: Bytes)
    requires |s.base| == 1 && |s.ours| == 2 && s.ours[1] == x && s.ho == [Hunk(1, 1, 1, 2)] && |s.ht| == 1
    requires s.Valid() && At(s, 1, 1, 1) && Between(s.base, s.ho, 0, 1) && Between(s.base, s.ht, 1, 1)
    requires Concat([x]) == x
    ensures RegionPiece(s, 0, 1, Region(1, 1, 1, 1)) == Piece([], x, [])
  {
    var none: seq<Bytes> := [];
    assert s.base[1..1] == none && s.ours[1..2] == [x];
    assert Side(s.base, s.ours, s.ho, 1, 1, 1, 1) == none;
    assert Side(s.base, s.ours, s.ho, 0, 1, 1, 1) == none + [x] + none;
    assert none + [x] + none == [x];
    assert Side(s.base, s.theirs, s.ht, 1, 1, 1, 1) == none;
    assert Concat(none) == [];
  }

  /** A line put behind one that the other side deletes does not conflict with that: the one line goes,
      the other stays. */
  lemma {:induction false} DeletedAndFollowed(b: Bytes, x: Bytes)
    requires Terminated(b) && Terminated(x)
    ensures Diff3(b, b + x, []) == Clean(x)
  {
    hide AlignedPieces;
    FollowedPieces(b, x);
    var p0, p1, p3 := Untouched([]), Piece(b, b, []), Piece([], x, []);
    var none: seq<Piece> := [];
    var e: Bytes := [];
    assert e + e == e;
    assert [p0][1..] == none && [p3, p0][1..] == [p0] && [p0, p3, p0][1..] == [p3, p0];
    assert [p1, p0, p3, p0][1..] == [p0, p3, p0] && [p0, p1, p0, p3, p0][1..] == [p1, p0, p3, p0];
    assert Settled(none) == Some([]) && Settled([p0]) == Some([]);
    assert x + [] == x && Settled([p3, p0]) == Some(x);
    assert Settled([p0, p3, p0]) == Some([] + x) && [] + x == x;
    assert b + x != [] && b != [] && p1.Resolved() == Some([]);
    assert Settled([p1, p0, p3, p0]) == Some(x);
  }
}
