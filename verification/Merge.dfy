/** Three-way line merge: the three texts cut into aligned pieces, each decided by who changed it. */
module Merging {
  import opened Text
  import opened Chunker
  import opened Lines
  import opened Scripts

  // ----- absorbing overlapping hunks -----

  /** A hunk that touches the region [lo, hi): it starts inside it, or at its start, or reaches past its end. */
  predicate Touches(h: Hunk, lo: nat, hi: nat) {
    h.aFrom <= hi && (h.aFrom < hi || h.aFrom == lo || h.aTo > hi)
  }

  predicate NextTouches(hs: seq<Hunk>, i: nat, lo: nat, hi: nat) {
    i < |hs| && Touches(hs[i], lo, hi)
  }

  /** How far both sides' hunks, `i` and `j` on, are drawn into the region that starts as [lo, hi). */
  function Absorb(ho: seq<Hunk>, ht: seq<Hunk>, lo: nat, i: nat, j: nat, hi: nat): (r: (nat, nat, nat))
    requires i <= |ho| && j <= |ht|
    ensures i <= r.0 <= |ho| && j <= r.1 <= |ht| && hi <= r.2
    ensures !NextTouches(ho, r.0, lo, r.2) && !NextTouches(ht, r.1, lo, r.2)
    decreases |ho| - i + |ht| - j
  {
    if NextTouches(ho, i, lo, hi) then Absorb(ho, ht, lo, i + 1, j, Max(hi, ho[i].aTo))
    else if NextTouches(ht, j, lo, hi) then Absorb(ho, ht, lo, i, j + 1, Max(hi, ht[j].aTo))
    else (i, j, hi)
  }

  lemma TouchesMore(h: Hunk, lo: nat, hi: nat, hi': nat)
    requires Touches(h, lo, hi) && hi <= hi'
    ensures Touches(h, lo, hi')
  {
  }

  /** It does not matter which side's hunk is drawn in first. */
  lemma {:induction false} AbsorbEither(ho: seq<Hunk>, ht: seq<Hunk>, lo: nat, i: nat, j: nat, hi: nat)
    requires i <= |ho| && NextTouches(ht, j, lo, hi)
    ensures Absorb(ho, ht, lo, i, j, hi) == Absorb(ho, ht, lo, i, j + 1, Max(hi, ht[j].aTo))
    decreases |ho| - i
  {
    if NextTouches(ho, i, lo, hi) {
      var hi1 := Max(hi, ho[i].aTo);
      TouchesMore(ht[j], lo, hi, hi1);
      TouchesMore(ho[i], lo, hi, Max(hi, ht[j].aTo));
      AbsorbEither(ho, ht, lo, i + 1, j, hi1);
    }
  }

  /** So swapping the sides swaps the counts and keeps the region. */
  lemma {:induction false} AbsorbSwap(ho: seq<Hunk>, ht: seq<Hunk>, lo: nat, i: nat, j: nat, hi: nat)
    requires i <= |ho| && j <= |ht|
    ensures var r, s := Absorb(ho, ht, lo, i, j, hi), Absorb(ht, ho, lo, j, i, hi);
      r.0 == s.1 && r.1 == s.0 && r.2 == s.2
    decreases |ho| - i + |ht| - j
  {
    if NextTouches(ht, j, lo, hi) {
      AbsorbEither(ho, ht, lo, i, j, hi);
      AbsorbSwap(ho, ht, lo, i, j + 1, Max(hi, ht[j].aTo));
    } else if NextTouches(ho, i, lo, hi) {
      AbsorbSwap(ho, ht, lo, i + 1, j, Max(hi, ho[i].aTo));
    }
  }

  /** The loops that absorb: all of ours that touch, all of theirs, and again while the region grows. */
  method AbsorbLoop(ho: seq<Hunk>, ht: seq<Hunk>, lo: nat, i0: nat, j0: nat, hi0: nat) returns (i: nat, j: nat, hi: nat)
    requires i0 <= |ho| && j0 <= |ht|
    ensures (i, j, hi) == Absorb(ho, ht, lo, i0, j0, hi0)
  {
    i, j, hi := i0, j0, hi0;
    while true
      invariant i <= |ho| && j <= |ht| && Absorb(ho, ht, lo, i, j, hi) == Absorb(ho, ht, lo, i0, j0, hi0)
      decreases |ho| - i + |ht| - j
    {
      var grew := false;
      ghost var left := |ho| - i + |ht| - j;
      while i < |ho| && ho[i].aFrom <= hi && (ho[i].aFrom < hi || ho[i].aFrom == lo || ho[i].aTo > hi)
        invariant i <= |ho| && j <= |ht| && Absorb(ho, ht, lo, i, j, hi) == Absorb(ho, ht, lo, i0, j0, hi0)
        invariant |ho| - i + |ht| - j <= left && (grew ==> |ho| - i + |ht| - j < left)
        invariant !grew ==> |ho| - i + |ht| - j == left
      {
        hi := Max(hi, ho[i].aTo);
        i := i + 1;
        grew := true;
      }
      ghost var oursDone := !grew;
      while j < |ht| && ht[j].aFrom <= hi && (ht[j].aFrom < hi || ht[j].aFrom == lo || ht[j].aTo > hi)
        invariant i <= |ho| && j <= |ht| && Absorb(ho, ht, lo, i, j, hi) == Absorb(ho, ht, lo, i0, j0, hi0)
        invariant |ho| - i + |ht| - j <= left && (grew ==> |ho| - i + |ht| - j < left)
        invariant !grew ==> oursDone && !NextTouches(ho, i, lo, hi)
      {
        AbsorbEither(ho, ht, lo, i, j, hi);
        hi := Max(hi, ht[j].aTo);
        j := j + 1;
        grew := true;
      }
      if !grew {
        break;
      }
    }
  }

  // ----- regions -----

  /** What a merge works on: the lines of the three texts and the two diffs against the base. */
  datatype Sides = Sides(base: seq<Bytes>, ours: seq<Bytes>, theirs: seq<Bytes>, ho: seq<Hunk>, ht: seq<Hunk>)
  {
    ghost predicate Valid() {
      Script(base, ours, ho) && Script(base, theirs, ht)
    }

    function Swapped(): Sides {
      Sides(base, theirs, ours, ht, ho)
    }
  }

  /** Base lines up to `bi` are dealt with, and so are the hunks before `i`. */
  ghost predicate Between(base: seq<Bytes>, hs: seq<Hunk>, i: nat, bi: nat) {
    i <= |hs| && EndA(hs, i) <= bi <= (if i < |hs| then hs[i].aFrom else |base|) && bi <= |base|
  }

  ghost predicate At(s: Sides, i: nat, j: nat, bi: nat) {
    s.Valid() && Between(s.base, s.ho, i, bi) && Between(s.base, s.ht, j, bi)
  }

  /** The next region [lo, hi) of base lines that changed, and the hunks it leaves. */
  datatype Region = Region(lo: nat, hi: nat, i: nat, j: nat)

  predicate OursFirst(s: Sides, i: nat, j: nat)
    requires i <= |s.ho| && j <= |s.ht|
  {
    i < |s.ho| && (j < |s.ht| ==> s.ho[i].aTo <= s.ht[j].aFrom && s.ho[i].aFrom != s.ht[j].aFrom)
  }

  function NextRegion(s: Sides, i: nat, j: nat): (r: Region)
    requires i <= |s.ho| && j <= |s.ht| && (i < |s.ho| || j < |s.ht|)
    ensures i <= r.i <= |s.ho| && j <= r.j <= |s.ht|
  {
    if OursFirst(s, i, j) then Region(s.ho[i].aFrom, s.ho[i].aTo, i + 1, j)
    else if OursFirst(s.Swapped(), j, i) then Region(s.ht[j].aFrom, s.ht[j].aTo, i, j + 1)
    else
      var lo := Min(s.ho[i].aFrom, s.ht[j].aFrom);
      var r := Absorb(s.ho, s.ht, lo, i, j, Max(s.ho[i].aTo, s.ht[j].aTo));
      Region(lo, r.2, r.0, r.1)
  }

  lemma HunkFacts(base: seq<Bytes>, side: seq<Bytes>, hs: seq<Hunk>, i: nat)
    requires AllFollow(base, side, hs) && i < |hs|
    ensures EndA(hs, i) <= hs[i].aFrom <= hs[i].aTo <= |base|
    ensures i + 1 < |hs| ==> hs[i].aTo < hs[i + 1].aFrom
    ensures Between(base, hs, i + 1, hs[i].aTo)
  {
    assert Follows(base, side, hs, i);
    if i + 1 < |hs| {
      assert Follows(base, side, hs, i + 1);
    }
  }

  /** Whatever a region that ends at `h` touches, of the hunks from `i` on, it holds. */
  ghost predicate Holds(hs: seq<Hunk>, i: nat, lo: nat, h: nat) {
    forall k | i <= k < |hs| && Touches(hs[k], lo, h) :: hs[k].aTo <= h
  }

  /** No region that holds what it touches, on both sides, ends before the one that is absorbed. */
  lemma {:induction false} AbsorbAtMost(ho: seq<Hunk>, ht: seq<Hunk>, lo: nat, i: nat, j: nat, hi: nat, h: nat)
    requires i <= |ho| && j <= |ht| && hi <= h && Holds(ho, i, lo, h) && Holds(ht, j, lo, h)
    ensures Absorb(ho, ht, lo, i, j, hi).2 <= h
    decreases |ho| - i + |ht| - j
  {
    if NextTouches(ho, i, lo, hi) {
      TouchesMore(ho[i], lo, hi, h);
      AbsorbAtMost(ho, ht, lo, i + 1, j, Max(hi, ho[i].aTo), h);
    } else if NextTouches(ht, j, lo, hi) {
      TouchesMore(ht[j], lo, hi, h);
      AbsorbAtMost(ho, ht, lo, i, j + 1, Max(hi, ht[j].aTo), h);
    }
  }

  /** The absorbed region holds what it touches. */
  lemma {:induction false} AbsorbHolds(base: seq<Bytes>, ours: seq<Bytes>, theirs: seq<Bytes>, ho: seq<Hunk>,
      ht: seq<Hunk>, lo: nat, i: nat, j: nat, hi: nat)
    requires AllFollow(base, ours, ho) && AllFollow(base, theirs, ht) && i <= |ho| && j <= |ht|
    ensures var h := Absorb(ho, ht, lo, i, j, hi).2; Holds(ho, i, lo, h) && Holds(ht, j, lo, h)
    decreases |ho| - i + |ht| - j
  {
    hide AllFollow;
    if NextTouches(ho, i, lo, hi) {
      AbsorbHolds(base, ours, theirs, ho, ht, lo, i + 1, j, Max(hi, ho[i].aTo));
    } else if NextTouches(ht, j, lo, hi) {
      AbsorbHolds(base, ours, theirs, ho, ht, lo, i, j + 1, Max(hi, ht[j].aTo));
    } else {
      NoneBehindTouches(base, ours, ho, i, lo, hi);
      NoneBehindTouches(base, theirs, ht, j, lo, hi);
    }
  }

  lemma {:induction false} NoneBehindTouches(base: seq<Bytes>, side: seq<Bytes>, hs: seq<Hunk>, i: nat, lo: nat,
      hi: nat)
    requires AllFollow(base, side, hs) && i <= |hs| && !NextTouches(hs, i, lo, hi)
    ensures Holds(hs, i, lo, hi)
  {
    forall k | i <= k < |hs| ensures k > i ==> hs[i].aTo < hs[k].aFrom {
      if k > i {
        HunksAscend(base, side, hs, i, k);
      }
    }
    if i < |hs| {
      HunkFacts(base, side, hs, i);
    }
  }

  lemma {:induction false} HunksAscend(base: seq<Bytes>, side: seq<Bytes>, hs: seq<Hunk>, i: nat, k: nat)
    requires AllFollow(base, side, hs) && i < k < |hs|
    ensures hs[i].aTo < hs[k].aFrom
    decreases k
  {
    HunkFacts(base, side, hs, k - 1);
    if i < k - 1 {
      HunksAscend(base, side, hs, i, k - 1);
    }
  }

  /** So of all regions from `lo` on that reach `hi` and hold what they touch, it is the least. */
  lemma {:induction false} AbsorbIsLeast(base: seq<Bytes>, ours: seq<Bytes>, theirs: seq<Bytes>, ho: seq<Hunk>,
      ht: seq<Hunk>, lo: nat, i: nat, j: nat, hi: nat)
    requires AllFollow(base, ours, ho) && AllFollow(base, theirs, ht) && i <= |ho| && j <= |ht|
    ensures var end := Absorb(ho, ht, lo, i, j, hi).2;
      && hi <= end && Holds(ho, i, lo, end) && Holds(ht, j, lo, end)
      && forall h: nat | hi <= h && Holds(ho, i, lo, h) && Holds(ht, j, lo, h) :: end <= h
  {
    hide AllFollow, Holds, Absorb;
    AbsorbHolds(base, ours, theirs, ho, ht, lo, i, j, hi);
    forall h: nat | hi <= h && Holds(ho, i, lo, h) && Holds(ht, j, lo, h) ensures Absorb(ho, ht, lo, i, j, hi).2 <= h {
      AbsorbAtMost(ho, ht, lo, i, j, hi, h);
    }
  }

  /** Absorbing keeps the region's end past every hunk drawn in and short of the ones that are not. */
  lemma {:induction false} AbsorbEnds(base: seq<Bytes>, ours: seq<Bytes>, theirs: seq<Bytes>, ho: seq<Hunk>,
      ht: seq<Hunk>, lo: nat, i: nat, j: nat, hi: nat)
    requires AllFollow(base, ours, ho) && AllFollow(base, theirs, ht) && i <= |ho| && j <= |ht| && hi <= |base|
    requires EndA(ho, i) <= hi && EndA(ht, j) <= hi
    ensures var r := Absorb(ho, ht, lo, i, j, hi); Between(base, ho, r.0, r.2) && Between(base, ht, r.1, r.2)
    decreases |ho| - i + |ht| - j
  {
    if NextTouches(ho, i, lo, hi) {
      HunkFacts(base, ours, ho, i);
      AbsorbEnds(base, ours, theirs, ho, ht, lo, i + 1, j, Max(hi, ho[i].aTo));
    } else if NextTouches(ht, j, lo, hi) {
      HunkFacts(base, theirs, ht, j);
      AbsorbEnds(base, ours, theirs, ho, ht, lo, i, j + 1, Max(hi, ht[j].aTo));
    }
  }

  /** A region starts behind the lines dealt with, and leaves the merge in place behind it. */
  lemma RegionFollows(s: Sides, i: nat, j: nat, bi: nat)
    requires At(s, i, j, bi) && (i < |s.ho| || j < |s.ht|)
    ensures var r := NextRegion(s, i, j);
      bi <= r.lo <= r.hi && At(s, r.i, r.j, r.hi) && r.i + r.j > i + j
    ensures var r := NextRegion(s, i, j);
      (i < r.i ==> r.lo <= s.ho[i].aFrom) && (j < r.j ==> r.lo <= s.ht[j].aFrom)
    ensures var r := NextRegion(s, i, j);
      Between(s.base, s.ho, i, r.lo) && Between(s.base, s.ht, j, r.lo)
  {
    if i < |s.ho| {
      HunkFacts(s.base, s.ours, s.ho, i);
    }
    if j < |s.ht| {
      HunkFacts(s.base, s.theirs, s.ht, j);
    }
    if !OursFirst(s, i, j) && !OursFirst(s.Swapped(), j, i) {
      var lo, hi := Min(s.ho[i].aFrom, s.ht[j].aFrom), Max(s.ho[i].aTo, s.ht[j].aTo);
      AbsorbEnds(s.base, s.ours, s.theirs, s.ho, s.ht, lo, i, j, hi);
      assert NextTouches(s.ho, i, lo, hi);
    }
  }

  // ----- the three texts of a region -----

  /** A side's lines for base lines [lo, hi): its hunks' lines, and base lines between them. */
  function Side(base: seq<Bytes>, side: seq<Bytes>, hs: seq<Hunk>, i: nat, i': nat, lo: nat, hi: nat): seq<Bytes>
    requires i <= i' <= |hs| && AllFollow(base, side, hs) && Between(base, hs, i, lo) && Between(base, hs, i', hi)
    requires lo <= hi
    decreases i' - i
  {
    if i == i' then base[lo..hi] else
      HunkFacts(base, side, hs, i);
      EndsAscend(base, side, hs, i + 1, i');
      assert Follows(base, side, hs, i);
      base[lo..hs[i].aFrom] + side[hs[i].bFrom..hs[i].bTo] + Side(base, side, hs, i + 1, i', hs[i].aTo, hi)
  }

  lemma {:induction false} EndsAscend(base: seq<Bytes>, side: seq<Bytes>, hs: seq<Hunk>, i: nat, i': nat)
    requires i <= i' <= |hs| && AllFollow(base, side, hs)
    ensures EndA(hs, i) <= EndA(hs, i')
    decreases i' - i
  {
    if i < i' {
      HunkFacts(base, side, hs, i);
      EndsAscend(base, side, hs, i + 1, i');
    }
  }

  /** The line of the side that base line `bi` corresponds to. */
  function Opposite(hs: seq<Hunk>, i: nat, bi: nat): nat
    requires i <= |hs| && EndA(hs, i) <= bi
  {
    EndB(hs, i) + bi - EndA(hs, i)
  }

  ghost predicate Corresponds(base: seq<Bytes>, side: seq<Bytes>, hs: seq<Hunk>, i: nat, bi: nat) {
    Between(base, hs, i, bi) && Same(base, side, EndA(hs, i), bi, EndB(hs, i), Opposite(hs, i, bi))
  }

  lemma SamePart(base: seq<Bytes>, side: seq<Bytes>, x: nat, x': nat, y: nat, y': nat, m: nat)
    requires Same(base, side, x, x', y, y') && x <= m <= x'
    ensures y + m - x <= y' && Same(base, side, x, m, y, y + m - x) && Same(base, side, m, x', y + m - x, y')
  {
    assert |base[x..x']| == x' - x && |side[y..y']| == y' - y;
    assert base[x..m] == base[x..x'][..m - x] && side[y..y + m - x] == side[y..y'][..m - x];
    assert base[m..x'] == base[x..x'][m - x..] && side[y + m - x..y'] == side[y..y'][m - x..];
  }

  /** Everywhere between hunks the two sides correspond line by line. */
  lemma BetweenCorresponds(base: seq<Bytes>, side: seq<Bytes>, hs: seq<Hunk>, i: nat, bi: nat)
    requires Script(base, side, hs) && Between(base, hs, i, bi)
    ensures Corresponds(base, side, hs, i, bi) && Opposite(hs, i, bi) <= |side|
  {
    if i < |hs| {
      assert Follows(base, side, hs, i);
      SamePart(base, side, EndA(hs, i), hs[i].aFrom, EndB(hs, i), hs[i].bFrom, bi);
    } else {
      SamePart(base, side, EndA(hs, i), |base|, EndB(hs, i), |side|, bi);
    }
  }

  /** Two places between the same hunks have the same lines between them. */
  lemma SameBetween(base: seq<Bytes>, side: seq<Bytes>, hs: seq<Hunk>, i: nat, lo: nat, hi: nat)
    requires Script(base, side, hs) && Between(base, hs, i, lo) && Between(base, hs, i, hi) && lo <= hi
    ensures Same(base, side, lo, hi, Opposite(hs, i, lo), Opposite(hs, i, hi))
  {
    BetweenCorresponds(base, side, hs, i, hi);
    SamePart(base, side, EndA(hs, i), hi, EndB(hs, i), Opposite(hs, i, hi), lo);
  }

  /** A side's lines for a stretch of the base are exactly its own lines over that stretch. */
  lemma {:induction false} SideIs(base: seq<Bytes>, side: seq<Bytes>, hs: seq<Hunk>, i: nat, i': nat, lo: nat, hi: nat)
    requires i <= i' <= |hs| && Script(base, side, hs) && Between(base, hs, i, lo) && Between(base, hs, i', hi)
    requires lo <= hi
    ensures Opposite(hs, i, lo) <= Opposite(hs, i', hi) <= |side|
    ensures Side(base, side, hs, i, i', lo, hi) == side[Opposite(hs, i, lo)..Opposite(hs, i', hi)]
    decreases i' - i
  {
    if i == i' {
      SameBetween(base, side, hs, i, lo, hi);
    } else {
      assert Follows(base, side, hs, i);
      HunkFacts(base, side, hs, i);
      EndsAscend(base, side, hs, i + 1, i');
      var h := hs[i];
      SameBetween(base, side, hs, i, lo, h.aFrom);
      BetweenCorresponds(base, side, hs, i, h.aFrom);
      SideIs(base, side, hs, i + 1, i', h.aTo, hi);
      OppositeStart(base, side, hs, i);
      JoinParts(side, Opposite(hs, i, lo), h.bFrom, h.bTo, Opposite(hs, i', hi));
    }
  }

  lemma OppositeStart(base: seq<Bytes>, side: seq<Bytes>, hs: seq<Hunk>, i: nat)
    requires AllFollow(base, side, hs) && i < |hs|
    ensures hs[i].aFrom >= EndA(hs, i) && Opposite(hs, i, hs[i].aFrom) == hs[i].bFrom
    ensures Opposite(hs, i + 1, hs[i].aTo) == hs[i].bTo
  {
    assert Follows(base, side, hs, i);
    SamePart(base, side, EndA(hs, i), hs[i].aFrom, EndB(hs, i), hs[i].bFrom, hs[i].aFrom);
    assert |base[EndA(hs, i)..hs[i].aFrom]| == |side[EndB(hs, i)..hs[i].bFrom]|;
  }

  // ----- aligned pieces -----

  /** A stretch of the base and what each side has in its place. */
  datatype Piece = Piece(base: Bytes, ours: Bytes, theirs: Bytes)
  {
    function Swapped(): Piece {
      Piece(base, theirs, ours)
    }

    /** The merged text of a piece, unless both sides changed it differently. */
    function Resolved(): Option<Bytes> {
      if ours == theirs then Some(ours)
      else if ours == base then Some(theirs)
      else if theirs == base then Some(ours)
      else None
    }
  }

  function RegionPiece(s: Sides, i: nat, j: nat, r: Region): Piece
    requires s.Valid() && i <= r.i && j <= r.j && r.lo <= r.hi && At(s, r.i, r.j, r.hi)
    requires Between(s.base, s.ho, i, r.lo) && Between(s.base, s.ht, j, r.lo)
  {
    Piece(Concat(s.base[r.lo..r.hi]),
      Concat(Side(s.base, s.ours, s.ho, i, r.i, r.lo, r.hi)),
      Concat(Side(s.base, s.theirs, s.ht, j, r.j, r.lo, r.hi)))
  }

  function Untouched(t: Bytes): Piece {
    Piece(t, t, t)
  }

  /** The three texts from base line `bi` on, cut into pieces. */
  function Pieces(s: Sides, i: nat, j: nat, bi: nat): (ps: seq<Piece>)
    requires At(s, i, j, bi)
    decreases |s.ho| - i + |s.ht| - j
  {
    if i == |s.ho| && j == |s.ht| then [Untouched(Concat(s.base[bi..]))]
    else
      RegionFollows(s, i, j, bi);
      var r := NextRegion(s, i, j);
      [Untouched(Concat(s.base[bi..r.lo])), RegionPiece(s, i, j, r)] + Pieces(s, r.i, r.j, r.hi)
  }

  function BaseText(ps: seq<Piece>): Bytes {
    if ps == [] then [] else ps[0].base + BaseText(ps[1..])
  }

  function OursText(ps: seq<Piece>): Bytes {
    if ps == [] then [] else ps[0].ours + OursText(ps[1..])
  }

  function TheirsText(ps: seq<Piece>): Bytes {
    if ps == [] then [] else ps[0].theirs + TheirsText(ps[1..])
  }

  function SwapAll(ps: seq<Piece>): seq<Piece> {
    if ps == [] then [] else [ps[0].Swapped()] + SwapAll(ps[1..])
  }

  lemma OneMore(p: Piece, ps: seq<Piece>)
    ensures BaseText([p] + ps) == p.base + BaseText(ps)
    ensures OursText([p] + ps) == p.ours + OursText(ps)
    ensures TheirsText([p] + ps) == p.theirs + TheirsText(ps)
    ensures SwapAll([p] + ps) == [p.Swapped()] + SwapAll(ps)
  {
    assert ([p] + ps)[1..] == ps;
  }

  lemma TwoPieces(p: Piece, q: Piece, ps: seq<Piece>)
    ensures BaseText([p, q] + ps) == p.base + q.base + BaseText(ps)
    ensures OursText([p, q] + ps) == p.ours + q.ours + OursText(ps)
    ensures TheirsText([p, q] + ps) == p.theirs + q.theirs + TheirsText(ps)
    ensures SwapAll([p, q] + ps) == [p.Swapped(), q.Swapped()] + SwapAll(ps)
  {
    hide *;
    OneMore(q, ps);
    OneMore(p, [q] + ps);
    assert [p, q] + ps == [p] + ([q] + ps);
  }

  /** A side's text over a region and the unchanged lines before it. */
  lemma SideOfRegion(base: seq<Bytes>, side: seq<Bytes>, hs: seq<Hunk>, i: nat, i': nat, bi: nat, lo: nat, hi: nat)
    requires Script(base, side, hs) && i <= i' <= |hs| && bi <= lo <= hi
    requires Between(base, hs, i, bi) && Between(base, hs, i, lo) && Between(base, hs, i', hi)
    ensures Opposite(hs, i, bi) <= |side| && Opposite(hs, i', hi) <= |side|
    ensures Concat(side[Opposite(hs, i, bi)..]) ==
      Concat(base[bi..lo]) + Concat(Side(base, side, hs, i, i', lo, hi)) + Concat(side[Opposite(hs, i', hi)..])
  {
    SameBetween(base, side, hs, i, bi, lo);
    SideIs(base, side, hs, i, i', lo, hi);
    ConcatSlices(side, Opposite(hs, i, bi), Opposite(hs, i, lo), Opposite(hs, i', hi));
  }

  /** The pieces cut each of the three texts, in order and with nothing left over. */
  lemma {:induction false} PiecesAlign(s: Sides, i: nat, j: nat, bi: nat)
    requires At(s, i, j, bi)
    ensures Opposite(s.ho, i, bi) <= |s.ours| && Opposite(s.ht, j, bi) <= |s.theirs|
    ensures BaseText(Pieces(s, i, j, bi)) == Concat(s.base[bi..])
    ensures OursText(Pieces(s, i, j, bi)) == Concat(s.ours[Opposite(s.ho, i, bi)..])
    ensures TheirsText(Pieces(s, i, j, bi)) == Concat(s.theirs[Opposite(s.ht, j, bi)..])
    decreases |s.ho| - i + |s.ht| - j
  {
    if i == |s.ho| && j == |s.ht| {
      LastPiece(s.base, s.ours, s.ho, bi);
      LastPiece(s.base, s.theirs, s.ht, bi);
      OnePiece(Untouched(Concat(s.base[bi..])));
    } else {
      RegionFollows(s, i, j, bi);
      var r := NextRegion(s, i, j);
      PiecesAlign(s, r.i, r.j, r.hi);
      TwoPieces(Untouched(Concat(s.base[bi..r.lo])), RegionPiece(s, i, j, r), Pieces(s, r.i, r.j, r.hi));
      ConcatSlices(s.base, bi, r.lo, r.hi);
      SideOfRegion(s.base, s.ours, s.ho, i, r.i, bi, r.lo, r.hi);
      SideOfRegion(s.base, s.theirs, s.ht, j, r.j, bi, r.lo, r.hi);
    }
  }

  lemma OnePiece(p: Piece)
    ensures BaseText([p]) == p.base && OursText([p]) == p.ours && TheirsText([p]) == p.theirs
  {
    assert [p][1..] == [];
  }

  lemma {:induction false} LastPiece(base: seq<Bytes>, side: seq<Bytes>, hs: seq<Hunk>, bi: nat)
    requires Script(base, side, hs) && Between(base, hs, |hs|, bi)
    ensures Opposite(hs, |hs|, bi) <= |side| && side[Opposite(hs, |hs|, bi)..] == base[bi..]
  {
    hide AllFollow, Same;
    SameEnd(base, side, EndA(hs, |hs|), EndB(hs, |hs|), bi);
  }

  lemma SameEnd(base: seq<Bytes>, side: seq<Bytes>, x: nat, y: nat, bi: nat)
    requires Same(base, side, x, |base|, y, |side|) && x <= bi <= |base|
    ensures y + bi - x <= |side| && side[y + bi - x..] == base[bi..]
  {
    hide Same;
    SamePart(base, side, x, |base|, y, |side|, bi);
    SameRest(base, side, bi, y + bi - x);
  }

  lemma SameRest(base: seq<Bytes>, side: seq<Bytes>, x: nat, y: nat)
    requires Same(base, side, x, |base|, y, |side|)
    ensures y <= |side| && side[y..] == base[x..]
  {
    assert base[x..|base|] == base[x..] && side[y..|side|] == side[y..];
  }

  // ----- what the sides have to do with one another -----

  lemma BothFirst(s: Sides, i: nat, j: nat)
    requires s.Valid() && i <= |s.ho| && j <= |s.ht| && OursFirst(s, i, j)
    ensures !OursFirst(s.Swapped(), j, i)
  {
    HunkFacts(s.base, s.ours, s.ho, i);
    if j < |s.ht| {
      HunkFacts(s.base, s.theirs, s.ht, j);
    }
  }

  /** Swapping the sides swaps every piece. */
  lemma {:induction false} PiecesSwap(s: Sides, i: nat, j: nat, bi: nat)
    requires At(s, i, j, bi)
    ensures At(s.Swapped(), j, i, bi) && Pieces(s.Swapped(), j, i, bi) == SwapAll(Pieces(s, i, j, bi))
    decreases |s.ho| - i + |s.ht| - j
  {
    if i == |s.ho| && j == |s.ht| {
      SwapOne(Untouched(Concat(s.base[bi..])));
    } else {
      RegionFollows(s, i, j, bi);
      var r := NextRegion(s, i, j);
      NextSwap(s, i, j);
      PiecesSwap(s, r.i, r.j, r.hi);
      TwoPieces(Untouched(Concat(s.base[bi..r.lo])), RegionPiece(s, i, j, r), Pieces(s, r.i, r.j, r.hi));
    }
  }

  lemma SwapOne(p: Piece)
    ensures SwapAll([p]) == [p.Swapped()]
  {
    assert [p][1..] == [];
  }

  lemma NextSwap(s: Sides, i: nat, j: nat)
    requires s.Valid() && i <= |s.ho| && j <= |s.ht| && (i < |s.ho| || j < |s.ht|)
    ensures var r, q := NextRegion(s, i, j), NextRegion(s.Swapped(), j, i);
      r.lo == q.lo && r.hi == q.hi && r.i == q.j && r.j == q.i
  {
    if OursFirst(s, i, j) {
      BothFirst(s, i, j);
    } else if !OursFirst(s.Swapped(), j, i) {
      AbsorbSwap(s.ho, s.ht, Min(s.ho[i].aFrom, s.ht[j].aFrom), i, j, Max(s.ho[i].aTo, s.ht[j].aTo));
    }
  }
}
