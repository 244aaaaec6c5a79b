/** When a rebase hops, merges or refuses, said of the lines that edits and runs have bytes on. */
module Collisions {
  import opened Text
  import opened Tree
  import opened Splicing
  import opened TreeDiff
  import opened Shifting
  import opened Regions
  import opened ThreeWay
  import opened Rebasing
  import opened RebaseLaws
  import opened MergeLaws

  /** A byte of the range, or where it is when it has none. */
  predicate Place(from: nat, end: nat, p: nat) {
    if from < end then from <= p < end else p == from
  }

  /** Some place of the one range and some place of the other are on the same line. */
  ghost predicate ShareLine(t: Bytes, from: nat, end: nat, from': nat, end': nat) {
    exists p: nat, q: nat ::
      Place(from, end, p) && Place(from', end', q) && p <= |t| && q <= |t| && LineOf(t, p) == LineOf(t, q)
  }

  ghost predicate OnOneLine(t: Bytes, e: Edit, r: ChangedRun) {
    e.from >= 0 && e.to >= 0 && ShareLine(t, e.from, e.to, r.aFrom, r.aTo)
  }

  // ----- the lines of a range -----

  lemma NextLine(t: Bytes, i: nat)
    requires i < |t|
    ensures LineOf(t, i) <= LineOf(t, i + 1) <= LineOf(t, i) + 1
  {
    assert t[..i + 1][..i] == t[..i];
  }

  /** Every line between those of two places has a place between them. */
  lemma {:induction false} PlaceOnLine(t: Bytes, i: nat, j: nat, line: nat) returns (m: nat)
    requires i <= j <= |t| && LineOf(t, i) <= line <= LineOf(t, j)
    ensures i <= m <= j && LineOf(t, m) == line
    decreases j - i
  {
    if LineOf(t, j) == line {
      m := j;
    } else {
      NextLine(t, j - 1);
      LineOfMonotone(t, i, j - 1);
      m := PlaceOnLine(t, i, j - 1, line);
    }
  }

  function LastPlace(from: nat, end: nat): nat {
    if from < end then end - 1 else from
  }

  lemma SpanIs(t: Bytes, from: nat, end: nat)
    requires from <= end <= |t|
    ensures LineSpan(t, from, end) == (LineOf(t, from), LineOf(t, LastPlace(from, end)))
  {
  }

  lemma {:induction false} SpansMeet(t: Bytes, from: nat, end: nat, from': nat, end': nat)
    requires from <= end <= |t| && from' <= end' <= |t|
    ensures ShareLine(t, from, end, from', end') <==>
      LineOf(t, from) <= LineOf(t, LastPlace(from', end')) && LineOf(t, from') <= LineOf(t, LastPlace(from, end))
  {
    var last, last' := LastPlace(from, end), LastPlace(from', end');
    if ShareLine(t, from, end, from', end') {
      var p: nat, q: nat :| Place(from, end, p) && Place(from', end', q) && p <= |t| && q <= |t|
        && LineOf(t, p) == LineOf(t, q);
      LineOfMonotone(t, from, p);
      LineOfMonotone(t, p, last);
      LineOfMonotone(t, from', q);
      LineOfMonotone(t, q, last');
    }
    if LineOf(t, from) <= LineOf(t, last') && LineOf(t, from') <= LineOf(t, last) {
      if LineOf(t, from') <= LineOf(t, from) {
        var q := PlaceOnLine(t, from', last', LineOf(t, from));
        assert Place(from, end, from) && Place(from', end', q);
      } else {
        var p := PlaceOnLine(t, from, last, LineOf(t, from'));
        assert Place(from, end, p) && Place(from', end', from');
      }
    }
  }

  /** An edit collides with a run exactly when they have places on one line. */
  lemma {:induction false} CollidesIff(t: Bytes, e: Edit, r: ChangedRun)
    requires e.from <= e.to <= |t| && r.aFrom <= r.aTo <= |t|
    ensures Collides(t, e, r) <==> OnOneLine(t, e, r)
  {
    SpansMeet(t, e.from, e.to, r.aFrom, r.aTo);
    SpanIs(t, e.from, e.to);
    SpanIs(t, r.aFrom, r.aTo);
    if Overlaps(e, r) {
      var p := Max(e.from, r.aFrom);
      assert Place(e.from, e.to, p) && Place(r.aFrom, r.aTo, p);
    }
  }

  // ----- hopping -----

  /** Some edit is on a line with some run. */
  ghost predicate AnyTogether(t: Bytes, es: seq<Edit>, runs: seq<ChangedRun>) {
    exists i, j | 0 <= i < |es| && 0 <= j < |runs| :: OnOneLine(t, es[i], runs[j])
  }

  lemma {:induction false} HitIff(t: Bytes, u: Bytes, e: Edit, runs: seq<ChangedRun>)
    requires RunsOf(t, u, runs) && e.from <= e.to <= |t|
    ensures Hit(t, e, runs) <==> exists j | 0 <= j < |runs| :: OnOneLine(t, e, runs[j])
  {
    hide Collides, OnOneLine;
    RunsInRange(t, u, runs);
    forall j | 0 <= j < |runs| ensures Collides(t, e, runs[j]) <==> OnOneLine(t, e, runs[j]) {
      CollidesIff(t, e, runs[j]);
    }
  }

  lemma {:induction false} HitsIff(t: Bytes, u: Bytes, es: seq<Edit>, runs: seq<ChangedRun>)
    requires RunsOf(t, u, runs) && Ascending(es, 0, |t|)
    ensures Hits(t, runs, es) != [] <==> AnyTogether(t, es, runs)
    ensures forall e | e in es :: e in Hits(t, runs, es) <==> exists j | 0 <= j < |runs| :: OnOneLine(t, e, runs[j])
    ensures forall e | e in Hits(t, runs, es) :: e in es && 0 <= e.from <= e.to <= |t|
  {
    hide Hit, OnOneLine, RunsOf, Ascending;
    EachOrdered(es, 0, |t|);
    HitsHit(t, runs, es);
    forall e | e in es
      ensures e in Hits(t, runs, es) <==> exists j | 0 <= j < |runs| :: OnOneLine(t, e, runs[j])
    {
      HitIff(t, u, e, runs);
      if Hit(t, e, runs) {
        HitIsInHits(t, runs, es, e);
      }
    }
    hide Hits;
    if Hits(t, runs, es) != [] {
      var e := Hits(t, runs, es)[0];
      assert e in Hits(t, runs, es) && e in es;
      var i :| 0 <= i < |es| && es[i] == e;
      var j :| 0 <= j < |runs| && OnOneLine(t, es[i], runs[j]);
    }
    if AnyTogether(t, es, runs) {
      var i, j :| 0 <= i < |es| && 0 <= j < |runs| && OnOneLine(t, es[i], runs[j]);
      assert es[i] in Hits(t, runs, es);
    }
  }

  /** A valid edit set is hopped over the runs exactly when no edit and no run have places on one line. */
  lemma {:induction false} HopsIff(cfg: Config, t: Bytes, u: Bytes, runs: seq<ChangedRun>, es: seq<Edit>, version: nat,
      r: RebaseOutcome)
    requires cfg.Valid() && RunsOf(t, u, runs) && Ascending(es, 0, |t|) && RebasedAs(cfg, t, u, runs, es, version, r)
    ensures r.Rebased? <==> !AnyTogether(t, es, runs)
  {
    hide AnyTogether, RunsOf, Ascending, RunEdits, Splice, BuildRoot, ShiftAll, NoneSwallowed, Interleave, Info,
      MergedEdits, LeastRegion;
    HitsIff(t, u, es, runs);
    if Hits(t, runs, es) == [] {
      RebasedTogether(cfg, t, u, runs, es, version, r);
    }
  }

  // ----- the region -----

  /** Every edit that is on a line with a run lies within the range. */
  ghost predicate HoldsTogether(t: Bytes, runs: seq<ChangedRun>, es: seq<Edit>, lo: nat, hi: nat) {
    forall i, j | 0 <= i < |es| && 0 <= j < |runs| && OnOneLine(t, es[i], runs[j]) :: lo <= es[i].from && es[i].to <= hi
  }

  /** The range is of whole lines, cuts no run, and holds what is together; where that is all insertions at
      one place, it reaches past the place, unless the text ends there. */
  ghost predicate Around(t: Bytes, runs: seq<ChangedRun>, es: seq<Edit>, lo: nat, hi: nat) {
    && lo <= hi <= |t| && (lo == 0 || t[lo - 1] == NL) && (hi == |t| || (lo < hi && t[hi - 1] == NL))
    && (forall j | 0 <= j < |runs| ::
         runs[j].aTo <= lo || hi <= runs[j].aFrom || (lo <= runs[j].aFrom && runs[j].aTo <= hi))
    && HoldsTogether(t, runs, es, lo, hi)
    && forall x: nat | HoldsTogether(t, runs, es, x, x) :: x < hi || hi == |t|
  }

  /** The least such range. */
  ghost predicate LeastAround(t: Bytes, runs: seq<ChangedRun>, es: seq<Edit>, lo: nat, hi: nat) {
    Around(t, runs, es, lo, hi) && forall l: nat, h: nat | Around(t, runs, es, l, h) :: l <= lo && hi <= h
  }

  lemma {:induction false} ExtremesAttained(es: seq<Edit>) returns (first: Edit, last: Edit)
    requires es != []
    ensures first in es && first.from == MinFrom(es) && last in es && last.to == MaxTo(es)
    decreases |es|
  {
    first, last := es[|es| - 1], es[|es| - 1];
    if |es| > 1 {
      var f, l := ExtremesAttained(es[..|es| - 1]);
      if f.from < first.from {
        first := f;
      }
      if l.to > last.to {
        last := l;
      }
    }
  }

  lemma {:induction false} HoldsIff(t: Bytes, u: Bytes, runs: seq<ChangedRun>, es: seq<Edit>, lo: nat, hi: nat)
    requires RunsOf(t, u, runs) && Ascending(es, 0, |t|) && Hits(t, runs, es) != []
    ensures HoldsTogether(t, runs, es, lo, hi) <==> lo <= MinFrom(Hits(t, runs, es)) && MaxTo(Hits(t, runs, es)) <= hi
  {
    hide OnOneLine, RunsOf, Ascending, Hits;
    HitsIff(t, u, es, runs);
    var hits := Hits(t, runs, es);
    ExtremesBound(hits);
    if HoldsTogether(t, runs, es, lo, hi) {
      var first, last := ExtremesAttained(hits);
      HeldAt(t, runs, es, lo, hi, first);
      HeldAt(t, runs, es, lo, hi, last);
    }
    if lo <= MinFrom(hits) && MaxTo(hits) <= hi {
      forall i, j | 0 <= i < |es| && 0 <= j < |runs| && OnOneLine(t, es[i], runs[j])
        ensures lo <= es[i].from && es[i].to <= hi
      {
        assert es[i] in hits;
      }
    }
  }

  lemma HeldAt(t: Bytes, runs: seq<ChangedRun>, es: seq<Edit>, lo: nat, hi: nat, e: Edit)
    requires HoldsTogether(t, runs, es, lo, hi) && e in es && exists j | 0 <= j < |runs| :: OnOneLine(t, e, runs[j])
    ensures lo <= e.from && e.to <= hi
  {
    hide OnOneLine;
    var i :| 0 <= i < |es| && es[i] == e;
    var j :| 0 <= j < |runs| && OnOneLine(t, es[i], runs[j]);
  }

  lemma {:induction false} AroundIff(t: Bytes, u: Bytes, runs: seq<ChangedRun>, es: seq<Edit>, lo: nat, hi: nat)
    requires RunsOf(t, u, runs) && Ascending(es, 0, |t|) && Hits(t, runs, es) != []
    ensures var lo0, hi0 := MinFrom(Hits(t, runs, es)), MaxTo(Hits(t, runs, es));
      Around(t, runs, es, lo, hi) <==>
        WholeRegion(t, runs, lo, hi) && lo <= lo0 && hi0 <= hi <= |t| && ReachesPast(t, lo0, hi0, hi)
  {
    hide RunsOf, Ascending, Hits, HoldsTogether, WholeRegion;
    HitsWithin(t, runs, es, 0);
    forall x: nat, y: nat
      ensures HoldsTogether(t, runs, es, x, y) <==> x <= MinFrom(Hits(t, runs, es)) && MaxTo(Hits(t, runs, es)) <= y
    {
      HoldsIff(t, u, runs, es, x, y);
    }
    var x := MinFrom(Hits(t, runs, es));
    assert HoldsTogether(t, runs, es, x, x) <==> MaxTo(Hits(t, runs, es)) == x;
    WholeIff(t, runs, lo, hi);
  }

  lemma WholeIff(t: Bytes, runs: seq<ChangedRun>, lo: nat, hi: nat)
    ensures WholeRegion(t, runs, lo, hi) <==>
      && lo <= hi <= |t| && (lo == 0 || t[lo - 1] == NL) && (hi == |t| || (lo < hi && t[hi - 1] == NL))
      && (forall j | 0 <= j < |runs| ::
           runs[j].aTo <= lo || hi <= runs[j].aFrom || (lo <= runs[j].aFrom && runs[j].aTo <= hi))
  {
  }

  /** The region of a merge is the least range of whole lines around what is together. */
  lemma {:induction false} LeastAroundIff(t: Bytes, u: Bytes, runs: seq<ChangedRun>, es: seq<Edit>, lo: nat, hi: nat)
    requires RunsOf(t, u, runs) && Ascending(es, 0, |t|) && Hits(t, runs, es) != []
    ensures LeastRegion(t, runs, MinFrom(Hits(t, runs, es)), MaxTo(Hits(t, runs, es)), lo, hi) <==>
      LeastAround(t, runs, es, lo, hi)
    ensures LeastAround(t, runs, es, lo, hi) ==> lo <= hi <= |t|
  {
    hide RunsOf, Ascending, Hits, Around, WholeRegion, ReachesPast;
    var lo0, hi0 := MinFrom(Hits(t, runs, es)), MaxTo(Hits(t, runs, es));
    forall l: nat, h: nat
      ensures Around(t, runs, es, l, h) <==>
        WholeRegion(t, runs, l, h) && l <= lo0 && hi0 <= h <= |t| && ReachesPast(t, lo0, hi0, h)
    {
      AroundIff(t, u, runs, es, l, h);
    }
    forall l: nat, h: nat | WholeRegion(t, runs, l, h) ensures h <= |t| {
      WholeWithin(t, runs, l, h);
    }
    if LeastAround(t, runs, es, lo, hi) {
      WholeWithin(t, runs, lo, hi);
    }
  }

  lemma WholeWithin(t: Bytes, runs: seq<ChangedRun>, lo: nat, hi: nat)
    requires WholeRegion(t, runs, lo, hi)
    ensures lo <= hi <= |t|
  {
  }

  // ----- what the merge takes, and when it is refused -----

  /** An edit spans an end of the region, or starts at its end and changes something there, where nothing
      is left of the region. */
  predicate Spans(e: Edit, lo: nat, hi: nat, gone: bool) {
    e.from < lo < e.to || e.from < hi < e.to || (gone && e.from == hi < e.to)
  }

  lemma {:induction false} InLeftOver(t: Bytes, runs: seq<ChangedRun>, lo: nat, hi: nat, es: seq<Edit>, e: Edit)
    ensures e in LeftOver(t, runs, lo, hi, es) <==> e in es && !InRegion(t, runs, lo, hi, e)
    ensures e in Picked(t, runs, lo, hi, es) <==> e in es && InRegion(t, runs, lo, hi, e)
    decreases |es|
  {
    hide InRegion;
    if es != [] {
      InLeftOver(t, runs, lo, hi, es[1..], e);
    }
  }

  /** The merge takes what is together, and what lies in the region and is no insertion at one of its ends. */
  lemma {:induction false} PickedIff(t: Bytes, u: Bytes, runs: seq<ChangedRun>, es: seq<Edit>, lo: nat, hi: nat,
      e: Edit)
    requires RunsOf(t, u, runs) && Ascending(es, 0, |t|) && e in es
    ensures e in Picked(t, runs, lo, hi, es) <==>
      || (exists j | 0 <= j < |runs| :: OnOneLine(t, e, runs[j]))
      || (lo <= e.from && e.to <= hi && (e.from < e.to || lo < e.from < hi))
  {
    hide OnOneLine, RunsOf, Ascending, Hit;
    EachOrdered(es, 0, |t|);
    HitIff(t, u, e, runs);
    InLeftOver(t, runs, lo, hi, es, e);
  }

  /** A valid edit set whose merge is clean is refused exactly when one of its edits spans an end of the
      region, or changes what comes right behind a region of which the other side left nothing. */
  lemma {:induction false} RefusalIff(cfg: Config, t: Bytes, u: Bytes, runs: seq<ChangedRun>, es: seq<Edit>, lo: nat,
      hi: nat, version: nat, r: RebaseOutcome)
    requires cfg.Valid() && RunsOf(t, u, runs) && Ascending(es, 0, |t|) && Hits(t, runs, es) != []
    requires LeastAround(t, runs, es, lo, hi)
    requires MergeOutcome(cfg, t, u, runs, es, lo, hi, version, r) && !r.Conflicted?
    ensures r.BadEdit? <==>
      exists e | e in es :: Spans(e, lo, hi, CurrentOf(t, u, runs, lo) == CurrentOf(t, u, runs, hi))
    ensures r.BadEdit? || r.Merged?
  {
    hide RunsOf, Ascending, Hits, LeastAround, LeastRegion, InTheWay, Spans, CurrentOf, MergeOutcome, InRegion;
    LeastAroundIff(t, u, runs, es, lo, hi);
    RefusedIff(cfg, t, u, runs, es, lo, hi, version, r);
    var curLo, curHi := CurrentOf(t, u, runs, lo), CurrentOf(t, u, runs, hi);
    forall e | e in es
      ensures Spans(e, lo, hi, curLo == curHi) <==>
        e in LeftOver(t, runs, lo, hi, es) && InTheWay(e, lo, hi, curLo, curHi)
    {
      InLeftOver(t, runs, lo, hi, es, e);
      InTheWayIff(t, runs, es, lo, hi, curLo, curHi, e);
    }
    forall e | e in LeftOver(t, runs, lo, hi, es) ensures e in es {
      InLeftOver(t, runs, lo, hi, es, e);
    }
  }

  lemma {:induction false} InTheWayIff(t: Bytes, runs: seq<ChangedRun>, es: seq<Edit>, lo: nat, hi: nat, curLo: nat,
      curHi: nat, e: Edit)
    requires Ascending(es, 0, |t|) && Hits(t, runs, es) != [] && e in es && lo <= hi
    requires LeastRegion(t, runs, MinFrom(Hits(t, runs, es)), MaxTo(Hits(t, runs, es)), lo, hi)
    ensures Spans(e, lo, hi, curLo == curHi) <==>
      !InRegion(t, runs, lo, hi, e) && InTheWay(e, lo, hi, curLo, curHi)
  {
    EachOrdered(es, 0, |t|);
    TakenWithin(t, runs, es, lo, hi);
    hide Ascending, Hits, LeastRegion, Hit;
  }

  /** A merge conflicts as diff3 does over the region, its edits, and what the region is now; the caller is
      told these, the version read, and the first and the last line of what the region is now, from 1 on. */
  lemma {:induction false} ConflictTells(cfg: Config, t: Bytes, u: Bytes, runs: seq<ChangedRun>, es: seq<Edit>, lo: nat,
      hi: nat, version: nat, r: RebaseOutcome)
    requires cfg.Valid() && RunsOf(t, u, runs) && Ascending(es, 0, |t|) && Hits(t, runs, es) != []
    requires LeastAround(t, runs, es, lo, hi) && MergeOutcome(cfg, t, u, runs, es, lo, hi, version, r)
    ensures lo <= hi <= |t| && Ascending(Picked(t, runs, lo, hi, es), lo, hi)
    ensures var ours, curLo, curHi := SpliceFrom(t[..hi], Picked(t, runs, lo, hi, es), lo),
        CurrentOf(t, u, runs, lo), CurrentOf(t, u, runs, hi);
      && curLo <= curHi <= |u|
      && (r.Conflicted? <==> Diff3(t[lo..hi], ours, u[curLo..curHi]) == Conflict)
      && (r.Conflicted? ==> r.info == ConflictInfo(LineOf(u, curLo) + 1, LineOf(u, LastPlace(curLo, curHi)) + 1,
            t[lo..hi], u[curLo..curHi], ours, version))
  {
    hide RunsOf, Ascending, Hits, LeastAround, LeastRegion, CurrentOf, Picked, SpliceFrom, Diff3, MergedEdits, Info,
      BuildRoot, Splice, LineOf;
    LeastAroundIff(t, u, runs, es, lo, hi);
    InfoIs(t, u, runs, es, lo, hi, version);
  }

  lemma {:induction false} InfoIs(t: Bytes, u: Bytes, runs: seq<ChangedRun>, es: seq<Edit>, lo: nat, hi: nat,
      version: nat)
    requires RunsOf(t, u, runs) && Ascending(es, 0, |t|) && Hits(t, runs, es) != []
    requires LeastRegion(t, runs, MinFrom(Hits(t, runs, es)), MaxTo(Hits(t, runs, es)), lo, hi)
    ensures lo <= hi <= |t| && Ascending(Picked(t, runs, lo, hi, es), lo, hi)
    ensures var curLo, curHi := CurrentOf(t, u, runs, lo), CurrentOf(t, u, runs, hi);
      && curLo <= curHi <= |u|
      && Info(t, u, runs, es, lo, hi, version) == ConflictInfo(LineOf(u, curLo) + 1,
           LineOf(u, LastPlace(curLo, curHi)) + 1, t[lo..hi], u[curLo..curHi],
           SpliceFrom(t[..hi], Picked(t, runs, lo, hi, es), lo), version)
  {
    hide RunsOf, Ascending, Hits, LeastRegion, CurrentOf, Picked, SpliceFrom, RunEdits, EditedPart, SortByFrom,
      RegionRuns, LineOf;
    RegionFacts(t, u, runs, es, lo, hi);
    RegionTextsAre(t, u, runs, es, lo, hi, version);
  }
}
