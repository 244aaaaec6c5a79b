/** What a rebase means for the text. */
module RebaseLaws {
  import opened Text
  import opened Nodes
  import opened Tree
  import opened Splicing
  import opened Scripts
  import opened TreeDiff
  import opened Shifting
  import opened Regions
  import opened ThreeWay
  import opened Rebasing

  // ----- nothing collides -----

  /** When no edit shares a line with a concurrent run, rebasing succeeds, and the result is the base
      with both change sets applied together, exactly when no run is a pure insertion at the exclusive
      end of a non-empty edit. */
  lemma {:induction false} RebasedTogether(cfg: Config, t: Bytes, u: Bytes, runs: seq<ChangedRun>, es: seq<Edit>,
      version: nat, r: RebaseOutcome)
    requires cfg.Valid() && RunsOf(t, u, runs) && Ascending(es, 0, |t|) && RebasedAs(cfg, t, u, runs, es, version, r)
    requires Hits(t, runs, es) == []
    ensures r.Rebased? && Ascending(Interleave(es, RunEdits(t, u, runs)), 0, |t|)
    ensures TextOf(r.root) == Splice(t, Interleave(es, RunEdits(t, u, runs))) <==>
      NoneSwallowed(es, RunEdits(t, u, runs))
  {
    var rs := RunEdits(t, u, runs);
    RunsSplice(t, u, runs);
    NoHitsAllClear(t, runs, es);
    EachOrdered(es, 0, |t|);
    assert AllClear(t, runs, es);
    ClearAreSeparate(t, u, es, runs);
    HoppingIsTogether(t, es, rs);
    var _ := BuiltRoot(cfg, Splice(u, ShiftAll(es, rs, 0)));
  }

  // ----- cutting a text between changes -----

  /** The changes that end at `p` or before, and the others. */
  function Upto(p: int, rs: seq<Edit>): seq<Edit> {
    if rs == [] || rs[0].to > p then [] else [rs[0]] + Upto(p, rs[1..])
  }

  function Later(p: int, rs: seq<Edit>): seq<Edit> {
    if rs == [] || rs[0].to > p then rs else Later(p, rs[1..])
  }

  lemma {:induction false} UptoLater(p: int, rs: seq<Edit>)
    ensures rs == Upto(p, rs) + Later(p, rs)
    decreases |rs|
  {
    if rs != [] && rs[0].to <= p {
      UptoLater(p, rs[1..]);
      assert rs == [rs[0]] + (Upto(p, rs[1..]) + Later(p, rs[1..]));
    }
  }

  /** A point that no change spans cuts the base, the changes and the changed text alike. */
  lemma {:induction false} CutBetween(t: Bytes, u: Bytes, rs: seq<Edit>, x: nat, y: nat, p: nat)
    requires InStep(t, u, rs, x, y) && x <= p <= |t| && Outside(p, rs)
    ensures var q := Shift(p, rs) + y - x;
      y <= q <= |u| && InStep(t, u, Later(p, rs), p, q)
      && Ascending(Upto(p, rs), x, p) && u[y..q] == SpliceFrom(t[..p], Upto(p, rs), x)
    decreases |rs|
  {
    if rs != [] && rs[0].to <= p {
      var r := rs[0];
      var y' := y + (r.from - x) + |r.replacement|;
      PassChange(t, u, rs, x, y);
      OutsideTail(p, rs);
      CutBetween(t, u, rs[1..], r.to, y', p);
      hide SpliceFrom, Ascending, Outside;
      CutChange(t, u, rs, x, y, p, y', Shift(p, rs) + y - x);
    } else {
      PassText(t, u, rs, x, y, p);
      assert t[..p][x..] == t[x..p];
    }
  }

  lemma {:induction false} CutChange(t: Bytes, u: Bytes, rs: seq<Edit>, x: nat, y: nat, p: nat, y': nat, q: nat)
    requires rs != [] && x <= rs[0].from <= rs[0].to <= p <= |t| && y <= y' <= q <= |u|
    requires u[y..y'] == t[x..rs[0].from] + rs[0].replacement
    requires Ascending(Upto(p, rs[1..]), rs[0].to, p) && u[y'..q] == SpliceFrom(t[..p], Upto(p, rs[1..]), rs[0].to)
    ensures Ascending(Upto(p, rs), x, p) && u[y..q] == SpliceFrom(t[..p], Upto(p, rs), x)
  {
    var rest := Upto(p, rs[1..]);
    assert Upto(p, rs)[1..] == rest;
    WithinPrefix(t, x, rs[0].from, p);
    assert u[y..q] == u[y..y'] + u[y'..q];
  }

  /** Edits before a point and behind it splice the text before it and behind it. */
  lemma {:induction false} SpliceAppend(t: Bytes, es: seq<Edit>, fs: seq<Edit>, at: nat, m: nat)
    requires Ascending(es, at, m) && Ascending(fs, m, |t|) && m <= |t|
    ensures Ascending(es + fs, at, |t|)
    ensures SpliceFrom(t, es + fs, at) == SpliceFrom(t[..m], es, at) + SpliceFrom(t, fs, m)
    decreases |es|
  {
    if es == [] {
      assert es + fs == fs;
      if fs != [] {
        AscendingEnds(fs, m, |t|);
      }
      assert Ascending(fs, at, |t|);
      SpliceLater(t, fs, at, m);
      assert t[..m][at..] == t[at..m];
    } else {
      var e := es[0];
      assert (es + fs)[1..] == es[1..] + fs;
      AscendingEnds(es, at, m);
      SpliceAppend(t, es[1..], fs, e.to, m);
      WithinPrefix(t, at, e.from, m);
      AppendText(t[at..e.from] + e.replacement, SpliceFrom(t[..m], es[1..], e.to), SpliceFrom(t, fs, m));
    }
  }

  lemma {:induction false} AppendText(a: Bytes, b: Bytes, c: Bytes)
    ensures a + (b + c) == (a + b) + c
  {
  }

  // ----- sorting what is sorted -----

  lemma {:induction false} InsertSplits(es: seq<Edit>, x: Edit) returns (before: seq<Edit>, after: seq<Edit>)
    ensures before + after == es && Insert(es, x) == before + [x] + after
    decreases |es|
  {
    if es == [] || es[|es| - 1].from <= x.from {
      before, after := es, [];
      assert es + [x] + [] == Insert(es, x);
    } else {
      var l := es[|es| - 1];
      var b, a := InsertSplits(es[..|es| - 1], x);
      before, after := b, a + [l];
      assert es == es[..|es| - 1] + [l];
      assert before + after == (b + a) + [l];
      assert before + [x] + after == (b + [x] + a) + [l];
    }
  }

  lemma {:induction false} AscendingInit(es: seq<Edit>, at: nat, n: nat)
    requires Ascending(es, at, n) && es != []
    ensures Ascending(es[..|es| - 1], at, es[|es| - 1].from)
    ensures at <= es[|es| - 1].from <= es[|es| - 1].to <= n
    decreases |es|
  {
    AscendingAt(es, at, n, |es| - 1);
    if |es| > 1 {
      assert es[..|es| - 1][1..] == es[1..][..|es[1..]| - 1];
      AscendingInit(es[1..], es[0].to, n);
    }
  }

  lemma {:induction false} SortedAlready(es: seq<Edit>, at: nat, n: nat)
    requires Ascending(es, at, n)
    ensures SortByFrom(es) == es
    decreases |es|
  {
    if es != [] {
      var front, l := es[..|es| - 1], es[|es| - 1];
      AscendingInit(es, at, n);
      SortedAlready(front, at, l.from);
      if front != [] {
        AscendingInit(front, at, l.from);
      }
      assert es == front + [l];
    }
  }

  lemma {:induction false} SortLast(es: seq<Edit>, x: Edit, at: nat, n: nat)
    requires Ascending(es, at, n)
    ensures SortByFrom(es + [x]) == Insert(es, x)
  {
    assert (es + [x])[..|es|] == es;
    SortedAlready(es, at, n);
  }

  // ----- the parts of an edit set -----

  lemma {:induction false} PickedWithin(t: Bytes, runs: seq<ChangedRun>, lo: nat, hi: nat, es: seq<Edit>, at: nat)
    requires Ascending(es, at, |t|) && lo <= hi
    requires forall e | e in es && InRegion(t, runs, lo, hi, e) :: lo <= e.from && e.to <= hi
    ensures Ascending(Picked(t, runs, lo, hi, es), lo, hi)
    ensures Picked(t, runs, lo, hi, es) != [] ==> at <= Picked(t, runs, lo, hi, es)[0].from
    decreases |es|
  {
    if es != [] {
      PickedWithin(t, runs, lo, hi, es[1..], es[0].to);
      var rest := Picked(t, runs, lo, hi, es[1..]);
      if InRegion(t, runs, lo, hi, es[0]) {
        assert es[0] in es;
        assert ([es[0]] + rest)[1..] == rest;
        assert Ascending(rest, es[0].to, hi);
      } else {
        assert [] + rest == rest;
      }
    }
  }

  lemma {:induction false} LeftOverAscending(t: Bytes, runs: seq<ChangedRun>, lo: nat, hi: nat, es: seq<Edit>, at: nat,
      n: nat)
    requires Ascending(es, at, n)
    ensures Ascending(LeftOver(t, runs, lo, hi, es), at, n)
    decreases |es|
  {
    if es != [] {
      LeftOverAscending(t, runs, lo, hi, es[1..], es[0].to, n);
      var rest := LeftOver(t, runs, lo, hi, es[1..]);
      if InRegion(t, runs, lo, hi, es[0]) {
        assert [] + rest == rest;
        AscendingEnds(es, at, n);
        LowerStart(rest, es[0].to, at, n);
      } else {
        assert ([es[0]] + rest)[1..] == rest;
      }
    }
  }

  lemma {:induction false} LowerStart(es: seq<Edit>, at: nat, at': nat, n: nat)
    requires Ascending(es, at, n) && at' <= at
    ensures Ascending(es, at', n)
  {
  }

  /** Within the text, our text of a region is the region with our edits spliced in. */
  lemma {:induction false} EditedPartIsSplice(t: Bytes, es: seq<Edit>, pos: nat, hi: nat)
    requires hi <= |t| && Ascending(es, pos, hi)
    ensures EditedPart(t, es, pos, hi) == SpliceFrom(t[..hi], es, pos)
    decreases |es|
  {
    if es == [] {
      PartIs(t, pos, hi, hi);
    } else {
      AscendingEnds(es, pos, hi);
      PartIs(t, pos, es[0].from, hi);
      EditedPartIsSplice(t, es[1..], es[0].to, hi);
    }
  }

  lemma {:induction false} PartIs(t: Bytes, from: nat, end: nat, n: nat)
    requires from <= end <= n <= |t|
    ensures Part(t, from, end) == t[..n][from..end] && (end == n ==> t[..n][from..] == t[..n][from..end])
  {
  }

  // ----- a merge -----

  /** The hits of an ascending edit set, and what the least region around them has to hold. */
  lemma {:induction false} ExtremesBound(es: seq<Edit>)
    requires es != []
    ensures forall e | e in es :: MinFrom(es) <= e.from && e.to <= MaxTo(es)
    decreases |es|
  {
    if |es| > 1 {
      ExtremesBound(es[..|es| - 1]);
      assert es == es[..|es| - 1] + [es[|es| - 1]];
    }
  }

  lemma {:induction false} HitIsInHits(t: Bytes, runs: seq<ChangedRun>, es: seq<Edit>, e: Edit)
    requires e in es && Hit(t, e, runs)
    ensures e in Hits(t, runs, es)
    decreases |es|
  {
    if es[0] != e {
      HitIsInHits(t, runs, es[1..], e);
    }
  }

  /** Every edit the merge takes lies in the region. */
  lemma {:induction false} TakenWithin(t: Bytes, runs: seq<ChangedRun>, es: seq<Edit>, lo: nat, hi: nat)
    requires Hits(t, runs, es) != [] && lo <= MinFrom(Hits(t, runs, es)) && MaxTo(Hits(t, runs, es)) <= hi
    ensures forall e | e in es && InRegion(t, runs, lo, hi, e) :: lo <= e.from && e.to <= hi
  {
    ExtremesBound(Hits(t, runs, es));
    forall e | e in es && Hit(t, e, runs) ensures lo <= e.from && e.to <= hi {
      HitIsInHits(t, runs, es, e);
    }
  }

  lemma {:induction false} RegionEndsOutside(t: Bytes, u: Bytes, runs: seq<ChangedRun>, lo: nat, hi: nat)
    requires RunsOf(t, u, runs) && CutsNone(runs, lo, hi) && lo <= hi
    ensures Outside(lo, RunEdits(t, u, runs)) && Outside(hi, RunEdits(t, u, runs))
  {
    var rs := RunEdits(t, u, runs);
    forall j | 0 <= j < |rs| ensures lo <= rs[j].from || rs[j].to <= lo {
      assert rs[j].from == runs[j].aFrom && rs[j].to == runs[j].aTo;
    }
    forall j | 0 <= j < |rs| ensures hi <= rs[j].from || rs[j].to <= hi {
      assert rs[j].from == runs[j].aFrom && rs[j].to == runs[j].aTo;
    }
  }

  /** The runs of the region: those behind its start that end within it. */
  ghost function RegionRuns(t: Bytes, u: Bytes, runs: seq<ChangedRun>, lo: nat, hi: nat): seq<Edit>
    requires RunsOf(t, u, runs)
  {
    Upto(hi, Later(lo, RunEdits(t, u, runs)))
  }

  lemma {:induction false} LaterOutside(p: int, q: int, rs: seq<Edit>)
    requires Outside(q, rs)
    ensures Outside(q, Later(p, rs))
    decreases |rs|
  {
    if rs != [] && rs[0].to <= p {
      OutsideTail(q, rs);
      LaterOutside(p, q, rs[1..]);
    }
  }

  lemma {:induction false} ShiftLater(p: int, q: int, rs: seq<Edit>)
    requires p <= q
    ensures Shift(q, rs) - Shift(q, Later(p, rs)) == Shift(p, rs) - p
    decreases |rs|
  {
    if rs != [] && rs[0].to <= p {
      ShiftLater(p, q, rs[1..]);
    }
  }

  /** Their text of the region is the region with their runs spliced in; what is before it and behind
      it in the current text is what the other runs made of the base there. */
  lemma {:induction false} TheirText(t: Bytes, u: Bytes, runs: seq<ChangedRun>, lo: nat, hi: nat)
    requires RunsOf(t, u, runs) && CutsNone(runs, lo, hi) && lo <= hi <= |t|
    ensures var curLo, curHi := CurrentOf(t, u, runs, lo), CurrentOf(t, u, runs, hi);
      && curLo <= curHi <= |u|
      && Ascending(RegionRuns(t, u, runs, lo, hi), lo, hi)
      && u[curLo..curHi] == SpliceFrom(t[..hi], RegionRuns(t, u, runs, lo, hi), lo)
      && InStep(t, u, Later(hi, Later(lo, RunEdits(t, u, runs))), hi, curHi)
    ensures var before := Upto(lo, RunEdits(t, u, runs));
      Ascending(before, 0, lo) && u[..CurrentOf(t, u, runs, lo)] == Splice(t[..lo], before)
  {
    hide RunsOf, RunEdits, CutsNone;
    var rs := RunEdits(t, u, runs);
    RunsSplice(t, u, runs);
    RegionEndsOutside(t, u, runs, lo, hi);
    CutRegion(t, u, rs, lo, hi);
  }

  lemma {:induction false} CutRegion(t: Bytes, u: Bytes, rs: seq<Edit>, lo: nat, hi: nat)
    requires Ascending(rs, 0, |t|) && u == Splice(t, rs) && lo <= hi <= |t| && Outside(lo, rs) && Outside(hi, rs)
    ensures 0 <= Shift(lo, rs) <= Shift(hi, rs) <= |u|
    ensures Ascending(Upto(lo, rs), 0, lo) && u[..Shift(lo, rs)] == Splice(t[..lo], Upto(lo, rs))
    ensures Ascending(Upto(hi, Later(lo, rs)), lo, hi)
      && u[Shift(lo, rs)..Shift(hi, rs)] == SpliceFrom(t[..hi], Upto(hi, Later(lo, rs)), lo)
    ensures InStep(t, u, Later(hi, Later(lo, rs)), hi, Shift(hi, rs))
  {
    hide Outside, SpliceFrom, Ascending, Shift, Upto, Later, InStep;
    InStepAtStart(t, u, rs);
    CutBetween(t, u, rs, 0, 0, lo);
    var curLo := Shift(lo, rs);
    LaterOutside(lo, hi, rs);
    CutBetween(t, u, Later(lo, rs), lo, curLo, hi);
    ShiftLater(lo, hi, rs);
    PrefixFromZero(u, curLo);
  }

  lemma {:induction false} InStepAtStart(t: Bytes, u: Bytes, rs: seq<Edit>)
    requires Ascending(rs, 0, |t|) && u == Splice(t, rs)
    ensures InStep(t, u, rs, 0, 0)
  {
    assert u[0..] == u;
  }

  lemma PrefixFromZero(u: Bytes, n: nat)
    requires n <= |u|
    ensures u[0..n] == u[..n]
  {
  }

  /** The base text, our text and their text of the region. */
  lemma {:induction false} RegionTextsAre(t: Bytes, u: Bytes, runs: seq<ChangedRun>, es: seq<Edit>, lo: nat, hi: nat,
      version: nat)
    requires RunsOf(t, u, runs) && Ascending(es, 0, |t|) && Hits(t, runs, es) != []
    requires LeastRegion(t, runs, MinFrom(Hits(t, runs, es)), MaxTo(Hits(t, runs, es)), lo, hi)
    ensures lo <= hi <= |t| && Ascending(Picked(t, runs, lo, hi, es), lo, hi)
    ensures Ascending(RegionRuns(t, u, runs, lo, hi), lo, hi)
    ensures var i := Info(t, u, runs, es, lo, hi, version);
      && i.base == t[lo..hi]
      && i.ours == SpliceFrom(t[..hi], Picked(t, runs, lo, hi, es), lo)
      && i.theirs == SpliceFrom(t[..hi], RegionRuns(t, u, runs, lo, hi), lo)
  {
    TakenWithin(t, runs, es, lo, hi);
    PickedWithin(t, runs, lo, hi, es, 0);
    SortedAlready(Picked(t, runs, lo, hi, es), lo, hi);
    EditedPartIsSplice(t, Picked(t, runs, lo, hi, es), lo, hi);
    TheirText(t, u, runs, lo, hi);
    hide SpliceFrom, Ascending, LeastRegion, RunsOf, Picked, SortByFrom, EditedPart;
    PartOf(t, lo, hi);
    PartOf(u, CurrentOf(t, u, runs, lo), CurrentOf(t, u, runs, hi));
  }

  lemma {:induction false} PartOf(t: Bytes, from: nat, end: nat)
    requires from <= end <= |t|
    ensures Part(t, from, end) == t[from..end]
  {
  }

  /** Edits before a replaced range, the range, and edits behind it. */
  lemma {:induction false} SpliceAround(u: Bytes, before: seq<Edit>, x: Edit, after: seq<Edit>)
    requires Ascending(before + [x] + after, 0, |u|)
    ensures Ascending(before, 0, x.from) && x.from <= x.to <= |u| && Ascending(after, x.to, |u|)
    ensures Splice(u, before + [x] + after) == Splice(u[..x.from], before) + x.replacement + SpliceFrom(u, after, x.to)
  {
    hide Ascending, SpliceFrom;
    SplitAscending(before, x, after, 0, |u|);
    FirstOfTail(u, x, after);
    EditsAssoc(before, [x], after);
    SpliceAppend(u, before, [x] + after, 0, x.from);
    AppendText(SpliceFrom(u[..x.from], before, 0), x.replacement, SpliceFrom(u, after, x.to));
  }

  lemma {:induction false} EditsAssoc(a: seq<Edit>, b: seq<Edit>, c: seq<Edit>)
    ensures a + b + c == a + (b + c)
  {
  }

  lemma {:induction false} FirstOfTail(u: Bytes, x: Edit, after: seq<Edit>)
    requires x.from <= x.to <= |u| && Ascending(after, x.to, |u|)
    ensures Ascending([x] + after, x.from, |u|)
    ensures SpliceFrom(u, [x] + after, x.from) == x.replacement + SpliceFrom(u, after, x.to)
  {
    var tail := [x] + after;
    assert tail[1..] == after;
    assert SpliceFrom(u, tail, x.from) == u[x.from..x.from] + x.replacement + SpliceFrom(u, after, x.to);
    assert u[x.from..x.from] + x.replacement == x.replacement;
  }

  lemma {:induction false} SplitAscending(before: seq<Edit>, x: Edit, after: seq<Edit>, at: nat, n: nat)
    requires Ascending(before + [x] + after, at, n)
    ensures Ascending(before, at, x.from) && x.from <= x.to <= n && Ascending(after, x.to, n)
    decreases |before|
  {
    var all := before + [x] + after;
    if before == [] {
      assert all[0] == x && all[1..] == after;
      AscendingEnds(after, x.to, n);
    } else {
      assert all[0] == before[0] && all[1..] == before[1..] + [x] + after;
      SplitAscending(before[1..], x, after, before[0].to, n);
    }
  }

  /** Whatever merges cleanly is the current text with the merged region in its place and our other
      edits, carried over the runs, around it. */
  lemma {:induction false} MergedShape(cfg: Config, t: Bytes, u: Bytes, runs: seq<ChangedRun>, es: seq<Edit>, lo: nat,
      hi: nat, version: nat, r: RebaseOutcome)
      returns (merged: Bytes, before: seq<Edit>, after: seq<Edit>)
    requires cfg.Valid() && RunsOf(t, u, runs) && Ascending(es, 0, |t|) && Hits(t, runs, es) != []
    requires LeastRegion(t, runs, MinFrom(Hits(t, runs, es)), MaxTo(Hits(t, runs, es)), lo, hi)
    requires MergeOutcome(cfg, t, u, runs, es, lo, hi, version, r) && r.Merged?
    ensures lo <= hi <= |t| && Ascending(Picked(t, runs, lo, hi, es), lo, hi)
    ensures Ascending(RegionRuns(t, u, runs, lo, hi), lo, hi)
    ensures Diff3(t[lo..hi], SpliceFrom(t[..hi], Picked(t, runs, lo, hi, es), lo),
      SpliceFrom(t[..hi], RegionRuns(t, u, runs, lo, hi), lo))
      == Clean(merged)
    ensures before + after == ShiftAll(LeftOver(t, runs, lo, hi, es), RunEdits(t, u, runs), 0)
    ensures var curLo, curHi := CurrentOf(t, u, runs, lo), CurrentOf(t, u, runs, hi);
      && curLo <= curHi <= |u| && Ascending(before, 0, curLo) && Ascending(after, curHi, |u|)
      && TextOf(r.root) == Splice(u[..curLo], before) + merged + SpliceFrom(u, after, curHi)
  {
    RegionTextsAre(t, u, runs, es, lo, hi, version);
    var i := Info(t, u, runs, es, lo, hi, version);
    merged := Diff3(i.base, i.ours, i.theirs).text;
    var curLo, curHi := CurrentOf(t, u, runs, lo), CurrentOf(t, u, runs, hi);
    var rs := RunEdits(t, u, runs);
    RunsSplice(t, u, runs);
    var rest := LeftOver(t, runs, lo, hi, es);
    LeftOverShifted(t, u, runs, es, lo, hi);
    var x := Edit(curLo, curHi, merged);
    SortLast(ShiftAll(rest, rs, 0), x, 0, |u|);
    before, after := InsertSplits(ShiftAll(rest, rs, 0), x);
    SpliceAround(u, before, x, after);
    var _ := BuiltRoot(cfg, Splice(u, MergedEdits(t, u, runs, es, lo, hi, merged)));
  }

  lemma {:induction false} LeftOverClear(t: Bytes, runs: seq<ChangedRun>, lo: nat, hi: nat, es: seq<Edit>, at: nat)
    requires Ascending(es, at, |t|)
    ensures AllClear(t, runs, LeftOver(t, runs, lo, hi, es))
    decreases |es|
  {
    hide Hit;
    if es != [] {
      AscendingEnds(es, at, |t|);
      LeftOverClear(t, runs, lo, hi, es[1..], es[0].to);
      EachOrdered(es, at, |t|);
    }
  }

  /** Edits that collide with nothing can be carried over the runs. */
  lemma {:induction false} ClearShifts(t: Bytes, u: Bytes, runs: seq<ChangedRun>, es: seq<Edit>)
    requires RunsOf(t, u, runs) && Ascending(es, 0, |t|) && AllClear(t, runs, es)
    ensures Separate(es, RunEdits(t, u, runs))
    ensures Ascending(ShiftAll(es, RunEdits(t, u, runs), 0), 0, |u|)
  {
    hide Hit, ShiftAll, Separate, AllClear, RunEdits, Follows;
    RunsSplice(t, u, runs);
    ClearAreSeparate(t, u, es, runs);
    assert u[0..] == u;
    ShiftedInto(t, u, es, RunEdits(t, u, runs), 0, 0);
  }

  lemma {:induction false} LeftOverShifted(t: Bytes, u: Bytes, runs: seq<ChangedRun>, es: seq<Edit>, lo: nat, hi: nat)
    requires RunsOf(t, u, runs) && Ascending(es, 0, |t|)
    ensures Ascending(LeftOver(t, runs, lo, hi, es), 0, |t|)
    ensures Separate(LeftOver(t, runs, lo, hi, es), RunEdits(t, u, runs))
    ensures Ascending(ShiftAll(LeftOver(t, runs, lo, hi, es), RunEdits(t, u, runs), 0), 0, |u|)
  {
    hide RunsOf, LeftOver, Ascending, ShiftAll, RunEdits, Separate, AllClear;
    LeftOverAscending(t, runs, lo, hi, es, 0, |t|);
    LeftOverClear(t, runs, lo, hi, es, 0);
    ClearShifts(t, u, runs, LeftOver(t, runs, lo, hi, es));
  }

  // ----- a merge, with both change sets around it -----

  lemma {:induction false} ShiftUpto(off: int, p: int, rs: seq<Edit>)
    requires off <= p
    ensures Shift(off, rs) == Shift(off, Upto(p, rs))
    decreases |rs|
  {
    if rs != [] && rs[0].to <= p {
      ShiftUpto(off, p, rs[1..]);
      assert ([rs[0]] + Upto(p, rs[1..]))[1..] == Upto(p, rs[1..]);
    }
  }

  lemma {:induction false} ShiftAllUpto(es: seq<Edit>, p: int, rs: seq<Edit>)
    requires forall i | 0 <= i < |es| :: es[i].from <= p && es[i].to <= p
    ensures ShiftAll(es, rs, 0) == ShiftAll(es, Upto(p, rs), 0)
    decreases |es|
  {
    if es != [] {
      ShiftUpto(es[0].from, p, rs);
      ShiftUpto(es[0].to, p, rs);
      assert forall i | 0 <= i < |es[1..]| :: es[1..][i] == es[i + 1];
      ShiftAllUpto(es[1..], p, rs);
    }
  }

  lemma {:induction false} ShiftAllLater(es: seq<Edit>, p: int, rs: seq<Edit>)
    requires forall i | 0 <= i < |es| :: p <= es[i].from && p <= es[i].to
    ensures ShiftAll(es, rs, 0) == ShiftAll(es, Later(p, rs), Shift(p, rs) - p)
    decreases |es|
  {
    if es != [] {
      ShiftLater(p, es[0].from, rs);
      ShiftLater(p, es[0].to, rs);
      assert forall i | 0 <= i < |es[1..]| :: es[1..][i] == es[i + 1];
      ShiftAllLater(es[1..], p, rs);
    }
  }

  lemma {:induction false} LaterLater(p: int, q: int, rs: seq<Edit>)
    requires p <= q
    ensures Later(q, Later(p, rs)) == Later(q, rs)
    decreases |rs|
  {
    if rs != [] && rs[0].to <= p {
      LaterLater(p, q, rs[1..]);
    }
  }

  /** What a stretch between two points that an edit covers keeps of its length. */
  lemma {:induction false} StretchKept(e: Edit, p: nat, q: nat, rs: seq<Edit>, x: nat, n: nat)
    requires Ascending(rs, x, n) && Separate([e], rs) && AllChange(rs) && e.from <= p < q <= e.to
    requires p == e.from || q == e.to
    ensures Shift(q, rs) - Shift(p, rs) >= q - p
  {
    var f := Edit(p, q, e.replacement);
    EachOrdered(rs, x, n);
    forall j | 0 <= j < |rs| ensures Precedes(f, rs[j]) || Precedes(rs[j], f) {
      assert Precedes([e][0], rs[j]) || Precedes(rs[j], [e][0]);
    }
    assert Separate([f], rs);
    GrowthSwallows(f, rs, x, n);
  }

  lemma {:induction false} ShiftAllAt(es: seq<Edit>, rs: seq<Edit>, d: int, i: nat)
    requires i < |es|
    ensures ShiftAll(es, rs, d)[i] == ShiftEdit(es[i], rs, d)
    decreases i
  {
    if i > 0 {
      ShiftAllAt(es[1..], rs, d, i - 1);
    }
  }

  lemma {:induction false} ShiftAllPrefix(es: seq<Edit>, rs: seq<Edit>, d: int, i: nat)
    requires i <= |es|
    ensures ShiftAll(es[..i], rs, d) == ShiftAll(es, rs, d)[..i] && ShiftAll(es[i..], rs, d) == ShiftAll(es, rs, d)[i..]
  {
    forall k | 0 <= k < i ensures ShiftAll(es[..i], rs, d)[k] == ShiftAll(es, rs, d)[k] {
      ShiftAllAt(es[..i], rs, d, k);
      ShiftAllAt(es, rs, d, k);
    }
    forall k | 0 <= k < |es| - i ensures ShiftAll(es[i..], rs, d)[k] == ShiftAll(es, rs, d)[i + k] {
      ShiftAllAt(es[i..], rs, d, k);
      ShiftAllAt(es, rs, d, i + k);
    }
  }

  lemma {:induction false} PartsOf(p: int, rs: seq<Edit>)
    ensures (forall r | r in Upto(p, rs) :: r in rs) && forall r | r in Later(p, rs) :: r in rs
  {
    UptoLater(p, rs);
  }

  lemma {:induction false} PrefixAscending(es: seq<Edit>, n: nat, at: nat, len: nat, m: nat)
    requires Ascending(es, at, len) && n <= |es| && (if n > 0 then es[n - 1].to else at) <= m
    ensures Ascending(es[..n], at, m)
    decreases n
  {
    if n > 0 {
      assert es[..n][1..] == es[1..][..n - 1];
      AscendingAt(es, at, len, n - 1);
      PrefixAscending(es[1..], n - 1, es[0].to, len, m);
    }
  }

  lemma {:induction false} SuffixAscending(es: seq<Edit>, n: nat, at: nat, len: nat, m: nat)
    requires Ascending(es, at, len) && n <= |es| && m <= (if n < |es| then es[n].from else len)
    ensures Ascending(es[n..], m, len)
    decreases n
  {
    if n > 0 {
      assert es[n..] == es[1..][n - 1..];
      SuffixAscending(es[1..], n - 1, es[0].to, len, m);
    } else {
      assert es[0..] == es;
    }
  }
}
