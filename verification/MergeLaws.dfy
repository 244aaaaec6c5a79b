/** When a clean merge is applied, when it is refused, and what it means for the text. */
module MergeLaws {
  import opened Text
  import opened Nodes
  import opened Tree
  import opened Splicing
  import opened LineRegions
  import opened TreeDiff
  import opened Shifting
  import opened Regions
  import opened ThreeWay
  import opened Rebasing
  import opened RebaseLaws

  // ----- where an edit goes in a sorted edit set -----

  /** Inserted into an ascending set, `x` goes behind `e` or in front of it without touching it. */
  predicate Fits(e: Edit, x: Edit) {
    if e.from <= x.from then e.to <= x.from else x.to <= e.from
  }

  /** Insertion by start keeps what starts no later in front. */
  lemma {:induction false} InsertPlace(before: seq<Edit>, x: Edit, after: seq<Edit>)
    requires (forall e | e in before :: e.from <= x.from) && forall e | e in after :: e.from > x.from
    ensures Insert(before + after, x) == before + [x] + after
    decreases |after|
  {
    var all := before + after;
    if after == [] {
      assert all == before && before + [x] + after == before + [x];
    } else {
      var front, l := after[..|after| - 1], after[|after| - 1];
      assert all[..|all| - 1] == before + front && all[|all| - 1] == l;
      InsertPlace(before, x, front);
      assert before + [x] + after == (before + [x] + front) + [l];
    }
  }

  /** The edits of an ascending set that start before a point, and the others. */
  function StartBefore(p: int, es: seq<Edit>): seq<Edit> {
    if es == [] || es[0].from >= p then [] else [es[0]] + StartBefore(p, es[1..])
  }

  function StartFrom(p: int, es: seq<Edit>): seq<Edit> {
    if es == [] || es[0].from >= p then es else StartFrom(p, es[1..])
  }

  lemma {:induction false} StartSplit(p: int, es: seq<Edit>, at: nat, n: nat)
    requires Ascending(es, at, n)
    ensures es == StartBefore(p, es) + StartFrom(p, es)
    ensures forall e | e in StartBefore(p, es) :: e in es && e.from < p
    ensures forall e | e in StartFrom(p, es) :: e in es && e.from >= p
    decreases |es|
  {
    if es != [] {
      if es[0].from < p {
        StartSplit(p, es[1..], es[0].to, n);
        assert es == [es[0]] + (StartBefore(p, es[1..]) + StartFrom(p, es[1..]));
      } else {
        EachOrdered(es, es[0].from, n);
      }
    }
  }

  /** An ascending set with one more edit in it is ascending exactly when that one fits every other. */
  lemma {:induction false} InsertFits(es: seq<Edit>, x: Edit, n: nat)
    requires Ascending(es, 0, n) && x.from <= x.to <= n
    ensures Ascending(Insert(es, x), 0, n) <==> forall e | e in es :: Fits(e, x)
  {
    hide Insert, Ascending, StartBefore, StartFrom;
    var before, after := StartBefore(x.from + 1, es), StartFrom(x.from + 1, es);
    StartSplit(x.from + 1, es, 0, n);
    InsertPlace(before, x, after);
    if Ascending(before + [x] + after, 0, n) {
      AroundFits(before, x, after, n);
    }
    if forall e | e in es :: Fits(e, x) {
      FitsAround(before, x, after, n);
    }
  }

  lemma {:induction false} AroundFits(before: seq<Edit>, x: Edit, after: seq<Edit>, n: nat)
    requires Ascending(before + [x] + after, 0, n)
    requires (forall e | e in before :: e.from <= x.from) && forall e | e in after :: e.from > x.from
    ensures forall e | e in before + after :: Fits(e, x)
  {
    hide Ascending;
    SplitAscending(before, x, after, 0, n);
    EachOrdered(before, 0, x.from);
    EachOrdered(after, x.to, n);
  }

  lemma {:induction false} FitsAround(before: seq<Edit>, x: Edit, after: seq<Edit>, n: nat)
    requires Ascending(before + after, 0, n) && x.from <= x.to <= n
    requires (forall e | e in before :: e.from <= x.from) && forall e | e in after :: e.from > x.from
    requires forall e | e in before + after :: Fits(e, x)
    ensures Ascending(before + [x] + after, 0, n)
  {
    hide Ascending;
    var es, k := before + after, |before|;
    assert es[..k] == before && es[k..] == after;
    if k > 0 {
      assert es[k - 1] == before[k - 1] && es[k - 1] in es && Fits(es[k - 1], x);
    }
    if k < |es| {
      assert es[k] == after[0] && es[k] in es && Fits(es[k], x);
    }
    PrefixAscending(es, k, 0, n, x.from);
    SuffixAscending(es, k, 0, n, x.to);
    JoinAscending(before, x, after, 0, n);
  }

  lemma {:induction false} JoinAscending(before: seq<Edit>, x: Edit, after: seq<Edit>, at: nat, n: nat)
    requires Ascending(before, at, x.from) && x.from <= x.to <= n && Ascending(after, x.to, n)
    ensures Ascending(before + [x] + after, at, n)
    decreases |before|
  {
    var all := before + [x] + after;
    if before == [] {
      assert all[0] == x && all[1..] == after;
    } else {
      AscendingEnds(before, at, x.from);
      assert all[0] == before[0] && all[1..] == before[1..] + [x] + after;
      JoinAscending(before[1..], x, after, before[0].to, n);
    }
  }

  // ----- when a clean merge is refused -----

  /** The edit reaches into the region. */
  predicate Straddles(e: Edit, lo: nat, hi: nat) {
    e.from < hi && lo < e.to
  }

  /** An edit left over cannot be applied beside the merged region: it reaches into the region, or it
      changes what comes right behind a region of which the other side left nothing. */
  predicate InTheWay(e: Edit, lo: nat, hi: nat, curLo: nat, curHi: nat) {
    Straddles(e, lo, hi) || (curLo == curHi && e.from == hi < e.to)
  }

  /** No change ends where the next one starts. */
  ghost predicate Apart(rs: seq<Edit>) {
    forall i, j | 0 <= i < j < |rs| :: rs[i].to < rs[j].from
  }

  lemma {:induction false} RunsAreApart(t: Bytes, u: Bytes, runs: seq<ChangedRun>)
    requires RunsOf(t, u, runs)
    ensures Apart(RunEdits(t, u, runs))
  {
    var rs := RunEdits(t, u, runs);
    forall i, j | 0 <= i < j < |rs| ensures rs[i].to < rs[j].from {
      RunsApart(t, u, runs, j);
    }
  }

  lemma ApartTail(rs: seq<Edit>)
    requires Apart(rs) && rs != []
    ensures Apart(rs[1..])
  {
    assert forall i | 0 <= i < |rs| - 1 :: rs[1..][i] == rs[i + 1];
  }

  /** Text between a place and the next change stays between them. */
  lemma ShiftAbove(p: nat, rs: seq<Edit>, x: nat, n: nat)
    requires Ascending(rs, x, n) && x < p && (rs != [] ==> x < rs[0].from)
    ensures Shift(p, rs) > x
  {
    if rs != [] {
      ShiftBound(p, rs, Min(p, rs[0].from), n);
    }
  }

  /** When the changes leave nothing of [lo, hi), one of them deletes exactly that, and the text right
      behind it stays. */
  lemma {:induction false} KeptBehind(lo: nat, hi: nat, p: nat, rs: seq<Edit>, x: nat, n: nat)
    requires Ascending(rs, x, n) && AllChange(rs) && Apart(rs) && x <= lo < hi < p <= n
    requires Outside(lo, rs) && Outside(hi, rs) && Shift(lo, rs) == Shift(hi, rs)
    ensures Shift(p, rs) > Shift(hi, rs)
    decreases |rs|
  {
    if rs == [] {
      assert false;
    } else {
      var r, rest := rs[0], rs[1..];
      ApartTail(rs);
      assert forall j | 0 <= j < |rest| :: rest[j] == rs[j + 1];
      if r.to <= lo {
        OutsideTail(lo, rs);
        OutsideTail(hi, rs);
        KeptBehind(lo, hi, p, rest, r.to, n);
      } else {
        assert lo <= r.from && r.to <= hi;
        ShiftBound(hi, rest, r.to, n);
        if r.to < hi {
          ShiftAbove(hi, rest, r.to, n);
        }
        ShiftAbove(p, rest, r.to, n);
      }
    }
  }

  /** Whether an edit carried over the changes fits the merged region. */
  lemma {:induction false} FitsUnless(e: Edit, lo: nat, hi: nat, rs: seq<Edit>, n: nat, merged: Bytes)
    requires Ascending(rs, 0, n) && lo <= hi <= n && Separate([e], rs) && AllChange(rs) && Apart(rs)
    requires Outside(lo, rs) && Outside(hi, rs) && e.from <= e.to <= n && !Inside(e, lo, hi) && (lo == hi ==> hi == n)
    ensures 0 <= Shift(lo, rs) <= Shift(hi, rs)
    ensures Fits(ShiftEdit(e, rs, 0), Edit(Shift(lo, rs), Shift(hi, rs), merged))
      <==> !InTheWay(e, lo, hi, Shift(lo, rs), Shift(hi, rs))
  {
    hide Separate, Ascending, Apart, AllChange;
    EndsAreOutside(e, rs);
    ShiftMonotone(lo, hi, rs, 0, n);
    ShiftMonotone(e.from, e.to, rs, 0, n);
    if e.from < e.to {
      StretchKept(e, e.from, e.to, rs, 0, n);
    }
    if e.to <= lo {
      ShiftMonotone(e.to, lo, rs, 0, n);
    } else if e.from >= hi {
      ShiftMonotone(hi, e.from, rs, 0, n);
      if e.from > hi && lo < hi && Shift(lo, rs) == Shift(hi, rs) {
        KeptBehind(lo, hi, e.from, rs, 0, n);
      }
    } else if e.from < lo {
      ShiftMonotone(e.from, lo, rs, 0, n);
      StretchKept(e, lo, e.to, rs, 0, n);
    } else {
      ShiftMonotone(lo, e.from, rs, 0, n);
      StretchKept(e, e.from, hi, rs, 0, n);
    }
  }

  lemma EndsAreOutside(e: Edit, rs: seq<Edit>)
    requires Separate([e], rs) && e.from <= e.to
    ensures Outside(e.from, rs) && Outside(e.to, rs)
  {
    SeparateOutside([e], rs);
    assert Outside([e][0].from, rs) && Outside([e][0].to, rs);
  }

  /** What the region of a collision gives. */
  lemma {:induction false} RegionFacts(t: Bytes, u: Bytes, runs: seq<ChangedRun>, es: seq<Edit>, lo: nat, hi: nat)
    requires RunsOf(t, u, runs) && Ascending(es, 0, |t|) && Hits(t, runs, es) != []
    requires LeastRegion(t, runs, MinFrom(Hits(t, runs, es)), MaxTo(Hits(t, runs, es)), lo, hi)
    ensures lo <= hi <= |t| && (lo == hi ==> hi == |t|)
    ensures CutsNone(runs, lo, hi) && Outside(lo, RunEdits(t, u, runs)) && Outside(hi, RunEdits(t, u, runs))
    ensures CurrentOf(t, u, runs, lo) <= CurrentOf(t, u, runs, hi) <= |u|
  {
    hide RunsOf, RunEdits, CutsNone, IsCeil, StartsLine;
    HitsWithin(t, runs, es, 0);
    RegionEndsOutside(t, u, runs, lo, hi);
    TheirText(t, u, runs, lo, hi);
  }

  /** The edits left over, carried over the runs, fit the merged region exactly when none is in the way. */
  lemma {:induction false} AllFitUnless(t: Bytes, rest: seq<Edit>, rs: seq<Edit>, lo: nat, hi: nat, merged: Bytes)
    requires Ascending(rest, 0, |t|) && Ascending(rs, 0, |t|) && Separate(rest, rs) && AllChange(rs) && Apart(rs)
    requires lo <= hi <= |t| && (lo == hi ==> hi == |t|) && Outside(lo, rs) && Outside(hi, rs)
    requires forall e | e in rest :: !Inside(e, lo, hi)
    ensures 0 <= Shift(lo, rs) <= Shift(hi, rs)
    ensures (forall e | e in ShiftAll(rest, rs, 0) :: Fits(e, Edit(Shift(lo, rs), Shift(hi, rs), merged)))
      <==> forall e | e in rest :: !InTheWay(e, lo, hi, Shift(lo, rs), Shift(hi, rs))
  {
    hide Ascending, Apart, AllChange, Outside, Inside, Fits, InTheWay, ShiftEdit;
    EachOrdered(rest, 0, |t|);
    ShiftMonotone(lo, hi, rs, 0, |t|);
    var x := Edit(Shift(lo, rs), Shift(hi, rs), merged);
    forall i | 0 <= i < |rest|
      ensures Fits(ShiftAll(rest, rs, 0)[i], x) <==> !InTheWay(rest[i], lo, hi, Shift(lo, rs), Shift(hi, rs))
    {
      assert rest[i] in rest;
      assert Separate([rest[i]], rs);
      ShiftAllAt(rest, rs, 0, i);
      FitsUnless(rest[i], lo, hi, rs, |t|, merged);
    }
  }

  /** The edit set a clean merge comes to, and when it is one. */
  lemma {:induction false} MergedEditsFit(t: Bytes, u: Bytes, runs: seq<ChangedRun>, es: seq<Edit>, lo: nat, hi: nat,
      merged: Bytes)
    requires RunsOf(t, u, runs) && Ascending(es, 0, |t|) && Hits(t, runs, es) != []
    requires LeastRegion(t, runs, MinFrom(Hits(t, runs, es)), MaxTo(Hits(t, runs, es)), lo, hi)
    ensures var x := Edit(CurrentOf(t, u, runs, lo), CurrentOf(t, u, runs, hi), merged);
      MergedEdits(t, u, runs, es, lo, hi, merged)
        == Insert(ShiftAll(LeftOver(t, runs, lo, hi, es), RunEdits(t, u, runs), 0), x)
    ensures Ascending(MergedEdits(t, u, runs, es, lo, hi, merged), 0, |u|) <==>
      forall e | e in LeftOver(t, runs, lo, hi, es) ::
        !InTheWay(e, lo, hi, CurrentOf(t, u, runs, lo), CurrentOf(t, u, runs, hi))
  {
    hide RunsOf, Hits, LeftOver, Ascending, ShiftAll, Separate, Insert, Apart, AllChange, Outside, CutsNone, InTheWay,
      Inside,
      LeastRegion, SortByFrom, Shift, Fits;
    var rest, rs := LeftOver(t, runs, lo, hi, es), RunEdits(t, u, runs);
    RunsSplice(t, u, runs);
    RunsAreApart(t, u, runs);
    RegionFacts(t, u, runs, es, lo, hi);
    LeftOverShifted(t, u, runs, es, lo, hi);
    NoneInside(t, runs, lo, hi, es);
    var x := Edit(CurrentOf(t, u, runs, lo), CurrentOf(t, u, runs, hi), merged);
    hide RunEdits;
    SortLast(ShiftAll(rest, rs, 0), x, 0, |u|);
    InsertFits(ShiftAll(rest, rs, 0), x, |u|);
    AllFitUnless(t, rest, rs, lo, hi, merged);
  }

  lemma {:induction false} NoneInside(t: Bytes, runs: seq<ChangedRun>, lo: nat, hi: nat, es: seq<Edit>)
    ensures forall e | e in LeftOver(t, runs, lo, hi, es) :: !Inside(e, lo, hi)
    decreases |es|
  {
    if es != [] {
      NoneInside(t, runs, lo, hi, es[1..]);
    }
  }

  /** A rebase of a valid edit set that merges cleanly is refused as invalid exactly when an edit left
      over is in the way: it reaches into the widened region without colliding with anything, or it
      changes the text right behind a region that the other side deleted. */
  lemma {:induction false} RefusedIff(cfg: Config, t: Bytes, u: Bytes, runs: seq<ChangedRun>, es: seq<Edit>, lo: nat,
      hi: nat, version: nat, r: RebaseOutcome)
    requires cfg.Valid() && RunsOf(t, u, runs) && Ascending(es, 0, |t|) && Hits(t, runs, es) != []
    requires LeastRegion(t, runs, MinFrom(Hits(t, runs, es)), MaxTo(Hits(t, runs, es)), lo, hi)
    requires MergeOutcome(cfg, t, u, runs, es, lo, hi, version, r) && !r.Conflicted?
    ensures r.BadEdit? <==>
      exists e | e in LeftOver(t, runs, lo, hi, es) ::
        InTheWay(e, lo, hi, CurrentOf(t, u, runs, lo), CurrentOf(t, u, runs, hi))
    ensures r.BadEdit? || r.Merged?
  {
    hide RunsOf, Hits, LeftOver, Ascending, InTheWay, LeastRegion, MergedEdits, Info, BuildRoot, Splice, CurrentOf;
    var i := Info(t, u, runs, es, lo, hi, version);
    MergedEditsFit(t, u, runs, es, lo, hi, Diff3(i.base, i.ours, i.theirs).text);
  }

  // ----- what a merge makes of the text -----

  /** Our insertions right where the region ends, as one text. */
  function InsertedAt(p: int, es: seq<Edit>): Bytes {
    if es != [] && es[0].from == p == es[0].to then es[0].replacement + InsertedAt(p, es[1..]) else []
  }

  /** The edits behind them. */
  function BehindInserted(p: int, es: seq<Edit>): seq<Edit> {
    if es != [] && es[0].from == p == es[0].to then BehindInserted(p, es[1..]) else es
  }

  function InsertedEdits(p: int, es: seq<Edit>): seq<Edit> {
    if es != [] && es[0].from == p == es[0].to then [es[0]] + InsertedEdits(p, es[1..]) else []
  }

  lemma {:induction false} InsertedSplit(p: nat, es: seq<Edit>, n: nat)
    requires Ascending(es, p, n) && forall e | e in es :: !(e.from == p < e.to)
    ensures es == InsertedEdits(p, es) + BehindInserted(p, es)
    ensures forall e | e in InsertedEdits(p, es) :: e.from == p == e.to
    ensures forall e | e in BehindInserted(p, es) :: e.from > p
    decreases |es|
  {
    if es != [] {
      if es[0].from == p == es[0].to {
        InsertedSplit(p, es[1..], n);
        assert es == [es[0]] + (InsertedEdits(p, es[1..]) + BehindInserted(p, es[1..]));
      } else {
        assert es[0] in es;
        EachOrdered(es, es[0].from, n);
      }
    }
  }

  /** Insertions at one place, carried over the changes, are insertions at one place. */
  lemma {:induction false} InsertedShift(p: nat, es: seq<Edit>, rs: seq<Edit>)
    requires Shift(p, rs) >= 0
    ensures var here := ShiftAll(InsertedEdits(p, es), rs, 0);
      && (forall e | e in here :: e.from == Shift(p, rs) == e.to)
      && Inserted(here) == InsertedAt(p, es)
    decreases |es|
  {
    if es != [] && es[0].from == p == es[0].to {
      InsertedShift(p, es[1..], rs);
      var more := InsertedEdits(p, es[1..]);
      assert ([es[0]] + more)[1..] == more;
      var e := ShiftEdit(es[0], rs, 0);
      assert ([e] + ShiftAll(more, rs, 0))[1..] == ShiftAll(more, rs, 0);
    }
  }

  /** The replacements of edits, one after another. */
  function Inserted(es: seq<Edit>): Bytes {
    if es == [] then [] else es[0].replacement + Inserted(es[1..])
  }

  /** Insertions at one place `c` put their texts there, in front of what follows. */
  lemma {:induction false} InsertAtFront(u: Bytes, here: seq<Edit>, others: seq<Edit>, c: nat)
    requires (forall e | e in here :: e.from == c == e.to) && Ascending(others, c, |u|)
    ensures Ascending(here + others, c, |u|)
    ensures SpliceFrom(u, here + others, c) == Inserted(here) + SpliceFrom(u, others, c)
    decreases |here|
  {
    if here == [] {
      assert here + others == others;
    } else {
      var e := here[0];
      assert e in here;
      AscendingEnds(others, c, |u|);
      hide SpliceFrom, Ascending;
      InsertAtFront(u, here[1..], others, c);
      assert here + others == [e] + (here[1..] + others);
      FirstOfTail(u, e, here[1..] + others);
      AppendText(e.replacement, Inserted(here[1..]), SpliceFrom(u, others, c));
    }
  }

  lemma {:induction false} InsertAtEnd(u: Bytes, before: seq<Edit>, here: seq<Edit>)
    requires Ascending(before, 0, |u|) && forall e | e in here :: e.from == |u| == e.to
    ensures Ascending(before + here, 0, |u|) && Splice(u, before + here) == Splice(u, before) + Inserted(here)
  {
    var none: seq<Edit> := [];
    InsertAtFront(u, here, none, |u|);
    assert here + none == here;
    assert Inserted(here) + SpliceFrom(u, none, |u|) == Inserted(here);
    SpliceAppend(u, before, here, 0, |u|);
    assert u[..|u|] == u;
  }

  /** What our edits on the two sides of the region make of the current text, and the merged region
      between them. */
  ghost function Around(u: Bytes, before: seq<Edit>, after: seq<Edit>, curLo: nat, curHi: nat, merged: Bytes): Bytes
    requires curLo <= curHi <= |u| && Ascending(before, 0, curLo) && Ascending(after, curHi, |u|)
  {
    Splice(u[..curLo], before) + merged + SpliceFrom(u, after, curHi)
  }

  /** With something left of the region, the merge is the region between our edits on its two sides. */
  lemma {:induction false} MergeBetween(u: Bytes, before: seq<Edit>, after: seq<Edit>, x: Edit)
    requires x.from < x.to <= |u| && Ascending(before, 0, x.from) && Ascending(after, x.to, |u|)
    ensures Insert(before + after, x) == before + [x] + after && Ascending(before + [x] + after, 0, |u|)
    ensures Splice(u, before + [x] + after) == Around(u, before, after, x.from, x.to, x.replacement)
  {
    hide Insert, Ascending, SpliceFrom;
    EachOrdered(before, 0, x.from);
    EachOrdered(after, x.to, |u|);
    InsertPlace(before, x, after);
    JoinAscending(before, x, after, 0, |u|);
    SpliceAround(u, before, x, after);
  }

  /** With nothing left of it, our insertions right behind it come in front of the merged text. */
  lemma {:induction false} MergeBehindInserted(u: Bytes, before: seq<Edit>, here: seq<Edit>, others: seq<Edit>, x: Edit)
    requires x.from == x.to <= |u| && Ascending(before, 0, x.from) && Ascending(others, x.to, |u|)
    requires (forall e | e in here :: e.from == x.from == e.to) && forall e | e in others :: e.from > x.from
    ensures Ascending(here + others, x.to, |u|)
    ensures SpliceFrom(u, here + others, x.to) == Inserted(here) + SpliceFrom(u, others, x.to)
    ensures var all := before + here + [x] + others;
      && Insert(before + (here + others), x) == all && Ascending(all, 0, |u|)
      && Splice(u, all)
        == Splice(u[..x.from], before) + Inserted(here) + x.replacement + SpliceFrom(u, others, x.to)
  {
    hide Insert, Ascending, SpliceFrom, Inserted;
    var c := x.from;
    EachOrdered(before, 0, c);
    InsertAtFront(u, here, others, c);
    InsertAtEnd(u[..c], before, here);
    EditsAssoc(before, here, others);
    InsertPlace(before + here, x, others);
    JoinAscending(before + here, x, others, 0, |u|);
    SpliceAround(u, before + here, x, others);
  }

  lemma ShiftAllParts(es: seq<Edit>, fs: seq<Edit>, rs: seq<Edit>)
    ensures ShiftAll(es + fs, rs, 0) == ShiftAll(es, rs, 0) + ShiftAll(fs, rs, 0)
  {
    var all := es + fs;
    ShiftAllPrefix(all, rs, 0, |es|);
    assert all[..|es|] == es && all[|es|..] == fs;
  }

  /** The edits left over that start before the region's end, and the others. */
  ghost function EditsBefore(t: Bytes, runs: seq<ChangedRun>, es: seq<Edit>, lo: nat, hi: nat): seq<Edit> {
    StartBefore(hi, LeftOver(t, runs, lo, hi, es))
  }

  ghost function EditsBehind(t: Bytes, runs: seq<ChangedRun>, es: seq<Edit>, lo: nat, hi: nat): seq<Edit> {
    StartFrom(hi, LeftOver(t, runs, lo, hi, es))
  }

  /** With no edit in the way, those left over lie on the two sides of the region, before and after. */
  lemma {:induction false} TwoSides(rest: seq<Edit>, lo: nat, hi: nat, n: nat)
    requires Ascending(rest, 0, n) && lo <= hi <= n
    requires forall e | e in rest :: !Straddles(e, lo, hi)
    ensures var eb, ea := StartBefore(hi, rest), StartFrom(hi, rest);
      && rest == eb + ea && Ascending(eb, 0, lo) && Ascending(ea, hi, n)
      && (forall e | e in eb :: e.from < hi) && forall e | e in ea :: e in rest && e.from >= hi
  {
    StartSplit(hi, rest, 0, n);
    var eb, ea := StartBefore(hi, rest), StartFrom(hi, rest);
    var k := |eb|;
    assert rest[..k] == eb && rest[k..] == ea;
    hide StartBefore, StartFrom;
    EachOrdered(rest, 0, n);
    if k > 0 {
      assert rest[k - 1] in rest && rest[k - 1] == eb[k - 1];
      assert !Straddles(rest[k - 1], lo, hi);
    }
    if k < |rest| {
      assert rest[k] == ea[0];
    }
    PrefixAscending(rest, k, 0, n, lo);
    SuffixAscending(rest, k, 0, n, hi);
  }

  /** The two sides of the region, carried over the runs. */
  lemma {:induction false} SidesCarried(eb: seq<Edit>, ea: seq<Edit>, rs: seq<Edit>, lo: nat, hi: nat, n: nat, m: nat)
    requires Ascending(rs, 0, n) && lo <= hi <= n && Outside(lo, rs) && Outside(hi, rs) && EndsOutside(eb + ea, rs)
    requires Ascending(eb, 0, lo) && Ascending(ea, hi, n) && Ascending(ShiftAll(eb + ea, rs, 0), 0, m)
    requires 0 <= Shift(lo, rs) && 0 <= Shift(hi, rs) <= m
    ensures Ascending(ShiftAll(eb, rs, 0), 0, Shift(lo, rs)) && Ascending(ShiftAll(ea, rs, 0), Shift(hi, rs), m)
  {
    hide Ascending, Outside, EndsOutside, Shift;
    ShiftAllParts(eb, ea, rs);
    EachOrdered(eb, 0, lo);
    EachOrdered(ea, hi, n);
    var all, k := ShiftAll(eb + ea, rs, 0), |eb|;
    assert all[..k] == ShiftAll(eb, rs, 0) && all[k..] == ShiftAll(ea, rs, 0);
    if k > 0 {
      EndOutside(eb + ea, rs, k - 1);
      ShiftAllAt(eb, rs, 0, k - 1);
      ShiftMonotone(eb[k - 1].to, lo, rs, 0, n);
    }
    if ea != [] {
      EndOutside(eb + ea, rs, k);
      ShiftAllAt(ea, rs, 0, 0);
      ShiftMonotone(hi, ea[0].from, rs, 0, n);
    }
    PrefixAscending(all, k, 0, m, Shift(lo, rs));
    SuffixAscending(all, k, 0, m, Shift(hi, rs));
  }

  lemma EndOutside(es: seq<Edit>, rs: seq<Edit>, i: nat)
    requires EndsOutside(es, rs) && i < |es|
    ensures Outside(es[i].from, rs) && Outside(es[i].to, rs)
  {
  }

  /** An edit before the region swallows no run behind its end, and one behind it none before. */
  lemma {:induction false} SwallowedBySide(eb: seq<Edit>, ea: seq<Edit>, rs: seq<Edit>, lo: nat, hi: nat, n: nat)
    requires Ascending(rs, 0, n) && Ascending(eb, 0, lo) && Ascending(ea, hi, n) && lo <= hi <= n
    ensures NoneSwallowed(eb + ea, rs) <==> NoneSwallowed(eb, Upto(lo, rs)) && NoneSwallowed(ea, Later(hi, rs))
  {
    PartsOf(lo, rs);
    PartsOf(hi, rs);
    if NoneSwallowed(eb + ea, rs) {
      SubsetSwallows(eb + ea, rs, eb, Upto(lo, rs));
      SubsetSwallows(eb + ea, rs, ea, Later(hi, rs));
    }
    if NoneSwallowed(eb, Upto(lo, rs)) && NoneSwallowed(ea, Later(hi, rs)) {
      EachOrdered(eb, 0, lo);
      EachOrdered(ea, hi, n);
      forall i, j | 0 <= i < |eb + ea| && 0 <= j < |rs| ensures !Swallows((eb + ea)[i], rs[j]) {
        var e, r := (eb + ea)[i], rs[j];
        if Swallows(e, r) {
          InUptoOrLater(lo, rs, 0, n, j);
          InUptoOrLater(hi, rs, 0, n, j);
          NoneSwallowedIn(eb, Upto(lo, rs), e, r);
          NoneSwallowedIn(ea, Later(hi, rs), e, r);
        }
      }
    }
  }

  lemma NoneSwallowedIn(es: seq<Edit>, rs: seq<Edit>, e: Edit, r: Edit)
    requires NoneSwallowed(es, rs)
    ensures e in es && r in rs ==> !Swallows(e, r)
  {
  }

  lemma {:induction false} SubsetSwallows(es: seq<Edit>, rs: seq<Edit>, es': seq<Edit>, rs': seq<Edit>)
    requires NoneSwallowed(es, rs) && (forall e | e in es' :: e in es) && forall r | r in rs' :: r in rs
    ensures NoneSwallowed(es', rs')
  {
    forall i, j | 0 <= i < |es'| && 0 <= j < |rs'| ensures !Swallows(es'[i], rs'[j]) {
      assert es'[i] in es' && rs'[j] in rs';
      NoneSwallowedIn(es, rs, es'[i], rs'[j]);
    }
  }

  lemma {:induction false} InUptoOrLater(p: int, rs: seq<Edit>, x: nat, n: nat, j: nat)
    requires Ascending(rs, x, n) && j < |rs|
    ensures if rs[j].to <= p then rs[j] in Upto(p, rs) else rs[j] in Later(p, rs)
    decreases |rs|
  {
    if rs[0].to <= p {
      if j > 0 {
        InUptoOrLater(p, rs[1..], rs[0].to, n, j - 1);
      }
    } else {
      AscendingAt(rs, x, n, j);
    }
  }

  /** Before the region: both change sets together, or less. */
  lemma {:induction false} BeforeOrLess(t: Bytes, u: Bytes, rs: seq<Edit>, eb: seq<Edit>, lo: nat, curLo: nat)
    requires lo <= |t| && curLo <= |u| && Ascending(eb, 0, lo) && Separate(eb, rs) && AllChange(rs)
    requires Ascending(Upto(lo, rs), 0, lo) && u[..curLo] == Splice(t[..lo], Upto(lo, rs))
    ensures Ascending(ShiftAll(eb, rs, 0), 0, curLo) && Ascending(Interleave(eb, Upto(lo, rs)), 0, lo)
    ensures var hopped, together := Splice(u[..curLo], ShiftAll(eb, rs, 0)),
      Splice(t[..lo], Interleave(eb, Upto(lo, rs)));
      if NoneSwallowed(eb, Upto(lo, rs)) then hopped == together else |hopped| < |together|
  {
    hide SpliceFrom, Ascending, Interleave, ShiftAll, NoneSwallowed, Separate;
    PartsOf(lo, rs);
    SubsetApart(eb, rs, Upto(lo, rs));
    EachOrdered(eb, 0, lo);
    ShiftAllUpto(eb, lo, rs);
    assert u[..curLo][0..] == u[..curLo];
    HopOrShrink(t[..lo], u[..curLo], eb, Upto(lo, rs), 0, 0);
  }

  /** Behind it: both change sets together, or less. */
  lemma {:induction false} BehindOrLess(t: Bytes, u: Bytes, rs: seq<Edit>, ea: seq<Edit>, hi: nat, curHi: nat)
    requires Ascending(ea, hi, |t|) && Separate(ea, rs) && AllChange(rs)
    requires InStep(t, u, Later(hi, rs), hi, curHi) && curHi == Shift(hi, rs)
    ensures Ascending(ShiftAll(ea, rs, 0), curHi, |u|) && Ascending(Interleave(ea, Later(hi, rs)), hi, |t|)
    ensures var hopped, together := SpliceFrom(u, ShiftAll(ea, rs, 0), curHi),
      SpliceFrom(t, Interleave(ea, Later(hi, rs)), hi);
      if NoneSwallowed(ea, Later(hi, rs)) then hopped == together else |hopped| < |together|
  {
    hide SpliceFrom, Ascending, Interleave, ShiftAll, NoneSwallowed, Separate, InStep;
    PartsOf(hi, rs);
    SubsetApart(ea, rs, Later(hi, rs));
    EachOrdered(ea, hi, |t|);
    ShiftAllLater(ea, hi, rs);
    HopOrShrink(t, u, ea, Later(hi, rs), hi, curHi);
  }

  lemma {:induction false} SubsetApart(es: seq<Edit>, rs: seq<Edit>, rs': seq<Edit>)
    requires Separate(es, rs) && AllChange(rs) && forall r | r in rs' :: r in rs
    ensures Separate(es, rs') && AllChange(rs')
  {
    forall j | 0 <= j < |rs'| ensures rs'[j].from < rs'[j].to || rs'[j].replacement != [] {
      assert rs'[j] in rs;
    }
    forall i, j | 0 <= i < |es| && 0 <= j < |rs'| ensures Precedes(es[i], rs'[j]) || Precedes(rs'[j], es[i]) {
      assert rs'[j] in rs;
      var l :| 0 <= l < |rs| && rs[l] == rs'[j];
      assert Precedes(es[i], rs[l]) || Precedes(rs[l], es[i]);
    }
  }

  lemma PartsSeparate(eb: seq<Edit>, ea: seq<Edit>, rs: seq<Edit>)
    requires Separate(eb + ea, rs)
    ensures Separate(eb, rs) && Separate(ea, rs)
  {
    forall i, j | 0 <= i < |eb| && 0 <= j < |rs| ensures Precedes(eb[i], rs[j]) || Precedes(rs[j], eb[i]) {
      assert (eb + ea)[i] == eb[i];
    }
    forall i, j | 0 <= i < |ea| && 0 <= j < |rs| ensures Precedes(ea[i], rs[j]) || Precedes(rs[j], ea[i]) {
      assert (eb + ea)[|eb| + i] == ea[i];
    }
  }

  /** A text between two others, against one that has `y` in front of it on the wrong side. */
  lemma MiddleSwap(a: Bytes, y: Bytes, m: Bytes, b: Bytes)
    ensures a + y + m + b == a + m + (y + b) <==> y + m == m + y
    ensures |a + y + m + b| == |a + m + (y + b)|
  {
    assert a + y + m + b == a + (y + m) + b;
    assert a + m + (y + b) == a + (m + y) + b;
    if a + (y + m) + b == a + (m + y) + b {
      assert (a + (y + m) + b)[|a|..|a| + |y + m|] == y + m;
      assert (a + (m + y) + b)[|a|..|a| + |y + m|] == m + y;
    }
  }

  /** The merged document, between what our edits make of the current text on the two sides. */
  lemma {:induction false} MergedText(u: Bytes, eb: seq<Edit>, ea: seq<Edit>, rs: seq<Edit>, lo: nat, hi: nat, n: nat,
      merged: Bytes)
    requires Ascending(rs, 0, n) && AllChange(rs) && Apart(rs) && lo <= hi <= n && (lo == hi ==> hi == n)
    requires Outside(lo, rs) && Outside(hi, rs) && 0 <= Shift(lo, rs) <= Shift(hi, rs) <= |u|
    requires Ascending(ea, hi, n) && EndsOutside(ea, rs)
    requires Ascending(ShiftAll(eb, rs, 0), 0, Shift(lo, rs)) && Ascending(ShiftAll(ea, rs, 0), Shift(hi, rs), |u|)
    requires forall e | e in ea :: e.from >= hi && !InTheWay(e, lo, hi, Shift(lo, rs), Shift(hi, rs))
    ensures var x := Edit(Shift(lo, rs), Shift(hi, rs), merged);
      var all := Insert(ShiftAll(eb, rs, 0) + ShiftAll(ea, rs, 0), x);
      var around := Around(u, ShiftAll(eb, rs, 0), ShiftAll(ea, rs, 0), x.from, x.to, merged);
      Ascending(all, 0, |u|) && |Splice(u, all)| == |around|
      && (Splice(u, all) == around <==> (x.from == x.to ==> InsertedAt(hi, ea) + merged == merged + InsertedAt(hi, ea)))
  {
    var x := Edit(Shift(lo, rs), Shift(hi, rs), merged);
    var before := ShiftAll(eb, rs, 0);
    if x.from < x.to {
      hide Ascending, Outside, AllChange, Apart, SpliceFrom, Insert, ShiftAll, InTheWay;
      MergeBetween(u, before, ShiftAll(ea, rs, 0), x);
    } else {
      MergedInPlace(u, before, ea, rs, lo, hi, n, x);
    }
  }

  lemma {:induction false} MergedInPlace(u: Bytes, before: seq<Edit>, ea: seq<Edit>, rs: seq<Edit>, lo: nat, hi: nat,
      n: nat, x: Edit)
    requires Ascending(rs, 0, n) && AllChange(rs) && Apart(rs) && lo <= hi <= n && (lo == hi ==> hi == n)
    requires Outside(lo, rs) && Outside(hi, rs) && 0 <= x.from == Shift(lo, rs) == Shift(hi, rs) == x.to <= |u|
    requires Ascending(ea, hi, n) && EndsOutside(ea, rs)
    requires Ascending(before, 0, x.from) && Ascending(ShiftAll(ea, rs, 0), x.to, |u|)
    requires forall e | e in ea :: !InTheWay(e, lo, hi, x.from, x.to)
    ensures var all := Insert(before + ShiftAll(ea, rs, 0), x);
      var around := Around(u, before, ShiftAll(ea, rs, 0), x.from, x.to, x.replacement);
      Ascending(all, 0, |u|) && |Splice(u, all)| == |around|
      && (Splice(u, all) == around <==> InsertedAt(hi, ea) + x.replacement == x.replacement + InsertedAt(hi, ea))
  {
    hide Ascending, Outside, AllChange, Apart, SpliceFrom, Insert, ShiftAll, InsertedAt, EndsOutside, Shift;
    InsertedSplit(hi, ea, n);
    InsertedShift(hi, ea, rs);
    var ie, io := InsertedEdits(hi, ea), BehindInserted(hi, ea);
    var here, others := ShiftAll(ie, rs, 0), ShiftAll(io, rs, 0);
    hide InsertedEdits, BehindInserted;
    ShiftAllParts(ie, io, rs);
    OthersBehind(ie, io, rs, lo, hi, n);
    var all := ShiftAll(ea, rs, 0);
    assert all[|here|..] == others;
    BehindAscending(here, others, x.to, |u|);
    MergeBehindInserted(u, before, here, others, x);
    MiddleSwap(Splice(u[..x.from], before), Inserted(here), x.replacement, SpliceFrom(u, others, x.to));
  }

  lemma {:induction false} BehindAscending(es: seq<Edit>, fs: seq<Edit>, at: nat, n: nat)
    requires Ascending(es + fs, at, n)
    ensures Ascending(fs, at, n)
    decreases |es|
  {
    if es == [] {
      assert es + fs == fs;
    } else {
      assert (es + fs)[1..] == es[1..] + fs;
      BehindAscending(es[1..], fs, es[0].to, n);
      LowerStart(fs, es[0].to, at, n);
    }
  }

  /** What starts behind the region still does in the current text. */
  lemma {:induction false} OthersBehind(ie: seq<Edit>, io: seq<Edit>, rs: seq<Edit>, lo: nat, hi: nat, n: nat)
    requires Ascending(rs, 0, n) && AllChange(rs) && Apart(rs) && lo <= hi <= n && (lo == hi ==> hi == n)
    requires Outside(lo, rs) && Outside(hi, rs) && Shift(lo, rs) == Shift(hi, rs) >= 0
    requires Ascending(ie + io, hi, n) && EndsOutside(ie + io, rs) && forall e | e in io :: e.from > hi
    ensures forall e | e in ShiftAll(io, rs, 0) :: e.from > Shift(hi, rs)
  {
    hide Ascending, AllChange, Apart, Outside, EndsOutside, Shift;
    EachOrdered(ie + io, hi, n);
    forall i | 0 <= i < |io| ensures ShiftAll(io, rs, 0)[i].from > Shift(hi, rs) {
      assert (ie + io)[|ie| + i] == io[i] && io[i] in io;
      ShiftAllAt(io, rs, 0, i);
      KeptBehind(lo, hi, io[i].from, rs, 0, n);
    }
  }

  /** What both change sets together make of the base outside the region, and the merged region. */
  ghost function Together(t: Bytes, u: Bytes, runs: seq<ChangedRun>, eb: seq<Edit>, ea: seq<Edit>, lo: nat, hi: nat,
      merged: Bytes): Bytes
    requires RunsOf(t, u, runs) && lo <= hi <= |t|
    requires Ascending(Interleave(eb, Upto(lo, RunEdits(t, u, runs))), 0, lo)
    requires Ascending(Interleave(ea, Later(hi, RunEdits(t, u, runs))), hi, |t|)
  {
    Splice(t[..lo], Interleave(eb, Upto(lo, RunEdits(t, u, runs)))) + merged
      + SpliceFrom(t, Interleave(ea, Later(hi, RunEdits(t, u, runs))), hi)
  }

  lemma Lengths(a: Bytes, a': Bytes, m: Bytes, c: Bytes, c': Bytes, text: Bytes)
    requires |text| == |a + m + c|
    requires (a == a' || |a| < |a'|) && (c == c' || |c| < |c'|)
    ensures text == a' + m + c' <==> a == a' && c == c' && text == a + m + c
  {
  }

  /** The edits left over before and behind the region, and how they are carried. */
  lemma {:induction false} SidesOfMerge(t: Bytes, u: Bytes, runs: seq<ChangedRun>, es: seq<Edit>, lo: nat, hi: nat)
    requires RunsOf(t, u, runs) && Ascending(es, 0, |t|) && Hits(t, runs, es) != []
    requires LeastRegion(t, runs, MinFrom(Hits(t, runs, es)), MaxTo(Hits(t, runs, es)), lo, hi)
    requires forall e | e in LeftOver(t, runs, lo, hi, es) ::
      !InTheWay(e, lo, hi, CurrentOf(t, u, runs, lo), CurrentOf(t, u, runs, hi))
    ensures var eb, ea, rs := EditsBefore(t, runs, es, lo, hi), EditsBehind(t, runs, es, lo, hi), RunEdits(t, u, runs);
      && LeftOver(t, runs, lo, hi, es) == eb + ea
      && Ascending(eb, 0, lo) && Ascending(ea, hi, |t|) && Separate(eb, rs) && Separate(ea, rs)
      && EndsOutside(eb + ea, rs)
      && Ascending(ShiftAll(eb, rs, 0), 0, CurrentOf(t, u, runs, lo))
      && Ascending(ShiftAll(ea, rs, 0), CurrentOf(t, u, runs, hi), |u|)
      && (forall e | e in ea :: e.from >= hi && e in LeftOver(t, runs, lo, hi, es))
  {
    var rest, rs := LeftOver(t, runs, lo, hi, es), RunEdits(t, u, runs);
    RunsSplice(t, u, runs);
    RegionFacts(t, u, runs, es, lo, hi);
    LeftOverShifted(t, u, runs, es, lo, hi);
    hide RunsOf, Hits, LeftOver, Ascending, ShiftAll, Separate, Insert, AllChange, Outside, CutsNone, Inside,
      LeastRegion, Shift,
      RunEdits, StartBefore, StartFrom, EndsOutside;
    TwoSides(rest, lo, hi, |t|);
    EachOrdered(rest, 0, |t|);
    SeparateOutside(rest, rs);
    var eb, ea := EditsBefore(t, runs, es, lo, hi), EditsBehind(t, runs, es, lo, hi);
    PartsSeparate(eb, ea, rs);
    SidesCarried(eb, ea, rs, lo, hi, |t|, |u|);
  }

  /** A clean merge that is applied is both change sets together on the two sides of the region, with
      the diff3 of the three region texts between them, exactly when no run is a pure insertion at the
      exclusive end of an edit left over, and the other side left something of the region, or what we
      insert right behind it and the merged text are the same in either order. */
  lemma {:induction false} MergedTogether(cfg: Config, t: Bytes, u: Bytes, runs: seq<ChangedRun>, es: seq<Edit>,
      lo: nat, hi: nat, version: nat, r: RebaseOutcome) returns (merged: Bytes)
    requires cfg.Valid() && RunsOf(t, u, runs) && Ascending(es, 0, |t|) && Hits(t, runs, es) != []
    requires LeastRegion(t, runs, MinFrom(Hits(t, runs, es)), MaxTo(Hits(t, runs, es)), lo, hi)
    requires MergeOutcome(cfg, t, u, runs, es, lo, hi, version, r) && r.Merged?
    ensures lo <= hi <= |t| && Ascending(Picked(t, runs, lo, hi, es), lo, hi)
      && Ascending(RegionRuns(t, u, runs, lo, hi), lo, hi)
    ensures Diff3(t[lo..hi], SpliceFrom(t[..hi], Picked(t, runs, lo, hi, es), lo),
      SpliceFrom(t[..hi], RegionRuns(t, u, runs, lo, hi), lo)) == Clean(merged)
    ensures var eb, ea, rs := EditsBefore(t, runs, es, lo, hi), EditsBehind(t, runs, es, lo, hi), RunEdits(t, u, runs);
      && LeftOver(t, runs, lo, hi, es) == eb + ea && Ascending(eb, 0, lo) && Ascending(ea, hi, |t|)
      && Ascending(Interleave(eb, Upto(lo, rs)), 0, lo) && Ascending(Interleave(ea, Later(hi, rs)), hi, |t|)
      && (TextOf(r.root) == Together(t, u, runs, eb, ea, lo, hi, merged) <==>
           && NoneSwallowed(LeftOver(t, runs, lo, hi, es), rs)
           && (CurrentOf(t, u, runs, lo) == CurrentOf(t, u, runs, hi) ==>
                 InsertedAt(hi, ea) + merged == merged + InsertedAt(hi, ea)))
  {
    var i := Info(t, u, runs, es, lo, hi, version);
    merged := Diff3(i.base, i.ours, i.theirs).text;
    RegionTextsAre(t, u, runs, es, lo, hi, version);
    RunsSplice(t, u, runs);
    RegionFacts(t, u, runs, es, lo, hi);
    TheirText(t, u, runs, lo, hi);
    hide RunsOf, RunEdits, Hits, LeftOver, Picked, RegionRuns, Ascending, ShiftAll, Separate, Insert, AllChange,
      Outside, CutsNone,
      Inside, LeastRegion, Shift, Info, Diff3, InStep, MergedEdits, SpliceFrom, BuildRoot, TextOf, Interleave, Upto,
        Later,
      EditsBefore, EditsBehind, InTheWay, NoneSwallowed, InsertedAt, EndsOutside, Apart;
    MergedEditsFit(t, u, runs, es, lo, hi, merged);
    SidesOfMerge(t, u, runs, es, lo, hi);
    MergedSides(t, u, runs, es, lo, hi, merged);
    var _ := BuiltRoot(cfg, Splice(u, MergedEdits(t, u, runs, es, lo, hi, merged)));
  }

  lemma {:induction false} MergedSides(t: Bytes, u: Bytes, runs: seq<ChangedRun>, es: seq<Edit>, lo: nat, hi: nat,
      merged: Bytes)
    requires RunsOf(t, u, runs) && Ascending(es, 0, |t|) && Hits(t, runs, es) != []
    requires LeastRegion(t, runs, MinFrom(Hits(t, runs, es)), MaxTo(Hits(t, runs, es)), lo, hi)
    requires forall e | e in LeftOver(t, runs, lo, hi, es) ::
      !InTheWay(e, lo, hi, CurrentOf(t, u, runs, lo), CurrentOf(t, u, runs, hi))
    requires Ascending(MergedEdits(t, u, runs, es, lo, hi, merged), 0, |u|)
    ensures lo <= hi <= |t|
    ensures var eb, ea, rs := EditsBefore(t, runs, es, lo, hi), EditsBehind(t, runs, es, lo, hi), RunEdits(t, u, runs);
      && Ascending(Interleave(eb, Upto(lo, rs)), 0, lo) && Ascending(Interleave(ea, Later(hi, rs)), hi, |t|)
      && (Splice(u, MergedEdits(t, u, runs, es, lo, hi, merged)) == Together(t, u, runs, eb, ea, lo, hi, merged) <==>
           && NoneSwallowed(LeftOver(t, runs, lo, hi, es), rs)
           && (CurrentOf(t, u, runs, lo) == CurrentOf(t, u, runs, hi) ==>
                 InsertedAt(hi, ea) + merged == merged + InsertedAt(hi, ea)))
  {
    var eb, ea, rs := EditsBefore(t, runs, es, lo, hi), EditsBehind(t, runs, es, lo, hi), RunEdits(t, u, runs);
    RunsSplice(t, u, runs);
    RunsAreApart(t, u, runs);
    RegionFacts(t, u, runs, es, lo, hi);
    TheirText(t, u, runs, lo, hi);
    LaterLater(lo, hi, rs);
    hide RunsOf, RunEdits, Hits, LeftOver, Picked, RegionRuns, Ascending, ShiftAll, Separate, Insert, AllChange,
      Outside, CutsNone,
      Inside, LeastRegion, Shift, InStep, MergedEdits, SpliceFrom, Interleave, Upto, Later, EditsBefore, EditsBehind,
        InTheWay,
      NoneSwallowed, InsertedAt, EndsOutside, Apart;
    MergedEditsFit(t, u, runs, es, lo, hi, merged);
    SidesOfMerge(t, u, runs, es, lo, hi);
    ShiftAllParts(eb, ea, rs);
    BehindOutside(eb, ea, rs);
    var curLo, curHi := CurrentOf(t, u, runs, lo), CurrentOf(t, u, runs, hi);
    MergedText(u, eb, ea, rs, lo, hi, |t|, merged);
    BeforeOrLess(t, u, rs, eb, lo, curLo);
    BehindOrLess(t, u, rs, ea, hi, curHi);
    SwallowedBySide(eb, ea, rs, lo, hi, |t|);
    Lengths(Splice(u[..curLo], ShiftAll(eb, rs, 0)), Splice(t[..lo], Interleave(eb, Upto(lo, rs))), merged,
      SpliceFrom(u, ShiftAll(ea, rs, 0), curHi), SpliceFrom(t, Interleave(ea, Later(hi, rs)), hi),
      Splice(u, MergedEdits(t, u, runs, es, lo, hi, merged)));
  }

  lemma BehindOutside(eb: seq<Edit>, ea: seq<Edit>, rs: seq<Edit>)
    requires EndsOutside(eb + ea, rs)
    ensures EndsOutside(ea, rs)
  {
    forall i | 0 <= i < |ea| ensures Outside(ea[i].from, rs) && Outside(ea[i].to, rs) {
      assert (eb + ea)[|eb| + i] == ea[i];
    }
  }
}
