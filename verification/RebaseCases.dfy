/** Inputs on which a rebase does something else than its two change sets ask for. */
module RebaseCases {
  import opened Text
  import opened Tree
  import opened LineRegions
  import opened Splicing
  import opened Scripts
  import opened TreeDiff
  import opened Shifting
  import opened Regions
  import opened ThreeWay
  import opened MergeRules
  import opened Rebasing
  import opened RebaseLaws
  import opened MergeLaws

  // ----- working out small texts -----

  lemma LineStep(t: Bytes, i: nat)
    requires i < |t|
    ensures LineOf(t, i + 1) == LineOf(t, i) + if t[i] == NL then 1 else 0
  {
    assert t[..i + 1][..i] == t[..i];
  }

  /** The lines of a text place by place. */
  lemma LinesUpTo(t: Bytes, n: nat)
    requires n <= |t|
    ensures LineOf(t, 0) == 0
    ensures forall i | 0 <= i < n :: LineOf(t, i + 1) == LineOf(t, i) + if t[i] == NL then 1 else 0
  {
    assert t[..0] == [];
    forall i | 0 <= i < n ensures LineOf(t, i + 1) == LineOf(t, i) + if t[i] == NL then 1 else 0 {
      LineStep(t, i);
    }
  }

  /** A single hunk between equal ends is a diff. */
  lemma SingleHunk(t: Bytes, u: Bytes, h: ChangedRun)
    requires h.aFrom <= h.aTo <= |t| && h.bFrom <= h.bTo <= |u| && (h.aFrom < h.aTo || h.bFrom < h.bTo)
    requires t[..h.aFrom] == u[..h.bFrom] && t[h.aTo..] == u[h.bTo..]
    ensures RunsOf(t, u, [h])
  {
    assert t[0..h.aFrom] == t[..h.aFrom] && u[0..h.bFrom] == u[..h.bFrom];
    assert t[h.aTo..|t|] == t[h.aTo..] && u[h.bTo..|u|] == u[h.bTo..];
    assert Follows(t, u, [h], 0);
  }

  /** One run, two edits, the first of which collides with it and the second does not. */
  lemma FirstHits(t: Bytes, run: ChangedRun, e: Edit, f: Edit, lo: nat, hi: nat)
    requires Collides(t, e, run) && !Collides(t, f, run) && !Inside(f, lo, hi)
    ensures Hits(t, [run], [e, f]) == [e] && LeftOver(t, [run], lo, hi, [e, f]) == [f]
    ensures Picked(t, [run], lo, hi, [e, f]) == [e]
    ensures MinFrom([e]) == e.from && MaxTo([e]) == e.to && SortByFrom([e]) == [e]
  {
    hide Collides;
    var runs, none: seq<Edit> := [run], [];
    assert Collides(t, e, runs[0]);
    assert Hit(t, e, runs) && !Hit(t, f, runs);
    hide Hit;
    assert [e, f][1..] == [f] && [f][1..] == none && [e][..0] == none;
    assert Hits(t, runs, none) == none && Hits(t, runs, [f]) == none;
    assert LeftOver(t, runs, lo, hi, none) == none && LeftOver(t, runs, lo, hi, [f]) == [f];
    assert Picked(t, runs, lo, hi, none) == none && Picked(t, runs, lo, hi, [f]) == none;
    assert SortByFrom(none) == none;
  }

  lemma TwoAscending(e: Edit, f: Edit, n: nat)
    requires e.from <= e.to <= f.from <= f.to <= n
    ensures Ascending([e, f], 0, n)
  {
    assert [e, f][1..] == [f] && [f][1..] == [];
  }

  lemma OneShift(r: Edit, off: nat)
    ensures Shift(off, [r]) == if r.to > off then off else off + r.Delta()
  {
    assert [r][1..] == [];
  }

  lemma OneRunEdit(t: Bytes, u: Bytes, run: ChangedRun)
    requires RunsOf(t, u, [run])
    ensures run.bFrom <= run.bTo <= |u| && RunEdits(t, u, [run]) == [RunEdit(u, run)]
  {
    RunsInRange(t, u, [run]);
    assert [run][0] == run;
  }

  lemma OneEditedPart(t: Bytes, e: Edit, lo: nat, hi: nat)
    ensures EditedPart(t, [e], lo, hi) == Part(t, lo, e.from) + e.replacement + Part(t, e.to, hi)
  {
    var none: seq<Edit> := [];
    assert [e][1..] == none;
  }

  // ----- one line changed by both sides -----

  const CLASH: Bytes := [97, 98, NL]
  const CLASH_NOW: Bytes := [97, 121, NL]
  const CLASH_RUN: ChangedRun := Hunk(1, 2, 1, 2)
  const CLASHING: Edit := Edit(0, 1, [120])

  lemma {:induction false} ClashFacts()
    ensures RunsOf(CLASH, CLASH_NOW, [CLASH_RUN]) && Ascending([CLASHING], 0, |CLASH|)
    ensures Collides(CLASH, CLASHING, CLASH_RUN)
  {
    var t, u := CLASH, CLASH_NOW;
    assert t[..1] == u[..1] && t[2..] == u[2..];
    SingleHunk(t, u, CLASH_RUN);
    assert [CLASHING][1..] == [];
    LinesUpTo(t, 3);
    assert LineOf(t, 1) == 0 && LineOf(t, 2) == 0;
  }

  lemma ClashRegion(lo: nat, hi: nat)
    requires LeastRegion(CLASH, [CLASH_RUN], 0, 1, lo, hi)
    ensures lo == 0 && hi == 3
  {
    var t, runs := CLASH, [CLASH_RUN];
    assert t[2] == NL && NoNewline(t, 2, 2) && IsCeil(t, 2, 3) && CutsNone(runs, 0, 3);
    assert WholeRegion(t, runs, 0, 3);
    assert t[0] == 97 && t[1] == 98;
    assert !IsCeil(t, 0, 1) && !IsCeil(t, 1, 2);
  }

  lemma OneHit(t: Bytes, run: ChangedRun, e: Edit, lo: nat, hi: nat)
    requires Collides(t, e, run)
    ensures Hits(t, [run], [e]) == [e] && Picked(t, [run], lo, hi, [e]) == [e]
    ensures MinFrom([e]) == e.from && MaxTo([e]) == e.to && SortByFrom([e]) == [e]
  {
    hide Collides;
    var runs, none: seq<Edit> := [run], [];
    assert Collides(t, e, runs[0]);
    assert Hit(t, e, runs);
    hide Hit;
    assert [e][1..] == none && [e][..0] == none && SortByFrom(none) == none;
    assert Hits(t, runs, none) == none && Picked(t, runs, lo, hi, none) == none;
  }

  lemma {:induction false} ClashTexts(version: nat)
    requires RunsOf(CLASH, CLASH_NOW, [CLASH_RUN])
    requires Picked(CLASH, [CLASH_RUN], 0, 3, [CLASHING]) == [CLASHING] && SortByFrom([CLASHING]) == [CLASHING]
    ensures Info(CLASH, CLASH_NOW, [CLASH_RUN], [CLASHING], 0, 3, version) ==
      ConflictInfo(1, 1, CLASH, CLASH_NOW, [120, 98, NL], version)
  {
    hide RunsOf, Picked, SortByFrom, EditedPart, RunEdits, RunEdit, Shift;
    ClashBounds();
    LinesUpTo(CLASH_NOW, 3);
    assert LineOf(CLASH_NOW, 1) == 0 && LineOf(CLASH_NOW, 2) == 0;
    OneEditedPart(CLASH, CLASHING, 0, 3);
    assert CLASH[0..3] == CLASH && CLASH_NOW[0..3] == CLASH_NOW && CLASH[1..3] == [98, NL];
    assert [] + [120] + [98, NL] == [120, 98, NL];
  }

  lemma ClashBounds()
    requires RunsOf(CLASH, CLASH_NOW, [CLASH_RUN])
    ensures CurrentOf(CLASH, CLASH_NOW, [CLASH_RUN], 0) == 0
    ensures CurrentOf(CLASH, CLASH_NOW, [CLASH_RUN], 3) == 3
  {
    hide RunsOf, RunEdits;
    OneRunEdit(CLASH, CLASH_NOW, CLASH_RUN);
    OneShift(RunEdit(CLASH_NOW, CLASH_RUN), 0);
    OneShift(RunEdit(CLASH_NOW, CLASH_RUN), 3);
  }

  /** Each side changes one byte of the same line: that is a conflict of the line. */
  lemma {:induction false} ClashConflicts(cfg: Config, version: nat, r: RebaseOutcome)
    requires cfg.Valid() && RunsOf(CLASH, CLASH_NOW, [CLASH_RUN])
    requires RebasedAs(cfg, CLASH, CLASH_NOW, [CLASH_RUN], [CLASHING], version, r)
    ensures r == Conflicted(ConflictInfo(1, 1, CLASH, CLASH_NOW, [120, 98, NL], version))
  {
    hide Collides, LeastRegion, RunsOf, RunEdits, Ascending, Hits, Picked, Info, Diff3, MergedEdits, BuildRoot, Splice;
    ClashFacts();
    OneHit(CLASH, CLASH_RUN, CLASHING, 0, 3);
    var lo: nat, hi: nat :| MergeOutcome(cfg, CLASH, CLASH_NOW, [CLASH_RUN], [CLASHING], lo, hi, version, r)
      && LeastRegion(CLASH, [CLASH_RUN], 0, 1, lo, hi);
    ClashRegion(lo, hi);
    ClashTexts(version);
    ChangedByBoth(CLASH, [120, 98, NL], CLASH_NOW);
  }

  // ----- an edit that reaches into the region -----

  const STRADDLED: Bytes := [97, 97, NL, 98, 98, NL, 99, 99, NL]
  const STRADDLED_NOW: Bytes := [120, 97, NL, 98, 98, NL, 99, 99, NL]
  const STRADDLED_RUN: ChangedRun := Hunk(0, 1, 0, 1)
  const STRADDLING: seq<Edit> := [Edit(0, 4, [120, 97, NL, 98]), Edit(5, 7, [])]

  lemma StraddledRegion(lo: nat, hi: nat)
    requires LeastRegion(STRADDLED, [STRADDLED_RUN], 0, 4, lo, hi)
    ensures lo == 0 && hi == 6
  {
    var t, runs := STRADDLED, [STRADDLED_RUN];
    assert t[5] == NL && NoNewline(t, 5, 5) && IsCeil(t, 5, 6) && CutsNone(runs, 0, 6);
    assert WholeRegion(t, runs, 0, 6);
    assert t[3] == 98 && t[4] == 98;
    assert !IsCeil(t, 3, 4) && !IsCeil(t, 4, 5);
  }

  lemma {:induction false} StraddlingFacts()
    ensures RunsOf(STRADDLED, STRADDLED_NOW, [STRADDLED_RUN]) && Ascending(STRADDLING, 0, |STRADDLED|)
    ensures Collides(STRADDLED, STRADDLING[0], STRADDLED_RUN) && !Collides(STRADDLED, STRADDLING[1], STRADDLED_RUN)
  {
    var t, u := STRADDLED, STRADDLED_NOW;
    assert t[1..] == u[1..] && t[..0] == u[..0];
    SingleHunk(t, u, STRADDLED_RUN);
    TwoAscending(STRADDLING[0], STRADDLING[1], |t|);
    LinesUpTo(t, 7);
    assert LineOf(t, 1) == 0 && LineOf(t, 2) == 0 && LineOf(t, 3) == 1 && LineOf(t, 4) == 1 && LineOf(t, 5) == 1;
    assert LineOf(t, 6) == 2;
  }

  /** Our first edit collides with the run on line 0 and reaches into line 1, so the region is the first
      two lines. Our second edit begins at the end of line 1 and reaches into line 2: it collides with
      nothing, and is in the way. A valid edit set, which both sides agree on, is refused as invalid. */
  lemma {:induction false} StraddlerRefused(cfg: Config, version: nat, r: RebaseOutcome)
    requires cfg.Valid()
    ensures RunsOf(STRADDLED, STRADDLED_NOW, [STRADDLED_RUN]) && Ascending(STRADDLING, 0, |STRADDLED|)
    ensures RebasedAs(cfg, STRADDLED, STRADDLED_NOW, [STRADDLED_RUN], STRADDLING, version, r) ==> r == BadEdit
  {
    hide Collides, LeastRegion, RunsOf, RunEdits, MergeOutcome, Ascending, Hits, LeftOver, InTheWay;
    var t, u, runs, es := STRADDLED, STRADDLED_NOW, [STRADDLED_RUN], STRADDLING;
    StraddlingFacts();
    FirstHits(t, STRADDLED_RUN, es[0], es[1], 0, 6);
    assert es == [es[0], es[1]];
    if RebasedAs(cfg, t, u, runs, es, version, r) {
      var lo: nat, hi: nat :| MergeOutcome(cfg, t, u, runs, es, lo, hi, version, r)
        && LeastRegion(t, runs, 0, 4, lo, hi);
      StraddledRegion(lo, hi);
      StraddlerAgrees(cfg, version, r);
      RefusedIff(cfg, t, u, runs, es, lo, hi, version, r);
      assert es[1] in LeftOver(t, runs, lo, hi, es);
      StraddlerInTheWay();
    }
  }

  lemma StraddlerInTheWay()
    requires RunsOf(STRADDLED, STRADDLED_NOW, [STRADDLED_RUN])
    ensures InTheWay(STRADDLING[1], 0, 6, CurrentOf(STRADDLED, STRADDLED_NOW, [STRADDLED_RUN], 0),
      CurrentOf(STRADDLED, STRADDLED_NOW, [STRADDLED_RUN], 6))
  {
    hide RunsOf, RunEdits;
  }

  lemma {:induction false} StraddlerAgrees(cfg: Config, version: nat, r: RebaseOutcome)
    requires cfg.Valid() && RunsOf(STRADDLED, STRADDLED_NOW, [STRADDLED_RUN])
    requires Picked(STRADDLED, [STRADDLED_RUN], 0, 6, STRADDLING) == [STRADDLING[0]]
    requires SortByFrom([STRADDLING[0]]) == [STRADDLING[0]]
    requires MergeOutcome(cfg, STRADDLED, STRADDLED_NOW, [STRADDLED_RUN], STRADDLING, 0, 6, version, r)
    ensures !r.Conflicted?
  {
    hide RunsOf, Info, MergedEdits, Diff3, SortByFrom, Picked, Ascending, Splice, BuildRoot;
    var i := Info(STRADDLED, STRADDLED_NOW, [STRADDLED_RUN], STRADDLING, 0, 6, version);
    StraddlerTexts(version);
    EqualSidesGiveThatSide(i.base, i.ours);
  }

  /** In the region the two sides have the same text. */
  lemma {:induction false} StraddlerTexts(version: nat)
    requires RunsOf(STRADDLED, STRADDLED_NOW, [STRADDLED_RUN])
    requires Picked(STRADDLED, [STRADDLED_RUN], 0, 6, STRADDLING) == [STRADDLING[0]]
    requires SortByFrom([STRADDLING[0]]) == [STRADDLING[0]]
    ensures var i := Info(STRADDLED, STRADDLED_NOW, [STRADDLED_RUN], STRADDLING, 0, 6, version); i.ours == i.theirs
  {
    hide RunsOf, Picked, SortByFrom, EditedPart, LineOf, RunEdits, RunEdit, Shift;
    StraddlerBounds();
    OneEditedPart(STRADDLED, STRADDLING[0], 0, 6);
    StraddlerParts();
  }

  lemma StraddlerBounds()
    requires RunsOf(STRADDLED, STRADDLED_NOW, [STRADDLED_RUN])
    ensures CurrentOf(STRADDLED, STRADDLED_NOW, [STRADDLED_RUN], 0) == 0
    ensures CurrentOf(STRADDLED, STRADDLED_NOW, [STRADDLED_RUN], 6) == 6
  {
    hide RunsOf, RunEdits;
    OneRunEdit(STRADDLED, STRADDLED_NOW, STRADDLED_RUN);
    OneShift(RunEdit(STRADDLED_NOW, STRADDLED_RUN), 0);
    OneShift(RunEdit(STRADDLED_NOW, STRADDLED_RUN), 6);
  }

  lemma StraddlerParts()
    ensures Part(STRADDLED_NOW, 0, 6)
      == Part(STRADDLED, 0, STRADDLING[0].from) + STRADDLING[0].replacement + Part(STRADDLED, STRADDLING[0].to, 6)
  {
    assert STRADDLED[4..6] == [98, NL] && STRADDLED_NOW[0..6] == [120, 97, NL, 98, 98, NL];
  }

  // ----- edits right behind a line that the other side deleted -----

  const DELETED: Bytes := [97, NL, 98, NL, 99, NL]
  const DELETED_NOW: Bytes := [97, NL, 99, NL]
  const DELETED_RUN: ChangedRun := Hunk(2, 4, 2, 2)

  lemma DeletedRegion(lo: nat, hi: nat)
    requires LeastRegion(DELETED, [DELETED_RUN], 2, 4, lo, hi)
    ensures lo == 2 && hi == 4
  {
    var t, runs := DELETED, [DELETED_RUN];
    assert t[3] == NL && t[1] == NL && NoNewline(t, 3, 3) && IsCeil(t, 3, 4) && CutsNone(runs, 2, 4);
    assert WholeRegion(t, runs, 2, 4);
  }

  lemma DeletedBounds()
    ensures RunsOf(DELETED, DELETED_NOW, [DELETED_RUN])
    ensures RunEdits(DELETED, DELETED_NOW, [DELETED_RUN]) == [Edit(2, 4, [])]
    ensures CurrentOf(DELETED, DELETED_NOW, [DELETED_RUN], 2) == 2
    ensures CurrentOf(DELETED, DELETED_NOW, [DELETED_RUN], 4) == 2
  {
    hide RunsOf, RunEdits;
    var t, u := DELETED, DELETED_NOW;
    assert t[4..] == [99, NL] == u[2..] && t[..2] == [97, NL] == u[..2];
    SingleHunk(t, u, DELETED_RUN);
    OneRunEdit(t, u, DELETED_RUN);
    assert u[2..2] == [];
    OneShift(Edit(2, 4, []), 2);
    OneShift(Edit(2, 4, []), 4);
  }

  /** An edit of the deleted line, and one that starts right behind it. */
  lemma {:induction false} DeletedFacts(rep: Bytes, f: Edit)
    requires f.from == 4 && 4 <= f.to <= 6
    ensures var e := Edit(2, 4, rep);
      && Ascending([e, f], 0, |DELETED|) && Collides(DELETED, e, DELETED_RUN) && !Collides(DELETED, f, DELETED_RUN)
      && !Inside(f, 2, 4)
  {
    var t := DELETED;
    TwoAscending(Edit(2, 4, rep), f, |t|);
    LinesUpTo(t, 6);
    assert LineOf(t, 1) == 0 && LineOf(t, 2) == 1 && LineOf(t, 3) == 1 && LineOf(t, 4) == 2 && LineOf(t, 5) == 2;
  }

  /** Both sides delete line 1, and we change line 2 as well: the edit of line 2 collides with nothing,
      but it starts where nothing was left of the region, and the valid edit set is refused as invalid. */
  lemma {:induction false} NeighbourRefused(cfg: Config, version: nat, r: RebaseOutcome)
    requires cfg.Valid()
    ensures RunsOf(DELETED, DELETED_NOW, [DELETED_RUN])
    ensures var es := [Edit(2, 4, []), Edit(4, 6, [67, NL])];
      && Ascending(es, 0, |DELETED|)
      && (RebasedAs(cfg, DELETED, DELETED_NOW, [DELETED_RUN], es, version, r) ==> r == BadEdit)
  {
    hide Collides, LeastRegion, RunsOf, RunEdits, MergeOutcome, Ascending, Hits, LeftOver, CurrentOf;
    var t, u, runs, e, f := DELETED, DELETED_NOW, [DELETED_RUN], Edit(2, 4, []), Edit(4, 6, [67, NL]);
    var es := [e, f];
    DeletedBounds();
    DeletedFacts([], f);
    FirstHits(t, DELETED_RUN, e, f, 2, 4);
    if RebasedAs(cfg, t, u, runs, es, version, r) {
      var lo: nat, hi: nat :| MergeOutcome(cfg, t, u, runs, es, lo, hi, version, r)
        && LeastRegion(t, runs, 2, 4, lo, hi);
      DeletedRegion(lo, hi);
      BothDelete(cfg, es, version, r);
      RefusedIff(cfg, t, u, runs, es, lo, hi, version, r);
      assert f in LeftOver(t, runs, lo, hi, es);
      assert InTheWay(f, 2, 4, 2, 2);
    }
  }

  lemma {:induction false} BothDelete(cfg: Config, es: seq<Edit>, version: nat, r: RebaseOutcome)
    requires cfg.Valid() && RunsOf(DELETED, DELETED_NOW, [DELETED_RUN])
    requires Picked(DELETED, [DELETED_RUN], 2, 4, es) == [Edit(2, 4, [])]
    requires SortByFrom([Edit(2, 4, [])]) == [Edit(2, 4, [])]
    requires MergeOutcome(cfg, DELETED, DELETED_NOW, [DELETED_RUN], es, 2, 4, version, r)
    ensures !r.Conflicted?
  {
    hide RunsOf, Info, MergedEdits, Diff3, SortByFrom, Picked, Ascending, Splice, BuildRoot;
    var i := Info(DELETED, DELETED_NOW, [DELETED_RUN], es, 2, 4, version);
    DeletedTexts(es, [], version);
    EqualSidesGiveThatSide(i.base, i.ours);
  }

  lemma {:induction false} DeletedTexts(es: seq<Edit>, rep: Bytes, version: nat)
    requires RunsOf(DELETED, DELETED_NOW, [DELETED_RUN])
    requires Picked(DELETED, [DELETED_RUN], 2, 4, es) == [Edit(2, 4, rep)]
    requires SortByFrom([Edit(2, 4, rep)]) == [Edit(2, 4, rep)]
    ensures var i := Info(DELETED, DELETED_NOW, [DELETED_RUN], es, 2, 4, version);
      i.base == [98, NL] && i.ours == rep && i.theirs == []
  {
    hide RunsOf, Picked, SortByFrom, EditedPart, LineOf, RunEdits, Shift, CurrentOf;
    DeletedBounds();
    OneEditedPart(DELETED, Edit(2, 4, rep), 2, 4);
    assert DELETED[2..4] == [98, NL];
    assert [] + rep + [] == rep;
  }

  /** We put line X behind the line that the other side deletes, and line Y behind that one. The merge
      keeps X and takes Y along, but Y comes in front: the order is not the one both change sets
      together have. */
  lemma {:induction false} InsertionJumpsAhead(cfg: Config, version: nat, r: RebaseOutcome)
    requires cfg.Valid()
    ensures RunsOf(DELETED, DELETED_NOW, [DELETED_RUN])
    ensures var e, f := Edit(2, 4, [98, NL, 88, NL]), Edit(4, 4, [89, NL]);
      && Ascending([e, f], 0, |DELETED|)
      && (RebasedAs(cfg, DELETED, DELETED_NOW, [DELETED_RUN], [e, f], version, r) ==>
            r == Merged(BuildRoot(cfg, [97, NL, 89, NL, 88, NL, 99, NL])))
    ensures Splice([98, NL], [Edit(2, 2, [88, NL])]) == [98, NL, 88, NL]
    ensures var x, y, deleted := Edit(4, 4, [88, NL]), Edit(4, 4, [89, NL]), Edit(2, 4, []);
      Splice(DELETED, [deleted, x, y]) == [97, NL, 88, NL, 89, NL, 99, NL]
  {
    hide Collides, LeastRegion, RunsOf, RunEdits, MergeOutcome, Ascending, Hits, LeftOver, CurrentOf, SpliceFrom,
      BuildRoot;
    var t, u, runs := DELETED, DELETED_NOW, [DELETED_RUN];
    var e, f := Edit(2, 4, [98, NL, 88, NL]), Edit(4, 4, [89, NL]);
    var es := [e, f];
    DeletedBounds();
    DeletedFacts(e.replacement, f);
    FirstHits(t, DELETED_RUN, e, f, 2, 4);
    JumpTexts();
    if RebasedAs(cfg, t, u, runs, es, version, r) {
      var lo: nat, hi: nat :| MergeOutcome(cfg, t, u, runs, es, lo, hi, version, r)
        && LeastRegion(t, runs, 2, 4, lo, hi);
      DeletedRegion(lo, hi);
      JumpMerges(cfg, es, version, r);
    }
  }

  lemma JumpTexts()
    ensures Ascending([Edit(2, 2, [88, NL])], 0, 2)
    ensures Splice([98, NL], [Edit(2, 2, [88, NL])]) == [98, NL, 88, NL]
    ensures Ascending([Edit(2, 4, []), Edit(4, 4, [88, NL]), Edit(4, 4, [89, NL])], 0, |DELETED|)
    ensures Splice(DELETED, [Edit(2, 4, []), Edit(4, 4, [88, NL]), Edit(4, 4, [89, NL])]) ==
      [97, NL, 88, NL, 89, NL, 99, NL]
  {
    SpliceSingle([98, NL], Edit(2, 2, [88, NL]));
    var none: seq<Edit> := [];
    var d, x, y := Edit(2, 4, []), Edit(4, 4, [88, NL]), Edit(4, 4, [89, NL]);
    assert [d, x, y][1..] == [x, y] && [x, y][1..] == [y] && [y][1..] == none;
    assert Ascending([y], 4, 6) && Ascending([x, y], 4, 6) && Ascending([d, x, y], 0, 6);
    assert SpliceFrom(DELETED, none, 4) == [99, NL];
    assert SpliceFrom(DELETED, [y], 4) == [] + [89, NL] + [99, NL] == [89, NL, 99, NL];
    assert SpliceFrom(DELETED, [x, y], 4) == [] + [88, NL] + [89, NL, 99, NL] == [88, NL, 89, NL, 99, NL];
    assert SpliceFrom(DELETED, [d, x, y], 0) == [97, NL] + [] + [88, NL, 89, NL, 99, NL];
  }

  lemma {:induction false} JumpMerges(cfg: Config, es: seq<Edit>, version: nat, r: RebaseOutcome)
    requires cfg.Valid() && RunsOf(DELETED, DELETED_NOW, [DELETED_RUN])
    requires RunEdits(DELETED, DELETED_NOW, [DELETED_RUN]) == [Edit(2, 4, [])]
    requires es == [Edit(2, 4, [98, NL, 88, NL]), Edit(4, 4, [89, NL])]
    requires LeftOver(DELETED, [DELETED_RUN], 2, 4, es) == [es[1]]
    requires Picked(DELETED, [DELETED_RUN], 2, 4, es) == [es[0]]
    requires SortByFrom([es[0]]) == [es[0]]
    requires MergeOutcome(cfg, DELETED, DELETED_NOW, [DELETED_RUN], es, 2, 4, version, r)
    ensures r == Merged(BuildRoot(cfg, [97, NL, 89, NL, 88, NL, 99, NL]))
  {
    hide RunsOf, Info, MergedEdits, SortByFrom, Picked, LeftOver, RunEdits, Ascending, SpliceFrom, Splice, BuildRoot,
      Diff3;
    DeletedTexts(es, [98, NL, 88, NL], version);
    DeletedAndFollowed([98, NL], [88, NL]);
    assert [98, NL] + [88, NL] == [98, NL, 88, NL];
    JumpSorted(es);
    JumpSpliced();
  }

  /** The insertion comes before the merged text, both at offset 2 of the current text. */
  lemma {:induction false} JumpSorted(es: seq<Edit>)
    requires RunsOf(DELETED, DELETED_NOW, [DELETED_RUN])
    requires RunEdits(DELETED, DELETED_NOW, [DELETED_RUN]) == [Edit(2, 4, [])]
    requires es == [Edit(2, 4, [98, NL, 88, NL]), Edit(4, 4, [89, NL])]
    requires LeftOver(DELETED, [DELETED_RUN], 2, 4, es) == [es[1]]
    ensures MergedEdits(DELETED, DELETED_NOW, [DELETED_RUN], es, 2, 4, [88, NL]) ==
      [Edit(2, 2, [89, NL]), Edit(2, 2, [88, NL])]
  {
    hide RunsOf, RunEdits, LeftOver, CurrentOf, SortByFrom, Ascending;
    DeletedBounds();
    OneShift(Edit(2, 4, []), 4);
    var none: seq<Edit> := [];
    var f, y, x := es[1], Edit(2, 2, [89, NL]), Edit(2, 2, [88, NL]);
    assert [f][1..] == none && ShiftAll(none, [Edit(2, 4, [])], 0) == none;
    assert ShiftAll([f], [Edit(2, 4, [])], 0) == [y] + none == [y];
    SpliceSingle(DELETED_NOW, y);
    SortLast([y], x, 0, |DELETED_NOW|);
    assert [y] + [x] == [y, x];
  }

  lemma {:induction false} JumpSpliced()
    ensures var all := [Edit(2, 2, [89, NL]), Edit(2, 2, [88, NL])];
      Ascending(all, 0, |DELETED_NOW|) && Splice(DELETED_NOW, all) == [97, NL, 89, NL, 88, NL, 99, NL]
  {
    hide SpliceFrom, Ascending;
    var y, x := Edit(2, 2, [89, NL]), Edit(2, 2, [88, NL]);
    SplicePair(DELETED_NOW, y, x);
    assert SpliceOne(DELETED_NOW, x) == [97, NL] + [88, NL] + [99, NL] == [97, NL, 88, NL, 99, NL];
    assert SpliceOne([97, NL, 88, NL, 99, NL], y) == [97, NL] + [89, NL] + [88, NL, 99, NL];
  }
}
