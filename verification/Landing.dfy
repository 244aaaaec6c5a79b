/** Two change sets against the same base, landing one after the other: a rebase is told not what landed
    but what the diff of the two documents makes of it, and the two can lie in different places. */
module Landing {
  import opened Text
  import opened Tree
  import opened Splicing
  import opened Scripts
  import opened TreeDiff
  import opened Shifting
  import opened Regions
  import opened Rebasing
  import opened RebaseLaws
  import opened RebaseCases

  /** Every end of an edit is carried over the runs as far as over the changes that landed. */
  ghost predicate CarriedAlike(es: seq<Edit>, landed: seq<Edit>, rs: seq<Edit>) {
    forall e | e in es :: Shift(e.from, rs) == Shift(e.from, landed) && Shift(e.to, rs) == Shift(e.to, landed)
  }

  lemma {:induction false} AlikeShifts(es: seq<Edit>, landed: seq<Edit>, rs: seq<Edit>)
    requires CarriedAlike(es, landed, rs)
    ensures ShiftAll(es, rs, 0) == ShiftAll(es, landed, 0)
    decreases |es|
  {
    if es != [] {
      assert es[0] in es;
      AlikeShifts(es[1..], landed, rs);
    }
  }

  // ----- the same edits with other replacements -----

  function With(es: seq<Edit>, reps: seq<Bytes>): (r: seq<Edit>)
    requires |reps| == |es|
    ensures |r| == |es|
    ensures forall i | 0 <= i < |r| :: r[i] == Edit(es[i].from, es[i].to, reps[i])
  {
    seq(|es|, i requires 0 <= i < |es| => Edit(es[i].from, es[i].to, reps[i]))
  }

  lemma {:induction false} WithAscending(es: seq<Edit>, reps: seq<Bytes>, x: nat, n: nat)
    requires |reps| == |es| && Ascending(es, x, n)
    ensures Ascending(With(es, reps), x, n)
    decreases |es|
  {
    if es != [] {
      assert With(es, reps)[1..] == With(es[1..], reps[1..]);
      WithAscending(es[1..], reps[1..], es[0].to, n);
    }
  }

  lemma {:induction false} WithApart(es: seq<Edit>, reps: seq<Bytes>, rs: seq<Edit>)
    requires |reps| == |es| && Separate(es, rs)
    ensures Separate(With(es, reps), rs)
    ensures NoneSwallowed(es, rs) ==> NoneSwallowed(With(es, reps), rs)
  {
    forall i, j | 0 <= i < |es| && 0 <= j < |rs|
      ensures Precedes(With(es, reps)[i], rs[j]) || Precedes(rs[j], With(es, reps)[i])
      ensures NoneSwallowed(es, rs) ==> !Swallows(With(es, reps)[i], rs[j])
    {
      assert Precedes(es[i], rs[j]) || Precedes(rs[j], es[i]);
    }
  }

  lemma {:induction false} WithAlike(es: seq<Edit>, reps: seq<Bytes>, landed: seq<Edit>, rs: seq<Edit>)
    requires |reps| == |es|
    ensures CarriedAlike(With(es, reps), landed, rs) <==> CarriedAlike(es, landed, rs)
  {
    var w := With(es, reps);
    if CarriedAlike(es, landed, rs) {
      forall e | e in w ensures Shift(e.from, rs) == Shift(e.from, landed) && Shift(e.to, rs) == Shift(e.to, landed) {
        var i :| 0 <= i < |w| && w[i] == e;
        assert es[i] in es;
      }
    }
    if CarriedAlike(w, landed, rs) {
      forall e | e in es ensures Shift(e.from, rs) == Shift(e.from, landed) && Shift(e.to, rs) == Shift(e.to, landed) {
        var i :| 0 <= i < |es| && es[i] == e;
        assert w[i] in w;
      }
    }
  }

  // ----- what a marker tells -----

  /** A text that is found again at one place only. */
  function Marker(n: nat): (m: Bytes)
    ensures |m| == 2 * n
  {
    seq(2 * n, i => if i < n then 0 else 1)
  }

  lemma MarkerMoved(a: Bytes, b: Bytes, c: Bytes, d: Bytes, n: nat)
    requires |a| < |c| < n
    ensures a + Marker(n) + b != c + Marker(n) + d
  {
    var m, k := Marker(n), |c| + n - 1;
    assert (a + m + b)[k] == m[k - |a|] == 1;
    assert k < |c + m + d| && (c + m + d)[k] == m[n - 1] == 0;
  }

  /** Behind two texts shorter than it, it begins at the same place only when they are as long. */
  lemma MarkerPlace(a: Bytes, b: Bytes, c: Bytes, d: Bytes, n: nat)
    requires |a| < n && |c| < n && a + Marker(n) + b == c + Marker(n) + d
    ensures |a| == |c| && b == d
  {
    hide Marker;
    var m := Marker(n);
    if |a| < |c| {
      MarkerMoved(a, b, c, d, n);
    }
    if |c| < |a| {
      MarkerMoved(c, d, a, b, n);
    }
    assert (a + m + b)[|a| + |m|..] == b && (c + m + d)[|c| + |m|..] == d;
  }

  /** Markers put in at two series of places make the same text only at the same places, when the one
      series nowhere takes out less than the other. */
  lemma {:induction false} MarkersSame(u: Bytes, ps: seq<Edit>, qs: seq<Edit>, x: nat, y: nat)
    requires Ascending(ps, x, |u|) && Ascending(qs, y, |u|) && |ps| == |qs| && y <= x
    requires forall i | 0 <= i < |ps| :: ps[i].replacement == qs[i].replacement == Marker(|u| + 1)
    requires forall i | 0 <= i < |ps| :: ps[i].to - ps[i].from >= qs[i].to - qs[i].from
    requires SpliceFrom(u, ps, x) == SpliceFrom(u, qs, y)
    ensures x == y && forall i | 0 <= i < |ps| :: ps[i].from == qs[i].from && ps[i].to == qs[i].to
    decreases |ps|
  {
    hide Marker;
    if ps == [] {
      assert |u[x..]| == |u| - x && |u[y..]| == |u| - y;
    } else {
      var p, q := ps[0], qs[0];
      AscendingEnds(ps, x, |u|);
      AscendingEnds(qs, y, |u|);
      assert SpliceFrom(u, ps, x) == u[x..p.from] + Marker(|u| + 1) + SpliceFrom(u, ps[1..], p.to);
      assert SpliceFrom(u, qs, y) == u[y..q.from] + Marker(|u| + 1) + SpliceFrom(u, qs[1..], q.to);
      MarkerPlace(u[x..p.from], SpliceFrom(u, ps[1..], p.to), u[y..q.from], SpliceFrom(u, qs[1..], q.to), |u| + 1);
      hide SpliceFrom;
      assert forall i | 0 <= i < |ps[1..]| :: ps[1..][i] == ps[i + 1] && qs[1..][i] == qs[i + 1];
      MarkersSame(u, ps[1..], qs[1..], p.to, q.to);
      assert forall i | 0 < i < |ps| :: ps[i] == ps[1..][i - 1] && qs[i] == qs[1..][i - 1];
    }
  }

  // ----- when edits land where they should -----

  /** Carried over the runs, the edits make of the current text what they and the changes that landed
      make of the base together. */
  ghost predicate LandsRight(t: Bytes, u: Bytes, es: seq<Edit>, landed: seq<Edit>, rs: seq<Edit>) {
    && Ascending(ShiftAll(es, rs, 0), 0, |u|) && Ascending(Interleave(es, landed), 0, |t|)
    && Splice(u, ShiftAll(es, rs, 0)) == Splice(t, Interleave(es, landed))
  }

  lemma {:induction false} AlikeLands(t: Bytes, es: seq<Edit>, landed: seq<Edit>, rs: seq<Edit>)
    requires Ascending(es, 0, |t|) && Ascending(landed, 0, |t|) && AllChange(landed)
    requires Separate(es, landed) && NoneSwallowed(es, landed) && CarriedAlike(es, landed, rs)
    ensures LandsRight(t, Splice(t, landed), es, landed, rs)
  {
    hide Separate, NoneSwallowed, AllChange, Ascending, SpliceFrom, Splice;
    AlikeShifts(es, landed, rs);
    HoppingIsTogether(t, es, landed);
  }

  /** Carried over one account of the changes, edits grow; over the one that swallows nothing, not. */
  lemma {:induction false} GrowsAtLeast(t: Bytes, es: seq<Edit>, landed: seq<Edit>, rs: seq<Edit>, i: nat)
    requires Ascending(es, 0, |t|) && Ascending(landed, 0, |t|) && Ascending(rs, 0, |t|) && AllChange(landed)
    requires AllChange(rs)
    requires Separate(es, landed) && Separate(es, rs) && NoneSwallowed(es, landed) && i < |es|
    ensures ShiftAll(es, rs, 0)[i] == ShiftEdit(es[i], rs, 0)
    ensures ShiftAll(es, landed, 0)[i] == ShiftEdit(es[i], landed, 0)
    ensures Shift(es[i].from, rs) >= 0 && Shift(es[i].to, rs) >= 0
    ensures Shift(es[i].from, landed) >= 0 && Shift(es[i].to, landed) >= 0
    ensures Shift(es[i].to, rs) - Shift(es[i].from, rs) >= Shift(es[i].to, landed) - Shift(es[i].from, landed)
  {
    hide Ascending, Shift;
    ShiftAllAt(es, rs, 0, i);
    ShiftAllAt(es, landed, 0, i);
    ShiftsAreNat(es, rs, 0, |t|);
    ShiftsAreNat(es, landed, 0, |t|);
    EachOrdered(es, 0, |t|);
    assert Separate([es[i]], rs) && Separate([es[i]], landed);
    GrowthSwallows(es[i], rs, 0, |t|);
    GrowthSwallows(es[i], landed, 0, |t|);
  }

  /** Edits that put in markers land right only when they are carried alike. */
  lemma {:induction false} MarkedLands(t: Bytes, u: Bytes, es: seq<Edit>, landed: seq<Edit>, rs: seq<Edit>)
    requires Ascending(es, 0, |t|) && Ascending(landed, 0, |t|) && Ascending(rs, 0, |t|) && AllChange(landed)
    requires AllChange(rs)
    requires u == Splice(t, landed)
    requires Separate(es, landed) && Separate(es, rs) && NoneSwallowed(es, landed)
    requires (forall e | e in es :: e.replacement == Marker(|u| + 1)) && LandsRight(t, u, es, landed, rs)
    ensures CarriedAlike(es, landed, rs)
  {
    hide Ascending, AllChange, Separate, NoneSwallowed, Splice, Shift, Marker;
    HoppingIsTogether(t, es, landed);
    var ps, qs := ShiftAll(es, rs, 0), ShiftAll(es, landed, 0);
    forall i | 0 <= i < |es|
      ensures ps[i].from == Shift(es[i].from, rs) && ps[i].to == Shift(es[i].to, rs)
      ensures qs[i].from == Shift(es[i].from, landed) && qs[i].to == Shift(es[i].to, landed)
      ensures ps[i].replacement == qs[i].replacement == Marker(|u| + 1)
      ensures ps[i].to - ps[i].from >= qs[i].to - qs[i].from
    {
      assert es[i] in es;
      GrowsAtLeast(t, es, landed, rs, i);
    }
    SplicesAreFromStart(u, ps, qs);
    MarkersSame(u, ps, qs, 0, 0);
    forall e | e in es ensures Shift(e.from, rs) == Shift(e.from, landed) && Shift(e.to, rs) == Shift(e.to, landed) {
      var i :| 0 <= i < |es| && es[i] == e;
      assert ps[i].from == qs[i].from;
    }
  }

  lemma SplicesAreFromStart(u: Bytes, ps: seq<Edit>, qs: seq<Edit>)
    requires Ascending(ps, 0, |u|) && Ascending(qs, 0, |u|) && Splice(u, ps) == Splice(u, qs)
    ensures SpliceFrom(u, ps, 0) == SpliceFrom(u, qs, 0)
  {
  }

  /** Whatever the edits put in, rebasing them over the runs lands them right, exactly when the runs carry
      them as far as the changes that landed do. */
  lemma {:induction false} LandsRightIff(t: Bytes, u: Bytes, es: seq<Edit>, landed: seq<Edit>, runs: seq<ChangedRun>)
    requires Ascending(es, 0, |t|) && Ascending(landed, 0, |t|) && AllChange(landed) && u == Splice(t, landed)
    requires Separate(es, landed) && NoneSwallowed(es, landed)
    requires RunsOf(t, u, runs) && Hits(t, runs, es) == []
    ensures CarriedAlike(es, landed, RunEdits(t, u, runs)) <==>
      forall reps: seq<Bytes> | |reps| == |es| :: LandsRight(t, u, With(es, reps), landed, RunEdits(t, u, runs))
  {
    hide Ascending, AllChange, Separate, NoneSwallowed, Splice, LandsRight, CarriedAlike, RunsOf, RunEdits, Hit;
    var rs := RunEdits(t, u, runs);
    RunsSplice(t, u, runs);
    NoHitsSeparate(t, u, runs, es);
    if CarriedAlike(es, landed, rs) {
      forall reps: seq<Bytes> | |reps| == |es| ensures LandsRight(t, u, With(es, reps), landed, rs) {
        WithAscending(es, reps, 0, |t|);
        WithApart(es, reps, landed);
        WithAlike(es, reps, landed, rs);
        AlikeLands(t, With(es, reps), landed, rs);
      }
    }
    if forall reps: seq<Bytes> | |reps| == |es| :: LandsRight(t, u, With(es, reps), landed, rs) {
      var reps := seq(|es|, i => Marker(|u| + 1));
      assert LandsRight(t, u, With(es, reps), landed, rs);
      WithAscending(es, reps, 0, |t|);
      WithApart(es, reps, landed);
      WithApart(es, reps, rs);
      WithAlike(es, reps, landed, rs);
      MarkedLands(t, u, With(es, reps), landed, rs);
    }
  }

  lemma {:induction false} NoHitsSeparate(t: Bytes, u: Bytes, runs: seq<ChangedRun>, es: seq<Edit>)
    requires RunsOf(t, u, runs) && Ascending(es, 0, |t|) && Hits(t, runs, es) == []
    ensures Separate(es, RunEdits(t, u, runs))
  {
    hide Ascending, RunEdits, Separate, Hit, Follows;
    NoHitsAllClear(t, runs, es);
    EachOrdered(es, 0, |t|);
    assert AllClear(t, runs, es);
    ClearAreSeparate(t, u, es, runs);
  }

  /** Of two separate change sets, one lands and the other is rebased over the runs. With both carried
      over the other's runs as over the other's edits, it makes no difference which one is first: both
      orders give both change sets together, and the same root. */
  lemma {:induction false} LandingOrder(cfg: Config, t: Bytes, es: seq<Edit>, fs: seq<Edit>, runsE: seq<ChangedRun>,
      runsF: seq<ChangedRun>, v: nat, w: nat, r: RebaseOutcome, s: RebaseOutcome)
    requires cfg.Valid() && Ascending(es, 0, |t|) && Ascending(fs, 0, |t|) && AllChange(es) && AllChange(fs)
    requires Separate(es, fs) && NoneSwallowed(es, fs) && NoneSwallowed(fs, es)
    requires RunsOf(t, Splice(t, es), runsE) && Hits(t, runsE, fs) == []
    requires RunsOf(t, Splice(t, fs), runsF) && Hits(t, runsF, es) == []
    requires CarriedAlike(fs, es, RunEdits(t, Splice(t, es), runsE))
    requires CarriedAlike(es, fs, RunEdits(t, Splice(t, fs), runsF))
    requires RebasedAs(cfg, t, Splice(t, es), runsE, fs, v, r) && RebasedAs(cfg, t, Splice(t, fs), runsF, es, w, s)
    ensures Ascending(Interleave(es, fs), 0, |t|)
    ensures r == s == Rebased(BuildRoot(cfg, Splice(t, Interleave(es, fs))))
  {
    hide Ascending, AllChange, Separate, NoneSwallowed, Splice, CarriedAlike, RunsOf, RunEdits, Hits, BuildRoot;
    SeparateTails(es, fs);
    InterleaveSwap(es, fs);
    AlikeLands(t, fs, es, RunEdits(t, Splice(t, es), runsE));
    AlikeLands(t, es, fs, RunEdits(t, Splice(t, fs), runsF));
  }

  // ----- when the order matters -----

  const THRICE: Bytes := [97, NL, 98, NL, 97, NL, 98, NL, 97, NL, 98, NL]
  const CUT: Edit := Edit(0, 4, [])
  const CHANGE: Edit := Edit(4, 5, [122])
  const AFTER_CUT: Bytes := [97, NL, 98, NL, 97, NL, 98, NL]
  const AFTER_CHANGE: Bytes := [97, NL, 98, NL, 122, NL, 98, NL, 97, NL, 98, NL]
  const CUT_RUN: ChangedRun := Hunk(8, 12, 8, 8)
  const CHANGE_RUN: ChangedRun := Hunk(4, 5, 4, 5)

  /** The two changes, the documents they make, and the diffs of these against the base: the first four
      bytes were cut, and the diff that looks for shared text from the front says the last four were. */
  lemma {:induction false} OrderInput()
    ensures Ascending([CUT], 0, |THRICE|) && Ascending([CHANGE], 0, |THRICE|) && Separate([CUT], [CHANGE])
    ensures NoneSwallowed([CUT], [CHANGE]) && NoneSwallowed([CHANGE], [CUT])
    ensures Splice(THRICE, [CUT]) == AFTER_CUT && Splice(THRICE, [CHANGE]) == AFTER_CHANGE
    ensures RunsOf(THRICE, AFTER_CUT, [CUT_RUN]) && RunsOf(THRICE, AFTER_CHANGE, [CHANGE_RUN])
  {
    var t := THRICE;
    assert Precedes([CUT][0], [CHANGE][0]);
    SpliceSingle(t, CUT);
    SpliceSingle(t, CHANGE);
    assert SpliceOne(t, CUT) == [] + [] + [97, NL, 98, NL, 97, NL, 98, NL];
    assert SpliceOne(t, CHANGE) == [97, NL, 98, NL] + [122] + [NL, 98, NL, 97, NL, 98, NL];
    assert t[..8] == AFTER_CUT == AFTER_CUT[..8] && t[12..] == [] == AFTER_CUT[8..];
    SingleHunk(t, AFTER_CUT, CUT_RUN);
    assert t[..4] == [97, NL, 98, NL] == AFTER_CHANGE[..4];
    assert t[5..] == [NL, 98, NL, 97, NL, 98, NL] == AFTER_CHANGE[5..];
    SingleHunk(t, AFTER_CHANGE, CHANGE_RUN);
  }

  lemma {:induction false} OrderClear()
    ensures Hits(THRICE, [CUT_RUN], [CHANGE]) == [] && Hits(THRICE, [CHANGE_RUN], [CUT]) == []
  {
    var t := THRICE;
    LinesUpTo(t, 12);
    assert LineOf(t, 1) == 0 && LineOf(t, 2) == 1 && LineOf(t, 3) == 1 && LineOf(t, 4) == 2 && LineOf(t, 5) == 2;
    assert LineOf(t, 6) == 3 && LineOf(t, 7) == 3 && LineOf(t, 8) == 4 && LineOf(t, 9) == 4 && LineOf(t, 10) == 5;
    assert LineOf(t, 11) == 5;
    assert !Collides(t, CHANGE, CUT_RUN) && !Collides(t, CUT, CHANGE_RUN);
    hide Collides, LineOf;
    NoHit(t, CHANGE, CUT_RUN);
    NoHit(t, CUT, CHANGE_RUN);
  }

  lemma NoHit(t: Bytes, e: Edit, run: ChangedRun)
    requires !Collides(t, e, run)
    ensures Hits(t, [run], [e]) == []
  {
    hide Collides;
    var none: seq<Edit> := [];
    assert [e][1..] == none && Hits(t, [run], none) == none;
    assert !Hit(t, e, [run]);
  }

  /** Separate change sets that swallow nothing, and still the order they land in makes a difference: each
      is rebased without a collision, and the two orders come to different documents. */
  lemma {:induction false} OrderMatters(cfg: Config, v: nat, w: nat, r: RebaseOutcome, s: RebaseOutcome)
    requires cfg.Valid()
    ensures RunsOf(THRICE, AFTER_CUT, [CUT_RUN]) && RunsOf(THRICE, AFTER_CHANGE, [CHANGE_RUN])
    ensures RebasedAs(cfg, THRICE, AFTER_CUT, [CUT_RUN], [CHANGE], v, r) <==>
      r == Rebased(BuildRoot(cfg, [97, NL, 98, NL, 122, NL, 98, NL]))
    ensures RebasedAs(cfg, THRICE, AFTER_CHANGE, [CHANGE_RUN], [CUT], w, s) <==>
      s == Rebased(BuildRoot(cfg, [122, NL, 98, NL, 97, NL, 98, NL]))
    ensures BuildRoot(cfg, [97, NL, 98, NL, 122, NL, 98, NL]) != BuildRoot(cfg, [122, NL, 98, NL, 97, NL, 98, NL])
  {
    hide RunsOf, Ascending, SpliceFrom, Hits, BuildRoot, RunEdits;
    OrderInput();
    OrderClear();
    RootsNameDocuments(cfg, [97, NL, 98, NL, 122, NL, 98, NL], [122, NL, 98, NL, 97, NL, 98, NL]);
    AfterCut();
    AfterChange();
  }

  lemma {:induction false} AfterCut()
    requires RunsOf(THRICE, AFTER_CUT, [CUT_RUN])
    ensures ShiftAll([CHANGE], RunEdits(THRICE, AFTER_CUT, [CUT_RUN]), 0) == [CHANGE]
    ensures Ascending([CHANGE], 0, |AFTER_CUT|) && Splice(AFTER_CUT, [CHANGE]) == [97, NL, 98, NL, 122, NL, 98, NL]
  {
    hide RunsOf, RunEdits, SpliceFrom, Ascending;
    OneRunEdit(THRICE, AFTER_CUT, CUT_RUN);
    OneShiftAll(CHANGE, RunEdit(AFTER_CUT, CUT_RUN));
    SpliceSingle(AFTER_CUT, CHANGE);
    assert SpliceOne(AFTER_CUT, CHANGE) == [97, NL, 98, NL] + [122] + [NL, 98, NL];
  }

  lemma {:induction false} AfterChange()
    requires RunsOf(THRICE, AFTER_CHANGE, [CHANGE_RUN])
    ensures ShiftAll([CUT], RunEdits(THRICE, AFTER_CHANGE, [CHANGE_RUN]), 0) == [CUT]
    ensures Ascending([CUT], 0, |AFTER_CHANGE|) && Splice(AFTER_CHANGE, [CUT]) == [122, NL, 98, NL, 97, NL, 98, NL]
  {
    hide RunsOf, RunEdits, SpliceFrom, Ascending;
    OneRunEdit(THRICE, AFTER_CHANGE, CHANGE_RUN);
    OneShiftAll(CUT, RunEdit(AFTER_CHANGE, CHANGE_RUN));
    SpliceSingle(AFTER_CHANGE, CUT);
    assert SpliceOne(AFTER_CHANGE, CUT) == [] + [] + [122, NL, 98, NL, 97, NL, 98, NL];
  }

  /** An edit in front of a run stays where it is. */
  lemma OneShiftAll(e: Edit, r: Edit)
    requires e.from <= e.to < r.to
    ensures ShiftAll([e], [r], 0) == [e]
  {
    OneShift(r, e.from);
    OneShift(r, e.to);
    var none: seq<Edit> := [];
    assert [e][1..] == none && ShiftAll(none, [r], 0) == none && [e] + none == [e];
  }
}
