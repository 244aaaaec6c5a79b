/** Which edits collide with concurrent runs, and the line-aligned region a collision is merged in. */
module Regions {
  import opened Text
  import opened Nodes
  import opened Storage
  import opened Navigation
  import opened LineNavigation
  import opened LineRegions
  import opened Splicing
  import opened Scripts
  import opened TreeDiff
  import opened Shifting

  // ----- runs as edits -----

  function RunEdit(u: Bytes, r: ChangedRun): Edit
    requires r.bFrom <= r.bTo <= |u|
  {
    Edit(r.aFrom, r.aTo, u[r.bFrom..r.bTo])
  }

  ghost predicate RunsOf(t: Bytes, u: Bytes, runs: seq<ChangedRun>) {
    Script(t, u, runs)
  }

  lemma RunsInRange(t: Bytes, u: Bytes, runs: seq<ChangedRun>)
    requires RunsOf(t, u, runs)
    ensures forall i | 0 <= i < |runs| :: runs[i].aFrom <= runs[i].aTo <= |t| && runs[i].bFrom <= runs[i].bTo <= |u|
  {
    forall i | 0 <= i < |runs| ensures runs[i].aFrom <= runs[i].aTo <= |t| && runs[i].bFrom <= runs[i].bTo <= |u| {
      assert Follows(t, u, runs, i);
    }
  }

  /** The runs between two texts as the edits that make the one of the other. */
  ghost function RunEdits(t: Bytes, u: Bytes, runs: seq<ChangedRun>): (rs: seq<Edit>)
    requires RunsOf(t, u, runs)
    ensures |rs| == |runs|
    ensures forall i | 0 <= i < |runs| :: runs[i].bFrom <= runs[i].bTo <= |u| && rs[i] == RunEdit(u, runs[i])
  {
    RunsInRange(t, u, runs);
    seq(|runs|, i requires 0 <= i < |runs| => RunEdit(u, runs[i]))
  }

  lemma {:induction false} RunsSpliceFrom(t: Bytes, u: Bytes, runs: seq<ChangedRun>, k: nat)
    requires RunsOf(t, u, runs) && k <= |runs|
    ensures var rs := RunEdits(t, u, runs)[k..];
      Ascending(rs, EndA(runs, k), |t|) && EndB(runs, k) <= |u|
        && SpliceFrom(t, rs, EndA(runs, k)) == u[EndB(runs, k)..]
    decreases |runs| - k
  {
    var all := RunEdits(t, u, runs);
    if k == |runs| {
      assert all[k..] == [];
      assert t[EndA(runs, k)..|t|] == t[EndA(runs, k)..] && u[EndB(runs, k)..|u|] == u[EndB(runs, k)..];
    } else {
      assert Follows(t, u, runs, k);
      RunsSpliceFrom(t, u, runs, k + 1);
      assert all[k..][0] == all[k] && all[k..][1..] == all[k + 1..];
      var r := runs[k];
      assert u[EndB(runs, k)..] == u[EndB(runs, k)..r.bFrom] + u[r.bFrom..r.bTo] + u[r.bTo..];
    }
  }

  /** Splicing the runs into the base gives the current text. */
  lemma RunsSplice(t: Bytes, u: Bytes, runs: seq<ChangedRun>)
    requires RunsOf(t, u, runs)
    ensures Ascending(RunEdits(t, u, runs), 0, |t|) && Splice(t, RunEdits(t, u, runs)) == u
    ensures AllChange(RunEdits(t, u, runs))
  {
    RunsSpliceFrom(t, u, runs, 0);
    var rs := RunEdits(t, u, runs);
    assert rs[0..] == rs && u[0..] == u;
    forall j | 0 <= j < |rs| ensures rs[j].from < rs[j].to || rs[j].replacement != [] {
      assert Follows(t, u, runs, j);
    }
  }

  /** `Shift` by a loop over the runs: their deltas added up, as far as they end by the offset. */
  method ShiftOffset(off: nat, runs: seq<ChangedRun>, ghost t: Bytes, ghost u: Bytes) returns (r: nat)
    requires RunsOf(t, u, runs)
    ensures r == Shift(off, RunEdits(t, u, runs))
  {
    ghost var rs := RunEdits(t, u, runs);
    ghost var left := rs;
    var delta := 0;
    var i := 0;
    while i < |runs|
      invariant i <= |runs| && left == rs[i..] && Shift(off, rs) == Shift(off, left) + delta
    {
      var run := runs[i];
      assert left[0] == RunEdit(u, run);
      if run.aTo <= off {
        delta := delta + ((run.bTo - run.bFrom) - (run.aTo - run.aFrom));
      } else {
        break;
      }
      left := left[1..];
      i := i + 1;
    }
    RunsSplice(t, u, runs);
    ShiftBound(off, rs, 0, |t|);
    r := off + delta;
  }

  // ----- collisions -----

  /** The first and the last line that the bytes [from, end) are on; where there are none, `from` is. */
  function LineSpan(t: Bytes, from: nat, end: nat): (nat, nat) {
    var a := LineOf(t, Min(from, |t|));
    (a, if end > from then LineOf(t, Min(end - 1, |t|)) else a)
  }

  predicate Overlaps(e: Edit, r: ChangedRun) {
    if e.from == e.to && r.aFrom == r.aTo then e.from == r.aFrom
    else if e.from == e.to then r.aFrom < e.from < r.aTo
    else if r.aFrom == r.aTo then e.from < r.aFrom < e.to
    else e.from < r.aTo && r.aFrom < e.to
  }

  /** An edit collides with a run when they overlap or share a line. */
  predicate Collides(t: Bytes, e: Edit, r: ChangedRun) {
    var el, rl := LineSpan(t, e.from, e.to), LineSpan(t, r.aFrom, r.aTo);
    Overlaps(e, r) || (el.0 <= rl.1 && rl.0 <= el.1)
  }

  predicate Hit(t: Bytes, e: Edit, runs: seq<ChangedRun>) {
    exists j | 0 <= j < |runs| :: Collides(t, e, runs[j])
  }

  /** An edit and a run that do not collide lie wholly on one side of each other. */
  lemma ClearIsSeparate(t: Bytes, u: Bytes, e: Edit, r: ChangedRun)
    requires e.from <= e.to <= |t| && r.aFrom <= r.aTo <= |t| && r.bFrom <= r.bTo <= |u| && !Collides(t, e, r)
    ensures Precedes(e, RunEdit(u, r)) || Precedes(RunEdit(u, r), e)
  {
    var el, rl := LineSpan(t, e.from, e.to), LineSpan(t, r.aFrom, r.aTo);
    var eLast, rLast := if e.to > e.from then e.to - 1 else e.from, if r.aTo > r.aFrom then r.aTo - 1 else r.aFrom;
    if el.1 < rl.0 {
      if r.aFrom <= eLast {
        LineOfMonotone(t, r.aFrom, eLast);
      }
    } else {
      assert rl.1 < el.0;
      if e.from <= rLast {
        LineOfMonotone(t, e.from, rLast);
      }
    }
  }

  /** Edits of the text that collide with no run. */
  ghost predicate AllClear(t: Bytes, runs: seq<ChangedRun>, es: seq<Edit>) {
    forall e | e in es :: e.from <= e.to <= |t| && !Hit(t, e, runs)
  }

  lemma {:induction false} ClearAreSeparate(t: Bytes, u: Bytes, es: seq<Edit>, runs: seq<ChangedRun>)
    requires RunsOf(t, u, runs) && AllClear(t, runs, es)
    ensures Separate(es, RunEdits(t, u, runs))
  {
    var rs := RunEdits(t, u, runs);
    forall i, j | 0 <= i < |es| && 0 <= j < |rs| ensures Precedes(es[i], rs[j]) || Precedes(rs[j], es[i]) {
      assert Follows(t, u, runs, j);
      assert es[i] in es;
      ClearIsSeparate(t, u, es[i], runs[j]);
    }
  }

  method LineSpanOf(st: MemStorage, root: Hash, from: nat, end: nat, len: nat, ghost top: nat, ghost t: Bytes)
      returns (span: (nat, nat))
    requires Reads(st, root, top, t) && len == |t|
    ensures span == LineSpan(t, from, end)
  {
    var a := LineOfByte(st, root, Min(from, len), top, t);
    var b := a;
    if end > from {
      b := LineOfByte(st, root, Min(end - 1, len), top, t);
    }
    span := (a, b);
  }

  // ----- the region of a collision -----

  /** No run is cut by a bound of [lo, hi). */
  predicate CutsNone(runs: seq<ChangedRun>, lo: nat, hi: nat) {
    forall j | 0 <= j < |runs| :: runs[j].aTo <= lo || hi <= runs[j].aFrom || (lo <= runs[j].aFrom && runs[j].aTo <= hi)
  }

  /** A range of whole lines that cuts no run. */
  predicate WholeRegion(t: Bytes, runs: seq<ChangedRun>, lo: nat, hi: nat) {
    lo <= hi && StartsLine(t, lo) && IsCeil(t, if hi > lo then hi - 1 else lo, hi) && CutsNone(runs, lo, hi)
  }

  /** The range reaches past a point, unless the text ends there. */
  predicate ReachesPast(t: Bytes, lo: nat, hi: nat, end: nat) {
    lo == hi ==> end > hi || end == |t|
  }

  /** [lo, hi) is the least range of whole lines around [lo0, hi0) that cuts no run. */
  ghost predicate LeastRegion(t: Bytes, runs: seq<ChangedRun>, lo0: nat, hi0: nat, lo: nat, hi: nat) {
    && WholeRegion(t, runs, lo, hi) && lo <= lo0 && hi0 <= hi <= |t| && ReachesPast(t, lo0, hi0, hi)
    && forall l: nat, h: nat :: WholeRegion(t, runs, l, h) && l <= lo0 && hi0 <= h && ReachesPast(t, lo0, hi0, h) ==>
         l <= lo && hi <= h
  }

  /** [lo, hi) has grown from [lo0, hi0) and is still within every candidate region. */
  ghost predicate Growing(t: Bytes, runs: seq<ChangedRun>, lo0: nat, hi0: nat, lo: nat, hi: nat) {
    && lo <= lo0 && hi0 <= hi <= |t| && lo <= hi
    && forall l: nat, h: nat :: WholeRegion(t, runs, l, h) && l <= lo0 && hi0 <= h && ReachesPast(t, lo0, hi0, h) ==>
         l <= lo && hi <= h
  }

  /** One pass over the runs: take in every run that reaches into the range. */
  method TakeInRuns(runs: seq<ChangedRun>, lo0: nat, hi0: nat, ghost t: Bytes, ghost u: Bytes) returns (lo: nat,
      hi: nat)
    requires RunsOf(t, u, runs)
    ensures lo <= lo0 && hi0 <= hi
    ensures lo0 <= hi0 <= |t| ==> hi <= |t| && CutsNone(runs, lo, hi)
    ensures lo0 == hi0 ==> (lo == lo0 && hi == hi0) || hi0 < hi
    ensures forall l: nat, h: nat :: l <= lo0 && hi0 <= h && lo0 <= hi0 && CutsNone(runs, l, h) ==> l <= lo && hi <= h
  {
    lo, hi := lo0, hi0;
    RunsInRange(t, u, runs);
    var i := 0;
    while i < |runs|
      invariant i <= |runs| && lo <= lo0 && hi0 <= hi
      invariant lo0 <= hi0 <= |t| ==> hi <= |t| && CutsNone(runs[..i], lo, hi)
      invariant lo0 == hi0 ==> (lo == lo0 && hi == hi0) || hi0 < hi
      invariant forall l: nat, h: nat :: l <= lo0 && hi0 <= h && lo0 <= hi0 && CutsNone(runs, l, h) ==>
        l <= lo && hi <= h
    {
      var r := runs[i];
      RunsApart(t, u, runs, i);
      assert runs[..i + 1] == runs[..i] + [r];
      if (r.aFrom < hi && r.aTo > lo) || (r.aFrom == r.aTo && lo <= r.aFrom <= hi) {
        lo, hi := Min(lo, r.aFrom), Max(hi, r.aTo);
      }
      i := i + 1;
    }
    assert runs[..|runs|] == runs;
  }

  lemma {:induction false} RunsApart(t: Bytes, u: Bytes, runs: seq<ChangedRun>, i: nat)
    requires RunsOf(t, u, runs) && i < |runs|
    ensures forall j | 0 <= j < i :: runs[j].aTo < runs[i].aFrom
    decreases i
  {
    if i > 0 {
      RunsApart(t, u, runs, i - 1);
      assert Follows(t, u, runs, i) && Follows(t, u, runs, i - 1);
    }
  }

  lemma StillGrowing(t: Bytes, runs: seq<ChangedRun>, lo0: nat, hi0: nat, lo: nat, hi: nat, lo1: nat, hi1: nat,
      lo2: nat, hi2: nat)
    requires Growing(t, runs, lo0, hi0, lo, hi) && lo1 <= lo && hi <= hi1 <= |t|
    requires forall l: nat, h: nat :: l <= lo && hi <= h && lo <= hi && CutsNone(runs, l, h) ==> l <= lo1 && hi1 <= h
    requires IsFloor(t, lo1, lo2) && IsCeil(t, if hi1 > lo1 then hi1 - 1 else lo1, hi2)
    requires lo == hi ==> lo0 == hi0 || hi == |t|
    requires lo0 == hi0 ==> hi0 < hi1 || hi1 == |t| || (lo1 == lo0 && hi1 == hi0)
    ensures Growing(t, runs, lo0, hi0, lo2, hi2) && Growing(t, runs, lo0, hi0, lo1, hi1)
    ensures ReachesPast(t, lo0, hi0, hi2)
  {
    forall l: nat, h: nat | WholeRegion(t, runs, l, h) && l <= lo0 && hi0 <= h && ReachesPast(t, lo0, hi0, h)
      ensures l <= lo2 && hi2 <= h
    {
      assert l <= lo && hi <= h;
      assert l <= lo1 && hi1 <= h;
      FloorAtLeast(t, lo1, lo2, l);
      CeilAtMost(t, if hi1 > lo1 then hi1 - 1 else lo1, hi2, if h > l then h - 1 else l, h);
    }
  }

  lemma FloorAtLeast(t: Bytes, off: nat, p: nat, l: nat)
    requires IsFloor(t, off, p) && StartsLine(t, l) && l <= off
    ensures l <= p
  {
  }

  lemma CeilAtMost(t: Bytes, off: nat, c: nat, off': nat, h: nat)
    requires IsCeil(t, off, c) && IsCeil(t, off', h) && (off < h || off == h == |t|)
    ensures c <= h
  {
  }

  /** Grow the range over runs and to whole lines until neither adds anything. */
  method RegionAround(st: MemStorage, base: Hash, runs: seq<ChangedRun>, lo0: nat, hi0: nat, len: nat, ghost top: nat,
      ghost t: Bytes, ghost u: Bytes) returns (lo: nat, hi: nat)
    requires Reads(st, base, top, t) && RunsOf(t, u, runs) && len == |t|
    ensures lo0 <= hi0 <= |t| ==> LeastRegion(t, runs, lo0, hi0, lo, hi)
  {
    hide Reads, RunsOf, IsFloor, IsCeil, CutsNone;
    lo, hi := lo0, hi0;
    ghost var first := true;
    while true
      invariant first ==> lo == lo0 && hi == hi0
      invariant !first ==> lo <= hi <= |t|
      invariant lo0 <= hi0 <= |t| ==> Growing(t, runs, lo0, hi0, lo, hi) && (!first && lo == hi ==> hi == |t|)
      invariant lo0 <= hi0 <= |t| && !first ==> ReachesPast(t, lo0, hi0, hi)
      decreases first, if first then 0 else lo + |t| - hi
    {
      ghost var lo', hi' := lo, hi;
      lo, hi := TakeInRuns(runs, lo, hi, t, u);
      var nlo := FloorOf(st, base, lo, top, t);
      var nhi := CeilOf(st, base, if hi > lo then hi - 1 else lo, len, top, t);
      WidenFacts(t, Min(lo, |t|), nlo, Min(if hi > lo then hi - 1 else lo, |t|), nhi);
      if lo0 <= hi0 <= |t| {
        StillGrowing(t, runs, lo0, hi0, lo', hi', lo, hi, nlo, nhi);
      }
      if nlo == lo && nhi == hi {
        break;
      }
      lo, hi, first := nlo, nhi, false;
    }
  }

  lemma WidenFacts(t: Bytes, off: nat, p: nat, off': nat, c: nat)
    requires IsFloor(t, off, p) && IsCeil(t, off', c) && off <= off'
    ensures p <= off && StartsLine(t, p) && off' <= c <= |t| && p <= c && (c == off' ==> c == |t|)
  {
  }
}
