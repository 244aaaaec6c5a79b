/** The banded search for a shortest diff: an array of furthest-reaching points, deepened a step at a
    time, and a flat trace to walk back through. */
module Myers {
  import opened Text
  import opened EditDistance
  import opened Scripts

  /** How many entries the trace holds before depth `d`: `2 * i + 3` for every `i` below it. */
  function RowStart(d: nat): nat {
    d * (d + 2)
  }

  lemma RowStartNext(d: nat)
    ensures RowStart(d + 1) == RowStart(d) + 2 * d + 3
  {
  }

  /** A diff of two sequences by their furthest paths. */
  function ShortestHunks<T(==)>(a: seq<T>, b: seq<T>): seq<Hunk>
    requires OnBand(Distance(a, b), |a| - |b|)
  {
    Group(Steps(a, b, Distance(a, b), |a| - |b|))
  }

  /** The search's result is a diff, and no diff is shorter. */
  lemma ShortestIsShortest<T>(a: seq<T>, b: seq<T>)
    ensures OnBand(Distance(a, b), |a| - |b|)
    ensures Script(a, b, ShortestHunks(a, b))
    ensures (forall h | h in ShortestHunks(a, b) :: h.Valid()) && Cost(ShortestHunks(a, b)) == Distance(a, b)
  {
    CornerReached(a, b);
    StepsScript(a, b, Distance(a, b), |a| - |b|);
  }

  lemma CornerReached<T>(a: seq<T>, b: seq<T>)
    ensures OnBand(Distance(a, b), |a| - |b|)
    ensures Reach(a, b, Distance(a, b), |a| - |b|) == |a|
  {
    FindsCorner(a, b, Distance(a, b));
    StopsAtCorner(a, b, Distance(a, b), |a| - |b|);
  }

  // ----- the array of furthest points -----

  /** The array, centred on `off`, holds the furthest points of depth `d` (zeros before depth 0). */
  ghost predicate Live<T>(a: seq<T>, b: seq<T>, v: array<int>, off: int, d: int)
    reads v
  {
    && v.Length == 2 * off + 1 && d < off
    && (d < 0 ==> off >= 1 && v[off + 1] == 0)
    && (d >= 0 ==> forall k {:trigger OnBand(d, k)} | OnBand(d, k) :: v[k + off] == Reach(a, b, d, k))
  }

  /** Row `d` of the trace: what the array held when depth `d` began. */
  ghost predicate Row<T>(a: seq<T>, b: seq<T>, row: seq<int>, d: nat) {
    && |row| == 2 * d + 3
    && (d == 0 ==> row[2] == 0)
    && (d > 0 ==> forall k {:trigger OnBand(d - 1, k)} | OnBand(d - 1, k) :: row[k + d + 1] == Reach(a, b, d - 1, k))
  }

  ghost predicate Traced<T>(a: seq<T>, b: seq<T>, trace: seq<int>, depth: nat) {
    && |trace| == RowStart(depth)
    && forall d {:trigger RowStart(d)} | 0 <= d < depth ::
      RowStart(d) + 2 * d + 3 <= |trace| && Row(a, b, trace[RowStart(d)..RowStart(d) + 2 * d + 3], d)
  }

  lemma RowOfArray<T>(a: seq<T>, b: seq<T>, v: array<int>, off: int, d: nat)
    requires Live(a, b, v, off, d - 1) && d < off
    ensures Row(a, b, v[off - d - 1..off - d - 1 + 2 * d + 3], d)
  {
    var row := v[off - d - 1..off - d - 1 + 2 * d + 3];
    if d > 0 {
      forall k {:trigger OnBand(d - 1, k)} | OnBand(d - 1, k) ensures row[k + d + 1] == Reach(a, b, d - 1, k) {
        assert row[k + d + 1] == v[k + off];
      }
    }
  }

  lemma TraceRow<T>(a: seq<T>, b: seq<T>, trace: seq<int>, d: nat, row: seq<int>)
    requires Traced(a, b, trace, d) && Row(a, b, row, d)
    ensures Traced(a, b, trace + row, d + 1)
  {
    RowStartNext(d);
    var trace' := trace + row;
    forall e {:trigger RowStart(e)} | 0 <= e < d + 1
      ensures RowStart(e) + 2 * e + 3 <= |trace'| && Row(a, b, trace'[RowStart(e)..RowStart(e) + 2 * e + 3], e)
    {
      if e == d {
        assert trace'[RowStart(d)..RowStart(d) + 2 * d + 3] == row;
      } else {
        assert trace'[RowStart(e)..RowStart(e) + 2 * e + 3] == trace[RowStart(e)..RowStart(e) + 2 * e + 3];
      }
    }
  }

  /** What the search does at diagonal `k` of depth `d`. */
  method FurthestOn<T(==)>(a: seq<T>, b: seq<T>, v: array<int>, off: int, d: nat, k: int) returns (x: int)
    requires Live(a, b, v, off, d - 1) && d < off && OnBand(d, k)
    ensures x == Reach(a, b, d, k)
  {
    var idx := k + off;
    NeighboursOnBand(d, k);
    x := if k == -(d as int) || (k != d && v[idx - 1] < v[idx + 1]) then v[idx + 1] else v[idx - 1] + 1;
    var y := x - k;
    ghost var x0 := x;
    assert x0 == if d == 0 then 0 else Entry(a, b, d, k);
    while x < |a| && y < |b| && a[x] == b[y]
      invariant x0 <= x && y == x - k && Slide(a, b, k, x) == Slide(a, b, k, x0)
      decreases |a| - x
    {
      x := x + 1;
      y := y + 1;
    }
  }

  lemma NeighboursOnBand(d: nat, k: int)
    requires OnBand(d, k)
    ensures k < d ==> OnBand(d - 1, k + 1)
    ensures k + d > 0 ==> OnBand(d - 1, k - 1)
  {
  }

  /** The diagonals of depth `d` below `k` are done, and the corner is on none of them. */
  ghost predicate Passed<T>(a: seq<T>, b: seq<T>, v: array<int>, off: int, d: nat, k: int)
    requires v.Length == 2 * off + 1 && d < off
    reads v
  {
    forall j {:trigger OnBand(d, j)} | OnBand(d, j) && j < k ::
      v[j + off] == Reach(a, b, d, j) && !(Reach(a, b, d, j) >= |a| && Reach(a, b, d, j) - j >= |b|)
  }

  /** One deepening: every diagonal a step further, stopping where the corner is passed. */
  method Deepen<T(==)>(a: seq<T>, b: seq<T>, v: array<int>, off: int, d: nat) returns (found: bool)
    requires Live(a, b, v, off, d - 1) && d < off && d <= Distance(a, b)
    modifies v
    ensures found <==> d == Distance(a, b)
    ensures !found ==> Live(a, b, v, off, d)
  {
    hide Reach, Slide, Entry, Dist, Distance;
    var k := -(d as int);
    while k <= d
      invariant (k + d) % 2 == 0 && -(d as int) <= k
      invariant Live(a, b, v, off, d - 1)
      invariant Passed(a, b, v, off, d, k)
      decreases d - k
    {
      var x := FurthestOn(a, b, v, off, d, k);
      v[k + off] := x;
      if x >= |a| && x - k >= |b| {
        StopsAtCorner(a, b, d, k);
        return true;
      }
      k := k + 2;
    }
    if d == Distance(a, b) {
      CornerReached(a, b);
      assert false;
    }
    return false;
  }

  /** Distances are at most the two lengths together, so the search always ends at the corner unless
      its budget runs out first. */
  method Search<T(==)>(a: seq<T>, b: seq<T>, maxD: nat) returns (trace: seq<int>, depth: Option<nat>)
    ensures depth.None? <==> Distance(a, b) > maxD
    ensures depth.Some? ==> depth.value == Distance(a, b) && Traced(a, b, trace, depth.value + 1)
  {
    var max := |a| + |b|;
    var band := Min(max, maxD);
    var off := band + 1;
    var v := new int[2 * band + 3](_ => 0);
    trace := [];
    var d := 0;
    Bounds(a, b, |a|, |b|);
    assert RowStart(0) == 0;
    hide Dist, RowStart, Row;
    while true
      invariant d <= Distance(a, b) <= max && d <= maxD + 1
      invariant d <= maxD ==> Live(a, b, v, off, d - 1)
      invariant Traced(a, b, trace, d)
      decreases max + 1 - d
    {
      if d > maxD {
        return trace, None;
      }
      var lo := off - d - 1;
      RowOfArray(a, b, v, off, d);
      TraceRow(a, b, trace, d, v[lo..lo + 2 * d + 3]);
      trace := trace + v[lo..lo + 2 * d + 3];
      var found := Deepen(a, b, v, off, d);
      if found {
        return trace, Some(d);
      }
      d := d + 1;
    }
  }

  // ----- walking back -----

  /** (x, y) is the furthest point of depth `d` on its diagonal. */
  ghost predicate Standing<T>(a: seq<T>, b: seq<T>, d: nat, x: int, y: int) {
    0 <= x && 0 <= y && OnBand(d, x - y) && x == Reach(a, b, d, x - y)
  }

  /** From the furthest point of depth `d` on its diagonal to the one of depth `d - 1` it came from. */
  method StepBack<T(==)>(a: seq<T>, b: seq<T>, row: seq<int>, d: nat, x0: int, y0: int) returns (prevX: int, prevY: int,
      inserts: bool)
    requires Row(a, b, row, d) && Standing(a, b, d, x0, y0)
    ensures d > 0 ==> CameFrom(a, b, d, x0 - y0, prevX, prevY, inserts)
  {
    hide Steps, Slide, Dist;
    var x, y := x0, y0;
    var k := x - y;
    NeighboursOnBand(d, k);
    var prevK := if k == -(d as int) || (k != d && row[k - 1 + d + 1] < row[k + 1 + d + 1]) then k + 1 else k - 1;
    prevX := row[prevK + d + 1];
    prevY := prevX - prevK;
    while x > prevX && y > prevY
      invariant x - y == k && (d > 0 ==> x >= Entry(a, b, d, k))
    {
      x := x - 1;
      y := y - 1;
    }
    inserts := x == prevX;
  }

  /** (x, y) is where a furthest path of `d` steps was before the step that took it to diagonal `k`. */
  ghost predicate CameFrom<T>(a: seq<T>, b: seq<T>, d: nat, k: int, x: int, y: int, inserts: bool)
    requires d > 0 && OnBand(d, k)
  {
    x == Reach(a, b, d - 1, Before(a, b, d, k)) && x - y == Before(a, b, d, k) && inserts == ComesDown(a, b, d, k)
  }

  lemma {:induction false} StandingBefore<T>(a: seq<T>, b: seq<T>, d: nat, k: int, x: int, y: int, inserts: bool)
    requires d > 0 && OnBand(d, k) && CameFrom(a, b, d, k, x, y, inserts)
    ensures x >= 0 && y >= 0 && OnBand(d - 1, x - y) && Standing(a, b, d - 1, x, y)
    ensures Steps(a, b, d, k) == Steps(a, b, d - 1, x - y) + [Step(x, y, inserts)]
  {
  }

  function Reversed(steps: seq<Step>): seq<Step> {
    if steps == [] then [] else [steps[|steps| - 1]] + Reversed(steps[..|steps| - 1])
  }

  /** Standing at (x, y) with `d` steps still to find, the steps found so far complete the path. */
  ghost predicate Halfway<T>(a: seq<T>, b: seq<T>, all: seq<Step>, d: nat, x: int, y: int, backwards: seq<Step>) {
    Standing(a, b, d, x, y) && Steps(a, b, d, x - y) + Reversed(backwards) == all
  }

  lemma {:induction false} StillHalfway<T>(a: seq<T>, b: seq<T>, all: seq<Step>, d: nat, x: int, y: int,
      backwards: seq<Step>, x': int, y': int, inserts: bool)
    requires d > 0 && Halfway(a, b, all, d, x, y, backwards) && CameFrom(a, b, d, x - y, x', y', inserts)
    ensures x' >= 0 && y' >= 0
    ensures Halfway(a, b, all, d - 1, x', y', backwards + [Step(x', y', inserts)])
  {
    hide CameFrom, OnBand, Reach, Reversed, Steps;
    StandingBefore(a, b, d, x - y, x', y', inserts);
    hide Standing;
    ReversedSnoc(backwards, Step(x', y', inserts), Steps(a, b, d - 1, x' - y'));
  }

  lemma {:induction false} ReversedSnoc(steps: seq<Step>, s: Step, front: seq<Step>)
    ensures (front + [s]) + Reversed(steps) == front + Reversed(steps + [s])
  {
    assert (steps + [s])[..|steps|] == steps;
  }

  lemma {:induction false} AllTheWay<T>(a: seq<T>, b: seq<T>, all: seq<Step>, x: int, y: int, backwards: seq<Step>)
    requires Halfway(a, b, all, 0, x, y, backwards)
    ensures Reversed(backwards) == all
  {
    assert [] + Reversed(backwards) == Reversed(backwards);
  }

  lemma {:induction false} SetOff<T>(a: seq<T>, b: seq<T>, d: nat, x: int, y: int)
    requires Standing(a, b, d, x, y)
    ensures Halfway(a, b, Steps(a, b, d, x - y), d, x, y, [])
  {
    assert Steps(a, b, d, x - y) + Reversed([]) == Steps(a, b, d, x - y);
  }

  method RowAt<T>(ghost a: seq<T>, ghost b: seq<T>, trace: seq<int>, ghost depth: nat, d: nat) returns (row: seq<int>)
    requires Traced(a, b, trace, depth + 1) && d <= depth
    ensures Row(a, b, row, d)
  {
    row := trace[RowStart(d)..RowStart(d) + 2 * d + 3];
  }

  method WalkBack<T(==)>(a: seq<T>, b: seq<T>, trace: seq<int>, depth: nat) returns (steps: seq<Step>)
    requires depth == Distance(a, b) && Traced(a, b, trace, depth + 1) && OnBand(depth, |a| - |b|)
    ensures steps == Steps(a, b, depth, |a| - |b|)
  {
    hide Row, Traced, Distance, Steps, CameFrom;
    CornerReached(a, b);
    var x: int, y: int := |a|, |b|;
    var backwards: seq<Step> := [];
    ghost var all := Steps(a, b, depth, |a| - |b|);
    SetOff(a, b, depth, x, y);
    var d: nat := depth + 1;
    while d > 0
      invariant d <= depth + 1
      invariant d > 0 ==> Halfway(a, b, all, d - 1, x, y, backwards)
      invariant d == 0 ==> Reversed(backwards) == all
    {
      d := d - 1;
      var row := RowAt(a, b, trace, depth, d);
      var prevX, prevY, inserts := StepBack(a, b, row, d, x, y);
      if d > 0 {
        StillHalfway(a, b, all, d, x, y, backwards, prevX, prevY, inserts);
        backwards := backwards + [Step(prevX, prevY, inserts)];
      } else {
        AllTheWay(a, b, all, x, y, backwards);
      }
      x, y := prevX, prevY;
    }
    steps := Reversed(backwards);
  }

  method GroupSteps(steps: seq<Step>) returns (hunks: seq<Hunk>)
    ensures hunks == Group(steps)
  {
    hunks := [];
    var i := 0;
    while i < |steps|
      invariant i <= |steps| && hunks == Group(steps[..i])
    {
      var s := steps[i];
      assert steps[..i + 1] == steps[..i] + [s];
      GroupSnoc(steps[..i], s);
      var aTo, bTo := if s.inserts then s.x else s.x + 1, if s.inserts then s.y + 1 else s.y;
      if hunks != [] && hunks[|hunks| - 1].aTo == s.x && hunks[|hunks| - 1].bTo == s.y {
        hunks := hunks[|hunks| - 1 := hunks[|hunks| - 1].(aTo := aTo, bTo := bTo)];
      } else {
        hunks := hunks + [Hunk(s.x, aTo, s.y, bTo)];
      }
      i := i + 1;
    }
    assert steps[..|steps|] == steps;
  }

  /** The whole search: a shortest diff, or nothing exactly when the distance exceeds the budget. */
  method ShortestDiff<T(==)>(a: seq<T>, b: seq<T>, maxD: nat) returns (r: Option<seq<Hunk>>)
    ensures r.None? <==> Distance(a, b) > maxD
    ensures r.Some? ==> OnBand(Distance(a, b), |a| - |b|) && r.value == ShortestHunks(a, b)
  {
    var trace, depth := Search(a, b, maxD);
    if depth.None? {
      return None;
    }
    CornerReached(a, b);
    var steps := WalkBack(a, b, trace, depth.value);
    var hunks := GroupSteps(steps);
    return Some(hunks);
  }
}
