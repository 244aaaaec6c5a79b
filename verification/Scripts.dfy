/** Hunks, what makes a list of them a diff, and what it costs. */
module Scripts {
  import opened Text
  import opened EditDistance

  /** A difference of two sequences: a stretch of the one, and what the other has in its place. */
  datatype Hunk = Hunk(aFrom: nat, aTo: nat, bFrom: nat, bTo: nat)
  {
    predicate Valid() {
      aFrom <= aTo && bFrom <= bTo && (aFrom < aTo || bFrom < bTo)
    }

    function Cost(): nat
      requires Valid()
    {
      aTo - aFrom + bTo - bFrom
    }
  }

  /** Where the hunks before the i-th end, in `a` and in `b`. */
  function EndA(hs: seq<Hunk>, i: nat): nat
    requires i <= |hs|
  {
    if i == 0 then 0 else hs[i - 1].aTo
  }

  function EndB(hs: seq<Hunk>, i: nat): nat
    requires i <= |hs|
  {
    if i == 0 then 0 else hs[i - 1].bTo
  }

  /** a[i..i') and b[j..j') are the same elements. */
  predicate Same<T(==)>(a: seq<T>, b: seq<T>, i: nat, i': nat, j: nat, j': nat) {
    i <= i' <= |a| && j <= j' <= |b| && a[i..i'] == b[j..j']
  }

  /** The i-th hunk is not empty and is separated from those before it by elements both sides share. */
  predicate Follows<T(==)>(a: seq<T>, b: seq<T>, hs: seq<Hunk>, i: nat)
    requires i < |hs|
  {
    var h := hs[i];
    && h.Valid() && h.aTo <= |a| && h.bTo <= |b|
    && Same(a, b, EndA(hs, i), h.aFrom, EndB(hs, i), h.bFrom)
    && (i > 0 ==> EndA(hs, i) < h.aFrom)
  }

  predicate AllFollow<T(==)>(a: seq<T>, b: seq<T>, hs: seq<Hunk>) {
    forall i | 0 <= i < |hs| :: Follows(a, b, hs, i)
  }

  /** The hunks turn a[..x] into b[..y]. */
  predicate ScriptUpTo<T(==)>(a: seq<T>, b: seq<T>, hs: seq<Hunk>, x: nat, y: nat) {
    AllFollow(a, b, hs) && Same(a, b, EndA(hs, |hs|), x, EndB(hs, |hs|), y)
  }

  /** A diff of the two sequences: ascending, separated hunks with equal elements everywhere between. */
  predicate Script<T(==)>(a: seq<T>, b: seq<T>, hs: seq<Hunk>) {
    ScriptUpTo(a, b, hs, |a|, |b|)
  }

  function Cost(hs: seq<Hunk>): nat
    requires forall h | h in hs :: h.Valid()
  {
    if hs == [] then 0 else Cost(hs[..|hs| - 1]) + hs[|hs| - 1].Cost()
  }

  lemma HunksValid<T>(a: seq<T>, b: seq<T>, hs: seq<Hunk>)
    requires AllFollow(a, b, hs)
    ensures forall h | h in hs :: h.Valid()
  {
    forall h | h in hs ensures h.Valid() {
      var i :| 0 <= i < |hs| && hs[i] == h;
      assert Follows(a, b, hs, i);
    }
  }

  lemma FollowPrefix<T>(a: seq<T>, b: seq<T>, hs: seq<Hunk>, h: Hunk)
    requires AllFollow(a, b, hs + [h])
    ensures AllFollow(a, b, hs)
    ensures h.Valid() && h.aTo <= |a| && h.bTo <= |b| && Same(a, b, EndA(hs, |hs|), h.aFrom, EndB(hs, |hs|), h.bFrom)
  {
    forall i | 0 <= i < |hs| ensures Follows(a, b, hs, i) {
      assert Follows(a, b, hs + [h], i);
    }
    assert Follows(a, b, hs + [h], |hs|);
  }

  lemma FollowSnoc<T>(a: seq<T>, b: seq<T>, hs: seq<Hunk>, h: Hunk)
    requires AllFollow(a, b, hs) && h.Valid() && h.aTo <= |a| && h.bTo <= |b|
    requires Same(a, b, EndA(hs, |hs|), h.aFrom, EndB(hs, |hs|), h.bFrom)
    requires hs != [] ==> EndA(hs, |hs|) < h.aFrom
    ensures AllFollow(a, b, hs + [h])
  {
    forall i | 0 <= i < |hs + [h]| ensures Follows(a, b, hs + [h], i) {
      if i < |hs| {
        assert Follows(a, b, hs, i);
      }
    }
  }

  // ----- a diff replays -----

  /** `a` from the end of the hunks before the k-th on, with the k-th and later hunks replaced. */
  function Replay<T>(a: seq<T>, b: seq<T>, hs: seq<Hunk>, k: nat): seq<T>
    requires AllFollow(a, b, hs) && k <= |hs| && EndA(hs, |hs|) <= |a|
    decreases |hs| - k
  {
    if k == |hs| then a[EndA(hs, k)..] else
      assert Follows(a, b, hs, k);
      a[EndA(hs, k)..hs[k].aFrom] + b[hs[k].bFrom..hs[k].bTo] + Replay(a, b, hs, k + 1)
  }

  /** Replacing every hunk of `a` by its elements of `b` gives `b`. */
  lemma {:induction false} ScriptReplays<T>(a: seq<T>, b: seq<T>, hs: seq<Hunk>, k: nat)
    requires Script(a, b, hs) && k <= |hs|
    ensures EndB(hs, k) <= |b| && Replay(a, b, hs, k) == b[EndB(hs, k)..]
    decreases |hs| - k
  {
    hide EndA, AllFollow;
    if k == |hs| {
      WholeRest(a, EndA(hs, k));
      WholeRest(b, EndB(hs, k));
    } else {
      FollowsAt(a, b, hs, k);
      ScriptReplays(a, b, hs, k + 1);
      JoinThree(b, EndB(hs, k), hs[k].bFrom, hs[k].bTo);
    }
  }

  lemma FollowsAt<T>(a: seq<T>, b: seq<T>, hs: seq<Hunk>, k: nat)
    requires AllFollow(a, b, hs) && k < |hs|
    ensures Follows(a, b, hs, k)
  {
  }

  lemma WholeRest<T>(t: seq<T>, i: nat)
    requires i <= |t|
    ensures t[i..|t|] == t[i..]
  {
  }

  lemma JoinThree<T>(t: seq<T>, i: nat, j: nat, k: nat)
    requires i <= j <= k <= |t|
    ensures t[i..] == t[i..j] + t[j..k] + t[k..]
  {
  }

  // ----- no diff is cheaper than the distance -----

  lemma {:induction false} AlongSame<T>(a: seq<T>, b: seq<T>, i: nat, i': nat, j: nat, j': nat)
    requires Same(a, b, i, i', j, j')
    ensures Dist(a, b, i', j') == Dist(a, b, i, j)
    decreases i'
  {
    if i < i' {
      assert a[i' - 1] == a[i..i'][i' - 1 - i] == b[j..j'][i' - 1 - i];
      SameShorter(a, b, i, i', j, j');
      AlongSame(a, b, i, i' - 1, j, j' - 1);
    }
  }

  lemma SameShorter<T>(a: seq<T>, b: seq<T>, i: nat, i': nat, j: nat, j': nat)
    requires Same(a, b, i, i', j, j') && i < i'
    ensures j < j' && Same(a, b, i, i' - 1, j, j' - 1)
  {
    assert a[i..i' - 1] == a[i..i'][..i' - 1 - i];
    assert b[j..j' - 1] == b[j..j'][..i' - 1 - i];
  }

  lemma {:induction false} AcrossHunk<T>(a: seq<T>, b: seq<T>, x: nat, y: nat, dx: nat, dy: nat)
    ensures Dist(a, b, x + dx, y + dy) <= Dist(a, b, x, y) + dx + dy
    decreases dx + dy
  {
    if dx > 0 {
      AcrossHunk(a, b, x, y, dx - 1, dy);
      Neighbours(a, b, x + dx - 1, y + dy);
    } else if dy > 0 {
      AcrossHunk(a, b, x, y, 0, dy - 1);
      Neighbours(a, b, x, y + dy - 1);
    }
  }

  lemma {:induction false} CostsAtLeast<T>(a: seq<T>, b: seq<T>, hs: seq<Hunk>, x: nat, y: nat)
    requires ScriptUpTo(a, b, hs, x, y)
    ensures (forall h | h in hs :: h.Valid()) && Dist(a, b, x, y) <= Cost(hs)
    decreases |hs|
  {
    assert Dist(a, b, 0, 0) == 0;
    hide Dist, Same, AllFollow;
    HunksValid(a, b, hs);
    AlongSame(a, b, EndA(hs, |hs|), x, EndB(hs, |hs|), y);
    if hs != [] {
      var front, h := hs[..|hs| - 1], hs[|hs| - 1];
      assert hs == front + [h];
      FollowPrefix(a, b, front, h);
      CostsAtLeast(a, b, front, h.aFrom, h.bFrom);
      AcrossHunk(a, b, h.aFrom, h.bFrom, h.aTo - h.aFrom, h.bTo - h.bFrom);
    }
  }

  /** The lower bound: whatever the diff, it deletes and inserts at least `Distance` elements. */
  lemma NoneCheaper<T>(a: seq<T>, b: seq<T>, hs: seq<Hunk>)
    requires Script(a, b, hs)
    ensures (forall h | h in hs :: h.Valid()) && Distance(a, b) <= Cost(hs)
  {
    CostsAtLeast(a, b, hs, |a|, |b|);
  }

  /** Longest common subsequences, the other way of counting. */
  function Lcs<T(==)>(a: seq<T>, b: seq<T>, x: nat, y: nat): nat
    decreases x + y
  {
    if x == 0 || y == 0 then 0
    else if Match(a, b, x, y) then 1 + Lcs(a, b, x - 1, y - 1)
    else Max(Lcs(a, b, x - 1, y), Lcs(a, b, x, y - 1))
  }

  lemma {:induction false} DistanceIsLcs<T>(a: seq<T>, b: seq<T>, x: nat, y: nat)
    ensures Dist(a, b, x, y) == x + y - 2 * Lcs(a, b, x, y)
    decreases x + y
  {
    if x > 0 && y > 0 {
      if Match(a, b, x, y) {
        DistanceIsLcs(a, b, x - 1, y - 1);
      } else {
        DistanceIsLcs(a, b, x - 1, y);
        DistanceIsLcs(a, b, x, y - 1);
      }
    }
  }

  // ----- single steps and their grouping into hunks -----

  /** Deletion of a[x], or insertion of b[y]. */
  datatype Step = Step(x: nat, y: nat, inserts: bool)
  {
    function AsHunk(): Hunk {
      if inserts then Hunk(x, x, y, y + 1) else Hunk(x, x + 1, y, y)
    }
  }

  /** Add a step: it extends the last hunk when it starts where that one ends. */
  function AddStep(hs: seq<Hunk>, s: Step): seq<Hunk> {
    if hs != [] && hs[|hs| - 1].aTo == s.x && hs[|hs| - 1].bTo == s.y then
      hs[..|hs| - 1] + [hs[|hs| - 1].(aTo := s.AsHunk().aTo, bTo := s.AsHunk().bTo)]
    else hs + [s.AsHunk()]
  }

  function Group(steps: seq<Step>): seq<Hunk> {
    if steps == [] then [] else AddStep(Group(steps[..|steps| - 1]), steps[|steps| - 1])
  }

  lemma SameNothing<T>(a: seq<T>, b: seq<T>, x: nat, y: nat)
    requires x <= |a| && y <= |b|
    ensures Same(a, b, x, x, y, y)
  {
  }

  lemma Apart<T>(a: seq<T>, b: seq<T>, i: nat, i': nat, j: nat, j': nat)
    requires Same(a, b, i, i', j, j')
    ensures i' - i == j' - j && i <= i'
  {
    assert |a[i..i']| == i' - i;
    assert |b[j..j']| == j' - j;
  }

  lemma ExtendLast<T>(a: seq<T>, b: seq<T>, front: seq<Hunk>, h: Hunk, h': Hunk)
    requires AllFollow(a, b, front + [h]) && (forall g | g in front + [h] :: g.Valid())
    requires h'.Valid() && h'.aFrom == h.aFrom && h'.bFrom == h.bFrom && h'.Cost() == h.Cost() + 1
    requires h'.aTo <= |a| && h'.bTo <= |b|
    ensures ScriptUpTo(a, b, front + [h'], h'.aTo, h'.bTo)
    ensures forall g | g in front + [h'] :: g.Valid()
    ensures Cost(front + [h']) == Cost(front + [h]) + 1
  {
    FollowPrefix(a, b, front, h);
    assert Follows(a, b, front + [h], |front|);
    FollowSnoc(a, b, front, h');
    SameNothing(a, b, h'.aTo, h'.bTo);
    assert (front + [h])[..|front|] == front && (front + [h'])[..|front|] == front;
  }

  lemma AddStepKeeps<T>(a: seq<T>, b: seq<T>, hs: seq<Hunk>, s: Step)
    requires ScriptUpTo(a, b, hs, s.x, s.y) && s.AsHunk().aTo <= |a| && s.AsHunk().bTo <= |b|
    requires forall h | h in hs :: h.Valid()
    ensures ScriptUpTo(a, b, AddStep(hs, s), s.AsHunk().aTo, s.AsHunk().bTo)
    ensures forall h | h in AddStep(hs, s) :: h.Valid()
    ensures Cost(AddStep(hs, s)) == Cost(hs) + 1
  {
    hide AllFollow, Same;
    if hs != [] && hs[|hs| - 1].aTo == s.x && hs[|hs| - 1].bTo == s.y {
      var front, h := hs[..|hs| - 1], hs[|hs| - 1];
      assert hs == front + [h];
      assert h in hs;
      ExtendLast(a, b, front, h, h.(aTo := s.AsHunk().aTo, bTo := s.AsHunk().bTo));
    } else {
      Apart(a, b, EndA(hs, |hs|), s.x, EndB(hs, |hs|), s.y);
      FollowSnoc(a, b, hs, s.AsHunk());
      SameNothing(a, b, s.AsHunk().aTo, s.AsHunk().bTo);
      assert (hs + [s.AsHunk()])[..|hs|] == hs;
    }
  }

  lemma SlideKeeps<T>(a: seq<T>, b: seq<T>, hs: seq<Hunk>, x: nat, y: nat)
    requires ScriptUpTo(a, b, hs, x, y) && Match(a, b, x + 1, y + 1)
    ensures ScriptUpTo(a, b, hs, x + 1, y + 1)
  {
    var i, j := EndA(hs, |hs|), EndB(hs, |hs|);
    assert a[i..x + 1] == a[i..x] + [a[x]];
    assert b[j..y + 1] == b[j..y] + [b[y]];
  }

  lemma {:induction false} SlidesKeep<T>(a: seq<T>, b: seq<T>, hs: seq<Hunk>, k: int, x: nat)
    requires x - k >= 0 && ScriptUpTo(a, b, hs, x, x - k)
    ensures var r := Slide(a, b, k, x); ScriptUpTo(a, b, hs, r, r - k)
    decreases |a| - x
  {
    if Match(a, b, x + 1, x + 1 - k) {
      SlideKeeps(a, b, hs, x, x - k);
      SlidesKeep(a, b, hs, k, x + 1);
    }
  }

  // ----- the steps of a furthest path -----

  /** The step by which a furthest path of `d` steps comes to diagonal `k`. */
  function LastStep<T(==)>(a: seq<T>, b: seq<T>, d: nat, k: int): Step
    requires d > 0 && OnBand(d, k)
  {
    if ComesDown(a, b, d, k) then
      var x := Reach(a, b, d - 1, k + 1);
      Step(x, x - (k + 1), true)
    else
      var x := Reach(a, b, d - 1, k - 1);
      Step(x, x - (k - 1), false)
  }

  /** The diagonal the last step comes from. */
  function Before<T(==)>(a: seq<T>, b: seq<T>, d: nat, k: int): (k': int)
    requires d > 0 && OnBand(d, k)
    ensures OnBand(d - 1, k')
  {
    if ComesDown(a, b, d, k) then k + 1 else k - 1
  }

  function Steps<T(==)>(a: seq<T>, b: seq<T>, d: nat, k: int): seq<Step>
    requires OnBand(d, k)
    decreases d
  {
    if d == 0 then [] else Steps(a, b, d - 1, Before(a, b, d, k)) + [LastStep(a, b, d, k)]
  }

  lemma LastStepLands<T>(a: seq<T>, b: seq<T>, d: nat, k: int)
    requires d > 0 && OnBand(d, k)
    ensures var s, k', e := LastStep(a, b, d, k), Before(a, b, d, k), Entry(a, b, d, k);
      s.x == Reach(a, b, d - 1, k') && s.y == s.x - k' && s.AsHunk().aTo == e && s.AsHunk().bTo == e - k
  {
  }

  ghost predicate Diffs<T>(a: seq<T>, b: seq<T>, hs: seq<Hunk>, k: int, x: int, cost: nat) {
    0 <= x && 0 <= x - k && ScriptUpTo(a, b, hs, x, x - k) && (forall h | h in hs :: h.Valid()) && Cost(hs) == cost
  }

  lemma DiffsStep<T>(a: seq<T>, b: seq<T>, hs: seq<Hunk>, k': int, s: Step, k: int, cost: nat)
    requires Diffs(a, b, hs, k', s.x, cost) && s.y == s.x - k'
    requires s.AsHunk().aTo - k == s.AsHunk().bTo
    requires var r := Slide(a, b, k, s.AsHunk().aTo); r <= |a| && r - k <= |b|
    ensures Diffs(a, b, AddStep(hs, s), k, Slide(a, b, k, s.AsHunk().aTo), cost + 1)
  {
    AddStepKeeps(a, b, hs, s);
    SlidesKeep(a, b, AddStep(hs, s), k, s.AsHunk().aTo);
  }

  /** The steps of a furthest path, grouped, are a diff of the prefixes it reaches, one element a step. */
  lemma {:induction false} StepsScript<T>(a: seq<T>, b: seq<T>, d: nat, k: int)
    requires OnBand(d, k) && Reach(a, b, d, k) <= |a| && Reach(a, b, d, k) - k <= |b|
    ensures Diffs(a, b, Group(Steps(a, b, d, k)), k, Reach(a, b, d, k), d)
    decreases d
  {
    if d == 0 {
      SlidesKeep(a, b, [], 0, 0);
    } else {
      var s := LastStep(a, b, d, k);
      LastStepLands(a, b, d, k);
      var k' := Before(a, b, d, k);
      StepsScript(a, b, d - 1, k');
      var steps := Steps(a, b, d - 1, k');
      DiffsStep(a, b, Group(steps), k', s, k, d - 1);
      GroupSnoc(steps, s);
    }
  }

  lemma GroupSnoc(steps: seq<Step>, s: Step)
    ensures Group(steps + [s]) == AddStep(Group(steps), s)
  {
    assert (steps + [s])[..|steps|] == steps;
  }
}
