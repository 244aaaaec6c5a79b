/** Diffs of whole sequences: shared ends trimmed, the search between them, a single hunk when its
    budget runs out. */
module SequenceDiff {
  import opened EditDistance
  import opened Scripts
  import opened Myers

  /** The longest shared prefix. */
  function SharedPrefix<T(==)>(a: seq<T>, b: seq<T>, i: nat): (n: nat)
    requires i <= |a| && i <= |b|
    ensures i <= n <= |a| && n <= |b|
    decreases |a| - i
  {
    if i < |a| && i < |b| && a[i] == b[i] then SharedPrefix(a, b, i + 1) else i
  }

  /** The longest shared suffix that leaves the first `pre` elements alone. */
  function SharedSuffix<T(==)>(a: seq<T>, b: seq<T>, pre: nat, i: nat): (n: nat)
    requires pre + i <= |a| && pre + i <= |b|
    ensures i <= n && pre + n <= |a| && pre + n <= |b|
    decreases |a| - i
  {
    if i < |a| - pre && i < |b| - pre && a[|a| - 1 - i] == b[|b| - 1 - i] then SharedSuffix(a, b, pre, i + 1) else i
  }

  function Shift(hs: seq<Hunk>, n: nat): (r: seq<Hunk>)
    ensures |r| == |hs|
  {
    seq(|hs|, i requires 0 <= i < |hs| => Hunk(hs[i].aFrom + n, hs[i].aTo + n, hs[i].bFrom + n, hs[i].bTo + n))
  }

  /** The diff of what is left once shared ends are trimmed. */
  function CoreHunks<T(==)>(a: seq<T>, b: seq<T>, maxD: nat): seq<Hunk> {
    CornerReached(a, b);
    if a == [] && b == [] then []
    else if a == [] || b == [] || Distance(a, b) > maxD then [Hunk(0, |a|, 0, |b|)]
    else ShortestHunks(a, b)
  }

  function DiffHunks<T(==)>(a: seq<T>, b: seq<T>, maxD: nat): seq<Hunk> {
    var pre := SharedPrefix(a, b, 0);
    var suf := SharedSuffix(a, b, pre, 0);
    Shift(CoreHunks(a[pre..|a| - suf], b[pre..|b| - suf], maxD), pre)
  }

  method DiffSeq<T(==)>(a: seq<T>, b: seq<T>, maxD: nat) returns (hunks: seq<Hunk>)
    ensures hunks == DiffHunks(a, b, maxD)
  {
    hide ShortestHunks, Distance;
    var pre := 0;
    while pre < |a| && pre < |b| && a[pre] == b[pre]
      invariant pre <= |a| && pre <= |b| && SharedPrefix(a, b, 0) == SharedPrefix(a, b, pre)
    {
      pre := pre + 1;
    }
    var suf := 0;
    while suf < |a| - pre && suf < |b| - pre && a[|a| - 1 - suf] == b[|b| - 1 - suf]
      invariant pre + suf <= |a| && pre + suf <= |b| && SharedSuffix(a, b, pre, 0) == SharedSuffix(a, b, pre, suf)
    {
      suf := suf + 1;
    }
    var a2, b2 := a[pre..|a| - suf], b[pre..|b| - suf];
    if a2 == [] && b2 == [] {
      return [];
    }
    if a2 == [] || b2 == [] {
      return [Hunk(pre, pre + |a2|, pre, pre + |b2|)];
    }
    var r := ShortestDiff(a2, b2, maxD);
    var core := if r.Some? then r.value else [Hunk(0, |a2|, 0, |b2|)];
    hunks := Shift(core, pre);
  }

  // ----- what the result is -----

  lemma {:induction false} PrefixShared<T>(a: seq<T>, b: seq<T>, i: nat)
    requires i <= |a| && i <= |b| && a[..i] == b[..i]
    ensures var n := SharedPrefix(a, b, i); a[..n] == b[..n]
    decreases |a| - i
  {
    if i < |a| && i < |b| && a[i] == b[i] {
      assert a[..i + 1] == a[..i] + [a[i]] && b[..i + 1] == b[..i] + [b[i]];
      PrefixShared(a, b, i + 1);
    }
  }

  lemma {:induction false} SuffixShared<T>(a: seq<T>, b: seq<T>, pre: nat, i: nat)
    requires pre + i <= |a| && pre + i <= |b| && a[|a| - i..] == b[|b| - i..]
    ensures var n := SharedSuffix(a, b, pre, i); a[|a| - n..] == b[|b| - n..]
    decreases |a| - i
  {
    if i < |a| - pre && i < |b| - pre && a[|a| - 1 - i] == b[|b| - 1 - i] {
      assert a[|a| - i - 1..] == [a[|a| - 1 - i]] + a[|a| - i..];
      assert b[|b| - i - 1..] == [b[|b| - 1 - i]] + b[|b| - i..];
      SuffixShared(a, b, pre, i + 1);
    }
  }

  lemma CoreScript<T>(a: seq<T>, b: seq<T>, maxD: nat)
    ensures Script(a, b, CoreHunks(a, b, maxD))
    ensures forall h | h in CoreHunks(a, b, maxD) :: h.Valid()
    ensures Distance(a, b) <= maxD ==> Cost(CoreHunks(a, b, maxD)) == Distance(a, b)
  {
    CornerReached(a, b);
    if a != [] && b != [] && Distance(a, b) <= maxD {
      ShortestIsShortest(a, b);
    } else if a != [] || b != [] {
      assert [Hunk(0, |a|, 0, |b|)][..0] == [];
    }
  }

  /** Equal ends around a diff make a diff of the whole. */
  lemma FramedScript<T>(p: seq<T>, a: seq<T>, b: seq<T>, q: seq<T>, hs: seq<Hunk>)
    requires Script(a, b, hs)
    ensures Script(p + a + q, p + b + q, Shift(hs, |p|))
  {
    var a', b', hs' := p + a + q, p + b + q, Shift(hs, |p|);
    forall i | 0 <= i < |hs'| ensures Follows(a', b', hs', i) {
      assert Follows(a, b, hs, i);
      FramedSame(p, a, b, q, EndA(hs, i), hs[i].aFrom, EndB(hs, i), hs[i].bFrom, i == 0);
    }
    FramedEnd(p, a, b, q, EndA(hs, |hs|), EndB(hs, |hs|), hs == []);
  }

  lemma FramedSame<T>(p: seq<T>, a: seq<T>, b: seq<T>, q: seq<T>, i: nat, i': nat, j: nat, j': nat, first: bool)
    requires Same(a, b, i, i', j, j') && (first ==> i == 0 && j == 0)
    ensures Same(p + a + q, p + b + q, if first then 0 else i + |p|, i' + |p|, if first then 0 else j + |p|, j' + |p|)
  {
    var a', b' := p + a + q, p + b + q;
    assert a'[i + |p|..i' + |p|] == a[i..i'];
    assert b'[j + |p|..j' + |p|] == b[j..j'];
    if first {
      assert a'[0..i' + |p|] == p + a[0..i'];
      assert b'[0..j' + |p|] == p + b[0..j'];
    }
  }

  lemma FramedEnd<T>(p: seq<T>, a: seq<T>, b: seq<T>, q: seq<T>, i: nat, j: nat, first: bool)
    requires Same(a, b, i, |a|, j, |b|) && (first ==> i == 0 && j == 0)
    ensures Same(p + a + q, p + b + q, if first then 0 else i + |p|, |p + a + q|, if first then 0 else j + |p|,
      |p + b + q|)
  {
    var a', b' := p + a + q, p + b + q;
    assert a'[i + |p|..|a'|] == a[i..|a|] + q;
    assert b'[j + |p|..|b'|] == b[j..|b|] + q;
    if first {
      assert a'[0..|a'|] == p + a[0..|a|] + q;
      assert b'[0..|b'|] == p + b[0..|b|] + q;
    }
  }

  lemma {:induction false} ShiftCost(hs: seq<Hunk>, n: nat)
    requires forall h | h in hs :: h.Valid()
    ensures (forall h | h in Shift(hs, n) :: h.Valid()) && Cost(Shift(hs, n)) == Cost(hs)
    decreases |hs|
  {
    var hs' := Shift(hs, n);
    forall i | 0 <= i < |hs'| ensures hs'[i].Valid() {
      assert hs[i] in hs;
    }
    if hs != [] {
      ShiftCost(hs[..|hs| - 1], n);
      assert hs'[..|hs| - 1] == Shift(hs[..|hs| - 1], n);
    }
  }

  /** A shared suffix adds nothing to the distance. */
  lemma {:induction false} SuffixFree<T>(a: seq<T>, b: seq<T>, q: seq<T>)
    ensures Distance(a + q, b + q) == Distance(a, b)
    decreases |q|
  {
    if q == [] {
      assert a + q == a && b + q == b;
    } else {
      var r, c := q[..|q| - 1], q[|q| - 1];
      assert a + q == (a + r) + [c] && b + q == (b + r) + [c];
      LastFree(a + r, b + r, c);
      SuffixFree(a, b, r);
    }
  }

  lemma LastFree<T>(a: seq<T>, b: seq<T>, c: T)
    ensures Distance(a + [c], b + [c]) == Distance(a, b)
  {
    GridGrows(a, b, [c], [c], |a|, |b|);
  }

  lemma {:induction false} GridGrows<T>(a: seq<T>, b: seq<T>, q: seq<T>, r: seq<T>, x: nat, y: nat)
    requires x <= |a| && y <= |b|
    ensures Dist(a + q, b + r, x, y) == Dist(a, b, x, y)
    decreases x + y
  {
    if x > 0 && y > 0 {
      GridGrows(a, b, q, r, x - 1, y - 1);
      GridGrows(a, b, q, r, x - 1, y);
      GridGrows(a, b, q, r, x, y - 1);
    }
  }

  /** Nor does a shared prefix. */
  lemma {:induction false} PrefixFree<T>(p: seq<T>, a: seq<T>, b: seq<T>, x: nat, y: nat)
    ensures Dist(p + a, p + b, |p| + x, |p| + y) == Dist(a, b, x, y)
    decreases x + y
  {
    if x == 0 || y == 0 {
      OnDiagonal(p, a, b, |p|);
      Bounds(p + a, p + b, |p| + x, |p| + y);
      AcrossHunk(p + a, p + b, |p|, |p|, x, y);
    } else {
      PrefixFree(p, a, b, x - 1, y - 1);
      PrefixFree(p, a, b, x - 1, y);
      PrefixFree(p, a, b, x, y - 1);
    }
  }

  lemma {:induction false} OnDiagonal<T>(p: seq<T>, a: seq<T>, b: seq<T>, i: nat)
    requires i <= |p|
    ensures Dist(p + a, p + b, i, i) == 0
    decreases i
  {
    if i > 0 {
      OnDiagonal(p, a, b, i - 1);
    }
  }

  /** The diff of two sequences is a diff of them, whatever was trimmed and whether or not the search
      gave up; and when the distance is within the budget no diff is shorter. */
  lemma DiffIsScript<T>(a: seq<T>, b: seq<T>, maxD: nat)
    ensures Script(a, b, DiffHunks(a, b, maxD))
    ensures forall h | h in DiffHunks(a, b, maxD) :: h.Valid()
    ensures Distance(a, b) <= maxD ==> Cost(DiffHunks(a, b, maxD)) == Distance(a, b)
  {
    var pre := SharedPrefix(a, b, 0);
    var suf := SharedSuffix(a, b, pre, 0);
    PrefixShared(a, b, 0);
    SuffixShared(a, b, pre, 0);
    var p, q, a2, b2 := a[..pre], a[|a| - suf..], a[pre..|a| - suf], b[pre..|b| - suf];
    assert a == p + a2 + q;
    assert b == p + b2 + q;
    hide *;
    TrimmedScript(p, a2, b2, q, maxD);
  }

  lemma {:induction false} TrimmedScript<T>(p: seq<T>, a: seq<T>, b: seq<T>, q: seq<T>, maxD: nat)
    ensures var hs := Shift(CoreHunks(a, b, maxD), |p|);
      && Script(p + a + q, p + b + q, hs) && (forall h | h in hs :: h.Valid())
      && (Distance(p + a + q, p + b + q) <= maxD ==> Cost(hs) == Distance(p + a + q, p + b + q))
  {
    hide Distance, CoreHunks, Script, Shift, Cost;
    CoreScript(a, b, maxD);
    FramedScript(p, a, b, q, CoreHunks(a, b, maxD));
    ShiftCost(CoreHunks(a, b, maxD), |p|);
    SuffixFree(p + a, p + b, q);
    PrefixFreeWhole(p, a, b);
  }

  lemma {:induction false} PrefixFreeWhole<T>(p: seq<T>, a: seq<T>, b: seq<T>)
    ensures Distance(p + a, p + b) == Distance(a, b)
  {
    PrefixFree(p, a, b, |a|, |b|);
  }

  /** Trimming loses nothing: no diff of the whole costs less than the one found, within the budget. */
  lemma DiffIsShortest<T>(a: seq<T>, b: seq<T>, maxD: nat, other: seq<Hunk>)
    requires Distance(a, b) <= maxD && Script(a, b, other)
    ensures (forall h | h in DiffHunks(a, b, maxD) + other :: h.Valid())
    ensures Cost(DiffHunks(a, b, maxD)) <= Cost(other)
  {
    DiffIsScript(a, b, maxD);
    NoneCheaper(a, b, other);
  }
}
