/** How far the diffs search: lines to 4096 differences and leaves to 2048, and what they give beyond. */
module Budgets {
  import opened Text
  import opened Chunker
  import opened Lines
  import opened Splicing
  import opened EditDistance
  import opened Scripts
  import opened Myers
  import opened SequenceDiff
  import opened ByteEdits
  import opened TreeDiff
  import opened Reports
  import opened ThreeWay
  import opened MergeRules

  // ----- beyond the budget -----

  /** The sequences are `p`, something, and `q`, with no more of either end in common. */
  ghost predicate Ends<T(!new)>(a: seq<T>, b: seq<T>, p: seq<T>, m: seq<T>, n: seq<T>, q: seq<T>) {
    && a == p + m + q && b == p + n + q
    && (m != [] && n != [] ==> m[0] != n[0] && m[|m| - 1] != n[|n| - 1])
  }

  lemma {:induction false} SharedPrefixStops<T>(a: seq<T>, b: seq<T>, i: nat)
    requires i <= |a| && i <= |b|
    ensures var n := SharedPrefix(a, b, i); n < |a| && n < |b| ==> a[n] != b[n]
    decreases |a| - i
  {
    if i < |a| && i < |b| && a[i] == b[i] {
      SharedPrefixStops(a, b, i + 1);
    }
  }

  lemma {:induction false} SharedSuffixStops<T>(a: seq<T>, b: seq<T>, pre: nat, i: nat)
    requires pre + i <= |a| && pre + i <= |b|
    ensures var n := SharedSuffix(a, b, pre, i);
      n < |a| - pre && n < |b| - pre ==> a[|a| - 1 - n] != b[|b| - 1 - n]
    decreases |a| - i
  {
    if i < |a| - pre && i < |b| - pre && a[|a| - 1 - i] == b[|b| - 1 - i] {
      SharedSuffixStops(a, b, pre, i + 1);
    }
  }

  /** The ends that are trimmed. */
  lemma {:induction false} Trims<T(!new)>(a: seq<T>, b: seq<T>, maxD: nat)
      returns (p: seq<T>, m: seq<T>, n: seq<T>, q: seq<T>)
    ensures Ends(a, b, p, m, n, q) && DiffHunks(a, b, maxD) == Shift(CoreHunks(m, n, maxD), |p|)
  {
    hide CoreHunks, SharedPrefix, SharedSuffix;
    var pre := SharedPrefix(a, b, 0);
    var suf := SharedSuffix(a, b, pre, 0);
    PrefixShared(a, b, 0);
    SuffixShared(a, b, pre, 0);
    SharedPrefixStops(a, b, 0);
    SharedSuffixStops(a, b, pre, 0);
    p, m, n, q := a[..pre], a[pre..|a| - suf], b[pre..|b| - suf], a[|a| - suf..];
    assert a == p + m + q;
    assert b == p + n + q;
  }

  /** Sequences further apart than the budget differ in one hunk between the ends they share. */
  lemma {:induction false} OverBudget<T(!new)>(a: seq<T>, b: seq<T>, maxD: nat)
      returns (p: seq<T>, m: seq<T>, n: seq<T>, q: seq<T>)
    ensures Ends(a, b, p, m, n, q)
    ensures Distance(a, b) > maxD ==> DiffHunks(a, b, maxD) == [Hunk(|p|, |p| + |m|, |p|, |p| + |n|)]
  {
    hide Distance, DiffHunks;
    p, m, n, q := Trims(a, b, maxD);
    SuffixFree(p + m, p + n, q);
    PrefixFreeWhole(p, m, n);
    NothingApart<T>();
  }

  lemma NothingApart<T>()
    ensures Distance<T>([], []) == 0
  {
  }

  // ----- the budgets -----

  /** A line diff is shortest up to 4096 differences, and one hunk beyond. */
  lemma {:induction false} LineBudget(a: Bytes, b: Bytes)
      returns (p: seq<Bytes>, m: seq<Bytes>, n: seq<Bytes>, q: seq<Bytes>)
    ensures forall h | h in LineDiff(a, b) :: h.Valid()
    ensures Distance(SplitLines(a), SplitLines(b)) <= 4096 ==>
      Cost(LineDiff(a, b)) == Distance(SplitLines(a), SplitLines(b))
    ensures Ends(SplitLines(a), SplitLines(b), p, m, n, q)
    ensures Distance(SplitLines(a), SplitLines(b)) > 4096 ==>
      LineDiff(a, b) == [Hunk(|p|, |p| + |m|, |p|, |p| + |n|)]
  {
    hide Distance, DiffHunks, SplitLines, Cost, Ends;
    DiffIsScript(SplitLines(a), SplitLines(b), 4096);
    p, m, n, q := OverBudget(SplitLines(a), SplitLines(b), 4096);
  }

  /** A diff of leaves is, up to 2048. */
  lemma {:induction false} LeafBudget<T(!new)>(a: seq<T>, b: seq<T>)
      returns (p: seq<T>, m: seq<T>, n: seq<T>, q: seq<T>)
    ensures forall h | h in DiffHunks(a, b, MAX_LEAF_D) :: h.Valid()
    ensures Distance(a, b) <= 2048 ==> Cost(DiffHunks(a, b, MAX_LEAF_D)) == Distance(a, b)
    ensures Ends(a, b, p, m, n, q)
    ensures Distance(a, b) > 2048 ==> DiffHunks(a, b, MAX_LEAF_D) == [Hunk(|p|, |p| + |m|, |p|, |p| + |n|)]
  {
    hide Distance, DiffHunks, Cost, Ends;
    DiffIsScript(a, b, 2048);
    p, m, n, q := OverBudget(a, b, 2048);
  }

  // ----- two changed lines around one that stays -----

  /** Nothing but the element between the two changed ones is in both. */
  predicate AroundOne<T(==)>(a: T, b: T, c: T, x: T, z: T) {
    a != b && b != c && b != x && b != z && a != x && a != z && c != x && c != z
  }

  lemma {:induction false} TwoHunksCost<T>(a: T, b: T, c: T, x: T, z: T)
    requires AroundOne(a, b, c, x, z)
    ensures Script([a, b, c], [x, b, z], [Hunk(0, 1, 0, 1), Hunk(2, 3, 2, 3)])
    ensures Distance([a, b, c], [x, b, z]) <= 4
  {
    var s, t, hs := [a, b, c], [x, b, z], [Hunk(0, 1, 0, 1), Hunk(2, 3, 2, 3)];
    assert s[0..0] == t[0..0] == [] && s[1..2] == [b] == t[1..2] && s[3..3] == t[3..3] == [];
    assert Follows(s, t, hs, 0) && Follows(s, t, hs, 1);
    NoneCheaper(s, t, hs);
    assert hs[..1] == [hs[0]] && [hs[0]][..0] == [] && hs[..|hs| - 1] == [hs[0]];
    assert Cost([]) == 0 && Cost([hs[0]]) == 2 && Cost(hs) == 4;
  }

  /** What is kept between two hunks is the element in the middle. */
  lemma {:induction false} KeptIsMiddle<T>(a: T, b: T, c: T, x: T, z: T, i: nat, i': nat, j: nat, j': nat)
    requires AroundOne(a, b, c, x, z) && Same([a, b, c], [x, b, z], i, i', j, j') && i < i'
    ensures i == j == 1 && i' == j' == 2
  {
    SameFirst([a, b, c], [x, b, z], i, i', j, j');
    if i' > i + 1 {
      SameTail([a, b, c], [x, b, z], i, i', j, j');
      SameFirst([a, b, c], [x, b, z], i + 1, i', j + 1, j');
    }
  }

  lemma SameFirst<T>(a: seq<T>, b: seq<T>, i: nat, i': nat, j: nat, j': nat)
    requires Same(a, b, i, i', j, j') && i < i'
    ensures j < j' && a[i] == b[j] && i' - i == j' - j
  {
    assert |a[i..i']| == |b[j..j']| && a[i..i'][0] == b[j..j'][0];
  }

  lemma SameTail<T>(a: seq<T>, b: seq<T>, i: nat, i': nat, j: nat, j': nat)
    requires Same(a, b, i, i', j, j') && i < i'
    ensures j < j' && Same(a, b, i + 1, i', j + 1, j')
  {
    assert |a[i..i']| == |b[j..j']|;
    assert a[i + 1..i'] == a[i..i'][1..] && b[j + 1..j'] == b[j..j'][1..];
  }

  /** Any diff of theirs that costs 4 changes the first and the last element. */
  lemma {:induction false} TwoHunks<T>(a: T, b: T, c: T, x: T, z: T, hs: seq<Hunk>)
    requires AroundOne(a, b, c, x, z) && Script([a, b, c], [x, b, z], hs)
    requires (forall h | h in hs :: h.Valid()) && Cost(hs) <= 4
    ensures hs == [Hunk(0, 1, 0, 1), Hunk(2, 3, 2, 3)]
  {
    var s, t := [a, b, c], [x, b, z];
    FirstHunk(a, b, c, x, z, hs);
    if |hs| == 1 {
      OnlyHunk(a, b, c, x, z, hs);
      assert false;
    } else {
      assert Follows(s, t, hs, 0) && Follows(s, t, hs, 1);
      KeptIsMiddle(a, b, c, x, z, hs[0].aTo, hs[1].aFrom, hs[0].bTo, hs[1].bFrom);
      SecondHunk(a, b, c, x, z, hs);
    }
  }

  lemma {:induction false} FirstHunk<T>(a: T, b: T, c: T, x: T, z: T, hs: seq<Hunk>)
    requires AroundOne(a, b, c, x, z) && Script([a, b, c], [x, b, z], hs)
    ensures hs != [] && hs[0].aFrom == 0 && hs[0].bFrom == 0
  {
    var s, t := [a, b, c], [x, b, z];
    if hs == [] {
      KeptIsMiddle(a, b, c, x, z, 0, 3, 0, 3);
    } else {
      assert Follows(s, t, hs, 0);
      if hs[0].aFrom > 0 {
        KeptIsMiddle(a, b, c, x, z, 0, hs[0].aFrom, 0, hs[0].bFrom);
      } else {
        assert |s[0..0]| == |t[0..hs[0].bFrom]|;
      }
    }
  }

  lemma {:induction false} OnlyHunk<T>(a: T, b: T, c: T, x: T, z: T, hs: seq<Hunk>)
    requires AroundOne(a, b, c, x, z) && Script([a, b, c], [x, b, z], hs) && |hs| == 1
    requires hs[0].aFrom == 0 && hs[0].bFrom == 0
    ensures hs[0] == Hunk(0, 3, 0, 3)
  {
    var s, t := [a, b, c], [x, b, z];
    assert Follows(s, t, hs, 0);
    assert |s[hs[0].aTo..3]| == |t[hs[0].bTo..3]|;
    if hs[0].aTo < 3 {
      KeptIsMiddle(a, b, c, x, z, hs[0].aTo, 3, hs[0].bTo, 3);
    }
  }

  lemma {:induction false} SecondHunk<T>(a: T, b: T, c: T, x: T, z: T, hs: seq<Hunk>)
    requires AroundOne(a, b, c, x, z) && Script([a, b, c], [x, b, z], hs) && |hs| >= 2
    requires hs[0] == Hunk(0, 1, 0, 1) && hs[1].aFrom == 2 && hs[1].bFrom == 2
    ensures hs == [Hunk(0, 1, 0, 1), Hunk(2, 3, 2, 3)]
  {
    var s, t := [a, b, c], [x, b, z];
    assert Follows(s, t, hs, 1);
    if |hs| > 2 {
      LaterHunk(s, t, hs, 1);
      assert false;
    }
    assert |s[hs[1].aTo..3]| == |t[hs[1].bTo..3]|;
  }

  lemma LaterHunk<T>(a: seq<T>, b: seq<T>, hs: seq<Hunk>, i: nat)
    requires Script(a, b, hs) && i + 1 < |hs|
    ensures hs[i].aTo < hs[i + 1].aFrom <= |a| && hs[i].bTo <= hs[i + 1].bFrom <= |b|
    ensures hs[i + 1].aFrom - hs[i].aTo == hs[i + 1].bFrom - hs[i].bTo
  {
    assert Follows(a, b, hs, i) && Follows(a, b, hs, i + 1);
    assert |a[hs[i].aTo..hs[i + 1].aFrom]| == |b[hs[i].bTo..hs[i + 1].bFrom]|;
  }

  /** Lines changed on both sides of one that stays are two edits. */
  lemma {:induction false} TwoChangedLines(a: Bytes, b: Bytes, c: Bytes, x: Bytes, z: Bytes)
    requires AroundOne(a, b, c, x, z)
    requires Terminated(a) && Terminated(b) && Terminated(c) && Terminated(x) && Terminated(z)
    ensures SplitLines(a + b + c) == [a, b, c] && SplitLines(x + b + z) == [x, b, z]
    ensures LineDiff(a + b + c, x + b + z) == [Hunk(0, 1, 0, 1), Hunk(2, 3, 2, 3)]
  {
    hide DiffHunks, SplitLines, Distance, Cost, Terminated;
    LinesOfThree(a, b, c);
    LinesOfThree(x, b, z);
    TwoHunksCost(a, b, c, x, z);
    DiffIsScript([a, b, c], [x, b, z], 4096);
    TwoHunks(a, b, c, x, z, DiffHunks([a, b, c], [x, b, z], 4096));
  }

  lemma LinesOfThree(x: Bytes, y: Bytes, z: Bytes)
    requires Terminated(x) && Terminated(y) && Terminated(z)
    ensures SplitLines(x + y + z) == [x, y, z]
  {
    ThreeLines(x, y, z);
    JoinSplits([x, y, z]);
  }

  lemma ThreeLines(x: Bytes, y: Bytes, z: Bytes)
    requires Terminated(x) && Terminated(y) && Terminated(z)
    ensures AreLines([x, y, z]) && Concat([x, y, z]) == x + y + z
  {
    var none: seq<Bytes> := [];
    assert [x, y, z][1..] == [y, z] && [y, z][1..] == [z] && [z][1..] == none;
    assert Concat(none) == [] && Concat([z]) == z && Concat([y, z]) == y + z;
    assert x + (y + z) == x + y + z;
  }

  /** Of single bytes, say. */
  lemma {:induction false} TwoEdits(a: byte, b: byte, c: byte, x: byte, z: byte)
    requires a != NL && b != NL && c != NL && x != NL && z != NL && AroundOne(a, b, c, x, z)
    ensures LineEdits([a, NL, b, NL, c, NL], [x, NL, b, NL, z, NL]) == [Edit(0, 1, [x]), Edit(4, 5, [z])]
  {
    hide SplitLines, DiffHunks, Trimmed;
    var t, u := [a, NL, b, NL, c, NL], [x, NL, b, NL, z, NL];
    assert t == [a, NL] + [b, NL] + [c, NL] && u == [x, NL] + [b, NL] + [z, NL];
    TwoChangedLines([a, NL], [b, NL], [c, NL], [x, NL], [z, NL]);
    DiffIsScript(SplitLines(t), SplitLines(u), MAX_LINE_D);
    var hs := LineDiff(t, u);
    OffsetsOfThree([a, NL], [b, NL], [c, NL]);
    OffsetsOfThree([x, NL], [b, NL], [z, NL]);
    OneByteChanges(t, u, 0);
    OneByteChanges(t, u, 4);
    assert EditsFor(t, u, hs, 0) == [] && EditsFor(t, u, hs, 1) == [] + EditFor(t, u, hs[0]);
    assert EditsFor(t, u, hs, 2) == EditsFor(t, u, hs, 1) + EditFor(t, u, hs[1]);
  }

  lemma OneByteChanges(t: Bytes, u: Bytes, i: nat)
    requires i + 2 <= |t| && i + 2 <= |u| && t[i] != u[i] && t[i + 1] == u[i + 1]
    ensures Trimmed(t, u, i, i + 2, i, i + 2) == [Edit(i, i + 1, [u[i]])]
  {
    assert Front(t, u, i, i + 2, i, i + 2) == 0;
    assert Back(t, u, i, i + 1, i, i + 1) == 0 && Back(t, u, i, i + 2, i, i + 2) == 1;
    assert u[i..i + 1] == [u[i]];
  }

  lemma OffsetsOfThree(x: Bytes, y: Bytes, z: Bytes)
    ensures var ls := [x, y, z];
      && Offset(ls, 0) == 0 && Offset(ls, 1) == |x| && Offset(ls, 2) == |x| + |y| && Offset(ls, 3) == |x| + |y| + |z|
      && |Concat(ls)| == |x| + |y| + |z|
  {
    var ls, none: seq<Bytes> := [x, y, z], [];
    assert ls[..0] == none && ls[..1] == [x] && ls[..2] == [x] + [y] && ls[..3] == ls == ([x] + [y]) + [z];
    assert Concat(none) == [];
    hide Concat;
    ConcatOne(x);
    ConcatOne(y);
    ConcatOne(z);
    ConcatAppend([x], [y]);
    ConcatAppend([x] + [y], [z]);
  }

  /** And a change of the line between them merges with both. */
  lemma {:induction false} MiddleMerges(a: Bytes, b: Bytes, c: Bytes, x: Bytes, y: Bytes, z: Bytes)
    requires AroundOne(a, b, c, x, z) && y != b
    requires Terminated(a) && Terminated(b) && Terminated(c) && Terminated(x) && Terminated(y) && Terminated(z)
    ensures Diff3(a + b + c, x + b + z, a + y + c) == Clean(x + y + z)
  {
    hide DiffHunks, SplitLines, Diff3, HunkEdits, Terminated;
    TwoChangedLines(a, b, c, x, z);
    LinesOfThree(a, y, c);
    assert [a] + [b] + [c] == [a, b, c] && [a] + [y] + [c] == [a, y, c];
    OneHunk([a], [b], [y], [c], MAX_LINE_D);
    var base, ours, theirs := a + b + c, x + b + z, a + y + c;
    var ho, ht := LineDiff(base, ours), LineDiff(base, theirs);
    assert ho == [Hunk(0, 1, 0, 1), Hunk(2, 3, 2, 3)] && ht == [Hunk(1, 2, 1, 2)];
    ApartMerges(base, ours, theirs);
    NotEmpty(a);
    NotEmpty(b);
    MiddleEdits(a, b, c, x, y, z);
    MiddleSpliced(a, b, c, x, y, z);
  }

  lemma NotEmpty(l: Bytes)
    requires Terminated(l)
    ensures l != []
  {
  }

  lemma {:induction false} MiddleEdits(a: Bytes, b: Bytes, c: Bytes, x: Bytes, y: Bytes, z: Bytes)
    requires AllFollow([a, b, c], [x, b, z], [Hunk(0, 1, 0, 1), Hunk(2, 3, 2, 3)])
    requires AllFollow([a, b, c], [a, y, c], [Hunk(1, 2, 1, 2)])
    ensures HunkEdits([a, b, c], [x, b, z], [Hunk(0, 1, 0, 1), Hunk(2, 3, 2, 3)], 0) ==
      [Edit(0, |a|, x), Edit(|a| + |b|, |a| + |b| + |c|, z)]
    ensures HunkEdits([a, b, c], [a, y, c], [Hunk(1, 2, 1, 2)], 0) == [Edit(|a|, |a| + |b|, y)]
  {
    hide Offset, Concat;
    OffsetsOfThree(a, b, c);
    assert [x, b, z][0..1] == [x] && [x, b, z][2..3] == [z] && [a, y, c][1..2] == [y];
    ConcatOne(x);
    ConcatOne(y);
    ConcatOne(z);
    var hs := [Hunk(0, 1, 0, 1), Hunk(2, 3, 2, 3)];
    assert HunkEdits([a, b, c], [x, b, z], hs, 2) == [];
    assert HunkEdits([a, b, c], [x, b, z], hs, 1) == [Edit(|a| + |b|, |a| + |b| + |c|, z)];
    assert HunkEdits([a, b, c], [a, y, c], [Hunk(1, 2, 1, 2)], 1) == [];
  }

  lemma {:induction false} MiddleSpliced(a: Bytes, b: Bytes, c: Bytes, x: Bytes, y: Bytes, z: Bytes)
    requires a != [] && b != []
    ensures var all := Shifting.Interleave([Edit(0, |a|, x), Edit(|a| + |b|, |a| + |b| + |c|, z)],
        [Edit(|a|, |a| + |b|, y)]);
      Ascending(all, 0, |a + b + c|) && Splice(a + b + c, all) == x + y + z
  {
    var e, f, g := Edit(0, |a|, x), Edit(|a|, |a| + |b|, y), Edit(|a| + |b|, |a| + |b| + |c|, z);
    var none: seq<Edit> := [];
    assert [e, g][1..] == [g] && [f][1..] == none && [g][1..] == none;
    assert Shifting.Interleave([g], none) == [g] && Shifting.Interleave([g], [f]) == [f] + [g];
    assert Shifting.Interleave([e, g], [f]) == [e] + ([f] + [g]) == [e, f, g];
    ThreeReplaced(a + b + c, |a|, |a| + |b|, x, y, z);
  }

  /** A text replaced whole, in three edits. */
  lemma {:induction false} ThreeReplaced(t: Bytes, i: nat, j: nat, x: Bytes, y: Bytes, z: Bytes)
    requires i <= j <= |t|
    ensures var all := [Edit(0, i, x), Edit(i, j, y), Edit(j, |t|, z)];
      Ascending(all, 0, |t|) && Splice(t, all) == x + y + z
  {
    var e, f, g, none: seq<Edit> := Edit(0, i, x), Edit(i, j, y), Edit(j, |t|, z), [];
    hide SpliceFrom;
    FirstReplaced(t, g, none);
    FirstReplaced(t, f, [g]);
    FirstReplaced(t, e, [f, g]);
    NothingSpliced(t);
    assert [g] + none == [g] && [f] + [g] == [f, g] && [e] + [f, g] == [e, f, g];
    assert z + [] == z && x + (y + z) == x + y + z;
  }

  lemma NothingSpliced(t: Bytes)
    ensures SpliceFrom(t, [], |t|) == []
  {
  }

  lemma {:induction false} FirstReplaced(t: Bytes, e: Edit, rest: seq<Edit>)
    requires e.from <= e.to <= |t| && Ascending(rest, e.to, |t|)
    ensures Ascending([e] + rest, e.from, |t|)
    ensures SpliceFrom(t, [e] + rest, e.from) == e.replacement + SpliceFrom(t, rest, e.to)
  {
    var all, tail := [e] + rest, SpliceFrom(t, rest, e.to);
    assert all[0] == e && all[1..] == rest;
    assert t[e.from..e.from] + e.replacement == e.replacement;
  }

  // ----- which of the shortest diffs -----

  /** Of two elements that change places, the first is the one that moves: it goes from the front, and comes
      in behind. */
  lemma {:induction false} Swapped<T>(x: T, y: T, maxD: nat)
    requires x != y && maxD >= 2
    ensures DiffHunks([x, y], [y, x], maxD) == [Hunk(0, 1, 0, 0), Hunk(2, 2, 1, 2)]
  {
    var a, b := [x, y], [y, x];
    assert SharedPrefix(a, b, 0) == 0 && SharedSuffix(a, b, 0, 0) == 0;
    assert a[0..2] == a && b[0..2] == b;
    SwappedDistance(x, y);
    SwappedSteps(x, y);
    CornerReached(a, b);
    SwappedGroup();
  }

  lemma {:induction false} SwappedDistance<T>(x: T, y: T)
    requires x != y
    ensures Distance([x, y], [y, x]) == 2
  {
    var a, b := [x, y], [y, x];
    assert !Match(a, b, 1, 1) && Match(a, b, 1, 2) && Match(a, b, 2, 1) && !Match(a, b, 2, 2);
    assert Dist(a, b, 1, 2) == 1 && Dist(a, b, 2, 1) == 1;
  }

  lemma {:induction false} SwappedSteps<T>(x: T, y: T)
    requires x != y
    ensures OnBand(2, 0) && Steps([x, y], [y, x], 2, 0) == [Step(0, 0, false), Step(2, 1, true)]
  {
    var a, b := [x, y], [y, x];
    assert !Match(a, b, 1, 1) && Match(a, b, 1, 2) && Match(a, b, 2, 1) && !Match(a, b, 2, 2);
    assert !Match(a, b, 3, 2) && !Match(a, b, 2, 3);
    assert Reach(a, b, 0, 0) == 0;
    assert Entry(a, b, 1, -1) == 0 && Slide(a, b, -1, 1) == 1 && Reach(a, b, 1, -1) == 1;
    assert Entry(a, b, 1, 1) == 1 && Slide(a, b, 1, 2) == 2 && Reach(a, b, 1, 1) == 2;
    assert ComesDown(a, b, 2, 0) && LastStep(a, b, 2, 0) == Step(2, 1, true);
    assert LastStep(a, b, 1, 1) == Step(0, 0, false);
    assert Steps(a, b, 0, 0) == [] && Steps(a, b, 1, 1) == [] + [Step(0, 0, false)];
  }

  lemma SwappedGroup()
    ensures Group([Step(0, 0, false), Step(2, 1, true)]) == [Hunk(0, 1, 0, 0), Hunk(2, 2, 1, 2)]
  {
    var s, t, none: seq<Step> := Step(0, 0, false), Step(2, 1, true), [];
    assert [s, t][..1] == [s] && [s][..0] == none;
    assert Group(none) == [] && Group([s]) == [] + [Hunk(0, 1, 0, 0)];
  }
}
