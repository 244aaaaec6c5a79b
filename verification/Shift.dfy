/** Hopping edits over concurrent changes: offset shifting, and what it means for the text. */
module Shifting {
  import opened Text
  import opened Splicing

  /** Carry an offset over the changes that end at it or before it. */
  function Shift(off: int, rs: seq<Edit>): int {
    if rs == [] || rs[0].to > off then off else Shift(off, rs[1..]) + rs[0].Delta()
  }

  /** An edit carried over changes; its ends may part when changes end between them. */
  function ShiftEdit(e: Edit, rs: seq<Edit>, d: int): Edit {
    Edit(Max(Shift(e.from, rs) + d, 0), Max(Shift(e.to, rs) + d, 0), e.replacement)
  }

  function ShiftAll(es: seq<Edit>, rs: seq<Edit>, d: int): (r: seq<Edit>)
    ensures |r| == |es|
  {
    if es == [] then [] else [ShiftEdit(es[0], rs, d)] + ShiftAll(es[1..], rs, d)
  }

  /** `e` starts and ends before `f` starts. */
  predicate Precedes(e: Edit, f: Edit) {
    e.from < f.from && e.to <= f.from
  }

  /** Each edit lies wholly on one side of each change. */
  ghost predicate Separate(es: seq<Edit>, rs: seq<Edit>) {
    forall i, j | 0 <= i < |es| && 0 <= j < |rs| :: Precedes(es[i], rs[j]) || Precedes(rs[j], es[i])
  }

  /** A pure insertion exactly where a non-empty edit ends. */
  predicate Swallows(e: Edit, r: Edit) {
    e.from < e.to && r.from == r.to == e.to
  }

  ghost predicate NoneSwallowed(es: seq<Edit>, rs: seq<Edit>) {
    forall i, j | 0 <= i < |es| && 0 <= j < |rs| :: !Swallows(es[i], rs[j])
  }

  /** Two change sets against the same text, as one. */
  function Interleave(es: seq<Edit>, rs: seq<Edit>): seq<Edit>
    decreases |es| + |rs|
  {
    if es == [] then rs
    else if rs == [] then es
    else if es[0].from < rs[0].from then [es[0]] + Interleave(es[1..], rs)
    else [rs[0]] + Interleave(es, rs[1..])
  }

  // ----- facts of shifting -----

  /** A point that no change spans. */
  ghost predicate Outside(p: int, rs: seq<Edit>) {
    forall j | 0 <= j < |rs| :: p <= rs[j].from || rs[j].to <= p
  }

  lemma {:induction false} ShiftMonotone(p: nat, q: nat, rs: seq<Edit>, x: nat, n: nat)
    requires Ascending(rs, x, n) && x <= p <= q && Outside(p, rs)
    ensures Shift(p, rs) <= Shift(q, rs) && Shift(p, rs) >= x
    decreases |rs|
  {
    if rs != [] {
      var r := rs[0];
      if r.to <= p {
        OutsideTail(p, rs);
        ShiftMonotone(p, q, rs[1..], r.to, n);
      } else if r.to <= q {
        ShiftBound(q, rs[1..], r.to, n);
      }
    }
  }

  lemma OutsideTail(p: int, rs: seq<Edit>)
    requires rs != [] && Outside(p, rs)
    ensures Outside(p, rs[1..])
  {
    forall j | 0 <= j < |rs[1..]| ensures p <= rs[1..][j].from || rs[1..][j].to <= p {
      assert rs[1..][j] == rs[j + 1];
    }
  }

  /** A point behind a change stays behind it. */
  lemma {:induction false} ShiftBound(q: nat, rs: seq<Edit>, x: nat, n: nat)
    requires Ascending(rs, x, n) && x <= q
    ensures Shift(q, rs) >= x
    decreases |rs|
  {
    if rs != [] && rs[0].to <= q {
      ShiftBound(q, rs[1..], rs[0].to, n);
    }
  }

  /** The end of the text goes to the end of the new text. */
  lemma {:induction false} ShiftEnd(rs: seq<Edit>, x: nat, n: nat)
    requires Ascending(rs, x, n)
    ensures Shift(n, rs) == n + TotalDelta(rs)
    decreases |rs|
  {
    if rs != [] {
      AscendingEnds(rs, x, n);
      ShiftEnd(rs[1..], rs[0].to, n);
    }
  }

  lemma AscendingEnds(rs: seq<Edit>, x: nat, n: nat)
    requires Ascending(rs, x, n)
    ensures x <= n && (rs != [] ==> rs[0].to <= n)
  {
  }

  lemma {:induction false} ShiftAllFirst(es: seq<Edit>, rs: seq<Edit>, d: int)
    requires rs != [] && forall i | 0 <= i < |es| :: rs[0].to <= es[i].from <= es[i].to
    ensures ShiftAll(es, rs, d) == ShiftAll(es, rs[1..], d + rs[0].Delta())
    decreases |es|
  {
    if es != [] {
      assert forall i | 0 <= i < |es[1..]| :: es[1..][i] == es[i + 1];
      ShiftAllFirst(es[1..], rs, d);
    }
  }

  lemma {:induction false} AscendingAt(es: seq<Edit>, x: nat, n: nat, i: nat)
    requires Ascending(es, x, n) && i < |es|
    ensures x <= es[0].from && es[0].from <= es[i].from <= es[i].to <= n && (i > 0 ==> es[0].to <= es[i].from)
    decreases i
  {
    if i > 0 {
      AscendingAt(es[1..], es[0].to, n, i - 1);
    } else {
      AscendingEnds(es[1..], es[0].to, n);
    }
  }

  lemma SeparateTails(es: seq<Edit>, rs: seq<Edit>)
    requires Separate(es, rs)
    ensures es != [] ==> Separate(es[1..], rs)
    ensures rs != [] ==> Separate(es, rs[1..])
    ensures Separate(rs, es)
  {
    if es != [] {
      assert forall i | 0 <= i < |es[1..]| :: es[1..][i] == es[i + 1];
    }
    if rs != [] {
      assert forall j | 0 <= j < |rs[1..]| :: rs[1..][j] == rs[j + 1];
    }
  }

  lemma NoneSwallowedTails(es: seq<Edit>, rs: seq<Edit>)
    requires NoneSwallowed(es, rs)
    ensures es != [] ==> NoneSwallowed(es[1..], rs)
    ensures rs != [] ==> NoneSwallowed(es, rs[1..])
  {
    if es != [] {
      assert forall i | 0 <= i < |es[1..]| :: es[1..][i] == es[i + 1];
    }
    if rs != [] {
      assert forall j | 0 <= j < |rs[1..]| :: rs[1..][j] == rs[j + 1];
    }
  }

  // ----- hopping -----

  /** The current text from `y` on is the base text from `x` on with the changes left made. */
  ghost predicate InStep(t: Bytes, u: Bytes, rs: seq<Edit>, x: nat, y: nat) {
    Ascending(rs, x, |t|) && y <= |u| && u[y..] == SpliceFrom(t, rs, x)
  }

  lemma DropPrefix(u: Bytes, y: nat, p: Bytes, q: Bytes)
    requires y <= |u| && u[y..] == p + q
    ensures y + |p| <= |u| && u[y..y + |p|] == p && u[y + |p|..] == q
  {
    assert u[y..y + |p|] == u[y..][..|p|];
    assert u[y + |p|..] == u[y..][|p|..];
  }

  /** Passing the next change. */
  lemma PassChange(t: Bytes, u: Bytes, rs: seq<Edit>, x: nat, y: nat)
    requires InStep(t, u, rs, x, y) && rs != []
    ensures var r := rs[0];
      var y' := y + (r.from - x) + |r.replacement|;
      x <= r.from <= r.to && y' <= |u| && u[y..y'] == t[x..r.from] + r.replacement && InStep(t, u, rs[1..], r.to, y')
  {
    var r := rs[0];
    DropPrefix(u, y, t[x..r.from] + r.replacement, SpliceFrom(t, rs[1..], r.to));
  }

  /** Passing text before the next change. */
  lemma PassText(t: Bytes, u: Bytes, rs: seq<Edit>, x: nat, y: nat, x': nat)
    requires InStep(t, u, rs, x, y) && x <= x' <= |t| && (rs != [] ==> x' <= rs[0].from)
    ensures var y' := y + x' - x;
      y' <= |u| && u[y..y'] == t[x..x'] && InStep(t, u, rs, x', y')
  {
    assert SpliceFrom(t, rs, x) == t[x..x'] + SpliceFrom(t, rs, x') by {
      if rs == [] {
        assert t[x..] == t[x..x'] + t[x'..];
      } else {
        assert t[x..rs[0].from] == t[x..x'] + t[x'..rs[0].from];
        AssocBytes([], t[x..x'], t[x'..rs[0].from], rs[0].replacement + SpliceFrom(t, rs[1..], rs[0].to));
        RegroupSplice(t[x..x'], t[x'..rs[0].from], rs[0].replacement, SpliceFrom(t, rs[1..], rs[0].to));
      }
    }
    DropPrefix(u, y, t[x..x'], SpliceFrom(t, rs, x'));
  }

  lemma RegroupSplice(a: Bytes, b: Bytes, c: Bytes, d: Bytes)
    ensures (a + b) + c + d == a + (b + c + d)
  {
  }

  /** Text before the first edit can be split off a splice. */
  lemma SpliceLater(u: Bytes, es: seq<Edit>, y: nat, y': nat)
    requires Ascending(es, y, |u|) && y <= y' <= |u| && (es != [] ==> y' <= es[0].from)
    ensures Ascending(es, y', |u|) && SpliceFrom(u, es, y) == u[y..y'] + SpliceFrom(u, es, y')
  {
    if es == [] {
      assert u[y..] == u[y..y'] + u[y'..];
    } else {
      var rest := SpliceFrom(u, es[1..], es[0].to);
      assert SpliceFrom(u, es, y) == u[y..es[0].from] + es[0].replacement + rest;
      assert SpliceFrom(u, es, y') == u[y'..es[0].from] + es[0].replacement + rest;
      hide SpliceFrom, Ascending;
      assert u[y..es[0].from] == u[y..y'] + u[y'..es[0].from];
      RegroupSplice(u[y..y'], u[y'..es[0].from], es[0].replacement, rest);
    }
  }

  ghost predicate EndsOutside(es: seq<Edit>, rs: seq<Edit>) {
    forall i | 0 <= i < |es| :: Outside(es[i].from, rs) && Outside(es[i].to, rs)
  }

  lemma SeparateOutside(es: seq<Edit>, rs: seq<Edit>)
    requires Separate(es, rs) && forall i | 0 <= i < |es| :: es[i].from <= es[i].to
    ensures EndsOutside(es, rs)
  {
    forall i, j | 0 <= i < |es| && 0 <= j < |rs|
      ensures es[i].from <= rs[j].from || rs[j].to <= es[i].from
      ensures es[i].to <= rs[j].from || rs[j].to <= es[i].to
    {
      assert Precedes(es[i], rs[j]) || Precedes(rs[j], es[i]);
    }
  }

  /** Edits carried over changes stay ascending and within the text, swallowing or not. */
  lemma {:induction false} ShiftedAscending(es: seq<Edit>, rs: seq<Edit>, x: nat, n: nat, at: nat, d: int, lo: nat)
    requires Ascending(rs, x, n) && x <= at && Outside(at, rs) && Ascending(es, at, n) && EndsOutside(es, rs)
    requires lo <= Shift(at, rs) + d
    ensures lo <= n + TotalDelta(rs) + d && Ascending(ShiftAll(es, rs, d), lo, n + TotalDelta(rs) + d)
    decreases |es|
  {
    AscendingEnds(es, at, n);
    ShiftEnd(rs, x, n);
    ShiftMonotone(at, n, rs, x, n);
    if es != [] {
      var e := es[0];
      assert Outside(e.from, rs) && Outside(e.to, rs);
      ShiftMonotone(at, e.from, rs, x, n);
      ShiftMonotone(e.from, e.to, rs, x, n);
      assert EndsOutside(es[1..], rs) by {
        assert forall i | 0 <= i < |es[1..]| :: es[1..][i] == es[i + 1];
      }
      ShiftedAscending(es[1..], rs, x, n, e.to, d, Shift(e.to, rs) + d);
    }
  }

  /** How far an edit outgrows itself when its end is carried past insertions that its start is not. */
  function Growth(e: Edit, rs: seq<Edit>): int {
    (Shift(e.to, rs) - Shift(e.from, rs)) - (e.to - e.from)
  }

  lemma {:induction false} GrowthSwallows(e: Edit, rs: seq<Edit>, x: nat, n: nat)
    requires Ascending(rs, x, n) && e.from <= e.to && Separate([e], rs)
    requires forall j | 0 <= j < |rs| :: rs[j].from < rs[j].to || rs[j].replacement != []
    ensures Growth(e, rs) >= 0
    ensures Growth(e, rs) > 0 <==> exists j :: 0 <= j < |rs| && Swallows(e, rs[j])
    decreases |rs|
  {
    if rs != [] {
      var r, rest := rs[0], rs[1..];
      assert forall j | 0 <= j < |rest| :: rest[j] == rs[j + 1];
      SeparateTails([e], rs);
      GrowthSwallows(e, rest, r.to, n);
      assert Precedes([e][0], r) || Precedes(r, [e][0]);
      if Swallows(e, rs[0]) {
        assert Shift(e.to, rs) == Shift(e.to, rest) + |r.replacement|;
        StopsBefore(e.from, rest, r.to, n);
      } else if exists j :: 0 <= j < |rest| && Swallows(e, rest[j]) {
        var j :| 0 <= j < |rest| && Swallows(e, rest[j]);
        assert Swallows(e, rs[j + 1]);
      }
    }
  }

  /** No change from `x` on ends before `x`. */
  lemma StopsBefore(p: int, rs: seq<Edit>, x: nat, n: nat)
    requires Ascending(rs, x, n) && p < x
    ensures Shift(p, rs) == p
  {
  }

  lemma InterleaveTails(es: seq<Edit>, rs: seq<Edit>)
    requires es != [] || rs != []
    ensures es != [] && (rs == [] || es[0].from < rs[0].from) ==>
      Interleave(es, rs) == [es[0]] + Interleave(es[1..], rs)
    ensures rs != [] && (es == [] || es[0].from >= rs[0].from) ==>
      Interleave(es, rs) == [rs[0]] + Interleave(es, rs[1..])
  {
    if rs == [] {
      assert es == [es[0]] + es[1..];
    } else if es == [] {
      assert rs == [rs[0]] + rs[1..];
    }
  }

  /** An edit before all the changes left keeps its ends. */
  lemma Unmoved(e: Edit, rs: seq<Edit>, d: int)
    requires e.from <= e.to && (rs != [] ==> Precedes(e, rs[0]) && rs[0].from <= rs[0].to && !Swallows(e, rs[0]))
    ensures Shift(e.from, rs) == e.from && Shift(e.to, rs) == e.to
    ensures e.from + d >= 0 ==> ShiftEdit(e, rs, d) == Edit(e.from + d, e.to + d, e.replacement)
  {
  }

  ghost predicate HopHolds(t: Bytes, u: Bytes, es: seq<Edit>, rs: seq<Edit>, x: nat, y: nat) {
    && Ascending(Interleave(es, rs), x, |t|) && y <= |u| && Ascending(ShiftAll(es, rs, y - x), y, |u|)
    && SpliceFrom(u, ShiftAll(es, rs, y - x), y) == SpliceFrom(t, Interleave(es, rs), x)
  }

  ghost predicate Hoppable(t: Bytes, u: Bytes, es: seq<Edit>, rs: seq<Edit>, x: nat, y: nat) {
    InStep(t, u, rs, x, y) && Ascending(es, x, |t|) && Separate(es, rs) && NoneSwallowed(es, rs)
  }

  lemma ShiftedInto(t: Bytes, u: Bytes, es: seq<Edit>, rs: seq<Edit>, x: nat, y: nat)
    requires InStep(t, u, rs, x, y) && Ascending(es, x, |t|) && Separate(es, rs)
    ensures Ascending(ShiftAll(es, rs, y - x), y, |u|)
  {
    EachOrdered(es, x, |t|);
    SeparateOutside(es, rs);
    SpliceTail(t, rs, x);
    assert |u[y..]| == |u| - y;
    StartOutside(rs, x, |t|);
    ShiftMonotone(x, x, rs, x, |t|);
    ShiftedAscending(es, rs, x, |t|, x, y - x, y);
  }

  lemma EachOrdered(es: seq<Edit>, x: nat, n: nat)
    requires Ascending(es, x, n)
    ensures forall i | 0 <= i < |es| :: x <= es[i].from <= es[i].to <= n
  {
    forall i | 0 <= i < |es| ensures x <= es[i].from <= es[i].to <= n {
      AscendingAt(es, x, n, i);
    }
  }

  lemma StartOutside(rs: seq<Edit>, x: nat, n: nat)
    requires Ascending(rs, x, n)
    ensures Outside(x, rs)
  {
    EachOrdered(rs, x, n);
  }

  /** The next thing to the right is one of our edits. */
  lemma HopEdit(t: Bytes, u: Bytes, es: seq<Edit>, rs: seq<Edit>, x: nat, y: nat)
    requires Hoppable(t, u, es, rs, x, y) && es != [] && (rs == [] || es[0].from < rs[0].from)
    ensures var e := es[0];
      var y' := y + e.to - x;
      Hoppable(t, u, es[1..], rs, e.to, y') && (HopHolds(t, u, es[1..], rs, e.to, y') ==> HopHolds(t, u, es, rs, x, y))
  {
    var e := es[0];
    if rs != [] {
      assert Precedes(es[0], rs[0]) || Precedes(rs[0], es[0]);
      assert !Swallows(es[0], rs[0]);
      AscendingEnds(rs, x, |t|);
    }
    Unmoved(e, rs, y - x);
    SeparateTails(es, rs);
    NoneSwallowedTails(es, rs);
    InterleaveTails(es, rs);
    PassText(t, u, rs, x, y, e.from);
    PassText(t, u, rs, x, y, e.to);
    hide SpliceFrom, Separate, NoneSwallowed;
    HopEditText(t, u, es, rs, x, y);
  }

  lemma HopEditText(t: Bytes, u: Bytes, es: seq<Edit>, rs: seq<Edit>, x: nat, y: nat)
    requires es != [] && x <= es[0].from <= es[0].to <= |t| && y + es[0].to - x <= |u|
    requires ShiftEdit(es[0], rs, y - x) == Edit(es[0].from + y - x, es[0].to + y - x, es[0].replacement)
    requires u[y..y + es[0].from - x] == t[x..es[0].from]
    requires Interleave(es, rs) == [es[0]] + Interleave(es[1..], rs)
    ensures HopHolds(t, u, es[1..], rs, es[0].to, y + es[0].to - x) ==> HopHolds(t, u, es, rs, x, y)
  {
    var rest := Interleave(es[1..], rs);
    assert ([es[0]] + rest)[1..] == rest;
    var more := ShiftAll(es[1..], rs, y - x);
    assert ([ShiftEdit(es[0], rs, y - x)] + more)[1..] == more;
  }

  /** The next thing to the right is one of the changes. */
  lemma HopChange(t: Bytes, u: Bytes, es: seq<Edit>, rs: seq<Edit>, x: nat, y: nat)
    requires Hoppable(t, u, es, rs, x, y) && rs != [] && (es == [] || es[0].from >= rs[0].from)
    ensures var r := rs[0];
      var y' := y + (r.from - x) + |r.replacement|;
      Hoppable(t, u, es, rs[1..], r.to, y') && (HopHolds(t, u, es, rs[1..], r.to, y') ==> HopHolds(t, u, es, rs, x, y))
  {
    hide Separate, NoneSwallowed, SpliceFrom;
    var r := rs[0];
    var y' := y + (r.from - x) + |r.replacement|;
    PassChange(t, u, rs, x, y);
    SeparateTails(es, rs);
    NoneSwallowedTails(es, rs);
    InterleaveTails(es, rs);
    ShiftedInto(t, u, es, rs, x, y);
    EachOrdered(es, x, |t|);
    if es != [] {
      assert Precedes(es[0], rs[0]) || Precedes(rs[0], es[0]);
      BehindAll(es, r.to, x, |t|);
      ShiftAllFirst(es, rs, y - x);
      ShiftedInto(t, u, es, rs[1..], r.to, y');
    } else {
      assert Ascending(es, r.to, |t|);
    }
    HopChangeText(t, u, es, rs, x, y);
  }

  lemma BehindAll(es: seq<Edit>, x': nat, x: nat, n: nat)
    requires Ascending(es, x, n) && es != [] && x' <= es[0].from
    ensures Ascending(es, x', n) && forall i | 0 <= i < |es| :: x' <= es[i].from <= es[i].to
  {
    EachOrdered(es, x', n);
  }

  lemma {:induction false} HopChangeText(t: Bytes, u: Bytes, es: seq<Edit>, rs: seq<Edit>, x: nat, y: nat)
    requires rs != [] && x <= rs[0].from <= rs[0].to <= |t|
    requires var r := rs[0];
      var y' := y + (r.from - x) + |r.replacement|;
      && y' <= |u| && u[y..y'] == t[x..r.from] + r.replacement
      && ShiftAll(es, rs, y - x) == ShiftAll(es, rs[1..], y' - r.to)
      && Ascending(ShiftAll(es, rs, y - x), y, |u|)
    requires Interleave(es, rs) == [rs[0]] + Interleave(es, rs[1..])
    ensures var r := rs[0];
      var y' := y + (r.from - x) + |r.replacement|;
      HopHolds(t, u, es, rs[1..], r.to, y') ==> HopHolds(t, u, es, rs, x, y)
  {
    var r := rs[0];
    var y' := y + (r.from - x) + |r.replacement|;
    var rest := Interleave(es, rs[1..]);
    assert ([r] + rest)[1..] == rest;
    if HopHolds(t, u, es, rs[1..], r.to, y') {
      assert Ascending(Interleave(es, rs), x, |t|);
      assert SpliceFrom(t, Interleave(es, rs), x) == t[x..r.from] + r.replacement + SpliceFrom(t, rest, r.to);
      hide SpliceFrom, Ascending, Interleave, ShiftAll;
      SplicePast(u, ShiftAll(es, rs, y - x), y, y');
    }
  }

  lemma {:induction false} SplicePast(u: Bytes, es: seq<Edit>, y: nat, y': nat)
    requires Ascending(es, y, |u|) && Ascending(es, y', |u|) && y <= y' <= |u|
    ensures SpliceFrom(u, es, y) == u[y..y'] + SpliceFrom(u, es, y')
  {
    if es != [] {
      AscendingEnds(es, y', |u|);
    }
    SpliceLater(u, es, y, y');
  }

  /** Shifted over the changes and applied to their text, the edits make the text that both change
      sets together make of the base. */
  lemma {:induction false} Hop(t: Bytes, u: Bytes, es: seq<Edit>, rs: seq<Edit>, x: nat, y: nat)
    requires Hoppable(t, u, es, rs, x, y)
    ensures HopHolds(t, u, es, rs, x, y)
    decreases |es| + |rs|
  {
    if es == [] && rs == [] {
    } else if es != [] && (rs == [] || es[0].from < rs[0].from) {
      HopEdit(t, u, es, rs, x, y);
      Hop(t, u, es[1..], rs, es[0].to, y + es[0].to - x);
    } else {
      HopChange(t, u, es, rs, x, y);
      Hop(t, u, es, rs[1..], rs[0].to, y + (rs[0].from - x) + |rs[0].replacement|);
    }
  }

  // ----- both change sets together -----

  lemma {:induction false} InterleaveAscending(es: seq<Edit>, rs: seq<Edit>, x: nat, n: nat)
    requires Ascending(es, x, n) && Ascending(rs, x, n) && Separate(es, rs)
    ensures Ascending(Interleave(es, rs), x, n)
    ensures TotalDelta(Interleave(es, rs)) == TotalDelta(es) + TotalDelta(rs)
    decreases |es| + |rs|
  {
    if es == [] || rs == [] {
    } else {
      assert Precedes(es[0], rs[0]) || Precedes(rs[0], es[0]);
      SeparateTails(es, rs);
      if es[0].from < rs[0].from {
        InterleaveAscending(es[1..], rs, es[0].to, n);
      } else {
        InterleaveAscending(es, rs[1..], rs[0].to, n);
      }
    }
  }

  /** Which set is named first makes no difference. */
  lemma {:induction false} InterleaveSwap(es: seq<Edit>, rs: seq<Edit>)
    requires Separate(es, rs)
    ensures Interleave(es, rs) == Interleave(rs, es)
    decreases |es| + |rs|
  {
    if es != [] && rs != [] {
      assert Precedes(es[0], rs[0]) || Precedes(rs[0], es[0]);
      SeparateTails(es, rs);
      if es[0].from < rs[0].from {
        InterleaveSwap(es[1..], rs);
      } else {
        InterleaveSwap(es, rs[1..]);
      }
    }
  }

  function TotalGrowth(es: seq<Edit>, rs: seq<Edit>): int {
    if es == [] then 0 else Growth(es[0], rs) + TotalGrowth(es[1..], rs)
  }

  ghost predicate AllChange(rs: seq<Edit>) {
    forall j | 0 <= j < |rs| :: rs[j].from < rs[j].to || rs[j].replacement != []
  }

  lemma {:induction false} TotalGrowthSwallows(es: seq<Edit>, rs: seq<Edit>, x: nat, n: nat)
    requires Ascending(rs, x, n) && Separate(es, rs) && AllChange(rs)
    requires forall i | 0 <= i < |es| :: es[i].from <= es[i].to
    ensures TotalGrowth(es, rs) >= 0 && (TotalGrowth(es, rs) == 0 <==> NoneSwallowed(es, rs))
    decreases |es|
  {
    if es != [] {
      var e, rest := es[0], es[1..];
      assert forall i | 0 <= i < |rest| :: rest[i] == es[i + 1];
      SeparateTails(es, rs);
      TotalGrowthSwallows(rest, rs, x, n);
      assert Separate([e], rs);
      GrowthSwallows(e, rs, x, n);
      if NoneSwallowed(rest, rs) && !(exists j :: 0 <= j < |rs| && Swallows(e, rs[j])) {
        FirstAndRest(es, rs);
      }
    }
  }

  lemma FirstAndRest(es: seq<Edit>, rs: seq<Edit>)
    requires es != [] && NoneSwallowed(es[1..], rs) && forall j | 0 <= j < |rs| :: !Swallows(es[0], rs[j])
    ensures NoneSwallowed(es, rs)
  {
    forall i, j | 0 <= i < |es| && 0 <= j < |rs| ensures !Swallows(es[i], rs[j]) {
      if i > 0 {
        assert es[i] == es[1..][i - 1];
      }
    }
  }

  lemma {:induction false} ShiftedDelta(es: seq<Edit>, rs: seq<Edit>, d: int, lo: nat, n: nat)
    requires Ascending(ShiftAll(es, rs, d), lo, n)
    requires forall i | 0 <= i < |es| :: Shift(es[i].from, rs) + d >= 0 && Shift(es[i].to, rs) + d >= 0
    ensures TotalDelta(ShiftAll(es, rs, d)) == TotalDelta(es) - TotalGrowth(es, rs)
    decreases |es|
  {
    if es != [] {
      assert forall i | 0 <= i < |es[1..]| :: es[1..][i] == es[i + 1];
      var more := ShiftAll(es[1..], rs, d);
      assert ([ShiftEdit(es[0], rs, d)] + more)[1..] == more;
      ShiftedDelta(es[1..], rs, d, ShiftEdit(es[0], rs, d).to, n);
    }
  }

  lemma ShiftsAreNat(es: seq<Edit>, rs: seq<Edit>, x: nat, n: nat)
    requires Ascending(es, x, n) && Ascending(rs, x, n)
    ensures forall i | 0 <= i < |es| :: Shift(es[i].from, rs) >= x && Shift(es[i].to, rs) >= x
  {
    forall i | 0 <= i < |es| ensures Shift(es[i].from, rs) >= x && Shift(es[i].to, rs) >= x {
      AscendingAt(es, x, n, i);
      ShiftBound(es[i].from, rs, x, n);
      ShiftBound(es[i].to, rs, x, n);
    }
  }

  /** From any place on, shifted edits make what both change sets together make of the base, when no
      change is a pure insertion where a non-empty edit ends; otherwise they leave less. */
  lemma {:induction false} HopOrShrink(t: Bytes, u: Bytes, es: seq<Edit>, rs: seq<Edit>, x: nat, y: nat)
    requires InStep(t, u, rs, x, y) && Ascending(es, x, |t|) && Separate(es, rs) && AllChange(rs)
    ensures Ascending(ShiftAll(es, rs, y - x), y, |u|) && Ascending(Interleave(es, rs), x, |t|)
    ensures var hopped, together := SpliceFrom(u, ShiftAll(es, rs, y - x), y), SpliceFrom(t, Interleave(es, rs), x);
      if NoneSwallowed(es, rs) then hopped == together else |hopped| < |together|
  {
    ShiftedInto(t, u, es, rs, x, y);
    InterleaveAscending(es, rs, x, |t|);
    if NoneSwallowed(es, rs) {
      Hop(t, u, es, rs, x, y);
    } else {
      HoppedLess(t, u, es, rs, x, y);
    }
  }

  lemma {:induction false} HoppedLess(t: Bytes, u: Bytes, es: seq<Edit>, rs: seq<Edit>, x: nat, y: nat)
    requires InStep(t, u, rs, x, y) && Ascending(es, x, |t|) && Separate(es, rs) && AllChange(rs)
    requires !NoneSwallowed(es, rs)
    requires Ascending(ShiftAll(es, rs, y - x), y, |u|) && Ascending(Interleave(es, rs), x, |t|)
    ensures |SpliceFrom(u, ShiftAll(es, rs, y - x), y)| < |SpliceFrom(t, Interleave(es, rs), x)|
  {
    EachOrdered(es, x, |t|);
    TotalGrowthSwallows(es, rs, x, |t|);
    InterleaveAscending(es, rs, x, |t|);
    ShiftsAreNat(es, rs, x, |t|);
    ShiftedDelta(es, rs, y - x, y, |u|);
    SpliceTail(t, rs, x);
    SpliceTail(u, ShiftAll(es, rs, y - x), y);
    SpliceTail(t, Interleave(es, rs), x);
    assert |u[y..]| == |u| - y;
  }

  /** Hopping edits over separate changes gives the text that both change sets together make of the
      base, exactly when no change is a pure insertion where a non-empty edit ends. The hop itself
      always succeeds. */
  lemma {:induction false} HoppingIsTogether(t: Bytes, es: seq<Edit>, rs: seq<Edit>)
    requires Ascending(es, 0, |t|) && Ascending(rs, 0, |t|) && Separate(es, rs) && AllChange(rs)
    ensures Ascending(ShiftAll(es, rs, 0), 0, |Splice(t, rs)|) && Ascending(Interleave(es, rs), 0, |t|)
    ensures Splice(Splice(t, rs), ShiftAll(es, rs, 0)) == Splice(t, Interleave(es, rs)) <==> NoneSwallowed(es, rs)
  {
    hide AllChange, Ascending, NoneSwallowed, Precedes, ShiftAll, SpliceFrom;
    var u := Splice(t, rs);
    assert u[0..] == u;
    HopOrShrink(t, u, es, rs, 0, 0);
  }

  lemma SpliceSingle(t: Bytes, e: Edit)
    requires e.from <= e.to <= |t|
    ensures Ascending([e], 0, |t|) && Splice(t, [e]) == SpliceOne(t, e)
  {
    var none: seq<Edit> := [];
    assert [e][1..] == none;
    assert SpliceFrom(t, none, e.to) == t[e.to..];
    assert t[0..e.from] == t[..e.from];
    assert SpliceFrom(t, [e], 0) == t[0..e.from] + e.replacement + SpliceFrom(t, none, e.to);
  }

  lemma SplicePair(t: Bytes, e: Edit, f: Edit)
    requires e.from <= e.to <= f.from <= f.to <= |t|
    ensures Ascending([e, f], 0, |t|) && e.to <= |SpliceOne(t, f)| && Splice(t, [e, f]) == SpliceOne(SpliceOne(t, f), e)
  {
    assert [e, f][1..] == [f];
    SpliceSingle(t, f);
    assert Ascending([f], e.to, |t|) by {
      assert [f][1..] == [];
    }
    SpliceFirstLast(t, [e, f]);
  }

  /** The failing family is not empty: deleting the second of two lines hops over a line inserted
      behind it and deletes that line too. */
  lemma InsertionSwallowed()
    ensures
      var t: Bytes, e, r := [97, NL, 98, NL], Edit(2, 4, []), Edit(4, 4, [99, NL]);
      && Precedes(e, r) && ShiftEdit(e, [r], 0) == Edit(2, 6, [])
      && Ascending([r], 0, |t|) && Splice(t, [r]) == [97, NL, 98, NL, 99, NL]
      && Ascending([e, r], 0, |t|) && Splice(t, [e, r]) == [97, NL, 99, NL]
      && Ascending([Edit(2, 6, [])], 0, 6) && Splice([97, NL, 98, NL, 99, NL], [Edit(2, 6, [])]) == [97, NL]
  {
    var t: Bytes, e, r := [97, NL, 98, NL], Edit(2, 4, []), Edit(4, 4, [99, NL]);
    var none: seq<Edit> := [];
    assert [r][1..] == none;
    assert Shift(4, none) == 4 && Shift(4, [r]) == 6 && Shift(2, [r]) == 2;
    SpliceSingle(t, r);
    SplicePair(t, e, r);
    assert SpliceOne(t, r) == [97, NL, 98, NL] + [99, NL] + [];
    assert SpliceOne([97, NL, 98, NL, 99, NL], e) == [97, NL] + [] + [99, NL];
    assert SpliceOne([97, NL, 98, NL, 99, NL], Edit(2, 6, [])) == [97, NL];
    SpliceSingle([97, NL, 98, NL, 99, NL], Edit(2, 6, []));
  }
}
