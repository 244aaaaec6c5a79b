/** What two trees share at their ends, found by walking both from the root, and the leaves between. */
module SharedEnds {
  import opened Nodes
  import opened Storage
  import opened Grouping
  import opened Tree

  // ----- the leaves below a list of entries -----

  lemma {:induction false} DownConcat(es: seq<Child>, fs: seq<Child>, depth: nat)
    ensures Down(es + fs, depth) == Down(es, depth) + Down(fs, depth)
    decreases depth
  {
    hide Flatten;
    if depth > 0 {
      DownConcat(es, fs, depth - 1);
      FlattenConcat(Down(es, depth - 1), Down(fs, depth - 1));
    }
  }

  /** The leaves below a node's entry are those below its children. */
  lemma DownKids(c: Child, depth: nat)
    requires depth > 0 && c.hash.NodeHash?
    ensures Down([c], depth) == Down(c.hash.node.children, depth - 1)
  {
    assert [c][1..] == [];
    assert Flatten([c]) == c.hash.node.children + [];
    assert c.hash.node.children + [] == c.hash.node.children;
    DownFlatten([c], depth - 1);
  }

  lemma {:induction false} FlattenFits(level: nat, es: seq<Child>)
    requires AllWellFormed(level + 1, es)
    ensures AllWellFormed(level, Flatten(es)) && SumBytes(Flatten(es)) == SumBytes(es)
    ensures SumLines(Flatten(es)) == SumLines(es)
    decreases |es|
  {
    if es != [] {
      FlattenFits(level, es[1..]);
      assert WellFormed(level + 1, es[0]);
      WellFormedConcat(level, Kids(es[0]), Flatten(es[1..]));
      SumsConcat(Kids(es[0]), Flatten(es[1..]));
    }
  }

  lemma {:induction false} DownFits(level: nat, es: seq<Child>, depth: nat)
    requires depth <= level && AllWellFormed(level, es)
    ensures AllWellFormed(level - depth, Down(es, depth))
    ensures SumBytes(Down(es, depth)) == SumBytes(es) && SumLines(Down(es, depth)) == SumLines(es)
    decreases depth
  {
    if depth > 0 {
      DownFits(level, es, depth - 1);
      FlattenFits(level - depth, Down(es, depth - 1));
    }
  }

  /** A hash names one entry, at one level. */
  lemma {:induction false} SameHashSameEntry(l: nat, c: Child, m: nat, d: Child)
    requires WellFormed(l, c) && WellFormed(m, d) && c.hash == d.hash
    ensures c == d && l == m
    decreases l
  {
    if l > 0 {
      var cs := c.hash.node.children;
      assert WellFormed(l - 1, cs[0]) && WellFormed(m - 1, cs[0]);
      SameHashSameEntry(l - 1, cs[0], m - 1, cs[0]);
    }
  }

  // ----- the shared prefix -----

  /** Walking forward: the leaves passed, those below the entries at hand, and those behind. */
  ghost predicate Forward(whole: seq<Child>, passed: seq<Child>, level: nat, todo: seq<Child>, behind: seq<Child>) {
    AllWellFormed(level, todo) && whole == passed + Down(todo, level) + behind
  }

  lemma AssocLeaves(a: seq<Child>, b: seq<Child>, c: seq<Child>, d: seq<Child>)
    ensures a + (b + c) + d == (a + b) + c + d
    ensures a + (b + c) + d == a + b + (c + d)
  {
  }

  lemma TailFits(level: nat, es: seq<Child>)
    requires AllWellFormed(level, es) && es != []
    ensures AllWellFormed(level, es[1..]) && WellFormed(level, es[0])
    ensures Down(es, level) == Down([es[0]], level) + Down(es[1..], level)
  {
    assert es == [es[0]] + es[1..];
    WellFormedConcat(level, [es[0]], es[1..]);
    DownConcat([es[0]], es[1..], level);
  }

  lemma ForwardSkip(whole: seq<Child>, passed: seq<Child>, level: nat, todo: seq<Child>, behind: seq<Child>)
    requires Forward(whole, passed, level, todo, behind) && todo != []
    ensures WellFormed(level, todo[0])
    ensures Forward(whole, passed + Down([todo[0]], level), level, todo[1..], behind)
  {
    TailFits(level, todo);
    AssocLeaves(passed, Down([todo[0]], level), Down(todo[1..], level), behind);
  }

  lemma ForwardDescend(whole: seq<Child>, passed: seq<Child>, level: nat, todo: seq<Child>, behind: seq<Child>)
    requires Forward(whole, passed, level, todo, behind) && todo != [] && !todo[0].isLeaf
    ensures level > 0 && todo[0].hash.NodeHash?
    ensures Forward(whole, passed, level - 1, todo[0].hash.node.children, Down(todo[1..], level) + behind)
  {
    TailFits(level, todo);
    EntryTotals(level, todo[0]);
    DownKids(todo[0], level);
    AssocLeaves(passed, Down([todo[0]], level), Down(todo[1..], level), behind);
  }

  lemma StepSums(passed: seq<Child>, level: nat, c: Child)
    requires WellFormed(level, c)
    ensures SumBytes(passed + Down([c], level)) == SumBytes(passed) + c.nbytes
  {
    assert AllWellFormed(level, [c]);
    DownFits(level, [c], level);
    SumsConcat(passed, Down([c], level));
    assert [c][1..] == [];
  }

  /** The walk of one tree: its entry list, the index reached, and (ghost) what is passed and behind. */
  datatype Walk = Walk(cs: seq<Child>, i: nat, ghost level: nat, ghost passed: seq<Child>, ghost behind: seq<Child>)
  {
    ghost predicate On(whole: seq<Child>) {
      i <= |cs| && Forward(whole, passed, level, cs[i..], behind)
    }

    predicate More() {
      i < |cs|
    }
  }

  method Skip(w: Walk, ghost whole: seq<Child>) returns (w': Walk)
    requires w.On(whole) && w.More()
    ensures WellFormed(w.level, w.cs[w.i])
    ensures w'.On(whole) && w'.cs == w.cs && w'.i == w.i + 1 && w'.level == w.level
    ensures w'.passed == w.passed + Down([w.cs[w.i]], w.level)
    ensures SumBytes(w'.passed) == SumBytes(w.passed) + w.cs[w.i].nbytes
  {
    ForwardSkip(whole, w.passed, w.level, w.cs[w.i..], w.behind);
    StepSums(w.passed, w.level, w.cs[w.i]);
    assert w.cs[w.i..][1..] == w.cs[w.i + 1..];
    w' := Walk(w.cs, w.i + 1, w.level, w.passed + Down([w.cs[w.i]], w.level), w.behind);
  }

  method Descend(st: MemStorage, w: Walk, ghost whole: seq<Child>) returns (w': Walk)
    requires st.Sound() && AllIn(st.Stored(), w.cs) && w.On(whole) && w.More() && !w.cs[w.i].isLeaf
    ensures w'.On(whole) && AllIn(st.Stored(), w'.cs) && w'.level + 1 == w.level && w'.passed == w.passed
  {
    ForwardDescend(whole, w.passed, w.level, w.cs[w.i..], w.behind);
    var n := st.NodeAt(w.cs[w.i].hash);
    assert n.children[0..] == n.children;
    w' := Walk(n.children, 0, w.level - 1, w.passed, Down(w.cs[w.i..][1..], w.level) + w.behind);
  }

  /** Both walks have passed the same leaves. */
  ghost predicate Abreast(wa: Walk, wb: Walk, la: seq<Child>, lb: seq<Child>, aOff: nat, bOff: nat) {
    wa.On(la) && wb.On(lb) && wa.passed == wb.passed && aOff == bOff == SumBytes(wa.passed)
  }

  method SkipEqual(wa: Walk, wb: Walk, aOff: nat, bOff: nat, ghost la: seq<Child>, ghost lb: seq<Child>)
      returns (wa': Walk, wb': Walk, aOff': nat, bOff': nat)
    requires Abreast(wa, wb, la, lb, aOff, bOff)
    ensures Abreast(wa', wb', la, lb, aOff', bOff')
    ensures wa'.cs == wa.cs && wb'.cs == wb.cs && wa'.level == wa.level && wb'.level == wb.level
    ensures wa.i <= wa'.i <= |wa.cs| && wb'.i - wb.i == wa'.i - wa.i
    ensures wa'.passed == wa.passed + Down(wa.cs[wa.i..wa'.i], wa.level)
    ensures wa'.More() && wb'.More() ==> wa'.cs[wa'.i].hash != wb'.cs[wb'.i].hash
  {
    WalkInRange(wa, la);
    WalkInRange(wb, lb);
    NothingPassed(wa);
    hide Walk.On, SumBytes, Down;
    wa', wb', aOff', bOff' := wa, wb, aOff, bOff;
    while wa'.More() && wb'.More() && wa'.cs[wa'.i].hash == wb'.cs[wb'.i].hash
      invariant Abreast(wa', wb', la, lb, aOff', bOff')
      invariant wa'.cs == wa.cs && wb'.cs == wb.cs && wa'.level == wa.level && wb'.level == wb.level
      invariant wa.i <= wa'.i <= |wa.cs| && wb'.i - wb.i == wa'.i - wa.i
      invariant wa'.passed == wa.passed + Down(wa.cs[wa.i..wa'.i], wa.level)
      decreases |wa.cs| - wa'.i
    {
      ghost var va, vb := wa', wb';
      OnePassed(wa.passed, wa.cs, wa.i, wa'.i, wa.level);
      var c, d := wa'.cs[wa'.i], wb'.cs[wb'.i];
      wa' := Skip(wa', la);
      wb' := Skip(wb', lb);
      SameHashSameEntry(va.level, c, vb.level, d);
      aOff' := aOff' + c.nbytes;
      bOff' := bOff' + d.nbytes;
    }
  }

  lemma WalkInRange(w: Walk, whole: seq<Child>)
    requires w.On(whole)
    ensures w.i <= |w.cs|
  {
  }

  lemma {:induction false} NoneDown(depth: nat)
    ensures Down([], depth) == []
    decreases depth
  {
    if depth > 0 {
      NoneDown(depth - 1);
    }
  }

  lemma NothingPassed(w: Walk)
    requires w.i <= |w.cs|
    ensures w.passed == w.passed + Down(w.cs[w.i..w.i], w.level)
  {
    assert w.cs[w.i..w.i] == [];
    NoneDown(w.level);
  }

  lemma OnePassed(passed: seq<Child>, cs: seq<Child>, i: nat, k: nat, level: nat)
    requires i <= k < |cs|
    ensures passed + Down(cs[i..k], level) + Down([cs[k]], level) == passed + Down(cs[i..k + 1], level)
  {
    assert cs[i..k + 1] == cs[i..k] + [cs[k]];
    DownConcat(cs[i..k], [cs[k]], level);
    AssocTwo(passed, Down(cs[i..k], level), Down([cs[k]], level));
  }

  /** The first `n` entries of two lists are the same. */
  predicate EqualStart(cs: seq<Child>, ds: seq<Child>, n: nat) {
    n <= |cs| && n <= |ds| && forall i | 0 <= i < n :: cs[i].hash == ds[i].hash
  }

  /** What both roots start with is among the leaves passed. */
  ghost predicate Leads(cs: seq<Child>, ds: seq<Child>, level: nat, passed: seq<Child>) {
    forall n: nat | EqualStart(cs, ds, n) :: Down(cs[..n], level) <= passed
  }

  lemma LeadsAtFirst(cs: seq<Child>, ds: seq<Child>, level: nat, k: nat)
    requires k <= |cs| && k <= |ds| && (k < |cs| && k < |ds| ==> cs[k].hash != ds[k].hash)
    ensures Leads(cs, ds, level, Down(cs[..k], level))
  {
    forall n: nat | EqualStart(cs, ds, n) ensures Down(cs[..n], level) <= Down(cs[..k], level) {
      assert n <= k;
      assert cs[..k] == cs[..n] + cs[n..k];
      DownConcat(cs[..n], cs[n..k], level);
    }
  }

  lemma LeadsOn(cs: seq<Child>, ds: seq<Child>, level: nat, passed: seq<Child>, more: seq<Child>)
    requires Leads(cs, ds, level, passed)
    ensures Leads(cs, ds, level, passed + more)
  {
    forall n: nat | EqualStart(cs, ds, n) ensures Down(cs[..n], level) <= passed + more {
      assert Down(cs[..n], level) <= passed;
    }
  }

  lemma LeadsFromStart(cs: seq<Child>, ds: seq<Child>, level: nat, k: nat, passed: seq<Child>)
    requires k <= |cs| && k <= |ds| && (k < |cs| && k < |ds| ==> cs[k].hash != ds[k].hash)
    requires passed == [] + Down(cs[0..k], level)
    ensures Leads(cs, ds, level, passed)
  {
    hide Leads;
    assert cs[0..k] == cs[..k];
    LeadsAtFirst(cs, ds, level, k);
    assert passed == Down(cs[..k], level);
  }

  /** The subtrees both documents start with: the leaves they hold are shared, and start both. Whatever
      both roots start with is among them, passed without a look at what is below it. */
  method CommonPrefix(st: MemStorage, a: Node, b: Node, ghost aTop: nat, ghost bTop: nat)
      returns (aOff: nat, bOff: nat, ghost shared: seq<Child>, ghost ra: seq<Child>, ghost rb: seq<Child>)
    requires st.Sound() && AllIn(st.Stored(), a.children) && AllIn(st.Stored(), b.children)
    requires AllWellFormed(aTop, a.children) && AllWellFormed(bTop, b.children)
    ensures Down(a.children, aTop) == shared + ra && Down(b.children, bTop) == shared + rb
    ensures aOff == bOff == SumBytes(shared) && Leads(a.children, b.children, aTop, shared)
  {
    ghost var la, lb := Down(a.children, aTop), Down(b.children, bTop);
    var wa := SetOut(a, aTop);
    var wb := SetOut(b, bTop);
    aOff, bOff := 0, 0;
    hide Leads;
    ghost var first := true;
    while true
      invariant Abreast(wa, wb, la, lb, aOff, bOff)
      invariant AllIn(st.Stored(), wa.cs) && AllIn(st.Stored(), wb.cs)
      invariant first ==> wa.cs == a.children && wb.cs == b.children && wa.i == wb.i == 0
      invariant first ==> wa.passed == [] && wa.level == aTop
      invariant !first ==> Leads(a.children, b.children, aTop, wa.passed)
      decreases wa.level + wb.level
    {
      ghost var passed := wa.passed;
      ghost var more := wa;
      wa, wb, aOff, bOff := SkipEqual(wa, wb, aOff, bOff, la, lb);
      if first {
        LeadsFromStart(a.children, b.children, aTop, wa.i, wa.passed);
      } else {
        LeadsOn(a.children, b.children, aTop, passed, Down(more.cs[more.i..wa.i], more.level));
      }
      first := false;
      if wa.More() && wb.More() && !wa.cs[wa.i].isLeaf && !wb.cs[wb.i].isLeaf {
        wa := Descend(st, wa, la);
        wb := Descend(st, wb, lb);
        continue;
      }
      if wa.More() && wb.More() && wa.cs[wa.i].isLeaf != wb.cs[wb.i].isLeaf {
        if !wa.cs[wa.i].isLeaf {
          wa := Descend(st, wa, la);
        } else {
          wb := Descend(st, wb, lb);
        }
        continue;
      }
      break;
    }
    shared := wa.passed;
    ra := Down(wa.cs[wa.i..], wa.level) + wa.behind;
    rb := Down(wb.cs[wb.i..], wb.level) + wb.behind;
    PrefixEnds(wa, la, ra);
    PrefixEnds(wb, lb, rb);
  }

  lemma PrefixEnds(w: Walk, whole: seq<Child>, rest: seq<Child>)
    requires w.On(whole) && rest == Down(w.cs[w.i..], w.level) + w.behind
    ensures whole == w.passed + rest
  {
    AssocTwo(w.passed, Down(w.cs[w.i..], w.level), w.behind);
  }

  lemma AssocTwo(a: seq<Child>, b: seq<Child>, c: seq<Child>)
    ensures a + b + c == a + (b + c)
  {
  }

  method SetOut(n: Node, ghost top: nat) returns (w: Walk)
    requires AllWellFormed(top, n.children)
    ensures w.On(Down(n.children, top)) && w.cs == n.children && w.passed == [] && w.i == 0 && w.level == top
  {
    w := Walk(n.children, 0, top, [], []);
    assert n.children[0..] == n.children;
    AssocTwo([], Down(n.children, top), []);
  }

  // ----- the shared suffix -----

  /** Walking backward: the leaves in front, those below the entries at hand, and those passed. */
  ghost predicate Backward(whole: seq<Child>, front: seq<Child>, level: nat, todo: seq<Child>, passed: seq<Child>) {
    AllWellFormed(level, todo) && whole == front + Down(todo, level) + passed
  }

  lemma InitFits(level: nat, es: seq<Child>)
    requires AllWellFormed(level, es) && es != []
    ensures AllWellFormed(level, es[..|es| - 1]) && WellFormed(level, es[|es| - 1])
    ensures Down(es, level) == Down(es[..|es| - 1], level) + Down([es[|es| - 1]], level)
  {
    assert es == es[..|es| - 1] + [es[|es| - 1]];
    WellFormedConcat(level, es[..|es| - 1], [es[|es| - 1]]);
    DownConcat(es[..|es| - 1], [es[|es| - 1]], level);
    assert WellFormed(level, [es[|es| - 1]][0]);
  }

  lemma BackwardPop(whole: seq<Child>, front: seq<Child>, level: nat, todo: seq<Child>, passed: seq<Child>)
    requires Backward(whole, front, level, todo, passed) && todo != []
    ensures WellFormed(level, todo[|todo| - 1])
    ensures Backward(whole, front, level, todo[..|todo| - 1], Down([todo[|todo| - 1]], level) + passed)
  {
    InitFits(level, todo);
    AssocLeaves(front, Down(todo[..|todo| - 1], level), Down([todo[|todo| - 1]], level), passed);
    AssocTwo(front + Down(todo[..|todo| - 1], level), Down([todo[|todo| - 1]], level), passed);
  }

  lemma BackwardDescend(whole: seq<Child>, front: seq<Child>, level: nat, todo: seq<Child>, passed: seq<Child>)
    requires Backward(whole, front, level, todo, passed) && todo != [] && !todo[|todo| - 1].isLeaf
    ensures level > 0 && todo[|todo| - 1].hash.NodeHash?
    ensures Backward(whole, front + Down(todo[..|todo| - 1], level), level - 1, todo[|todo| - 1].hash.node.children,
      passed)
  {
    InitFits(level, todo);
    EntryTotals(level, todo[|todo| - 1]);
    DownKids(todo[|todo| - 1], level);
    AssocLeaves(front, Down(todo[..|todo| - 1], level), Down([todo[|todo| - 1]], level), passed);
  }

  lemma StepSumsBack(level: nat, c: Child, passed: seq<Child>)
    requires WellFormed(level, c)
    ensures SumBytes(Down([c], level) + passed) == SumBytes(passed) + c.nbytes
  {
    assert AllWellFormed(level, [c]);
    DownFits(level, [c], level);
    SumsConcat(Down([c], level), passed);
    assert [c][1..] == [];
  }

  /** The backward walk of one tree: the entries still held, and (ghost) what is in front and passed. */
  datatype Retreat = Retreat(cs: seq<Child>, ghost level: nat, ghost front: seq<Child>, ghost passed: seq<Child>)
  {
    ghost predicate On(whole: seq<Child>) {
      Backward(whole, front, level, cs, passed)
    }

    function Last(): Child
      requires cs != []
    {
      cs[|cs| - 1]
    }
  }

  method Pop(w: Retreat, ghost whole: seq<Child>) returns (w': Retreat)
    requires w.On(whole) && w.cs != []
    ensures WellFormed(w.level, w.Last())
    ensures w'.On(whole) && w'.cs == w.cs[..|w.cs| - 1] && w'.level == w.level
    ensures w'.passed == Down([w.Last()], w.level) + w.passed
    ensures SumBytes(w'.passed) == SumBytes(w.passed) + w.Last().nbytes
  {
    BackwardPop(whole, w.front, w.level, w.cs, w.passed);
    StepSumsBack(w.level, w.Last(), w.passed);
    w' := Retreat(w.cs[..|w.cs| - 1], w.level, w.front, Down([w.Last()], w.level) + w.passed);
  }

  method DescendLast(st: MemStorage, w: Retreat, ghost whole: seq<Child>) returns (w': Retreat)
    requires st.Sound() && AllIn(st.Stored(), w.cs) && w.On(whole) && w.cs != [] && !w.Last().isLeaf
    ensures w'.On(whole) && AllIn(st.Stored(), w'.cs) && w'.level + 1 == w.level && w'.passed == w.passed
  {
    BackwardDescend(whole, w.front, w.level, w.cs, w.passed);
    var n := st.NodeAt(w.Last().hash);
    w' := Retreat(n.children, w.level - 1, w.front + Down(w.cs[..|w.cs| - 1], w.level), w.passed);
  }

  ghost predicate AbreastBack(wa: Retreat, wb: Retreat, la: seq<Child>, lb: seq<Child>, aSuf: nat, bSuf: nat) {
    wa.On(la) && wb.On(lb) && wa.passed == wb.passed && aSuf == bSuf == SumBytes(wa.passed)
  }

  /** Nothing more can be popped: a list is used up, the ends differ, or a budget is reached. */
  predicate Stopped(cs: seq<Child>, ds: seq<Child>, aSuf: nat, bSuf: nat, aBudget: nat, bBudget: nat) {
    cs == [] || ds == [] ||
    var x, y := cs[|cs| - 1], ds[|ds| - 1];
    x.hash != y.hash || aSuf + x.nbytes > aBudget || bSuf + y.nbytes > bBudget
  }

  lemma NothingPopped(w: Retreat)
    ensures w.passed == Down(w.cs[|w.cs|..], w.level) + w.passed
  {
    assert w.cs[|w.cs|..] == [];
    NoneDown(w.level);
  }

  lemma OnePopped(passed: seq<Child>, cs: seq<Child>, k: nat, level: nat)
    requires k < |cs|
    ensures Down([cs[k]], level) + (Down(cs[k + 1..], level) + passed) == Down(cs[k..], level) + passed
  {
    assert cs[k..] == [cs[k]] + cs[k + 1..];
    DownConcat([cs[k]], cs[k + 1..], level);
    AssocTwo(Down([cs[k]], level), Down(cs[k + 1..], level), passed);
  }

  /** The two lists end the same from `i` and `j` on, within the budgets. */
  ghost predicate EqualEnd(cs: seq<Child>, ds: seq<Child>, aBudget: nat, bBudget: nat, i: nat, j: nat) {
    && i <= |cs| && j <= |ds| && cs[i..] == ds[j..] && SumBytes(cs[i..]) <= aBudget && SumBytes(cs[i..]) <= bBudget
  }

  predicate EndsWith(whole: seq<Child>, end: seq<Child>) {
    |end| <= |whole| && whole[|whole| - |end|..] == end
  }

  /** What both roots end with, as far as the budgets go, is among the leaves passed. */
  ghost predicate Trails(cs: seq<Child>, ds: seq<Child>, level: nat, aBudget: nat, bBudget: nat, passed: seq<Child>) {
    forall i: nat, j: nat | EqualEnd(cs, ds, aBudget, bBudget, i, j) :: EndsWith(passed, Down(cs[i..], level))
  }

  /** While the lists end the same from further in front, within the budgets, popping goes on. */
  lemma {:induction false} LongerGoesOn(cs: seq<Child>, ds: seq<Child>, aBudget: nat, bBudget: nat, i: nat, j: nat,
      k: nat, l: nat)
    requires EqualEnd(cs, ds, aBudget, bBudget, i, j) && i < k <= |cs| && l <= |ds| && |cs| - k == |ds| - l
    ensures j < l && !Stopped(cs[..k], ds[..l], SumBytes(cs[k..]), SumBytes(ds[l..]), aBudget, bBudget)
  {
    assert |cs[i..]| == |ds[j..]|;
    assert cs[k - 1] == cs[i..][k - 1 - i] == ds[j..][k - 1 - i] == ds[l - 1];
    TailSums(cs, i, k - 1);
    assert cs[k - 1..][1..] == cs[k..];
    assert cs[k..] == cs[i..][k - i..] == ds[j..][k - i..] == ds[l..];
    assert cs[..k][k - 1] == cs[k - 1] && ds[..l][l - 1] == ds[l - 1];
  }

  lemma {:induction false} TailSums(cs: seq<Child>, i: nat, k: nat)
    requires i <= k <= |cs|
    ensures SumBytes(cs[k..]) <= SumBytes(cs[i..])
    decreases k - i
  {
    if i < k {
      assert cs[i..][1..] == cs[i + 1..];
      TailSums(cs, i + 1, k);
    }
  }

  lemma {:induction false} TrailsAtFirst(cs: seq<Child>, ds: seq<Child>, level: nat, aBudget: nat, bBudget: nat, k: nat,
      l: nat, passed: seq<Child>)
    requires k <= |cs| && l <= |ds| && |cs| - k == |ds| - l && passed == Down(cs[k..], level)
    requires Stopped(cs[..k], ds[..l], SumBytes(cs[k..]), SumBytes(ds[l..]), aBudget, bBudget)
    ensures Trails(cs, ds, level, aBudget, bBudget, passed)
  {
    hide Stopped, Down;
    forall i: nat, j: nat | EqualEnd(cs, ds, aBudget, bBudget, i, j) ensures EndsWith(passed, Down(cs[i..], level)) {
      EqualEndStarts(cs, ds, aBudget, bBudget, i, j);
      if i < k {
        LongerGoesOn(cs, ds, aBudget, bBudget, i, j, k, l);
        assert false;
      } else {
        assert cs[k..] == cs[k..i] + cs[i..];
        DownConcat(cs[k..i], cs[i..], level);
      }
    }
  }

  lemma EqualEndStarts(cs: seq<Child>, ds: seq<Child>, aBudget: nat, bBudget: nat, i: nat, j: nat)
    requires EqualEnd(cs, ds, aBudget, bBudget, i, j)
    ensures i <= |cs| && j <= |ds|
  {
  }

  lemma TrailsOn(cs: seq<Child>, ds: seq<Child>, level: nat, aBudget: nat, bBudget: nat, passed: seq<Child>,
      more: seq<Child>)
    requires Trails(cs, ds, level, aBudget, bBudget, passed)
    ensures Trails(cs, ds, level, aBudget, bBudget, more + passed)
  {
    hide Down;
    forall i: nat, j: nat | EqualEnd(cs, ds, aBudget, bBudget, i, j)
      ensures EndsWith(more + passed, Down(cs[i..], level)) {
      var end := Down(cs[i..], level);
      assert EndsWith(passed, end);
      assert (more + passed)[|more| + |passed| - |end|..] == passed[|passed| - |end|..];
    }
  }

  /** The bytes of the entries popped are those of the leaves passed. */
  lemma PoppedSums(cs: seq<Child>, level: nat, k: nat)
    requires AllWellFormed(level, cs) && k <= |cs|
    ensures SumBytes(Down(cs[k..], level)) == SumBytes(cs[k..])
  {
    assert AllWellFormed(level, cs[k..]);
    DownFits(level, cs[k..], level);
  }

  method PopEqual(wa: Retreat, wb: Retreat, aSuf: nat, bSuf: nat, aBudget: nat, bBudget: nat, ghost la: seq<Child>,
      ghost lb: seq<Child>)
      returns (wa': Retreat, wb': Retreat, aSuf': nat, bSuf': nat)
    requires AbreastBack(wa, wb, la, lb, aSuf, bSuf) && aSuf <= aBudget && bSuf <= bBudget
    ensures AbreastBack(wa', wb', la, lb, aSuf', bSuf') && aSuf' <= aBudget && bSuf' <= bBudget
    ensures wa'.cs <= wa.cs && wb'.cs <= wb.cs && wa'.level == wa.level && wb'.level == wb.level
    ensures |wa.cs| - |wa'.cs| == |wb.cs| - |wb'.cs|
    ensures wa'.passed == Down(wa.cs[|wa'.cs|..], wa.level) + wa.passed
    ensures wb'.passed == Down(wb.cs[|wb'.cs|..], wb.level) + wb.passed
    ensures Stopped(wa'.cs, wb'.cs, aSuf', bSuf', aBudget, bBudget)
  {
    NothingPopped(wa);
    NothingPopped(wb);
    hide Retreat.On, SumBytes, Down;
    wa', wb', aSuf', bSuf' := wa, wb, aSuf, bSuf;
    while wa'.cs != [] && wb'.cs != []
      invariant AbreastBack(wa', wb', la, lb, aSuf', bSuf') && aSuf' <= aBudget && bSuf' <= bBudget
      invariant wa'.cs <= wa.cs && wb'.cs <= wb.cs && wa'.level == wa.level && wb'.level == wb.level
      invariant |wa.cs| - |wa'.cs| == |wb.cs| - |wb'.cs|
      invariant wa'.passed == Down(wa.cs[|wa'.cs|..], wa.level) + wa.passed
      invariant wb'.passed == Down(wb.cs[|wb'.cs|..], wb.level) + wb.passed
      decreases |wa'.cs|
    {
      var x, y := wa'.Last(), wb'.Last();
      if x.hash == y.hash && aSuf' + x.nbytes <= aBudget && bSuf' + y.nbytes <= bBudget {
        ghost var va, vb := wa', wb';
        OnePopped(wa.passed, wa.cs, |wa'.cs| - 1, wa.level);
        OnePopped(wb.passed, wb.cs, |wb'.cs| - 1, wb.level);
        wa' := Pop(wa', la);
        wb' := Pop(wb', lb);
        SameHashSameEntry(va.level, x, vb.level, y);
        aSuf' := aSuf' + x.nbytes;
        bSuf' := bSuf' + y.nbytes;
      } else {
        break;
      }
    }
  }

  lemma AllInPrefix(stored: set<Hash>, cs: seq<Child>, ds: seq<Child>)
    requires AllIn(stored, ds) && cs <= ds
    ensures AllIn(stored, cs)
  {
  }

  /** What the first series of pops passes. */
  lemma {:induction false} TrailsFromStart(cs: seq<Child>, ds: seq<Child>, aTop: nat, bTop: nat, aBudget: nat,
      bBudget: nat, wa: Retreat, wb: Retreat, aSuf: nat, bSuf: nat)
    requires AllWellFormed(aTop, cs) && AllWellFormed(bTop, ds) && wa.cs <= cs && wb.cs <= ds
    requires |cs| - |wa.cs| == |ds| - |wb.cs| && aSuf == bSuf == SumBytes(wa.passed) && wa.passed == wb.passed
    requires wa.passed == Down(cs[|wa.cs|..], aTop) + [] && wb.passed == Down(ds[|wb.cs|..], bTop) + []
    requires Stopped(wa.cs, wb.cs, aSuf, bSuf, aBudget, bBudget)
    ensures Trails(cs, ds, aTop, aBudget, bBudget, wa.passed)
  {
    hide Trails, Down, Stopped;
    PoppedSums(cs, aTop, |wa.cs|);
    PoppedSums(ds, bTop, |wb.cs|);
    assert cs[..|wa.cs|] == wa.cs && ds[..|wb.cs|] == wb.cs;
    assert wa.passed == Down(cs[|wa.cs|..], aTop) && wb.passed == Down(ds[|wb.cs|..], bTop);
    TrailsAtFirst(cs, ds, aTop, aBudget, bBudget, |wa.cs|, |wb.cs|, wa.passed);
  }

  /** The subtrees both documents end with, as far as the two budgets reach. Whatever both roots end with
      within the budgets is among them, passed without a look at what is below it. */
  method CommonSuffix(st: MemStorage, a: Node, b: Node, aBudget: nat, bBudget: nat, ghost aTop: nat, ghost bTop: nat)
      returns (aSuf: nat, bSuf: nat, ghost fa: seq<Child>, ghost fb: seq<Child>, ghost shared: seq<Child>)
    requires st.Sound() && AllIn(st.Stored(), a.children) && AllIn(st.Stored(), b.children)
    requires AllWellFormed(aTop, a.children) && AllWellFormed(bTop, b.children)
    ensures Down(a.children, aTop) == fa + shared && Down(b.children, bTop) == fb + shared
    ensures aSuf == bSuf == SumBytes(shared) && aSuf <= aBudget && bSuf <= bBudget
    ensures Trails(a.children, b.children, aTop, aBudget, bBudget, shared)
  {
    hide Trails, Stopped;
    ghost var first := true;
    ghost var la, lb := Down(a.children, aTop), Down(b.children, bTop);
    var wa := Retreat(a.children, aTop, [], []);
    var wb := Retreat(b.children, bTop, [], []);
    RetreatStarts(wa, a, aTop);
    RetreatStarts(wb, b, bTop);
    aSuf, bSuf := 0, 0;
    while true
      invariant AbreastBack(wa, wb, la, lb, aSuf, bSuf) && aSuf <= aBudget && bSuf <= bBudget
      invariant AllIn(st.Stored(), wa.cs) && AllIn(st.Stored(), wb.cs)
      invariant if first then wa == Retreat(a.children, aTop, [], []) && wb == Retreat(b.children, bTop, [], [])
                else Trails(a.children, b.children, aTop, aBudget, bBudget, wa.passed)
      decreases wa.level + wb.level
    {
      ghost var va, vb := wa, wb;
      wa, wb, aSuf, bSuf := PopEqual(wa, wb, aSuf, bSuf, aBudget, bBudget, la, lb);
      AllInPrefix(st.Stored(), wa.cs, va.cs);
      AllInPrefix(st.Stored(), wb.cs, vb.cs);
      if first {
        TrailsFromStart(a.children, b.children, aTop, bTop, aBudget, bBudget, wa, wb, aSuf, bSuf);
      } else {
        TrailsOn(a.children, b.children, aTop, aBudget, bBudget, va.passed, Down(va.cs[|wa.cs|..], va.level));
      }
      first := false;
      if wa.cs == [] || wb.cs == [] {
        break;
      }
      var x, y := wa.Last(), wb.Last();
      if !x.isLeaf && !y.isLeaf {
        wa := DescendLast(st, wa, la);
        wb := DescendLast(st, wb, lb);
      } else if x.isLeaf != y.isLeaf {
        if !x.isLeaf {
          wa := DescendLast(st, wa, la);
        } else {
          wb := DescendLast(st, wb, lb);
        }
      } else {
        break;
      }
    }
    fa := wa.front + Down(wa.cs, wa.level);
    fb := wb.front + Down(wb.cs, wb.level);
    shared := wa.passed;
  }

  lemma RetreatStarts(w: Retreat, n: Node, top: nat)
    requires AllWellFormed(top, n.children) && w == Retreat(n.children, top, [], [])
    ensures w.On(Down(n.children, top))
  {
    assert [] + Down(n.children, top) + [] == Down(n.children, top);
  }

  // ----- the leaves between -----

  /** A leaf and where it lies in its document. */
  datatype LeafRef = LeafRef(hash: Hash, byteOff: nat, lineOff: nat, nbytes: nat, nlines: nat)

  function RefOf(c: Child, boff: nat, loff: nat): LeafRef {
    LeafRef(c.hash, boff, loff, c.nbytes, c.nlines)
  }

  function Refs(ls: seq<Child>, boff: nat, loff: nat): (rs: seq<LeafRef>)
    ensures |rs| == |ls|
  {
    if ls == [] then [] else [RefOf(ls[0], boff, loff)] + Refs(ls[1..], boff + ls[0].nbytes, loff + ls[0].nlines)
  }

  /** The leaves, laid out from `boff` on, that overlap [from, end). */
  function Overlapping(ls: seq<Child>, boff: nat, loff: nat, from: nat, end: nat): seq<LeafRef> {
    if ls == [] then []
    else
      (if boff + ls[0].nbytes > from && boff < end then [RefOf(ls[0], boff, loff)] else [])
        + Overlapping(ls[1..], boff + ls[0].nbytes, loff + ls[0].nlines, from, end)
  }

  lemma {:induction false} OverlappingConcat(xs: seq<Child>, ys: seq<Child>, boff: nat, loff: nat, from: nat, end: nat)
    ensures Overlapping(xs + ys, boff, loff, from, end) ==
      Overlapping(xs, boff, loff, from, end) + Overlapping(ys, boff + SumBytes(xs), loff + SumLines(xs), from, end)
    decreases |xs|
  {
    if xs == [] {
      assert xs + ys == ys;
    } else {
      assert (xs + ys)[1..] == xs[1..] + ys;
      OverlappingConcat(xs[1..], ys, boff + xs[0].nbytes, loff + xs[0].nlines, from, end);
    }
  }

  /** Nothing overlaps a range it lies wholly before or behind. */
  lemma {:induction false} NoneOverlap(ls: seq<Child>, boff: nat, loff: nat, from: nat, end: nat)
    requires boff + SumBytes(ls) <= from || end <= boff
    ensures Overlapping(ls, boff, loff, from, end) == []
    decreases |ls|
  {
    if ls != [] {
      NoneOverlap(ls[1..], boff + ls[0].nbytes, loff + ls[0].nlines, from, end);
    }
  }

  lemma {:induction false} AllOverlap(ls: seq<Child>, boff: nat, loff: nat, from: nat, end: nat)
    requires from <= boff && boff + SumBytes(ls) <= end && AllWellFormed(0, ls)
    ensures Overlapping(ls, boff, loff, from, end) == Refs(ls, boff, loff)
    decreases |ls|
  {
    if ls != [] {
      assert WellFormed(0, ls[0]);
      AllOverlap(ls[1..], boff + ls[0].nbytes, loff + ls[0].nlines, from, end);
    }
  }

  /** On leaf bounds, the leaves that overlap a range are those that make it up. */
  lemma LeavesBetween(xs: seq<Child>, ls: seq<Child>, ys: seq<Child>)
    requires AllWellFormed(0, ls)
    ensures Overlapping(xs + ls + ys, 0, 0, SumBytes(xs), SumBytes(xs) + SumBytes(ls)) ==
      Refs(ls, SumBytes(xs), SumLines(xs))
  {
    hide Overlapping, Refs, SumBytes, SumLines, AllWellFormed;
    var from, end := SumBytes(xs), SumBytes(xs) + SumBytes(ls);
    OverlappingConcat(xs + ls, ys, 0, 0, from, end);
    OverlappingConcat(xs, ls, 0, 0, from, end);
    SumsConcat(xs, ls);
    NoneOverlap(xs, 0, 0, from, end);
    NoneOverlap(ys, end, SumLines(xs + ls), from, end);
    AllOverlap(ls, from, SumLines(xs), from, end);
  }

  /** Collect the leaves below a node that overlap [from, end). */
  method CollectLeaves(st: MemStorage, node: Node, boff0: nat, loff0: nat, from: nat, end: nat, ghost level: nat)
      returns (out: seq<LeafRef>)
    requires st.Sound() && AllIn(st.Stored(), node.children) && AllWellFormed(level, node.children)
    ensures out == Overlapping(Down(node.children, level), boff0, loff0, from, end)
    decreases level
  {
    out := [];
    var boff: nat, loff: nat := boff0, loff0;
    var i := 0;
    ghost var rest := node.children;
    ghost var all := Overlapping(Down(node.children, level), boff0, loff0, from, end);
    hide Overlapping, Down;
    while i < |node.children|
      invariant i <= |node.children| && rest == node.children[i..] && AllWellFormed(level, rest)
      invariant all == out + Overlapping(Down(rest, level), boff, loff, from, end)
    {
      var c := node.children[i];
      var below := LeavesOfChild(st, c, boff, loff, from, end, level);
      CollectStep(rest, level, boff, loff, from, end, out);
      out := out + below;
      boff := boff + c.nbytes;
      loff := loff + c.nlines;
      rest := rest[1..];
      i := i + 1;
      if boff >= end {
        break;
      }
    }
    RestOutside(rest, level, boff, loff, from, end);
  }

  lemma CollectStep(es: seq<Child>, level: nat, boff: nat, loff: nat, from: nat, end: nat, out: seq<LeafRef>)
    requires AllWellFormed(level, es) && es != []
    ensures WellFormed(level, es[0]) && AllWellFormed(level, es[1..])
    ensures out + Overlapping(Down(es, level), boff, loff, from, end) ==
      (out + Overlapping(Down([es[0]], level), boff, loff, from, end))
        + Overlapping(Down(es[1..], level), boff + es[0].nbytes, loff + es[0].nlines, from, end)
  {
    TailFits(level, es);
    var x := Down([es[0]], level);
    assert AllWellFormed(level, [es[0]]);
    DownFits(level, [es[0]], level);
    assert [es[0]][1..] == [];
    OverlappingConcat(x, Down(es[1..], level), boff, loff, from, end);
    AssocRefs(out, Overlapping(x, boff, loff, from, end),
      Overlapping(Down(es[1..], level), boff + es[0].nbytes, loff + es[0].nlines, from, end));
  }

  lemma AssocRefs(a: seq<LeafRef>, b: seq<LeafRef>, c: seq<LeafRef>)
    ensures a + (b + c) == (a + b) + c
  {
  }

  lemma RestOutside(es: seq<Child>, level: nat, boff: nat, loff: nat, from: nat, end: nat)
    requires es == [] || boff >= end
    ensures Overlapping(Down(es, level), boff, loff, from, end) == []
  {
    if es == [] {
      NoneDown(level);
    }
    if boff >= end {
      NoneOverlap(Down(es, level), boff, loff, from, end);
    }
  }

  method LeavesOfChild(st: MemStorage, c: Child, boff: nat, loff: nat, from: nat, end: nat, ghost level: nat)
      returns (out: seq<LeafRef>)
    requires st.Sound() && c.hash in st.Stored() && WellFormed(level, c)
    ensures out == Overlapping(Down([c], level), boff, loff, from, end)
    decreases level, 0
  {
    EntryTotals(level, c);
    if boff + c.nbytes > from && boff < end {
      if c.isLeaf {
        assert [c][1..] == [];
        out := [RefOf(c, boff, loff)];
      } else {
        DownKids(c, level);
        var child := st.NodeAt(c.hash);
        out := CollectLeaves(st, child, boff, loff, from, end, level - 1);
      }
    } else {
      assert AllWellFormed(level, [c]);
      DownFits(level, [c], level);
      assert [c][1..] == [];
      NoneOverlap(Down([c], level), boff, loff, from, end);
      out := [];
    }
  }
}
