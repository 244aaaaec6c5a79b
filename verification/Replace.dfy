/** Replacing a range of leaf entries and rebuilding the ancestors, sharing untouched subtrees. */
module Replacing {
  import opened Text
  import opened Nodes
  import opened Storage
  import opened Grouping
  import opened Tree
  import opened Cursors

  /** Group `es` after the open entries `cur`. `rest` is whatever follows. */
  method GroupAll(bd: Hash -> bool, nodes: seq<Node>, cur: seq<Child>, es: seq<Child>, ghost rest: seq<Child>)
      returns (nodes': seq<Node>, cur': seq<Child>)
    ensures nodes' + SplitFrom(bd, cur', rest) == nodes + SplitFrom(bd, cur, es + rest)
  {
    nodes', cur' := nodes, cur;
    var i := 0;
    assert es[0..] == es;
    while i < |es|
      invariant i <= |es|
      invariant nodes' + SplitFrom(bd, cur', es[i..] + rest) == nodes + SplitFrom(bd, cur, es + rest)
    {
      assert es[i..] + rest == [es[i]] + (es[i + 1..] + rest);
      nodes', cur' := GroupOne(bd, nodes', cur', es[i], es[i + 1..] + rest);
      i := i + 1;
    }
    assert es[i..] + rest == rest;
  }

  /** Take `e` into the open node, and close it if its boundary says so. */
  method GroupOne(bd: Hash -> bool, nodes: seq<Node>, cur: seq<Child>, e: Child, ghost rest: seq<Child>)
      returns (nodes': seq<Node>, cur': seq<Child>)
    ensures nodes' + SplitFrom(bd, cur', rest) == nodes + SplitFrom(bd, cur, [e] + rest)
    ensures cur' == [] <==> Closes(bd, cur + [e])
  {
    SplitStep(bd, nodes, cur, [e] + rest);
    assert ([e] + rest)[1..] == rest;
    nodes', cur' := nodes, cur + [e];
    if Closes(bd, cur') {
      nodes', cur' := nodes + [Node(cur')], [];
    }
  }

  /** The suffix of a level from `k` on: grouped until a new node ends where an old one did. Below
      the root the old nodes from `kUp` on are then shared; otherwise the level is used up. */
  method GroupSuffix(st: MemStorage, bd: Hash -> bool, nodes: seq<Node>, cur: seq<Child>, k: Path, ghost pl: Place,
      ghost level: nat) returns (nodes': seq<Node>, cur': seq<Child>, kUp: Option<Path>)
    requires st.Sound() && NodeHash(pl.root) in st.Stored() && ValidPath(pl, level, k)
    ensures kUp.Some? ==> ValidPath(pl, level + 1, kUp.value) && cur' == []
    ensures nodes' + SplitFrom(bd, cur', Flatten(FromOpt(kUp))) == nodes + SplitFrom(bd, cur, k.From())
  {
    hide Closed, TextOf;
    nodes', cur' := nodes, cur;
    var p := k;
    ghost var target := nodes + SplitFrom(bd, cur, k.From());
    ghost var left := k.From();
    while true
      invariant ValidPath(pl, level, p) && left == p.From()
      invariant nodes' + SplitFrom(bd, cur', left) == target
      decreases |left|
    {
      assert left == [p.Entry()] + left[1..];
      nodes', cur' := GroupOne(bd, nodes', cur', p.Entry(), left[1..]);
      if cur' == [] && p.frame.idx + 1 == |p.frame.node.children| && p.Under? {
        kUp := NextOf(st, p.up, pl, level + 1);
        PopLast(pl, level, p);
        return;
      }
      var next := NextOf(st, p, pl, level);
      left := left[1..];
      if next.None? {
        kUp := None;
        return;
      }
      p := next.value;
    }
  }

  /** The position after `p`, if there is one. */
  method NextOf(st: MemStorage, p: Path, ghost pl: Place, ghost level: nat) returns (next: Option<Path>)
    requires st.Sound() && NodeHash(pl.root) in st.Stored() && ValidPath(pl, level, p)
    ensures next == Next(p)
    ensures next.Some? ==> ValidPath(pl, level, next.value)
    ensures FromOpt(next) == p.From()[1..]
  {
    NextMoves(pl, level, p);
    var c := new Cursor(p);
    var more := c.Advance(st, pl, level);
    next := if more then Some(c.path) else None;
  }

  /** What has to be grouped again at a level: what `a`'s node holds in front of it, the new entries, and
      the old ones from `k` on. */
  ghost function Regrouped(a: Path, entries: seq<Child>, k: Option<Path>): seq<Child>
    requires a.InRange() && (k.Some? ==> k.value.InRange())
  {
    a.frame.node.children[..a.frame.idx] + entries + FromOpt(k)
  }

  /** The whole level after the replacement. */
  ghost function NewLevel(a: Path, entries: seq<Child>, k: Option<Path>): seq<Child>
    requires a.InRange() && (k.Some? ==> k.value.InRange())
  {
    a.Before() + entries + FromOpt(k)
  }

  /** Group a level again around its new entries; behind the nodes returned, the old ones still stand. */
  method RebuildLevel(st: MemStorage, bd: Hash -> bool, a: Path, k: Option<Path>, entries: seq<Child>, ghost pl: Place,
      ghost level: nat) returns (nodes: seq<Node>, kUp: Option<Path>)
    requires st.Sound() && NodeHash(pl.root) in st.Stored()
    requires ValidPath(pl, level, a) && (k.Some? ==> ValidPath(pl, level, k.value))
    ensures kUp.Some? ==> ValidPath(pl, level + 1, kUp.value)
    ensures nodes + Split(bd, Flatten(FromOpt(kUp))) == Split(bd, Regrouped(a, entries, k))
  {
    var cur;
    nodes, cur := GroupFront(bd, a.frame.node.children[..a.frame.idx], entries, FromOpt(k));
    kUp := None;
    if k.Some? {
      nodes, cur, kUp := GroupSuffix(st, bd, nodes, cur, k.value, pl, level);
    }
    Flush(bd, nodes, cur, Flatten(FromOpt(kUp)));
    if cur != [] {
      nodes := nodes + [Node(cur)];
    }
  }

  method GroupFront(bd: Hash -> bool, prefix: seq<Child>, entries: seq<Child>, ghost rest: seq<Child>)
      returns (nodes: seq<Node>, cur: seq<Child>)
    ensures nodes + SplitFrom(bd, cur, rest) == Split(bd, prefix + entries + rest)
  {
    nodes, cur := GroupAll(bd, [], [], prefix, entries + rest);
    nodes, cur := GroupAll(bd, nodes, cur, entries, rest);
    Assoc(prefix, entries, rest);
    assert [] + Split(bd, prefix + entries + rest) == Split(bd, prefix + entries + rest);
  }

  /** The last open node closes at the end of its level. */
  lemma {:induction false} Flush(bd: Hash -> bool, nodes: seq<Node>, cur: seq<Child>, es: seq<Child>)
    requires cur == [] || es == []
    ensures (if cur == [] then nodes else nodes + [Node(cur)]) + Split(bd, es) == nodes + SplitFrom(bd, cur, es)
  {
  }

  lemma {:induction false} RegroupedAbove(bd: Hash -> bool, pl: Place, level: nat, a: Path, regrouped: seq<Child>)
    requires CanonicalTop(bd, pl.top, pl.root.children)
    requires ValidPath(pl, level, a) && a.Under?
    ensures Up(bd, Flatten(a.up.Before()) + regrouped) == a.up.Before() + Up(bd, regrouped)
  {
    var up := a.up;
    WholeLevelDown(pl, level + 1, up);
    var es, i := up.Before() + up.From(), |up.Before()|;
    GroupedPrefix(bd, es, i, regrouped);
    assert es[..i] == up.Before();
  }

  lemma {:induction false} NewLevelSplit(a: Path, entries: seq<Child>, k: Option<Path>)
    requires a.Under? && a.InRange() && (k.Some? ==> k.value.InRange())
    ensures NewLevel(a, entries, k) == Flatten(a.up.Before()) + Regrouped(a, entries, k)
  {
  }

  /** Below the root, the level above after the replacement is the grouping of the level itself. */
  lemma {:induction false} LevelAbove(bd: Hash -> bool, pl: Place, level: nat, a: Path, k: Option<Path>,
      entries: seq<Child>, nodes: seq<Node>, kUp: Option<Path>)
    requires CanonicalTop(bd, pl.top, pl.root.children)
    requires ValidPath(pl, level, a) && a.Under? && (k.Some? ==> k.value.InRange())
    requires kUp.Some? ==> ValidPath(pl, level + 1, kUp.value)
    requires nodes + Split(bd, Flatten(FromOpt(kUp))) == Split(bd, Regrouped(a, entries, k))
    ensures NewLevel(a.up, AsChildren(nodes), kUp) == Up(bd, NewLevel(a, entries, k))
  {
    NewLevelSplit(a, entries, k);
    RegroupedAbove(bd, pl, level, a, Regrouped(a, entries, k));
    SharedAbove(bd, pl, level + 1, kUp);
    AsChildrenConcat(nodes, Split(bd, Flatten(FromOpt(kUp))));
    Assoc(a.up.Before(), AsChildren(nodes), FromOpt(kUp));
  }

  lemma {:induction false} Assoc(xs: seq<Child>, ys: seq<Child>, zs: seq<Child>)
    ensures (xs + ys) + zs == xs + (ys + zs)
  {
  }

  /** The old nodes from a position on are what grouping their entries gives. */
  lemma {:induction false} SharedAbove(bd: Hash -> bool, pl: Place, level: nat, kUp: Option<Path>)
    requires CanonicalTop(bd, pl.top, pl.root.children) && level > 0
    requires kUp.Some? ==> ValidPath(pl, level, kUp.value)
    ensures Up(bd, Flatten(FromOpt(kUp))) == FromOpt(kUp)
  {
    if kUp.Some? {
      var k := kUp.value;
      WholeLevelDown(pl, level, k);
      var es, i := k.Before() + k.From(), |k.Before()|;
      GroupedSuffix(bd, es, i);
      assert es[i..] == k.From();
    } else {
      assert Flatten([]) == [] && Split(bd, []) == [];
    }
  }

  /** Every entry of a level of a stored tree is stored. */
  lemma {:induction false} LevelStored(stored: set<Hash>, pl: Place, level: nat, p: Path)
    requires Closed(stored) && NodeHash(pl.root) in stored && ValidPath(pl, level, p)
    ensures AllIn(stored, p.From())
    decreases p
  {
    PathStored(stored, pl, level, p);
    if p.Under? {
      LevelStored(stored, pl, level + 1, p.up);
      FlattenStored(stored, p.up.From()[1..]);
    }
  }

  lemma {:induction false} FlattenStored(stored: set<Hash>, es: seq<Child>)
    requires Closed(stored) && AllIn(stored, es)
    ensures AllIn(stored, Flatten(es))
  {
    if es != [] {
      FlattenStored(stored, es[1..]);
    }
  }

  /** What stays true from level to level: the replaced range is [a, k) at `level`, and the level
      after the replacement builds up to the target root. */
  ghost predicate Rising(bd: Hash -> bool, pl: Place, level: nat, a: Path, k: Option<Path>, entries: seq<Child>,
      target: Hash) {
    && ValidPath(pl, level, a)
    && (k.Some? ==> ValidPath(pl, level, k.value))
    && AllWellFormed(level, entries)
    && Settles(bd, NewLevel(a, entries, k))
    && Normalized(BuildUp(bd, NewLevel(a, entries, k))) == target
  }

  lemma {:induction false} RisingBelowRoot(bd: Hash -> bool, pl: Place, level: nat, a: Path, k: Option<Path>,
      entries: seq<Child>, target: Hash, nodes: seq<Node>, kUp: Option<Path>)
    requires CanonicalTop(bd, pl.top, pl.root.children)
    requires Rising(bd, pl, level, a, k, entries, target) && a.Under?
    requires kUp.Some? ==> ValidPath(pl, level + 1, kUp.value)
    requires nodes + Split(bd, Flatten(FromOpt(kUp))) == Split(bd, Regrouped(a, entries, k))
    ensures Rising(bd, pl, level + 1, a.up, kUp, AsChildren(nodes), target)
  {
    NormalizedUp(bd, NewLevel(a, entries, k));
    NewNodesWellFormed(bd, pl, level, a, k, entries, nodes, kUp);
    LevelAbove(bd, pl, level, a, k, entries, nodes, kUp);
  }

  lemma {:induction false} RisingAtRoot(bd: Hash -> bool, pl: Place, level: nat, a: Path, k: Option<Path>,
      entries: seq<Child>, target: Hash, nodes: seq<Node>, kUp: Option<Path>)
    requires Rising(bd, pl, level, a, k, entries, target) && a.Top?
    requires kUp.Some? ==> ValidPath(pl, level + 1, kUp.value)
    requires nodes + Split(bd, Flatten(FromOpt(kUp))) == Split(bd, Regrouped(a, entries, k))
    ensures kUp.None? && AllWellFormed(level + 1, AsChildren(nodes))
    ensures Settles(bd, AsChildren(nodes)) && Normalized(BuildUp(bd, AsChildren(nodes))) == target
  {
    NormalizedUp(bd, NewLevel(a, entries, k));
    NewNodesWellFormed(bd, pl, level, a, k, entries, nodes, kUp);
    if kUp.Some? {
      WholeLevelDown(pl, level + 1, kUp.value);
      assert false;
    }
    assert nodes + Split(bd, Flatten([])) == nodes;
    NewLevelAtRoot(a, entries, k);
  }

  lemma {:induction false} NewLevelAtRoot(a: Path, entries: seq<Child>, k: Option<Path>)
    requires a.Top? && a.InRange() && (k.Some? ==> k.value.InRange())
    ensures NewLevel(a, entries, k) == Regrouped(a, entries, k)
  {
    assert a.Before() == a.frame.node.children[..a.frame.idx];
  }

  lemma {:induction false} NewNodesWellFormed(bd: Hash -> bool, pl: Place, level: nat, a: Path, k: Option<Path>,
      entries: seq<Child>, nodes: seq<Node>, kUp: Option<Path>)
    requires ValidPath(pl, level, a)
    requires k.Some? ==> ValidPath(pl, level, k.value)
    requires AllWellFormed(level, entries) && (kUp.Some? ==> kUp.value.InRange())
    requires nodes + Split(bd, Flatten(FromOpt(kUp))) == Split(bd, Regrouped(a, entries, k))
    ensures AllWellFormed(level + 1, AsChildren(nodes))
  {
    RegroupedWellFormed(pl, level, a, k, entries);
    UpWellFormed(bd, level, Regrouped(a, entries, k));
    AsChildrenConcat(nodes, Split(bd, Flatten(FromOpt(kUp))));
    WellFormedConcat(level + 1, AsChildren(nodes), AsChildren(Split(bd, Flatten(FromOpt(kUp)))));
  }

  lemma {:induction false} RegroupedWellFormed(pl: Place, level: nat, a: Path, k: Option<Path>, entries: seq<Child>)
    requires ValidPath(pl, level, a)
    requires k.Some? ==> ValidPath(pl, level, k.value)
    requires AllWellFormed(level, entries)
    ensures AllWellFormed(level, Regrouped(a, entries, k))
  {
    if k.Some? {
      FromWellFormed(pl, level, k.value);
    }
    WellFormedConcat(level, a.frame.node.children[..a.frame.idx] + entries, FromOpt(k));
    WellFormedConcat(level, a.frame.node.children[..a.frame.idx], entries);
  }

  lemma {:induction false} RegroupedStored(stored: set<Hash>, pl: Place, level: nat, a: Path, k: Option<Path>,
      entries: seq<Child>)
    requires Closed(stored) && NodeHash(pl.root) in stored
    requires ValidPath(pl, level, a)
    requires k.Some? ==> ValidPath(pl, level, k.value)
    requires AllIn(stored, entries)
    ensures AllIn(stored, Regrouped(a, entries, k))
  {
    PathStored(stored, pl, level, a);
    if k.Some? {
      LevelStored(stored, pl, level, k.value);
    }
  }

  lemma {:induction false} NodesStored(stored: set<Hash>, bd: Hash -> bool, nodes: seq<Node>, rest: seq<Node>,
      es: seq<Child>)
    requires AllIn(stored, es) && nodes + rest == Split(bd, es)
    ensures forall i | 0 <= i < |nodes| :: AllIn(stored, nodes[i].children)
  {
    SplitMembers(bd, stored, [], es);
    assert forall i | 0 <= i < |nodes| :: nodes[i] == (nodes + rest)[i];
  }

  /** Replace the leaf entries [a, k) by `newEntries` (`k` absent: to the end), rebuild the
      ancestors level by level, and collapse the root. The result is the root the new leaf sequence
      has when it is grouped from nothing. */
  method ReplaceEntries(st: MemStorage, bd: Hash -> bool, a0: Path, k0: Option<Path>, newEntries: seq<Child>,
      ghost pl: Place)
      returns (root: Hash)
    requires st.Sound() && NodeHash(pl.root) in st.Stored() && AllIn(st.Stored(), newEntries)
    requires CanonicalTop(bd, pl.top, pl.root.children)
    requires ValidPath(pl, 0, a0) && (k0.Some? ==> ValidPath(pl, 0, k0.value))
    requires AllWellFormed(0, newEntries) && Settles(bd, NewLevel(a0, newEntries, k0))
    modifies st`nodes, st`nodeWrites
    ensures root == BuildUp(bd, NewLevel(a0, newEntries, k0))
    ensures st.Sound() && old(st.Stored()) <= st.Stored() && root in st.Stored()
  {
    hide Split, Flatten, Regrouped, NewLevel, Closed, WellFormed, Linked, CanonicalTop;
    var a, k, entries := a0, k0, newEntries;
    ghost var target := BuildUp(bd, NewLevel(a0, newEntries, k0));
    LeafRootNormalized(bd, pl, a0, newEntries, k0);
    ghost var level: nat := 0;
    while true
      invariant st.Sound() && old(st.Stored()) <= st.Stored() && AllIn(st.Stored(), entries)
      invariant Rising(bd, pl, level, a, k, entries, target)
      decreases a
    {
      var nodes, kUp := RebuildLevel(st, bd, a, k, entries, pl, level);
      RegroupedStored(st.Stored(), pl, level, a, k, entries);
      NodesStored(st.Stored(), bd, nodes, Split(bd, Flatten(FromOpt(kUp))), Regrouped(a, entries, k));
      if a.Top? {
        RisingAtRoot(bd, pl, level, a, k, entries, target, nodes, kUp);
      } else {
        RisingBelowRoot(bd, pl, level, a, k, entries, target, nodes, kUp);
      }
      var next := PutNodes(st, nodes);
      if a.Top? {
        var built := BuildUpInto(st, bd, next);
        BuiltFlags(bd, level + 1, next);
        root := NormalizeRoot(st, built);
        return;
      }
      a, k, entries := a.up, kUp, next;
      level := level + 1;
    }
  }

  lemma {:induction false} LeafRootNormalized(bd: Hash -> bool, pl: Place, a: Path, entries: seq<Child>,
      k: Option<Path>)
    requires ValidPath(pl, 0, a) && (k.Some? ==> ValidPath(pl, 0, k.value))
    requires AllWellFormed(0, entries) && Settles(bd, NewLevel(a, entries, k))
    ensures Normalized(BuildUp(bd, NewLevel(a, entries, k))) == BuildUp(bd, NewLevel(a, entries, k))
  {
    var es := NewLevel(a, entries, k);
    FromWellFormed(pl, 0, a);
    if k.Some? {
      FromWellFormed(pl, 0, k.value);
    }
    WellFormedConcat(0, a.Before() + entries, FromOpt(k));
    WellFormedConcat(0, a.Before(), entries);
    forall e | e in es ensures e.isLeaf {
      var i :| 0 <= i < |es| && e == es[i];
      assert WellFormed(0, es[i]);
    }
    var n := BuildUpSteps(bd, es);
    BuiltIsNormalized(bd, es, n);
  }

  lemma {:induction false} BuiltFlags(bd: Hash -> bool, level: nat, es: seq<Child>)
    requires AllWellFormed(level, es) && Settles(bd, es)
    ensures BuildUp(bd, es).NodeHash? && FlagsTell(BuildUp(bd, es))
  {
    var n := BuildUpSteps(bd, es);
    BuiltFlagsIn(bd, level, es, n);
  }

  lemma {:induction false} BuiltFlagsIn(bd: Hash -> bool, level: nat, es: seq<Child>, n: nat)
    requires AllWellFormed(level, es) && SettlesIn(bd, es, n)
    ensures BuildUpIn(bd, es, n).NodeHash? && FlagsTell(BuildUpIn(bd, es, n))
    decreases n
  {
    var nodes := Split(bd, es);
    SplitWellFormed(bd, level, [], es);
    if |nodes| == 1 {
      assert nodes[0] in nodes && Node(nodes[0].children) == nodes[0];
      WellFormedFlags(level, nodes[0].children);
    } else if |nodes| > 1 {
      UpWellFormed(bd, level, es);
      BuiltFlagsIn(bd, level + 1, Up(bd, es), n - 1);
    }
  }
}
