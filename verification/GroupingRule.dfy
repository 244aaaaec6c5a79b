/** The rule that groups a level into nodes, said of the nodes, and that there is one grouping it holds of. */
module GroupingRule {
  import opened Nodes
  import opened Grouping

  /** A node of 1 to 512 entries, none of which but the last is a boundary. */
  ghost predicate WellCut(bd: Hash -> bool, es: seq<Child>) {
    1 <= |es| <= 512 && forall k | 0 <= k < |es| - 1 :: !bd(es[k].hash)
  }

  /** Nothing more goes into the node: its last entry is a boundary, or there are 512. */
  ghost predicate Full(bd: Hash -> bool, es: seq<Child>) {
    es != [] && (bd(es[|es| - 1].hash) || |es| == 512)
  }

  /** All nodes are well cut, and all but the last are full. */
  ghost predicate IsGrouping(bd: Hash -> bool, nodes: seq<Node>) {
    forall i | 0 <= i < |nodes| :: WellCut(bd, nodes[i].children) && (i < |nodes| - 1 ==> Full(bd, nodes[i].children))
  }

  /** The entries below a level of nodes, in order. */
  function Entries(nodes: seq<Node>): seq<Child> {
    Flatten(AsChildren(nodes))
  }

  lemma IsGroupingCons(bd: Hash -> bool, n: Node, rest: seq<Node>)
    ensures IsGrouping(bd, [n] + rest) <==>
      WellCut(bd, n.children) && (rest != [] ==> Full(bd, n.children)) && IsGrouping(bd, rest)
  {
    var all := [n] + rest;
    assert all[0] == n && forall i | 0 <= i < |rest| :: all[i + 1] == rest[i];
  }

  /** The nodes still to come obey the rule, where the open one does so far. */
  lemma {:induction false} SplitFromIsGrouping(bd: Hash -> bool, cur: seq<Child>, es: seq<Child>)
    requires |cur| < 512 && forall c | c in cur :: !bd(c.hash)
    ensures IsGrouping(bd, SplitFrom(bd, cur, es))
    ensures cur + es != [] ==> SplitFrom(bd, cur, es) != []
    decreases |es|
  {
    if es == [] {
      if cur != [] {
        IsGroupingCons(bd, Node(cur), []);
        assert [Node(cur)] + [] == [Node(cur)];
      }
    } else {
      var grown := cur + [es[0]];
      if Closes(bd, grown) {
        SplitFromIsGrouping(bd, [], es[1..]);
        IsGroupingCons(bd, Node(grown), SplitFrom(bd, [], es[1..]));
      } else {
        SplitFromIsGrouping(bd, grown, es[1..]);
      }
    }
  }

  /** Two well cut beginnings of one level, each full where something follows it, are the same. */
  lemma {:induction false} SameCut(bd: Hash -> bool, a: seq<Child>, b: seq<Child>, es: seq<Child>)
    requires WellCut(bd, a) && WellCut(bd, b) && a <= es && b <= es
    requires (|a| < |es| ==> Full(bd, a)) && (|b| < |es| ==> Full(bd, b))
    ensures a == b
  {
    assert forall k | 0 <= k < |a| :: a[k] == es[k];
    assert forall k | 0 <= k < |b| :: b[k] == es[k];
  }

  lemma {:induction false} SameFirst(bd: Hash -> bool, ns: seq<Node>, ms: seq<Node>)
    requires ns != [] && ms != [] && IsGrouping(bd, ns) && IsGrouping(bd, ms) && Entries(ns) == Entries(ms)
    ensures ns[0] == ms[0] && Entries(ns[1..]) == Entries(ms[1..])
    ensures IsGrouping(bd, ns[1..]) && IsGrouping(bd, ms[1..])
  {
    hide WellCut, Full;
    FirstOf(bd, ns);
    FirstOf(bd, ms);
    var es := Entries(ns);
    SameCut(bd, ns[0].children, ms[0].children, es);
    assert Entries(ns[1..]) == es[|ns[0].children|..] && Entries(ms[1..]) == es[|ms[0].children|..];
  }

  lemma {:induction false} FirstOf(bd: Hash -> bool, nodes: seq<Node>)
    requires nodes != [] && IsGrouping(bd, nodes)
    ensures var a := nodes[0].children;
      && WellCut(bd, a) && Entries(nodes) == a + Entries(nodes[1..]) && IsGrouping(bd, nodes[1..])
      && (|a| < |Entries(nodes)| ==> Full(bd, a))
  {
    assert nodes == [nodes[0]] + nodes[1..];
    IsGroupingCons(bd, nodes[0], nodes[1..]);
    FlattenCons(nodes[0], nodes[1..]);
  }

  /** There is one grouping of a level. */
  lemma {:induction false} OneGrouping(bd: Hash -> bool, ns: seq<Node>, ms: seq<Node>)
    requires IsGrouping(bd, ns) && IsGrouping(bd, ms) && Entries(ns) == Entries(ms)
    ensures ns == ms
    decreases |ns|
  {
    if ns != [] && ms != [] {
      SameFirst(bd, ns, ms);
      OneGrouping(bd, ns[1..], ms[1..]);
      assert ns == [ns[0]] + ns[1..] && ms == [ms[0]] + ms[1..];
    } else if ns != [] {
      FirstOf(bd, ns);
    } else if ms != [] {
      FirstOf(bd, ms);
    }
  }

  /** A level is split into some nodes exactly when these hold its entries and obey the rule. */
  lemma {:induction false} SplitIff(bd: Hash -> bool, es: seq<Child>, nodes: seq<Node>)
    ensures nodes == Split(bd, es) <==> Entries(nodes) == es && IsGrouping(bd, nodes)
  {
    FlattenUp(bd, es);
    SplitFromIsGrouping(bd, [], es);
    if Entries(nodes) == es && IsGrouping(bd, nodes) {
      OneGrouping(bd, nodes, Split(bd, es));
    }
  }
}
