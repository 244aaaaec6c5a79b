/** How the entries of one level are grouped into the nodes of the next, and the one tree that
    repeated grouping makes of a leaf sequence. */
module Grouping {
  import opened Nodes

  const MAX_FANOUT: nat := 512

  /** Does a node end after its last entry? `bd` is the boundary test on an entry's hash. */
  predicate Closes(bd: Hash -> bool, cur: seq<Child>)
    requires cur != []
  {
    bd(cur[|cur| - 1].hash) || |cur| >= MAX_FANOUT
  }

  /** The nodes still to come when `cur` is open and `es` follows. */
  function SplitFrom(bd: Hash -> bool, cur: seq<Child>, es: seq<Child>): seq<Node>
    decreases |es|
  {
    if es == [] then
      if cur == [] then [] else [Node(cur)]
    else
      var grown := cur + [es[0]];
      if Closes(bd, grown) then [Node(grown)] + SplitFrom(bd, [], es[1..])
      else SplitFrom(bd, grown, es[1..])
  }

  function Split(bd: Hash -> bool, es: seq<Child>): seq<Node> {
    SplitFrom(bd, [], es)
  }

  method SplitLevel(bd: Hash -> bool, entries: seq<Child>) returns (nodes: seq<Node>)
    ensures nodes == Split(bd, entries)
  {
    nodes := [];
    var cur: seq<Child> := [];
    var i := 0;
    assert entries[0..] == entries;
    while i < |entries|
      invariant i <= |entries|
      invariant nodes + SplitFrom(bd, cur, entries[i..]) == Split(bd, entries)
    {
      SplitStep(bd, nodes, cur, entries[i..]);
      assert entries[i..][1..] == entries[i + 1..];
      cur := cur + [entries[i]];
      if Closes(bd, cur) {
        nodes := nodes + [Node(cur)];
        cur := [];
      }
      i := i + 1;
    }
    if cur != [] {
      nodes := nodes + [Node(cur)];
    }
  }

  /** Taking one more entry, in the shape a loop over the entries needs. */
  lemma SplitStep(bd: Hash -> bool, done: seq<Node>, cur: seq<Child>, es: seq<Child>)
    requires es != []
    ensures var grown := cur + [es[0]];
      done + SplitFrom(bd, cur, es) ==
      if Closes(bd, grown) then (done + [Node(grown)]) + SplitFrom(bd, [], es[1..])
      else done + SplitFrom(bd, grown, es[1..])
  {
    var grown := cur + [es[0]];
    var rest := SplitFrom(bd, [], es[1..]);
    assert done + ([Node(grown)] + rest) == (done + [Node(grown)]) + rest;
  }

  lemma SplitOne(bd: Hash -> bool, c: Child)
    ensures Split(bd, [c]) == [Node([c])]
  {
    assert [] + [c] == [c] && [c][1..] == [];
    assert SplitFrom(bd, [], []) == [];
    assert SplitFrom(bd, [c], []) == [Node([c])];
  }

  // ----- levels -----

  function AsChildren(nodes: seq<Node>): seq<Child> {
    if nodes == [] then [] else [nodes[0].AsChild()] + AsChildren(nodes[1..])
  }

  function Kids(c: Child): seq<Child> {
    if c.hash.NodeHash? then c.hash.node.children else []
  }

  /** The level below a level of node entries. */
  function Flatten(es: seq<Child>): seq<Child> {
    if es == [] then [] else Kids(es[0]) + Flatten(es[1..])
  }

  /** The level above. */
  function Up(bd: Hash -> bool, es: seq<Child>): seq<Child> {
    AsChildren(Split(bd, es))
  }

  /** `es` is exactly what grouping the level below it gives. */
  ghost predicate Grouped(bd: Hash -> bool, es: seq<Child>) {
    Up(bd, Flatten(es)) == es
  }

  lemma {:induction false} AsChildrenConcat(ns: seq<Node>, ms: seq<Node>)
    ensures AsChildren(ns + ms) == AsChildren(ns) + AsChildren(ms)
  {
    if ns == [] {
      assert ns + ms == ms;
    } else {
      assert (ns + ms)[1..] == ns[1..] + ms;
      AsChildrenConcat(ns[1..], ms);
    }
  }

  lemma {:induction false} AsChildrenAt(ns: seq<Node>)
    ensures |AsChildren(ns)| == |ns|
    ensures forall i | 0 <= i < |ns| :: AsChildren(ns)[i] == ns[i].AsChild()
  {
    if ns != [] {
      AsChildrenAt(ns[1..]);
    }
  }

  lemma {:induction false} FlattenConcat(es: seq<Child>, fs: seq<Child>)
    ensures Flatten(es + fs) == Flatten(es) + Flatten(fs)
  {
    if es == [] {
      assert es + fs == fs;
    } else {
      assert (es + fs)[1..] == es[1..] + fs;
      FlattenConcat(es[1..], fs);
    }
  }

  lemma FlattenCons(n: Node, rest: seq<Node>)
    ensures Flatten(AsChildren([n] + rest)) == n.children + Flatten(AsChildren(rest))
  {
    assert ([n] + rest)[1..] == rest;
    assert ([n.AsChild()] + AsChildren(rest))[1..] == AsChildren(rest);
  }

  /** Grouping loses nothing: flattening the new level gives the old one back. */
  lemma {:induction false} FlattenSplit(bd: Hash -> bool, cur: seq<Child>, es: seq<Child>)
    ensures Flatten(AsChildren(SplitFrom(bd, cur, es))) == cur + es
    decreases |es|
  {
    if es == [] {
      if cur != [] {
        FlattenCons(Node(cur), []);
        assert [Node(cur)] + [] == [Node(cur)];
        assert cur + es == cur + Flatten(AsChildren([]));
      }
    } else {
      var grown := cur + [es[0]];
      assert cur + es == grown + es[1..] == grown + ([] + es[1..]);
      if Closes(bd, grown) {
        FlattenSplit(bd, [], es[1..]);
        assert SplitFrom(bd, cur, es) == [Node(grown)] + SplitFrom(bd, [], es[1..]);
        FlattenCons(Node(grown), SplitFrom(bd, [], es[1..]));
      } else {
        FlattenSplit(bd, grown, es[1..]);
      }
    }
  }

  lemma FlattenUp(bd: Hash -> bool, es: seq<Child>)
    ensures Flatten(Up(bd, es)) == es
    ensures Grouped(bd, Up(bd, es))
  {
    FlattenSplit(bd, [], es);
    assert [] + es == es;
  }

  /** The first node of a split: it consumes some `g` entries, what follows is split on its own,
      and if it is not the last node then it would be the first whatever followed. */
  lemma {:induction false} SplitHead(bd: Hash -> bool, cur: seq<Child>, es: seq<Child>, x: seq<Child>) returns (g: nat)
    requires cur + es != []
    ensures g <= |es| && SplitFrom(bd, cur, es) == [Node(cur + es[..g])] + Split(bd, es[g..])
    ensures |SplitFrom(bd, cur, es)| > 1 ==>
      SplitFrom(bd, cur, es[..g] + x) == [Node(cur + es[..g])] + Split(bd, x)
    decreases |es|
  {
    if es == [] {
      g := 0;
      assert cur + es[..g] == cur;
    } else {
      var grown := cur + [es[0]];
      if Closes(bd, grown) {
        g := 1;
        assert cur + es[..1] == grown;
        assert (es[..1] + x)[0] == es[0] && (es[..1] + x)[1..] == x;
      } else {
        var h := SplitHead(bd, grown, es[1..], x);
        g := h + 1;
        assert grown + es[1..][..h] == cur + es[..g];
        assert es[1..][h..] == es[g..];
        assert (es[..g] + x)[0] == es[0] && (es[..g] + x)[1..] == es[1..][..h] + x;
      }
    }
  }

  lemma GroupedHead(bd: Hash -> bool, es: seq<Child>, x: seq<Child>)
    requires Grouped(bd, es) && es != []
    ensures es[0].hash.NodeHash? && es[0] == es[0].hash.node.AsChild()
    ensures Grouped(bd, es[1..])
    ensures |es| > 1 ==> Split(bd, Kids(es[0]) + x) == [es[0].hash.node] + Split(bd, x)
  {
    var below := Flatten(es);
    AsChildrenAt(Split(bd, below));
    assert below != [];
    var g := SplitHead(bd, [], below, x);
    assert [] + below == below && [] + below[..g] == below[..g];
    var rest := Split(bd, below[g..]);
    assert ([Node(below[..g])] + rest)[1..] == rest;
    assert es[0] == Node(below[..g]).AsChild();
    assert below == Kids(es[0]) + Flatten(es[1..]);
    assert below[g..] == Flatten(es[1..]);
    assert es[1..] == AsChildren(rest);
  }

  /** A suffix of a grouped level is grouped. */
  lemma {:induction false} GroupedSuffix(bd: Hash -> bool, es: seq<Child>, i: nat)
    requires Grouped(bd, es) && i <= |es|
    ensures Up(bd, Flatten(es[i..])) == es[i..]
  {
    if i == 0 {
      assert es[0..] == es;
    } else {
      GroupedHead(bd, es, []);
      GroupedSuffix(bd, es[1..], i - 1);
      assert es[1..][i - 1..] == es[i..];
    }
  }

  /** The nodes before the last of a grouped level stay as they are whatever comes after them. */
  lemma {:induction false} GroupedPrefix(bd: Hash -> bool, es: seq<Child>, i: nat, x: seq<Child>)
    requires Grouped(bd, es) && i < |es|
    ensures Up(bd, Flatten(es[..i]) + x) == es[..i] + Up(bd, x)
  {
    if i == 0 {
      assert Flatten(es[..0]) + x == x;
    } else {
      var tail := Flatten(es[1..][..i - 1]) + x;
      GroupedHead(bd, es, tail);
      GroupedPrefix(bd, es[1..], i - 1, x);
      assert es[..i][1..] == es[1..][..i - 1];
      assert Flatten(es[..i]) + x == Kids(es[0]) + tail;
      var below := Split(bd, tail);
      assert ([es[0].hash.node] + below)[1..] == below;
      assert es[..i] + Up(bd, x) == [es[0]] + (es[1..][..i - 1] + Up(bd, x));
    }
  }
}
