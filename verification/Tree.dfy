/** The tree of a leaf sequence, and of a document. */
module Tree {
  import opened Text
  import opened Nodes
  import opened Storage
  import opened Chunker
  import opened Grouping

  const EMPTY_ROOT := NodeHash(Node([]))

  /** What the format fixes: the chunker's parameters and the node boundary test. */
  datatype Config = Config(chunking: ChunkParams, bd: Hash -> bool)
  {
    /** Valid sizes, and a boundary test under which the levels over any document's leaves shrink to a
        single node in the end, so that building stops. See SettlesIff. */
    ghost predicate Valid() {
      chunking.Valid() && forall t: Bytes :: Settles(bd, Leaves(chunking, t))
    }
  }

  // ----- building upwards -----

  ghost predicate SettlesIn(bd: Hash -> bool, es: seq<Child>, n: nat)
    decreases n
  {
    |Split(bd, es)| <= 1 || (n > 0 && SettlesIn(bd, Up(bd, es), n - 1))
  }

  ghost predicate Settles(bd: Hash -> bool, es: seq<Child>) {
    exists n: nat :: SettlesIn(bd, es, n)
  }

  ghost function BuildUpIn(bd: Hash -> bool, es: seq<Child>, n: nat): Hash
    requires SettlesIn(bd, es, n)
    decreases n
  {
    var nodes := Split(bd, es);
    if |nodes| == 0 then EMPTY_ROOT
    else if |nodes| == 1 then NodeHash(nodes[0])
    else BuildUpIn(bd, Up(bd, es), n - 1)
  }

  /** The root over a sequence of entries: group, level by level, until one node remains. */
  ghost function BuildUp(bd: Hash -> bool, es: seq<Child>): Hash
    requires Settles(bd, es)
  {
    var n: nat :| SettlesIn(bd, es, n);
    BuildUpIn(bd, es, n)
  }

  lemma BuildUpSteps(bd: Hash -> bool, es: seq<Child>) returns (n: nat)
    requires Settles(bd, es)
    ensures SettlesIn(bd, es, n) && BuildUp(bd, es) == BuildUpIn(bd, es, n)
  {
    n :| SettlesIn(bd, es, n) && BuildUp(bd, es) == BuildUpIn(bd, es, n);
  }

  lemma {:induction false} BuildUpAny(bd: Hash -> bool, es: seq<Child>, m: nat, n: nat)
    requires SettlesIn(bd, es, m) && SettlesIn(bd, es, n)
    ensures BuildUpIn(bd, es, m) == BuildUpIn(bd, es, n)
    decreases n
  {
    if |Split(bd, es)| > 1 {
      BuildUpAny(bd, Up(bd, es), m - 1, n - 1);
    }
  }

  /** One level up builds the same root, unless the level already fits in one node. */
  lemma BuildUpStep(bd: Hash -> bool, es: seq<Child>)
    requires Settles(bd, es)
    ensures Split(bd, es) == [] ==> BuildUp(bd, es) == EMPTY_ROOT
    ensures |Split(bd, es)| == 1 ==> BuildUp(bd, es) == NodeHash(Split(bd, es)[0])
    ensures |Split(bd, es)| > 1 ==> Settles(bd, Up(bd, es)) && BuildUp(bd, es) == BuildUp(bd, Up(bd, es))
  {
    var n: nat :| SettlesIn(bd, es, n) && BuildUp(bd, es) == BuildUpIn(bd, es, n);
    if |Split(bd, es)| > 1 {
      var up := Up(bd, es);
      assert SettlesIn(bd, up, n - 1);
      var m: nat :| SettlesIn(bd, up, m) && BuildUp(bd, up) == BuildUpIn(bd, up, m);
      assert BuildUpIn(bd, es, n) == BuildUpIn(bd, up, n - 1);
      BuildUpAny(bd, up, n - 1, m);
    }
  }

  // ----- boundary tests under which building ends -----

  /** An open node takes the next entry in. */
  lemma {:induction false} SplitOpen(bd: Hash -> bool, cur: seq<Child>, es: seq<Child>)
    requires cur != [] ==> es != []
    ensures |SplitFrom(bd, cur, es)| <= |es|
    decreases |es|
  {
    if es != [] {
      var grown := cur + [es[0]];
      if Closes(bd, grown) {
        SplitOpen(bd, [], es[1..]);
      } else if es[1..] != [] {
        SplitOpen(bd, grown, es[1..]);
      } else {
        assert SplitFrom(bd, grown, []) == [Node(grown)];
      }
    }
  }

  /** Some entry but the last is no boundary. */
  ghost predicate Thins(bd: Hash -> bool, es: seq<Child>) {
    exists i :: 0 <= i < |es| - 1 && !bd(es[i].hash)
  }

  /** Such a level has fewer nodes than entries. */
  lemma {:induction false} SplitThins(bd: Hash -> bool, es: seq<Child>)
    requires Thins(bd, es)
    ensures |Split(bd, es)| < |es|
    decreases |es|
  {
    var i :| 0 <= i < |es| - 1 && !bd(es[i].hash);
    var grown := [] + [es[0]];
    if Closes(bd, grown) {
      assert es[1..][i - 1] == es[i];
      SplitThins(bd, es[1..]);
    } else {
      SplitOpen(bd, grown, es[1..]);
    }
  }

  function LevelAt(bd: Hash -> bool, es: seq<Child>, n: nat): seq<Child>
    decreases n
  {
    if n == 0 then es else LevelAt(bd, Up(bd, es), n - 1)
  }

  lemma SettlesAbove(bd: Hash -> bool, es: seq<Child>)
    requires Settles(bd, Up(bd, es))
    ensures Settles(bd, es)
  {
    var n: nat :| SettlesIn(bd, Up(bd, es), n);
    assert SettlesIn(bd, es, n + 1);
  }

  /** Where all entries but perhaps the last are boundaries, each is its own node. */
  lemma {:induction false} EveryEntryItsOwnNode(bd: Hash -> bool, es: seq<Child>)
    requires !Thins(bd, es)
    ensures |Split(bd, es)| == |es|
    decreases |es|
  {
    if |es| == 1 {
      assert es == [es[0]];
      SplitOne(bd, es[0]);
    } else if es != [] {
      var grown := [] + [es[0]];
      assert bd(es[0].hash) && Closes(bd, grown);
      forall i | 0 <= i < |es[1..]| - 1 ensures bd(es[1..][i].hash) {
        assert es[1..][i] == es[i + 1];
      }
      EveryEntryItsOwnNode(bd, es[1..]);
    }
  }

  /** A level of two entries or more over which no level thins never gets down to one node. */
  lemma {:induction false} NeverThinning(bd: Hash -> bool, es: seq<Child>, n: nat)
    requires |es| >= 2 && forall k: nat :: !Thins(bd, LevelAt(bd, es, k))
    ensures !SettlesIn(bd, es, n)
    decreases n
  {
    assert LevelAt(bd, es, 0) == es;
    EveryEntryItsOwnNode(bd, es);
    AsChildrenAt(Split(bd, es));
    if n > 0 {
      forall k: nat ensures !Thins(bd, LevelAt(bd, Up(bd, es), k)) {
        assert LevelAt(bd, Up(bd, es), k) == LevelAt(bd, es, k + 1);
      }
      NeverThinning(bd, Up(bd, es), n - 1);
    }
  }

  /** A level is no longer than the one below it, and shorter where that thins. */
  lemma {:induction false} UpShorter(bd: Hash -> bool, es: seq<Child>)
    ensures |Up(bd, es)| <= |es| && (Thins(bd, es) ==> |Up(bd, es)| < |es|)
  {
    AsChildrenAt(Split(bd, es));
    if Thins(bd, es) {
      SplitThins(bd, es);
    } else {
      EveryEntryItsOwnNode(bd, es);
    }
  }

  lemma {:induction false} LevelsAbove(bd: Hash -> bool, es: seq<Child>, m: nat, n: nat)
    ensures LevelAt(bd, LevelAt(bd, es, m), n) == LevelAt(bd, es, m + n)
    ensures |LevelAt(bd, es, m)| <= |es|
    decreases m
  {
    if m > 0 {
      UpShorter(bd, es);
      LevelsAbove(bd, Up(bd, es), m - 1, n);
    }
  }

  lemma {:induction false} SettlesFrom(bd: Hash -> bool, es: seq<Child>, m: nat)
    ensures Settles(bd, LevelAt(bd, es, m)) <==> Settles(bd, es)
    decreases m
  {
    if m > 0 {
      SettlesFrom(bd, Up(bd, es), m - 1);
      if Settles(bd, es) {
        NormalizedUp(bd, es);
      } else if Settles(bd, Up(bd, es)) {
        SettlesAbove(bd, es);
      }
    }
  }

  /** At this level or above it, one thins. */
  ghost predicate ThinsFrom(bd: Hash -> bool, es: seq<Child>, m: nat) {
    exists k: nat :: m <= k && Thins(bd, LevelAt(bd, es, k))
  }

  /** Above every level of two entries or more, or there, one thins. */
  ghost predicate KeepsThinning(bd: Hash -> bool, es: seq<Child>) {
    forall m: nat | |LevelAt(bd, es, m)| > 1 :: ThinsFrom(bd, es, m)
  }

  lemma {:induction false} ThinningAbove(bd: Hash -> bool, es: seq<Child>, n: nat)
    requires KeepsThinning(bd, es)
    ensures KeepsThinning(bd, LevelAt(bd, es, n))
  {
    hide LevelAt, Thins;
    var above := LevelAt(bd, es, n);
    forall m: nat | |LevelAt(bd, above, m)| > 1 ensures ThinsFrom(bd, above, m) {
      LevelsAbove(bd, es, n, m);
      assert ThinsFrom(bd, es, n + m);
      var k: nat :| n + m <= k && Thins(bd, LevelAt(bd, es, k));
      LevelsAbove(bd, es, n, k - n);
      assert Thins(bd, LevelAt(bd, above, k - n));
    }
  }

  /** Some level above is shorter. */
  lemma {:induction false} ShorterAbove(bd: Hash -> bool, es: seq<Child>) returns (n: nat)
    requires KeepsThinning(bd, es) && |es| > 1
    ensures |LevelAt(bd, es, n)| < |es|
  {
    hide Thins, Up;
    assert LevelAt(bd, es, 0) == es;
    assert ThinsFrom(bd, es, 0);
    var k: nat :| Thins(bd, LevelAt(bd, es, k));
    n := k + 1;
    LevelsAbove(bd, es, k, 1);
    OneLevel(bd, LevelAt(bd, es, k));
    UpShorter(bd, LevelAt(bd, es, k));
  }

  lemma OneLevel(bd: Hash -> bool, es: seq<Child>)
    ensures LevelAt(bd, es, 1) == Up(bd, es)
  {
  }

  lemma {:induction false} ThinningSettles(bd: Hash -> bool, es: seq<Child>)
    requires KeepsThinning(bd, es)
    ensures Settles(bd, es)
    decreases |es|
  {
    hide KeepsThinning, LevelAt, Settles;
    if |es| <= 1 {
      ShortSettles(bd, es);
    } else {
      var n := ShorterAbove(bd, es);
      ThinningAbove(bd, es, n);
      ThinningSettles(bd, LevelAt(bd, es, n));
      SettlesFrom(bd, es, n);
    }
  }

  lemma ShortSettles(bd: Hash -> bool, es: seq<Child>)
    requires |es| <= 1
    ensures Settles(bd, es)
  {
    if |es| == 1 {
      assert es == [es[0]];
      SplitOne(bd, es[0]);
    }
    assert SettlesIn(bd, es, 0);
  }

  lemma {:induction false} SettlingThins(bd: Hash -> bool, es: seq<Child>, m: nat)
    requires Settles(bd, es) && |LevelAt(bd, es, m)| > 1
    ensures ThinsFrom(bd, es, m)
  {
    var level := LevelAt(bd, es, m);
    SettlesFrom(bd, es, m);
    var n: nat :| SettlesIn(bd, level, n);
    if !ThinsFrom(bd, es, m) {
      forall k: nat ensures !Thins(bd, LevelAt(bd, level, k)) {
        LevelsAbove(bd, es, m, k);
      }
      NeverThinning(bd, level, n);
    }
  }

  /** Building ends over a level exactly when, as long as there are two entries, some level above thins. */
  lemma {:induction false} SettlesIff(bd: Hash -> bool, es: seq<Child>)
    ensures Settles(bd, es) <==> KeepsThinning(bd, es)
  {
    hide Settles, ThinsFrom;
    if Settles(bd, es) {
      forall m: nat | |LevelAt(bd, es, m)| > 1 ensures ThinsFrom(bd, es, m) {
        SettlingThins(bd, es, m);
      }
    }
    if KeepsThinning(bd, es) {
      ThinningSettles(bd, es);
    }
  }

  /** A level above the leaves has node entries only. */
  lemma {:induction false} LevelsAreNodes(bd: Hash -> bool, es: seq<Child>, n: nat)
    requires forall e | e in es :: e.hash.NodeHash?
    ensures forall e | e in LevelAt(bd, es, n) :: e.hash.NodeHash?
    decreases n
  {
    if n > 0 {
      AsChildrenAt(Split(bd, es));
      LevelsAreNodes(bd, Up(bd, es), n - 1);
    }
  }

  /** Building ends over every document when no node is a boundary, whatever the test says of chunks. */
  lemma {:induction false} ValidWhenNoNodeEndsOne(cfg: Config)
    requires cfg.chunking.Valid() && forall node: Node :: !cfg.bd(NodeHash(node))
    ensures cfg.Valid()
  {
    forall t: Bytes ensures Settles(cfg.bd, Leaves(cfg.chunking, t)) {
      var up := Up(cfg.bd, Leaves(cfg.chunking, t));
      AsChildrenAt(Split(cfg.bd, Leaves(cfg.chunking, t)));
      forall n: nat | |LevelAt(cfg.bd, up, n)| > 1 ensures ThinsFrom(cfg.bd, up, n) {
        LevelsAreNodes(cfg.bd, up, n);
        var level := LevelAt(cfg.bd, up, n);
        assert level[0] in level && level[0].hash == NodeHash(level[0].hash.node);
        assert Thins(cfg.bd, level);
      }
      ThinningSettles(cfg.bd, up);
      SettlesAbove(cfg.bd, Leaves(cfg.chunking, t));
    }
  }

  /** With the default chunk sizes, for one. */
  lemma SomeConfigIsValid()
    ensures Config(ChunkParams(512, 1024, 4096, 256, b => 0, h => false, h => false), h => false).Valid()
  {
    ValidWhenNoNodeEndsOne(Config(ChunkParams(512, 1024, 4096, 256, b => 0, h => false, h => false), h => false));
  }

  /** The first hash on the way down from a root that is not a node over one node. */
  function Normalized(h: Hash): Hash
    decreases h
  {
    if h.NodeHash? && |h.node.children| == 1 && !h.node.children[0].isLeaf then
      assert h.node.children[0].hash < h.node.children[0];
      Normalized(h.node.children[0].hash)
    else h
  }

  /** The normalized root does not depend on the level building starts from. */
  lemma NormalizedUp(bd: Hash -> bool, es: seq<Child>)
    requires Settles(bd, es)
    ensures Settles(bd, Up(bd, es))
    ensures Normalized(BuildUp(bd, Up(bd, es))) == Normalized(BuildUp(bd, es))
  {
    BuildUpStep(bd, es);
    var nodes := Split(bd, es);
    var up := Up(bd, es);
    if |nodes| == 1 {
      AsChildrenAt(nodes);
      assert up == AsChildren(nodes);
      assert up == [nodes[0].AsChild()];
      SplitOne(bd, up[0]);
      assert SettlesIn(bd, up, 0);
      BuildUpStep(bd, up);
    } else if nodes == [] {
      assert SettlesIn(bd, up, 0);
      BuildUpStep(bd, up);
    }
  }

  /** A root built from leaves, or from more entries than fit one node, has nothing to collapse. */
  lemma {:induction false} BuiltIsNormalized(bd: Hash -> bool, es: seq<Child>, n: nat)
    requires SettlesIn(bd, es, n)
    requires |es| > 1 || forall e | e in es :: e.isLeaf
    ensures Normalized(BuildUpIn(bd, es, n)) == BuildUpIn(bd, es, n)
    decreases n
  {
    FlattenUp(bd, es);
    AsChildrenAt(Split(bd, es));
    var nodes := Split(bd, es);
    if |nodes| == 1 {
      assert Up(bd, es) == [nodes[0].AsChild()];
      assert Flatten(Up(bd, es)) == nodes[0].children;
    } else if |nodes| > 1 {
      BuiltIsNormalized(bd, Up(bd, es), n - 1);
    }
  }

  // ----- documents -----

  function LeafEntries(parts: seq<Bytes>): seq<Child> {
    if parts == [] then [] else [LeafOf(parts[0])] + LeafEntries(parts[1..])
  }

  /** The leaf level of a document. */
  function Leaves(p: ChunkParams, t: Bytes): seq<Child>
    requires p.Valid()
  {
    LeafEntries(Chunks(p, t))
  }

  /** The root a document has when built from nothing. */
  ghost function BuildRoot(cfg: Config, t: Bytes): Hash
    requires cfg.Valid()
  {
    BuildUp(cfg.bd, Leaves(cfg.chunking, t))
  }

  /** The level `depth` steps below a level of entries. */
  function Down(es: seq<Child>, depth: nat): seq<Child> {
    if depth == 0 then es else Flatten(Down(es, depth - 1))
  }

  lemma {:induction false} DownFlatten(es: seq<Child>, depth: nat)
    ensures Down(Flatten(es), depth) == Down(es, depth + 1)
  {
    if depth > 0 {
      DownFlatten(es, depth - 1);
    }
  }

  /** The entries of a canonical root, `top` levels above the leaves: every level below them is
      grouped exactly as from-scratch grouping would. */
  ghost predicate CanonicalTop(bd: Hash -> bool, top: nat, es: seq<Child>) {
    && AllWellFormed(top, es)
    && forall depth: nat | depth < top :: Grouped(bd, Down(es, depth))
  }

  lemma {:induction false} LeafEntriesWellFormed(parts: seq<Bytes>)
    requires forall i | 0 <= i < |parts| :: parts[i] != []
    ensures AllWellFormed(0, LeafEntries(parts))
    ensures ChildrenText(LeafEntries(parts)) == Concat(parts)
  {
    if parts != [] {
      LeafEntriesWellFormed(parts[1..]);
      var leaf, rest := LeafOf(parts[0]), LeafEntries(parts[1..]);
      assert WellFormed(0, leaf);
      WellFormedConcat(0, [leaf], rest);
      assert ([leaf] + rest)[1..] == rest;
    }
  }

  lemma LeavesWellFormed(p: ChunkParams, t: Bytes)
    requires p.Valid()
    ensures AllWellFormed(0, Leaves(p, t))
    ensures ChildrenText(Leaves(p, t)) == t
    ensures t == [] <==> Leaves(p, t) == []
  {
    ChunksTile(p, t);
    LeafEntriesWellFormed(Chunks(p, t));
  }

  lemma {:induction false} SplitWellFormed(bd: Hash -> bool, level: nat, cur: seq<Child>, es: seq<Child>)
    requires AllWellFormed(level, cur) && AllWellFormed(level, es)
    ensures forall n | n in SplitFrom(bd, cur, es) :: n.children != [] && AllWellFormed(level, n.children)
    decreases |es|
  {
    if es != [] {
      var grown := cur + [es[0]];
      assert AllWellFormed(level, grown);
      SplitWellFormed(bd, level, if Closes(bd, grown) then [] else grown, es[1..]);
    }
  }

  lemma UpWellFormed(bd: Hash -> bool, level: nat, es: seq<Child>)
    requires AllWellFormed(level, es)
    ensures AllWellFormed(level + 1, Up(bd, es))
  {
    SplitWellFormed(bd, level, [], es);
    AsChildrenAt(Split(bd, es));
    var nodes := Split(bd, es);
    forall i | 0 <= i < |nodes| ensures WellFormed(level + 1, Up(bd, es)[i]) {
      assert nodes[i] in nodes;
    }
  }

  lemma UpCanonical(bd: Hash -> bool, top: nat, es: seq<Child>)
    requires CanonicalTop(bd, top, es)
    ensures CanonicalTop(bd, top + 1, Up(bd, es))
    ensures Down(Up(bd, es), top + 1) == Down(es, top)
  {
    var up := Up(bd, es);
    UpWellFormed(bd, top, es);
    FlattenUp(bd, es);
    DownFlatten(up, top);
    forall depth: nat | depth < top + 1 ensures Grouped(bd, Down(up, depth)) {
      if depth > 0 {
        DownFlatten(up, depth - 1);
      }
    }
  }

  /** Building up gives a canonical root over the same leaves. */
  lemma {:induction false} BuildUpShape(bd: Hash -> bool, top: nat, es: seq<Child>, n: nat) returns (rootTop: nat)
    requires CanonicalTop(bd, top, es) && SettlesIn(bd, es, n)
    requires es == [] ==> top == 0
    ensures BuildUpIn(bd, es, n).NodeHash?
    ensures CanonicalTop(bd, rootTop, BuildUpIn(bd, es, n).node.children)
    ensures Down(BuildUpIn(bd, es, n).node.children, rootTop) == Down(es, top)
    decreases n
  {
    var nodes := Split(bd, es);
    FlattenUp(bd, es);
    AsChildrenAt(nodes);
    if |nodes| > 1 {
      UpCanonical(bd, top, es);
      rootTop := BuildUpShape(bd, top + 1, Up(bd, es), n - 1);
    } else {
      rootTop := top;
      if |nodes| == 1 {
        assert Up(bd, es) == [nodes[0].AsChild()];
        assert Flatten(Up(bd, es)) == nodes[0].children;
      } else {
        assert es == [];
      }
    }
  }

  lemma {:induction false} FlattenText(level: nat, es: seq<Child>)
    requires AllWellFormed(level + 1, es)
    ensures ChildrenText(Flatten(es)) == ChildrenText(es)
    ensures AllWellFormed(level, Flatten(es))
  {
    if es != [] {
      FlattenText(level, es[1..]);
      assert WellFormed(level + 1, es[0]);
      ChildrenTextConcat(Kids(es[0]), Flatten(es[1..]));
      WellFormedConcat(level, Kids(es[0]), Flatten(es[1..]));
    }
  }

  lemma {:induction false} DownText(top: nat, es: seq<Child>, depth: nat)
    requires AllWellFormed(top, es) && depth <= top
    ensures ChildrenText(Down(es, depth)) == ChildrenText(es)
    ensures AllWellFormed(top - depth, Down(es, depth))
  {
    if depth > 0 {
      DownText(top, es, depth - 1);
      FlattenText(top - depth, Down(es, depth - 1));
    }
  }

  /** A built root is canonical, sits over the document's leaves, and materializes to the document. */
  lemma BuiltRoot(cfg: Config, t: Bytes) returns (top: nat)
    requires cfg.Valid()
    ensures BuildRoot(cfg, t).NodeHash?
    ensures CanonicalTop(cfg.bd, top, BuildRoot(cfg, t).node.children)
    ensures Down(BuildRoot(cfg, t).node.children, top) == Leaves(cfg.chunking, t)
    ensures TextOf(BuildRoot(cfg, t)) == t
  {
    var es := Leaves(cfg.chunking, t);
    LeavesWellFormed(cfg.chunking, t);
    var n := BuildUpSteps(cfg.bd, es);
    top := BuildUpShape(cfg.bd, 0, es, n);
    DownText(top, BuildRoot(cfg, t).node.children, top);
  }

  /** Roots name documents: two built roots are equal exactly when the documents are. */
  lemma RootsNameDocuments(cfg: Config, s: Bytes, t: Bytes)
    requires cfg.Valid()
    ensures BuildRoot(cfg, s) == BuildRoot(cfg, t) <==> s == t
  {
    var _ := BuiltRoot(cfg, s);
    var _ := BuiltRoot(cfg, t);
  }

  // ----- building into a store -----

  /** Build the levels above `entries`, storing every node. */
  method BuildUpInto(st: MemStorage, bd: Hash -> bool, entries: seq<Child>) returns (root: Hash)
    requires st.Sound() && AllIn(st.Stored(), entries) && Settles(bd, entries)
    modifies st`nodes, st`nodeWrites
    ensures root == BuildUp(bd, entries)
    ensures st.Sound() && old(st.Stored()) <= st.Stored() && root in st.Stored()
  {
    if entries == [] {
      root := NodeHash(Node([]));
      st.PutNode(root, Node([]));
      BuildUpStep(bd, entries);
      return;
    }
    var level := entries;
    ghost var n: nat :| SettlesIn(bd, entries, n);
    while true
      invariant st.Sound() && old(st.Stored()) <= st.Stored() && AllIn(st.Stored(), level)
      invariant level != [] && SettlesIn(bd, level, n) && BuildUp(bd, level) == BuildUp(bd, entries)
      decreases n
    {
      var nodes := SplitLevel(bd, level);
      FlattenUp(bd, level);
      BuildUpStep(bd, level);
      SplitMembers(bd, st.Stored(), [], level);
      var next := PutNodes(st, nodes);
      AsChildrenAt(nodes);
      if |nodes| == 1 {
        root := next[0].hash;
        return;
      }
      level := next;
      n := n - 1;
    }
  }

  /** Store the nodes of one level and return the entries they contribute to the next. */
  method PutNodes(st: MemStorage, nodes: seq<Node>) returns (next: seq<Child>)
    requires st.Sound() && forall i | 0 <= i < |nodes| :: AllIn(st.Stored(), nodes[i].children)
    modifies st`nodes, st`nodeWrites
    ensures st.Sound() && old(st.Stored()) <= st.Stored()
    ensures next == AsChildren(nodes) && AllIn(st.Stored(), next)
  {
    next := [];
    var i := 0;
    while i < |nodes|
      invariant i <= |nodes| && |next| == i
      invariant st.Sound() && old(st.Stored()) <= st.Stored() && AllIn(st.Stored(), next)
      invariant forall j | 0 <= j < i :: next[j] == nodes[j].AsChild()
    {
      st.PutNode(NodeHash(nodes[i]), nodes[i]);
      next := next + [nodes[i].AsChild()];
      i := i + 1;
    }
    AsChildrenAt(nodes);
  }

  lemma {:induction false} SplitMembers(bd: Hash -> bool, stored: set<Hash>, cur: seq<Child>, es: seq<Child>)
    requires AllIn(stored, cur) && AllIn(stored, es)
    ensures forall i | 0 <= i < |SplitFrom(bd, cur, es)| :: AllIn(stored, SplitFrom(bd, cur, es)[i].children)
    decreases |es|
  {
    if es != [] {
      var grown := cur + [es[0]];
      SplitMembers(bd, stored, if Closes(bd, grown) then [] else grown, es[1..]);
    }
  }

  /** Store the chunks of a document and return their leaf entries and hashes. */
  method PutChunks(st: MemStorage, t: Bytes, spans: seq<(nat, nat)>, ghost parts: seq<Bytes>)
      returns (entries: seq<Child>, hashes: seq<Hash>)
    requires st.Sound() && spans == Spans(0, parts) && t == Concat(parts)
    modifies st`chunks, st`chunkBytesWritten
    ensures entries == LeafEntries(parts)
    ensures |hashes| == |entries| && forall i | 0 <= i < |entries| :: hashes[i] == entries[i].hash
    ensures st.Sound() && old(st.Stored()) <= st.Stored() && AllIn(st.Stored(), entries)
  {
    SpansLength(0, parts);
    entries := [];
    hashes := [];
    var i := 0;
    while i < |spans|
      invariant i <= |spans| == |parts|
      invariant st.Sound() && old(st.Stored()) <= st.Stored() && AllIn(st.Stored(), entries)
      invariant entries == LeafEntries(parts[..i])
      invariant |hashes| == |entries| && forall j | 0 <= j < |entries| :: hashes[j] == entries[j].hash
    {
      SpanIsPart(0, parts, i);
      LeafEntriesSnoc(parts, i);
      var chunk := t[spans[i].0..spans[i].0 + spans[i].1];
      st.PutChunk(ChunkHash(chunk), chunk);
      hashes := hashes + [ChunkHash(chunk)];
      entries := entries + [LeafOf(chunk)];
      i := i + 1;
    }
    assert parts[..|parts|] == parts;
  }

  /** A document from its bytes: every chunk and every level stored, and the chunks listed. */
  method Build(st: MemStorage, cfg: Config, t: Bytes) returns (root: Hash, hashes: seq<Hash>)
    requires st.Sound() && cfg.Valid()
    modifies st`chunks, st`chunkBytesWritten, st`nodes, st`nodeWrites
    ensures root == BuildRoot(cfg, t)
    ensures |hashes| == |Leaves(cfg.chunking, t)|
    ensures forall i | 0 <= i < |hashes| :: hashes[i] == Leaves(cfg.chunking, t)[i].hash
    ensures st.Sound() && old(st.Stored()) <= st.Stored() && root in st.Stored()
  {
    var spans := ChunkAll(cfg.chunking, t);
    ChunksTile(cfg.chunking, t);
    var entries;
    entries, hashes := PutChunks(st, t, spans, Chunks(cfg.chunking, t));
    assert entries == Leaves(cfg.chunking, t);
    root := BuildUpInto(st, cfg.bd, entries);
  }

  lemma {:induction false} LeafEntriesSnoc(parts: seq<Bytes>, i: nat)
    requires i < |parts|
    ensures LeafEntries(parts[..i + 1]) == LeafEntries(parts[..i]) + [LeafOf(parts[i])]
  {
    if i > 0 {
      LeafEntriesSnoc(parts[1..], i - 1);
      assert parts[..i + 1][1..] == parts[1..][..i] && parts[..i][1..] == parts[1..][..i - 1];
    } else {
      assert parts[..1] == [parts[0]];
    }
  }

  method NormalizeRoot(st: MemStorage, root: Hash) returns (r: Hash)
    requires st.Sound() && root in st.Stored() && root.NodeHash? && FlagsTell(root)
    ensures r == Normalized(root) && r in st.Stored()
  {
    r := root;
    while true
      invariant r.NodeHash? && r in st.Stored() && FlagsTell(r) && Normalized(r) == Normalized(root)
      decreases r
    {
      var n := st.NodeAt(r);
      if |n.children| == 1 && !n.children[0].isLeaf {
        assert n.children[0].hash < n.children[0];
        r := n.children[0].hash;
      } else {
        return;
      }
    }
  }

  /** The leaf flag of every entry at or below a hash tells chunks from nodes. */
  ghost predicate FlagsTell(h: Hash) {
    h.NodeHash? ==> forall i | 0 <= i < |h.node.children| ::
      (h.node.children[i].isLeaf <==> h.node.children[i].hash.ChunkHash?) && FlagsTell(h.node.children[i].hash)
  }

  lemma {:induction false} WellFormedFlags(level: nat, cs: seq<Child>)
    requires AllWellFormed(level, cs)
    ensures FlagsTell(NodeHash(Node(cs)))
    decreases level
  {
    forall i | 0 <= i < |cs| ensures (cs[i].isLeaf <==> cs[i].hash.ChunkHash?) && FlagsTell(cs[i].hash) {
      assert WellFormed(level, cs[i]);
      if level > 0 {
        WellFormedFlags(level - 1, cs[i].hash.node.children);
        assert Node(cs[i].hash.node.children) == cs[i].hash.node;
      }
    }
  }

  /** Read a tree from left to right, chunk by chunk. */
  method Materialize(st: MemStorage, root: Hash) returns (out: Bytes)
    requires st.Sound() && root in st.Stored() && root.NodeHash? && FlagsTell(root)
    ensures out == TextOf(root)
    decreases root
  {
    var n := st.NodeAt(root);
    out := [];
    var i := 0;
    assert n.children[0..] == n.children;
    while i < |n.children|
      invariant i <= |n.children|
      invariant out + ChildrenText(n.children[i..]) == TextOf(root)
    {
      var c := n.children[i];
      assert c.hash < c;
      ChildrenTextStep(out, n.children, i);
      var bytes;
      if c.isLeaf {
        bytes := st.ChunkAt(c.hash);
      } else {
        bytes := Materialize(st, c.hash);
      }
      out := out + bytes;
      i := i + 1;
    }
  }
}
