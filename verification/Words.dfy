/** Word counts, whole and by difference. */
module Words {
  import opened Text
  import opened Nodes
  import opened Storage
  import opened Navigation
  import opened Lines
  import opened Scripts
  import opened TreeDiff
  import opened LineRegions

  predicate IsSpace(b: byte) {
    b == 32 || b == 9 || b == NL || b == 13 || b == 11 || b == 12
  }

  /** Whether the byte before position `i` is part of a word. */
  predicate InWord(t: Bytes, i: nat)
    requires i <= |t|
  {
    i > 0 && !IsSpace(t[i - 1])
  }

  /** Words of `t`: positions where a word starts. */
  function CountWords(t: Bytes): nat {
    if t == [] then 0
    else
      var n := |t| - 1;
      CountWords(t[..n]) + if !IsSpace(t[n]) && !InWord(t, n) then 1 else 0
  }

  /** A byte that no word has: space, tab, line feed, vertical tab, form feed, return. */
  predicate Splits(b: byte) {
    b in [32, 9, 10, 11, 12, 13]
  }

  /** A word starts at place `i`. */
  predicate StartsAt(t: Bytes, i: int) {
    0 <= i < |t| && !Splits(t[i]) && (i == 0 || Splits(t[i - 1]))
  }

  function Starts(t: Bytes): set<int> {
    set i | 0 <= i < |t| && StartsAt(t, i)
  }

  lemma StartsMore(t: Bytes)
    requires t != []
    ensures var n := |t| - 1; Starts(t) == Starts(t[..n]) + if StartsAt(t, n) then {n} else {}
  {
    var n := |t| - 1;
    forall i | 0 <= i < n ensures StartsAt(t, i) <==> StartsAt(t[..n], i) {
    }
  }

  /** A text has as many words as places where one starts. */
  lemma {:induction false} WordsAreStarts(t: Bytes)
    ensures CountWords(t) == |Starts(t)|
    decreases |t|
  {
    hide StartsAt;
    if t != [] {
      var n := |t| - 1;
      WordsAreStarts(t[..n]);
      StartsMore(t);
      LastStarts(t);
    }
  }

  lemma LastStarts(t: Bytes)
    requires t != []
    ensures var n := |t| - 1; StartsAt(t, n) <==> !IsSpace(t[n]) && !InWord(t, n)
  {
  }

  /** Counts the words of a text that comes in pieces, and remembers whether the last piece broke off
      inside one. */
  class WordCounter {
    var words: nat
    var inWord: bool
    ghost var fed: Bytes

    ghost predicate Valid()
      reads this
    {
      words == CountWords(fed) && inWord == InWord(fed, |fed|)
    }

    constructor ()
      ensures Valid() && fed == []
    {
      words, inWord, fed := 0, false, [];
    }

    method Feed(bytes: Bytes)
      requires Valid()
      modifies this
      ensures Valid() && fed == old(fed) + bytes
    {
      ghost var before := fed;
      var i := 0;
      assert before + bytes[..0] == before;
      while i < |bytes|
        invariant i <= |bytes| && Valid() && fed == before + bytes[..i]
      {
        var b := bytes[i];
        assert (fed + [b])[..|fed|] == fed;
        if IsSpace(b) {
          inWord := false;
        } else if !inWord {
          inWord := true;
          words := words + 1;
        }
        assert before + bytes[..i + 1] == fed + [b];
        fed := fed + [b];
        i := i + 1;
      }
      assert bytes[..|bytes|] == bytes;
    }
  }

  method WordsIn(bytes: Bytes) returns (words: nat)
    ensures words == CountWords(bytes)
  {
    var counter := new WordCounter();
    counter.Feed(bytes);
    assert [] + bytes == bytes;
    return counter.words;
  }

  /** Words in a stored document, read chunk by chunk. */
  method WordsAt(st: MemStorage, root: Hash, ghost top: nat, ghost t: Bytes) returns (words: nat)
    requires Reads(st, root, top, t)
    ensures words == CountWords(t)
  {
    var counter := new WordCounter();
    var node := st.NodeAt(root);
    FeedNode(st, node, counter, top);
    assert [] + t == t;
    return counter.words;
  }

  /** The in-order walk over the leaves. */
  method FeedNode(st: MemStorage, node: Node, counter: WordCounter, ghost level: nat)
    requires st.Sound() && AllIn(st.Stored(), node.children) && AllWellFormed(level, node.children) && counter.Valid()
    modifies counter
    ensures counter.Valid() && counter.fed == old(counter.fed) + ChildrenText(node.children)
    decreases level
  {
    ghost var before := counter.fed;
    ghost var all := before + ChildrenText(node.children);
    assert node.children[0..] == node.children;
    var i := 0;
    while i < |node.children|
      invariant i <= |node.children| && counter.Valid()
      invariant counter.fed + ChildrenText(node.children[i..]) == all
    {
      var c := node.children[i];
      assert WellFormed(level, node.children[i]);
      EntryTotals(level, c);
      ChildrenTextStep(counter.fed, node.children, i);
      if c.isLeaf {
        var bytes := st.ChunkAt(c.hash);
        counter.Feed(bytes);
      } else {
        var child := st.NodeAt(c.hash);
        FeedNode(st, child, counter, level - 1);
      }
      i := i + 1;
    }
    assert counter.fed + ChildrenText([]) == counter.fed;
  }

  // ----- words do not span line bounds -----

  lemma {:induction false} WordsConcat(x: Bytes, y: Bytes)
    requires !InWord(x, |x|)
    ensures CountWords(x + y) == CountWords(x) + CountWords(y)
    decreases |y|
  {
    if y == [] {
      assert x + y == x;
    } else {
      var n := |y| - 1;
      assert (x + y)[..|x| + n] == x + y[..n];
      WordsConcat(x, y[..n]);
    }
  }

  /** Words before a line bound and behind it are all the words. */
  lemma WordsCut(t: Bytes, i: nat, j: nat)
    requires i <= j <= |t| && LineBound(t, i)
    ensures CountWords(t[..j]) == CountWords(t[..i]) + CountWords(t[i..j])
  {
    assert t[..j] == t[..i] + t[i..j];
    if i > 0 && t[i - 1] != NL {
      assert t[i..j] == [];
    } else {
      WordsConcat(t[..i], t[i..j]);
    }
  }

  /** The regions before the i-th account for the difference up to them. */
  ghost predicate Counted(ta: Bytes, tb: Bytes, regions: seq<ChangedRun>, i: nat, delta: int) {
    && i <= |regions| && EndA(regions, i) <= |ta| && EndB(regions, i) <= |tb|
    && delta == CountWords(tb[..EndB(regions, i)]) as int - CountWords(ta[..EndA(regions, i)])
  }

  lemma CountedStep(ta: Bytes, tb: Bytes, regions: seq<ChangedRun>, i: nat, delta: int)
    requires AllFollow(ta, tb, regions) && (forall r | r in regions :: WholeLines(ta, tb, r))
    requires i < |regions| && Counted(ta, tb, regions, i, delta)
    ensures var r := regions[i];
      r.aFrom <= r.aTo <= |ta| && r.bFrom <= r.bTo <= |tb|
      && Counted(ta, tb, regions, i + 1, delta - CountWords(ta[r.aFrom..r.aTo]) + CountWords(tb[r.bFrom..r.bTo]))
  {
    hide CountWords;
    var r := regions[i];
    assert Follows(ta, tb, regions, i) && WholeLines(ta, tb, r);
    BoundsOfEnds(ta, tb, regions, i);
    WordsCut(ta, EndA(regions, i), r.aFrom);
    WordsCut(tb, EndB(regions, i), r.bFrom);
    WordsCut(ta, r.aFrom, r.aTo);
    WordsCut(tb, r.bFrom, r.bTo);
  }

  lemma BoundsOfEnds(ta: Bytes, tb: Bytes, regions: seq<ChangedRun>, i: nat)
    requires i <= |regions| && forall r | r in regions :: WholeLines(ta, tb, r)
    ensures LineBound(ta, EndA(regions, i)) && LineBound(tb, EndB(regions, i))
  {
    if i > 0 {
      assert WholeLines(ta, tb, regions[i - 1]);
    }
  }

  lemma AllCounted(ta: Bytes, tb: Bytes, regions: seq<ChangedRun>, delta: int)
    requires Script(ta, tb, regions) && (forall r | r in regions :: WholeLines(ta, tb, r))
    requires Counted(ta, tb, regions, |regions|, delta)
    ensures delta == CountWords(tb) as int - CountWords(ta)
  {
    hide CountWords;
    BoundsOfEnds(ta, tb, regions, |regions|);
    WordsCut(ta, EndA(regions, |regions|), |ta|);
    WordsCut(tb, EndB(regions, |regions|), |tb|);
    assert ta[..|ta|] == ta && tb[..|tb|] == tb;
  }

  /** The difference of two word counts, from the lines that differ alone. */
  method WordDelta(st: MemStorage, a: Hash, b: Hash, ghost aTop: nat, ghost bTop: nat, ghost ta: Bytes, ghost tb: Bytes)
      returns (delta: int)
    requires Reads(st, a, aTop, ta) && Reads(st, b, bTop, tb)
    ensures delta == CountWords(tb) as int - CountWords(ta)
  {
    hide Gathered, InWord, IsSpace, WholeLines;
    var regions, _ := ChangedLineRegions(st, a, b, aTop, bTop, ta, tb);
    delta := 0;
    var i := 0;
    assert ta[..0] == [] && tb[..0] == [];
    assert Counted(ta, tb, regions, 0, 0);
    hide Reads, CountWords, AllFollow, Counted;
    while i < |regions|
      invariant i <= |regions| && Counted(ta, tb, regions, i, delta)
    {
      var r := regions[i];
      CountedStep(ta, tb, regions, i, delta);
      var minus := WordsOfRange(st, a, r.aFrom, r.aTo, aTop, ta);
      var plus := WordsOfRange(st, b, r.bFrom, r.bTo, bTop, tb);
      delta := delta - minus;
      delta := delta + plus;
      i := i + 1;
    }
    AllCounted(ta, tb, regions, delta);
  }

  method WordsOfRange(st: MemStorage, root: Hash, from: nat, end: nat, ghost top: nat, ghost t: Bytes)
      returns (words: nat)
    requires Reads(st, root, top, t) && from <= end <= |t|
    ensures words == CountWords(t[from..end])
  {
    var bytes := MaterializeRange(st, root, from, end, top, t);
    words := WordsIn(bytes);
  }
}
