/** Texts as sequences of lines, each with its newline. */
module Lines {
  import opened Text
  import opened Chunker

  /** The length of the first line, newline included. */
  function LineLen(t: Bytes): (n: nat)
    ensures n <= |t| && (t != [] ==> n > 0)
  {
    if t == [] then 0 else if t[0] == NL then 1 else 1 + LineLen(t[1..])
  }

  function SplitLines(t: Bytes): seq<Bytes>
    decreases |t|
  {
    if t == [] then [] else [t[..LineLen(t)]] + SplitLines(t[LineLen(t)..])
  }

  /** A line that a split produces anywhere but at the end: a newline, at its end and nowhere else. */
  predicate Terminated(l: Bytes) {
    l != [] && l[|l| - 1] == NL && forall i | 0 <= i < |l| - 1 :: l[i] != NL
  }

  /** Lines of some text: all terminated but perhaps the last, which is then not empty and holds no newline. */
  ghost predicate AreLines(ls: seq<Bytes>) {
    forall i | 0 <= i < |ls| ::
      if i < |ls| - 1 then Terminated(ls[i]) else Terminated(ls[i]) || (ls[i] != [] && NL !in ls[i])
  }

  lemma {:induction false} LineLenTerminated(l: Bytes, x: Bytes)
    requires Terminated(l)
    ensures LineLen(l + x) == |l|
    decreases |l|
  {
    if |l| > 1 {
      assert (l + x)[0] == l[0] && (l + x)[1..] == l[1..] + x;
      LineLenTerminated(l[1..], x);
    } else {
      assert (l + x)[0] == NL;
    }
  }

  lemma SplitTerminated(l: Bytes, x: Bytes)
    requires Terminated(l)
    ensures SplitLines(l + x) == [l] + SplitLines(x)
  {
    LineLenTerminated(l, x);
    assert (l + x)[..|l|] == l && (l + x)[|l|..] == x;
  }

  lemma {:induction false} FirstLine(t: Bytes)
    requires t != []
    ensures var n := LineLen(t);
      Terminated(t[..n]) || (n == |t| && NL !in t)
    decreases |t|
  {
    if t[0] == NL {
      assert t[..1] == [NL];
    } else if |t| > 1 {
      FirstLine(t[1..]);
      var n := LineLen(t[1..]);
      assert t[..n + 1] == [t[0]] + t[1..][..n];
      if n == |t[1..]| && NL !in t[1..] {
        assert t == [t[0]] + t[1..];
      }
    } else {
      assert t[1..] == [];
    }
  }

  lemma {:induction false} SplitJoins(t: Bytes)
    ensures Concat(SplitLines(t)) == t
    ensures AreLines(SplitLines(t))
    decreases |t|
  {
    if t != [] {
      var n := LineLen(t);
      FirstLine(t);
      SplitJoins(t[n..]);
      assert t[..n] + t[n..] == t;
      if n == |t| {
        assert t[..n] == t;
      }
    }
  }

  /** Splitting is the inverse of joining. */
  lemma {:induction false} JoinSplits(ls: seq<Bytes>)
    requires AreLines(ls)
    ensures SplitLines(Concat(ls)) == ls
    decreases |ls|
  {
    if ls != [] {
      var l, rest := ls[0], ls[1..];
      JoinSplits(rest);
      if Terminated(l) {
        SplitTerminated(l, Concat(rest));
      } else {
        assert rest == [];
        assert l + [] == l;
        NoNewline(l);
        assert l[..|l|] == l && l[|l|..] == [];
      }
    }
  }

  lemma {:induction false} NoNewline(l: Bytes)
    requires NL !in l
    ensures LineLen(l) == |l|
    decreases |l|
  {
    if l != [] {
      assert l[0] in l;
      NoNewline(l[1..]);
    }
  }

  lemma {:induction false} ConcatAppend(xs: seq<Bytes>, ys: seq<Bytes>)
    ensures Concat(xs + ys) == Concat(xs) + Concat(ys)
    decreases |xs|
  {
    if xs == [] {
      assert xs + ys == ys;
    } else {
      assert (xs + ys)[1..] == xs[1..] + ys;
      ConcatAppend(xs[1..], ys);
    }
  }

  lemma ConcatOne(l: Bytes)
    ensures Concat([l]) == l
  {
    assert [l][1..] == [];
  }

  lemma ConcatThree(ls: seq<Bytes>, a: nat, b: nat)
    requires a <= b <= |ls|
    ensures |Concat(ls[..a])| <= |Concat(ls[..b])| <= |Concat(ls)|
    ensures Concat(ls)[|Concat(ls[..a])|..|Concat(ls[..b])|] == Concat(ls[a..b])
  {
    assert ls[..b] == ls[..a] + ls[a..b];
    ConcatAppend(ls[..a], ls[a..b]);
    assert ls == ls[..b] + ls[b..];
    ConcatAppend(ls[..b], ls[b..]);
    MiddleOf(Concat(ls[..a]), Concat(ls[a..b]), Concat(ls[b..]));
  }

  lemma MiddleOf(x: Bytes, y: Bytes, z: Bytes)
    ensures (x + y + z)[|x|..|x + y|] == y
  {
  }

  lemma JoinParts(t: seq<Bytes>, x: nat, y: nat, z: nat, w: nat)
    requires x <= y <= z <= w <= |t|
    ensures t[x..w] == t[x..y] + t[y..z] + t[z..w]
  {
  }

  lemma ConcatSlices(t: seq<Bytes>, x: nat, y: nat, z: nat)
    requires x <= y <= z <= |t|
    ensures Concat(t[x..]) == Concat(t[x..y]) + Concat(t[y..z]) + Concat(t[z..])
  {
    JoinParts(t, x, y, z, |t|);
    assert t[x..|t|] == t[x..] && t[z..|t|] == t[z..];
    ConcatAppend(t[x..y] + t[y..z], t[z..]);
    ConcatAppend(t[x..y], t[y..z]);
  }

  /** The loop that cuts a text at its newlines. */
  method SplitIntoLines(t: Bytes) returns (out: seq<Bytes>)
    ensures out == SplitLines(t)
  {
    hide SplitLines;
    out := [];
    var start, i := 0, 0;
    assert t[0..] == t;
    while i < |t|
      invariant start <= i <= |t| && forall j | start <= j < i :: t[j] != NL
      invariant out + SplitLines(t[start..]) == SplitLines(t)
    {
      if t[i] == NL {
        var line := t[start..i + 1];
        CutLine(t, start, i + 1, out);
        out := out + [line];
        start := i + 1;
      }
      i := i + 1;
    }
    if start < |t| {
      LastLine(t[start..]);
      out := out + [t[start..]];
    } else {
      NoLines(t, start, out);
    }
  }

  lemma NoLines(t: Bytes, start: nat, out: seq<Bytes>)
    requires start == |t|
    ensures out + SplitLines(t[start..]) == out
  {
    assert t[start..] == [];
  }

  lemma LastLine(l: Bytes)
    requires l != [] && NL !in l
    ensures SplitLines(l) == [l]
  {
    NoNewline(l);
    assert l[..|l|] == l && l[|l|..] == [];
  }

  lemma CutLine(t: Bytes, start: nat, end: nat, out: seq<Bytes>)
    requires start < end <= |t| && Terminated(t[start..end])
    ensures out + SplitLines(t[start..]) == (out + [t[start..end]]) + SplitLines(t[end..])
  {
    assert t[start..] == t[start..end] + t[end..];
    SplitTerminated(t[start..end], t[end..]);
  }

  // ----- cutting between lines -----

  /** A place where lines can be cut: the start of a line, or the end of the text. */
  predicate LineBound(t: Bytes, i: nat) {
    i <= |t| && (i == 0 || i == |t| || t[i - 1] == NL)
  }

  /** How many lines lie before a line bound. */
  function LineIndex(t: Bytes, i: nat): nat
    requires i <= |t|
  {
    |SplitLines(t[..i])|
  }

  lemma {:induction false} LastTerminated(ls: seq<Bytes>)
    requires ls != [] && AreLines(ls) && Concat(ls) != [] && Concat(ls)[|Concat(ls)| - 1] == NL
    ensures Terminated(ls[|ls| - 1])
  {
    var front, l := ls[..|ls| - 1], ls[|ls| - 1];
    assert ls == front + [l];
    ConcatAppend(front, [l]);
    ConcatOne(l);
    assert l != [];
    assert Concat(ls)[|Concat(ls)| - 1] == l[|l| - 1];
  }

  /** Cut between lines, the parts split into the lines of the whole. */
  lemma SplitAt(t: Bytes, i: nat)
    requires LineBound(t, i)
    ensures SplitLines(t) == SplitLines(t[..i]) + SplitLines(t[i..])
  {
    var x, y := t[..i], t[i..];
    assert t == x + y;
    var xs, ys := SplitLines(x), SplitLines(y);
    SplitJoins(x);
    SplitJoins(y);
    if x == [] {
      assert xs + ys == ys && t == y;
    } else if y == [] {
      assert xs + ys == xs && t == x;
    } else {
      LastTerminated(xs);
      ConcatAppend(xs, ys);
      hide SplitLines, Concat, Terminated;
      LinesAppend(xs, ys);
      JoinSplits(xs + ys);
    }
  }

  lemma LinesAppend(xs: seq<Bytes>, ys: seq<Bytes>)
    requires AreLines(xs) && AreLines(ys) && xs != [] && Terminated(xs[|xs| - 1])
    ensures AreLines(xs + ys)
  {
    hide Terminated;
    forall i | 0 <= i < |xs + ys|
      ensures if i < |xs + ys| - 1 then Terminated((xs + ys)[i])
        else Terminated((xs + ys)[i]) || ((xs + ys)[i] != [] && NL !in (xs + ys)[i])
    {
      if i < |xs| {
        assert (xs + ys)[i] == xs[i];
      } else {
        assert (xs + ys)[i] == ys[i - |xs|];
      }
    }
  }

  /** The lines between two line bounds. */
  lemma LinesOfPart(t: Bytes, i: nat, j: nat)
    requires LineBound(t, i) && LineBound(t, j) && i <= j
    ensures LineIndex(t, i) <= LineIndex(t, j) <= |SplitLines(t)|
    ensures SplitLines(t[i..j]) == SplitLines(t)[LineIndex(t, i)..LineIndex(t, j)]
    ensures i < j ==> LineIndex(t, i) < LineIndex(t, j)
  {
    SplitAt(t, j);
    var x := t[..j];
    assert x[..i] == t[..i] && x[i..] == t[i..j];
    SplitAt(x, i);
    if i < j {
      assert SplitLines(t[i..j]) != [];
    }
  }
}
