/** Edits, and what applying a set of them to a flat text means. */
module Splicing {
  import opened Text

  /** A change to a text: what lies between two offsets gives way to other bytes. */
  datatype Edit = Edit(from: nat, to: nat, replacement: Bytes)
  {
    function Delta(): int {
      |replacement| as int - (to - from)
    }
  }

  /** Ascending, non-overlapping and within a text of length `len`, starting at `at` or later. */
  predicate Ascending(edits: seq<Edit>, at: nat, len: nat) {
    if edits == [] then at <= len
    else at <= edits[0].from <= edits[0].to <= len && Ascending(edits[1..], edits[0].to, len)
  }

  /** The text from `at` on with the edits applied: the reference meaning of an edit set. */
  function SpliceFrom(t: Bytes, edits: seq<Edit>, at: nat): Bytes
    requires Ascending(edits, at, |t|)
  {
    if edits == [] then t[at..]
    else t[at..edits[0].from] + edits[0].replacement + SpliceFrom(t, edits[1..], edits[0].to)
  }

  function Splice(t: Bytes, edits: seq<Edit>): Bytes
    requires Ascending(edits, 0, |t|)
  {
    SpliceFrom(t, edits, 0)
  }

  /** One edit. */
  function SpliceOne(t: Bytes, e: Edit): Bytes
    requires e.from <= e.to <= |t|
  {
    t[..e.from] + e.replacement + t[e.to..]
  }

  lemma AssocBytes(a: Bytes, b: Bytes, c: Bytes, d: Bytes)
    ensures (a + b) + c + d == a + (b + c + d)
  {
  }

  /** An edit set that starts at `at` leaves what is before it alone. */
  lemma {:induction false} SpliceSplit(t: Bytes, edits: seq<Edit>, at: nat)
    requires Ascending(edits, at, |t|)
    ensures Ascending(edits, 0, |t|)
    ensures Splice(t, edits) == t[..at] + SpliceFrom(t, edits, at)
  {
    if edits == [] {
      assert t == t[..at] + t[at..];
      assert t[0..] == t;
    } else {
      var e := edits[0];
      assert t[0..e.from] == t[..at] + t[at..e.from];
      AssocBytes(t[..at], t[at..e.from], e.replacement, SpliceFrom(t, edits[1..], e.to));
    }
  }

  /** Applying the last edits first and the first one after them is applying them all. */
  lemma SpliceFirstLast(t: Bytes, edits: seq<Edit>)
    requires edits != [] && Ascending(edits, 0, |t|)
    ensures Ascending(edits[1..], 0, |t|)
    ensures edits[0].to <= |Splice(t, edits[1..])|
    ensures Splice(t, edits) == SpliceOne(Splice(t, edits[1..]), edits[0])
  {
    var e, rest := edits[0], edits[1..];
    SpliceSplit(t, rest, e.to);
    var tail := SpliceFrom(t, rest, e.to);
    assert (t[..e.to] + tail)[e.to..] == tail;
    assert (t[..e.to] + tail)[..e.from] == t[..e.from] == t[0..e.from];
  }

  // ----- growing an edit set from the front -----

  lemma WithinPrefix(t: Bytes, i: nat, j: nat, n: nat)
    requires i <= j <= n <= |t|
    ensures t[..n][i..j] == t[i..j]
  {
  }

  /** More text behind the edits is kept. */
  lemma {:induction false} SpliceMore(t: Bytes, edits: seq<Edit>, at: nat, n: nat, m: nat)
    requires n <= m <= |t| && Ascending(edits, at, n)
    ensures Ascending(edits, at, m)
    ensures SpliceFrom(t[..m], edits, at) == SpliceFrom(t[..n], edits, at) + t[n..m]
    decreases |edits|
  {
    if edits == [] {
      assert t[..m][at..] == t[..n][at..] + t[n..m];
    } else {
      SpliceMore(t, edits[1..], edits[0].to, n, m);
      var e := edits[0];
      WithinPrefix(t, at, e.from, m);
      WithinPrefix(t, at, e.from, n);
      AssocBytes([], t[..n][at..e.from] + e.replacement, SpliceFrom(t[..n], edits[1..], e.to), t[n..m]);
    }
  }

  /** One more edit behind the others. */
  lemma {:induction false} SpliceSnoc(t: Bytes, edits: seq<Edit>, at: nat, n: nat, e: Edit)
    requires Ascending(edits, at, n) && n <= e.from <= e.to <= |t|
    ensures Ascending(edits + [e], at, e.to)
    ensures SpliceFrom(t[..e.to], edits + [e], at) == SpliceFrom(t[..n], edits, at) + t[n..e.from] + e.replacement
    decreases |edits|
  {
    if edits == [] {
      assert ([] + [e])[1..] == [];
      WithinPrefix(t, at, e.from, e.to);
      assert t[at..e.from] == t[..n][at..] + t[n..e.from];
      assert t[..e.to][e.to..] == [];
    } else {
      var f := edits[0];
      assert (edits + [e])[1..] == edits[1..] + [e];
      SpliceSnoc(t, edits[1..], f.to, n, e);
      WithinPrefix(t, at, f.from, e.to);
      WithinPrefix(t, at, f.from, n);
      var front, rest := t[at..f.from] + f.replacement, SpliceFrom(t[..n], edits[1..], f.to);
      assert SpliceFrom(t[..e.to], edits + [e], at) == front + (rest + t[n..e.from] + e.replacement);
      assert SpliceFrom(t[..n], edits, at) == front + rest;
      hide SpliceFrom, Ascending;
      assert front + (rest + t[n..e.from] + e.replacement) == (front + rest) + t[n..e.from] + e.replacement;
    }
  }

  function TotalDelta(edits: seq<Edit>): int {
    if edits == [] then 0 else edits[0].Delta() + TotalDelta(edits[1..])
  }

  /** The new text is longer by the sum of the deltas, and what is behind the last edit is what was. */
  lemma {:induction false} SpliceTail(t: Bytes, edits: seq<Edit>, at: nat)
    requires Ascending(edits, at, |t|)
    ensures |SpliceFrom(t, edits, at)| == |t| - at + TotalDelta(edits)
    ensures edits != [] ==>
      var to := edits[|edits| - 1].to;
      to <= |t| && |t| - to <= |SpliceFrom(t, edits, at)|
      && SpliceFrom(t, edits, at)[|SpliceFrom(t, edits, at)| - (|t| - to)..] == t[to..]
    decreases |edits|
  {
    if edits != [] {
      var e, rest := edits[0], edits[1..];
      SpliceTail(t, rest, e.to);
      if rest != [] {
        assert rest[|rest| - 1] == edits[|edits| - 1];
      } else {
        assert SpliceFrom(t, rest, e.to) == t[e.to..];
      }
      TailOfConcat(t[at..e.from] + e.replacement, SpliceFrom(t, rest, e.to), |t| - edits[|edits| - 1].to);
    }
  }

  lemma TailOfConcat(x: Bytes, y: Bytes, n: nat)
    requires n <= |y|
    ensures (x + y)[|x + y| - n..] == y[|y| - n..]
  {
  }

  /** The check the edit operations make on their input. */
  method ValidateEdits(edits: seq<Edit>, len: nat) returns (ok: bool)
    ensures ok <==> Ascending(edits, 0, len)
  {
    var prevEnd: nat := 0;
    var i := 0;
    assert edits[0..] == edits;
    while i < |edits|
      invariant i <= |edits| && prevEnd <= len
      invariant Ascending(edits, 0, len) <==> Ascending(edits[i..], prevEnd, len)
    {
      var e := edits[i];
      assert edits[i..][0] == e && edits[i..][1..] == edits[i + 1..];
      if e.from > e.to || e.to > len {
        return false;
      }
      if i > 0 && e.from < prevEnd {
        return false;
      }
      prevEnd := e.to;
      i := i + 1;
    }
    return true;
  }
}
