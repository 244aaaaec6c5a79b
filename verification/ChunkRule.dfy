/** Where a document is cut, said without the loop that finds it. */
module ChunkRule {
  import opened Text
  import opened Chunker

  function Pow2(n: nat): nat {
    if n == 0 then 1 else 2 * Pow2(n - 1)
  }

  /** The gear values of t[i..j), each weighing twice as much as the one behind it. */
  function Weighed(p: ChunkParams, t: Bytes, i: nat, j: nat): nat
    requires i <= j <= |t|
    decreases j - i
  {
    if i == j then 0 else p.gear(t[i]) * Pow2(j - 1 - i) + Weighed(p, t, i + 1, j)
  }

  /** A chunk may end at `e`: the 64-bit sum passes the test for its place. */
  predicate Boundary(p: ChunkParams, t: Bytes, e: nat)
    requires p.min < e <= |t|
  {
    var h := Weighed(p, t, p.min, e) % 18446744073709551616;
    if e <= p.avg then p.hitS(h) else p.hitL(h)
  }

  /** The first boundary behind `min` bytes, or `max` bytes, or all. */
  ghost predicate FirstBoundary(p: ChunkParams, t: Bytes, b: nat) {
    && p.min < b <= |t| && b <= p.max
    && (forall e | p.min < e < b :: !Boundary(p, t, e))
    && (Boundary(p, t, b) || b == |t| || b == p.max)
  }

  predicate NoLineEnd(t: Bytes, from: nat, end: nat)
    requires end <= |t|
  {
    forall k | from <= k < end :: t[k] != NL
  }

  /** From there to the next line end, if it is within `snap` bytes; where a line ends, nowhere. */
  ghost predicate SnappedTo(p: ChunkParams, t: Bytes, b: nat, c: nat)
    requires 0 < b <= |t|
  {
    if t[b - 1] == NL then c == b
    else
      || (b < c <= |t| && c <= b + p.snap && t[c - 1] == NL && NoLineEnd(t, b, c - 1))
      || (c == b && NoLineEnd(t, b, if b + p.snap < |t| then b + p.snap else |t|))
  }

  ghost predicate CutsAt(p: ChunkParams, t: Bytes, c: nat) {
    if |t| <= p.min then c == |t| else exists b: nat :: FirstBoundary(p, t, b) && SnappedTo(p, t, b, c)
  }

  // ----- the rolling hash -----

  lemma {:induction false} WeighedSnoc(p: ChunkParams, t: Bytes, i: nat, j: nat)
    requires i <= j < |t|
    ensures Weighed(p, t, i, j + 1) == 2 * Weighed(p, t, i, j) + p.gear(t[j])
    decreases j - i
  {
    if i < j {
      WeighedSnoc(p, t, i + 1, j);
      var g, w := p.gear(t[i]), Pow2(j - 1 - i);
      assert g * (2 * w) == 2 * (g * w);
    } else {
      assert Weighed(p, t, i + 1, j + 1) == 0 && p.gear(t[i]) * Pow2(0) == p.gear(t[i]);
    }
  }

  /** Rolling in one more byte. */
  lemma RollIs(p: ChunkParams, t: Bytes, i: nat, j: nat)
    requires i <= j < |t|
    ensures p.Roll(Weighed(p, t, i, j) % 18446744073709551616, t[j])
      == Weighed(p, t, i, j + 1) % 18446744073709551616
  {
    WeighedSnoc(p, t, i, j);
  }

  lemma {:induction false} FirstHitIs(p: ChunkParams, t: Bytes, i: nat, limit: nat)
    requires p.min <= i <= limit <= |t|
    ensures match FirstHit(p, t, Weighed(p, t, p.min, i) % 18446744073709551616, i, limit)
      case Some(b) => i < b <= limit && Boundary(p, t, b) && forall e | i < e < b :: !Boundary(p, t, e)
      case None => forall e | i < e <= limit :: !Boundary(p, t, e)
    decreases limit - i
  {
    if i < limit {
      RollIs(p, t, p.min, i);
      FirstHitIs(p, t, i + 1, limit);
    }
  }

  lemma {:induction false} NextLineEndIs(t: Bytes, from: nat, end: nat)
    requires from <= end <= |t|
    ensures match NextLineEnd(t, from, end)
      case Some(c) => from < c <= end && t[c - 1] == NL && NoLineEnd(t, from, c - 1)
      case None => NoLineEnd(t, from, end)
    decreases end - from
  {
    if from < end && t[from] != NL {
      NextLineEndIs(t, from + 1, end);
    }
  }

  lemma SnapIs(p: ChunkParams, t: Bytes, b: nat)
    requires 0 < b <= |t|
    ensures SnappedTo(p, t, b, Snap(p, t, b))
  {
    NextLineEndIs(t, b, Min(b + p.snap, |t|));
  }

  lemma OneSnap(p: ChunkParams, t: Bytes, b: nat, c: nat, c': nat)
    requires 0 < b <= |t| && SnappedTo(p, t, b, c) && SnappedTo(p, t, b, c')
    ensures c == c'
  {
    var _, _ := t[c - 1], t[c' - 1];
  }

  lemma {:induction false} RawCutIs(p: ChunkParams, t: Bytes)
    requires p.Valid() && p.min < |t|
    ensures FirstBoundary(p, t, RawCut(p, t))
  {
    hide Weighed;
    NothingWeighed(p, t);
    FirstHitIs(p, t, p.min, Min(|t|, p.max));
  }

  lemma NothingWeighed(p: ChunkParams, t: Bytes)
    requires p.min <= |t|
    ensures Weighed(p, t, p.min, p.min) % 18446744073709551616 == 0
  {
  }

  lemma OneBoundary(p: ChunkParams, t: Bytes, b: nat, b': nat)
    requires FirstBoundary(p, t, b) && FirstBoundary(p, t, b')
    ensures b == b'
  {
  }

  /** The length of the first chunk is the one the rule gives. */
  lemma {:induction false} CutIff(p: ChunkParams, t: Bytes, c: nat)
    requires p.Valid()
    ensures c == CutLen(p, t) <==> CutsAt(p, t, c)
  {
    hide SnappedTo, RawCut, Snap, Boundary;
    if p.min < |t| {
      RawCutIs(p, t);
      var b := RawCut(p, t);
      SnapIs(p, t, b);
      if CutsAt(p, t, c) {
        var b': nat :| FirstBoundary(p, t, b') && SnappedTo(p, t, b', c);
        OneBoundary(p, t, b, b');
        OneSnap(p, t, b, c, Snap(p, t, b));
      }
    }
  }

  /** The decision waits for `max` and `snap` bytes, or the end. */
  lemma WaitsIff(p: ChunkParams, buf: Bytes, eof: bool)
    requires p.Valid()
    ensures CutAt(p, buf, eof).None? <==> !eof && |buf| < p.max + p.snap
    ensures CutAt(p, buf, eof).Some? ==> CutsAt(p, buf, CutAt(p, buf, eof).value)
  {
    hide CutsAt;
    CutIff(p, buf, CutLen(p, buf));
  }

  // ----- 64 bytes decide -----

  lemma {:induction false} Pow2Splits(m: nat, n: nat)
    ensures Pow2(m + n) == Pow2(m) * Pow2(n)
    decreases m
  {
    if m > 0 {
      Pow2Splits(m - 1, n);
      var x, y := Pow2(m - 1), Pow2(n);
      assert 2 * (x * y) == (2 * x) * y;
    }
  }

  lemma {:induction false} WeighedSplits(p: ChunkParams, t: Bytes, i: nat, m: nat, j: nat)
    requires i <= m <= j <= |t|
    ensures Weighed(p, t, i, j) == Weighed(p, t, i, m) * Pow2(j - m) + Weighed(p, t, m, j)
    decreases m - i
  {
    if i < m {
      WeighedSplits(p, t, i + 1, m, j);
      Pow2Splits(m - 1 - i, j - m);
      Distributes(p.gear(t[i]), Pow2(m - 1 - i), Pow2(j - m), Weighed(p, t, i + 1, m));
    }
  }

  lemma Distributes(g: nat, x: nat, y: nat, w: nat)
    ensures g * (x * y) + w * y == (g * x + w) * y
  {
  }

  /** The 64-bit sum is that of the last 64 bytes. */
  lemma {:induction false} Last64(p: ChunkParams, t: Bytes, i: nat, j: nat)
    requires i <= j - 64 && j <= |t|
    ensures Weighed(p, t, i, j) % 18446744073709551616 == Weighed(p, t, j - 64, j) % 18446744073709551616
  {
    hide Weighed, Pow2;
    WeighedSplits(p, t, i, j - 64, j);
    Pow64();
  }

  lemma Pow64()
    ensures Pow2(64) == 18446744073709551616
  {
    assert Pow2(8) == 256;
    Pow2Splits(8, 8);
    Pow2Splits(16, 16);
    Pow2Splits(32, 32);
  }
}
