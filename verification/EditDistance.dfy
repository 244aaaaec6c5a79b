/** The edit grid of two sequences: distances, furthest-reaching points and what they say of scripts. */
module EditDistance {
  import opened Text

  /** Cell (x, y) of the grid is a match: the x-th element of `a` is the y-th of `b`. There are none
      past either end. */
  predicate Match<T(==)>(a: seq<T>, b: seq<T>, x: int, y: int) {
    1 <= x <= |a| && 1 <= y <= |b| && a[x - 1] == b[y - 1]
  }

  /** The fewest deletions and insertions that lead from the origin to (x, y), on a grid without end. */
  function Dist<T(==)>(a: seq<T>, b: seq<T>, x: nat, y: nat): nat
    decreases x + y
  {
    if x == 0 then y
    else if y == 0 then x
    else if Match(a, b, x, y) then Dist(a, b, x - 1, y - 1)
    else 1 + Min(Dist(a, b, x - 1, y), Dist(a, b, x, y - 1))
  }

  function Distance<T(==)>(a: seq<T>, b: seq<T>): nat {
    Dist(a, b, |a|, |b|)
  }

  predicate OneApart(p: int, q: int) {
    p == q + 1 || q == p + 1
  }

  lemma {:induction false} Neighbours<T>(a: seq<T>, b: seq<T>, x: nat, y: nat)
    ensures OneApart(Dist(a, b, x + 1, y), Dist(a, b, x, y))
    ensures OneApart(Dist(a, b, x, y + 1), Dist(a, b, x, y))
    decreases x + y
  {
    if y > 0 {
      Neighbours(a, b, x, y - 1);
    }
    if x > 0 {
      Neighbours(a, b, x - 1, y);
    }
  }

  /** Distances never fall along a diagonal. */
  lemma Diagonal<T>(a: seq<T>, b: seq<T>, x: nat, y: nat)
    ensures Dist(a, b, x, y) <= Dist(a, b, x + 1, y + 1) <= Dist(a, b, x, y) + 2
    ensures Match(a, b, x + 1, y + 1) ==> Dist(a, b, x + 1, y + 1) == Dist(a, b, x, y)
  {
    Neighbours(a, b, x, y);
    Neighbours(a, b, x + 1, y);
  }

  lemma {:induction false} Parity<T>(a: seq<T>, b: seq<T>, x: nat, y: nat)
    ensures (Dist(a, b, x, y) + x + y) % 2 == 0
    decreases x + y
  {
    if x > 0 && y > 0 {
      if Match(a, b, x, y) {
        Parity(a, b, x - 1, y - 1);
      } else if Dist(a, b, x - 1, y) < Dist(a, b, x, y - 1) {
        Parity(a, b, x - 1, y);
      } else {
        Parity(a, b, x, y - 1);
      }
    }
  }

  lemma {:induction false} Bounds<T>(a: seq<T>, b: seq<T>, x: nat, y: nat)
    ensures Dist(a, b, x, y) >= x - y && Dist(a, b, x, y) >= y - x && Dist(a, b, x, y) <= x + y
    decreases x + y
  {
    if x > 0 && y > 0 {
      Bounds(a, b, x - 1, y - 1);
      Bounds(a, b, x - 1, y);
      Bounds(a, b, x, y - 1);
    }
  }

  lemma {:induction false} PastRight<T>(a: seq<T>, b: seq<T>, x: nat, y: nat)
    requires x >= |a|
    ensures Dist(a, b, x, y) == Dist(a, b, |a|, y) + x - |a|
    decreases x + y
  {
    if x > |a| && y > 0 {
      PastRight(a, b, x - 1, y);
      PastRight(a, b, x, y - 1);
      Neighbours(a, b, |a|, y - 1);
    }
  }

  lemma {:induction false} PastBottom<T>(a: seq<T>, b: seq<T>, x: nat, y: nat)
    requires y >= |b|
    ensures Dist(a, b, x, y) == Dist(a, b, x, |b|) + y - |b|
    decreases x + y
  {
    if y > |b| && x > 0 {
      PastBottom(a, b, x - 1, y);
      PastBottom(a, b, x, y - 1);
      Neighbours(a, b, x - 1, |b|);
    }
  }

  /** Past both ends every step costs. */
  lemma PastBoth<T>(a: seq<T>, b: seq<T>, x: nat, y: nat)
    requires x >= |a| && y >= |b|
    ensures Dist(a, b, x, y) == Distance(a, b) + (x - |a|) + (y - |b|)
  {
    PastRight(a, b, x, y);
    PastBottom(a, b, |a|, y);
  }

  // ----- furthest-reaching points -----

  /** (x, x - k) is the last point of diagonal `k` within distance `d`. */
  ghost predicate Furthest<T>(a: seq<T>, b: seq<T>, d: nat, k: int, x: int) {
    x >= 0 && x - k >= 0 && Dist(a, b, x, x - k) <= d < Dist(a, b, x + 1, x + 1 - k)
  }

  lemma {:induction false} PastFurthest<T>(a: seq<T>, b: seq<T>, d: nat, k: int, x: int, x': int)
    requires Furthest(a, b, d, k, x) && x < x'
    ensures d < Dist(a, b, x', x' - k)
    decreases x'
  {
    if x' > x + 1 {
      PastFurthest(a, b, d, k, x, x' - 1);
      Diagonal(a, b, x' - 1, x' - 1 - k);
    }
  }

  /** Follow matches down diagonal `k` as far as they go. */
  function Slide<T(==)>(a: seq<T>, b: seq<T>, k: int, x: int): (r: int)
    requires x >= 0 && x - k >= 0
    ensures r >= x
    decreases |a| - x
  {
    if Match(a, b, x + 1, x + 1 - k) then Slide(a, b, k, x + 1) else x
  }

  lemma {:induction false} SlideEnd<T>(a: seq<T>, b: seq<T>, k: int, x: int)
    requires x >= 0 && x - k >= 0
    ensures var r := Slide(a, b, k, x);
      Dist(a, b, r, r - k) == Dist(a, b, x, x - k) && !Match(a, b, r + 1, r + 1 - k)
    decreases |a| - x
  {
    if Match(a, b, x + 1, x + 1 - k) {
      Diagonal(a, b, x, x - k);
      SlideEnd(a, b, k, x + 1);
    }
  }

  /** The diagonals that `d` steps can end on. */
  predicate OnBand(d: int, k: int) {
    -d <= k <= d && (d + k) % 2 == 0
  }

  /** The diagonal a furthest path of `d` steps comes to diagonal `k` from. */
  predicate ComesDown<T(==)>(a: seq<T>, b: seq<T>, d: nat, k: int)
    requires d > 0 && OnBand(d, k)
    decreases d, 0
  {
    k + d == 0 || (k != d && Reach(a, b, d - 1, k - 1) < Reach(a, b, d - 1, k + 1))
  }

  function Entry<T(==)>(a: seq<T>, b: seq<T>, d: nat, k: int): (x: int)
    requires d > 0 && OnBand(d, k)
    ensures x >= 0 && x - k >= 0
    decreases d, 1
  {
    if ComesDown(a, b, d, k) then Reach(a, b, d - 1, k + 1) else Reach(a, b, d - 1, k - 1) + 1
  }

  function Reach<T(==)>(a: seq<T>, b: seq<T>, d: nat, k: int): (x: int)
    requires OnBand(d, k)
    ensures x >= 0 && x - k >= 0
    decreases d, 2
  {
    Slide(a, b, k, if d == 0 then 0 else Entry(a, b, d, k))
  }

  /** The array of the search holds furthest-reaching points. */
  lemma {:induction false} ReachIsFurthest<T>(a: seq<T>, b: seq<T>, d: nat, k: int)
    requires OnBand(d, k)
    ensures Furthest(a, b, d, k, Reach(a, b, d, k))
    decreases d
  {
    if d == 0 {
      var x := Reach(a, b, 0, 0);
      SlideEnd(a, b, 0, 0);
      Bounds(a, b, x + 1, x);
      Bounds(a, b, x, x + 1);
    } else {
      if k < d {
        ReachIsFurthest(a, b, d - 1, k + 1);
      }
      if k + d > 0 {
        ReachIsFurthest(a, b, d - 1, k - 1);
      }
      ReachStep(a, b, d, k);
    }
  }

  lemma ReachStep<T>(a: seq<T>, b: seq<T>, d: nat, k: int)
    requires d > 0 && OnBand(d, k)
    requires k < d ==> Furthest(a, b, d - 1, k + 1, Reach(a, b, d - 1, k + 1))
    requires k + d > 0 ==> Furthest(a, b, d - 1, k - 1, Reach(a, b, d - 1, k - 1))
    ensures Furthest(a, b, d, k, Reach(a, b, d, k))
  {
    var x := Reach(a, b, d, k);
    EntryWithin(a, b, d, k);
    BehindLeft(a, b, d, k, x);
    BehindAbove(a, b, d, k, x);
    Blocked(a, b, d, k, Entry(a, b, d, k));
  }

  lemma Blocked<T>(a: seq<T>, b: seq<T>, d: nat, k: int, e: int)
    requires e >= 0 && e - k >= 0 && Dist(a, b, e, e - k) <= d
    requires var x := Slide(a, b, k, e); Dist(a, b, x, x + 1 - k) >= d && Dist(a, b, x + 1, x - k) >= d
    ensures Furthest(a, b, d, k, Slide(a, b, k, e))
  {
    SlideEnd(a, b, k, e);
  }

  lemma EntryWithin<T>(a: seq<T>, b: seq<T>, d: nat, k: int)
    requires d > 0 && OnBand(d, k)
    requires k < d ==> Furthest(a, b, d - 1, k + 1, Reach(a, b, d - 1, k + 1))
    requires k + d > 0 ==> Furthest(a, b, d - 1, k - 1, Reach(a, b, d - 1, k - 1))
    ensures var e := Entry(a, b, d, k); Dist(a, b, e, e - k) <= d
  {
    var e := Entry(a, b, d, k);
    if ComesDown(a, b, d, k) {
      Neighbours(a, b, e, e - k - 1);
    } else {
      Neighbours(a, b, e - 1, e - k);
    }
  }

  lemma BehindLeft<T>(a: seq<T>, b: seq<T>, d: nat, k: int, x: int)
    requires d > 0 && OnBand(d, k) && x >= Entry(a, b, d, k)
    requires k + d > 0 ==> Furthest(a, b, d - 1, k - 1, Reach(a, b, d - 1, k - 1))
    ensures Dist(a, b, x, x + 1 - k) >= d
  {
    if k + d > 0 {
      PastFurthest(a, b, d - 1, k - 1, Reach(a, b, d - 1, k - 1), x);
    } else {
      Bounds(a, b, x, x + 1 - k);
    }
  }

  lemma BehindAbove<T>(a: seq<T>, b: seq<T>, d: nat, k: int, x: int)
    requires d > 0 && OnBand(d, k) && x >= Entry(a, b, d, k)
    requires k < d ==> Furthest(a, b, d - 1, k + 1, Reach(a, b, d - 1, k + 1))
    ensures Dist(a, b, x + 1, x - k) >= d
  {
    if k < d {
      PastFurthest(a, b, d - 1, k + 1, Reach(a, b, d - 1, k + 1), x + 1);
    } else {
      Bounds(a, b, x + 1, x - k);
    }
  }

  /** The search cannot pass the corner: the first point it finds past both ends is the corner. */
  lemma StopsAtCorner<T>(a: seq<T>, b: seq<T>, d: nat, k: int)
    requires OnBand(d, k) && d <= Distance(a, b)
    requires Reach(a, b, d, k) >= |a| && Reach(a, b, d, k) - k >= |b|
    ensures Reach(a, b, d, k) == |a| && Reach(a, b, d, k) - k == |b| && d == Distance(a, b)
  {
    ReachIsFurthest(a, b, d, k);
    PastBoth(a, b, Reach(a, b, d, k), Reach(a, b, d, k) - k);
  }

  /** And it cannot miss it. */
  lemma FindsCorner<T>(a: seq<T>, b: seq<T>, d: nat)
    requires d == Distance(a, b)
    ensures OnBand(d, |a| - |b|)
    ensures Reach(a, b, d, |a| - |b|) >= |a|
  {
    Bounds(a, b, |a|, |b|);
    Parity(a, b, |a|, |b|);
    var k := |a| - |b|;
    ReachIsFurthest(a, b, d, k);
    var x := Reach(a, b, d, k);
    if x < |a| {
      PastFurthest(a, b, d, k, x, |a|);
    }
  }
}
