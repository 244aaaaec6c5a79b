/** Byte strings, lines and splices: the flat text every tree operation must agree with. */
module Text {
  newtype byte = x: int | 0 <= x < 256

  type Bytes = seq<byte>

  const NL: byte := 10

  datatype Option<+T> = None | Some(value: T)

  function Max(a: int, b: int): int { if a < b then b else a }

  function Min(a: int, b: int): int { if a < b then a else b }

  // ----- newlines and line numbers -----

  function CountNewlines(t: Bytes): nat {
    if t == [] then 0
    else CountNewlines(t[..|t| - 1]) + if t[|t| - 1] == NL then 1 else 0
  }

  lemma {:induction false} CountNewlinesConcat(s: Bytes, t: Bytes)
    ensures CountNewlines(s + t) == CountNewlines(s) + CountNewlines(t)
  {
    if t == [] {
      assert s + t == s;
    } else {
      assert (s + t)[..|s + t| - 1] == s + t[..|t| - 1];
      CountNewlinesConcat(s, t[..|t| - 1]);
    }
  }

  lemma CountNewlinesPrefix(t: Bytes, i: nat, j: nat)
    requires i <= j <= |t|
    ensures CountNewlines(t[..j]) == CountNewlines(t[..i]) + CountNewlines(t[i..j])
  {
    assert t[..j] == t[..i] + t[i..j];
    CountNewlinesConcat(t[..i], t[i..j]);
  }

  /** Line `n` of `t` starts at `off`: `off` is 0 for line 0 and otherwise just past the `n`-th newline. */
  ghost predicate IsLineStart(t: Bytes, n: nat, off: nat) {
    && off <= |t|
    && CountNewlines(t[..off]) == n
    && (off == 0 || t[off - 1] == NL)
  }

  /** The zero-based line a byte offset lies in. */
  function LineOf(t: Bytes, off: nat): nat
    requires off <= |t|
  {
    CountNewlines(t[..off])
  }

  /** Where line `n` starts, or `None` when `t` has fewer than `n` newlines. */
  function LineStart(t: Bytes, n: nat): (r: Option<nat>)
    ensures r.Some? <==> n <= CountNewlines(t)
    ensures r.Some? ==> IsLineStart(t, n, r.value)
  {
    if n == 0 then Some(0)
    else if t == [] then None
    else
      assert t[..|t|] == t;
      var init := t[..|t| - 1];
      assert forall i | 0 <= i <= |init| :: init[..i] == t[..i];
      if n <= CountNewlines(init) then LineStart(init, n)
      else if n == CountNewlines(t) then Some(|t|)
      else None
  }

  lemma LineStartUnique(t: Bytes, n: nat, i: nat, j: nat)
    requires IsLineStart(t, n, i) && IsLineStart(t, n, j)
    ensures i == j
  {
    if i < j {
      LineStartBelow(t, i, j);
    } else if j < i {
      LineStartBelow(t, j, i);
    }
  }

  lemma LineStartBelow(t: Bytes, i: nat, j: nat)
    requires i < j <= |t| && t[j - 1] == NL
    ensures CountNewlines(t[..i]) < CountNewlines(t[..j])
  {
    CountNewlinesPrefix(t, i, j - 1);
    assert t[..j][..j - 1] == t[..j - 1];
  }

  lemma LineOfMonotone(t: Bytes, i: nat, j: nat)
    requires i <= j <= |t|
    ensures LineOf(t, i) <= LineOf(t, j)
  {
    CountNewlinesPrefix(t, i, j);
  }
}
