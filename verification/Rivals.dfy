/** What other committers do to a document around the attempts of one call. */
module Rivalry {
  import opened Nodes

  /** The roots others swap in during one attempt: before it reads the document, and between its
      read and its own swap. */
  datatype Window = Window(beforeRead: seq<Hash>, beforeSwap: seq<Hash>)

  /** The root after a series of swaps. */
  function LastRoot(root: Hash, swaps: seq<Hash>): Hash {
    if swaps == [] then root else swaps[|swaps| - 1]
  }

  /** No swap puts in the root that is there: whoever proposes that is answered without a swap. */
  ghost predicate Chain(root: Hash, swaps: seq<Hash>) {
    forall k | 0 <= k < |swaps| :: RootBefore(root, swaps, k) != swaps[k]
  }

  /** The root that the k-th swap replaces. */
  function RootBefore(root: Hash, swaps: seq<Hash>, k: nat): Hash
    requires k <= |swaps|
  {
    if k == 0 then root else swaps[k - 1]
  }

  /** A document cannot go away and come back in one swap. */
  lemma AwayAndBack(root: Hash, swaps: seq<Hash>)
    requires Chain(root, swaps)
    ensures LastRoot(root, swaps) == root ==> |swaps| != 1
  {
    if |swaps| == 1 {
      assert RootBefore(root, swaps, 0) == root;
    }
  }

  /** Attempts behind the last window are left alone. */
  function WindowAt(windows: seq<Window>, attempt: nat): Window {
    if attempt < |windows| then windows[attempt] else Window([], [])
  }

  /** The root when an attempt starts, all the ones before it having been beaten. */
  function RootAt(first: Hash, windows: seq<Window>, attempt: nat): Hash
    decreases attempt, 0
  {
    if attempt == 0 then first
    else LastRoot(ReadAt(first, windows, attempt - 1), WindowAt(windows, attempt - 1).beforeSwap)
  }

  /** The root an attempt reads. */
  function ReadAt(first: Hash, windows: seq<Window>, attempt: nat): Hash
    decreases attempt, 1
  {
    LastRoot(RootAt(first, windows, attempt), WindowAt(windows, attempt).beforeRead)
  }

  /** The version when an attempt starts: every swap so far was by others. */
  function VersionAt(first: nat, windows: seq<Window>, attempt: nat): nat
    decreases attempt, 0
  {
    if attempt == 0 then first
    else VersionRead(first, windows, attempt - 1) + |WindowAt(windows, attempt - 1).beforeSwap|
  }

  /** The version an attempt reads. */
  function VersionRead(first: nat, windows: seq<Window>, attempt: nat): nat
    decreases attempt, 1
  {
    VersionAt(first, windows, attempt) + |WindowAt(windows, attempt).beforeRead|
  }

  /** The windows are what committers can do to a document whose root is `first`. */
  ghost predicate Fits(first: Hash, windows: seq<Window>) {
    forall k {:trigger WindowAt(windows, k)} | 0 <= k < |windows| ::
      && Chain(RootAt(first, windows, k), WindowAt(windows, k).beforeRead)
      && Chain(ReadAt(first, windows, k), WindowAt(windows, k).beforeSwap)
  }

  lemma FitsAt(first: Hash, windows: seq<Window>, attempt: nat)
    requires Fits(first, windows)
    ensures Chain(RootAt(first, windows, attempt), WindowAt(windows, attempt).beforeRead)
    ensures Chain(ReadAt(first, windows, attempt), WindowAt(windows, attempt).beforeSwap)
  {
  }

  /** Others left another root than the one read in every attempt before the one given. */
  ghost predicate Beaten(first: Hash, windows: seq<Window>, attempts: nat) {
    forall k {:trigger WindowAt(windows, k)} | 0 <= k < attempts ::
      LastRoot(ReadAt(first, windows, k), WindowAt(windows, k).beforeSwap) != ReadAt(first, windows, k)
  }

  lemma BeatenOnce(first: Hash, windows: seq<Window>, k: nat)
    requires Beaten(first, windows, k)
    requires LastRoot(ReadAt(first, windows, k), WindowAt(windows, k).beforeSwap) != ReadAt(first, windows, k)
    ensures Beaten(first, windows, k + 1)
  {
  }
}
