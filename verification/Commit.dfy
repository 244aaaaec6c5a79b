/** Optimistic commit: read the root, compute a new one, swap it in if the root is still the one read. */
module Committing {
  import opened Text
  import opened Nodes
  import opened Storage
  import opened Tree
  import opened Navigation
  import opened Splicing
  import opened TreeDiff
  import opened ApplyEdits
  import opened Regions
  import opened Shifting
  import opened ThreeWay
  import opened Reports
  import opened Rebasing
  import opened Rivalry

  /** Which way of getting in a commit took; `NoOp` got in nothing. */
  datatype CommitKind = Direct | RebasedOnto | MergedOnto | NoOp

  datatype CommitResult =
    | Committed(version: nat, root: Hash, kind: CommitKind, retries: nat)
    | NotFound
    | Contention
    | Conflict(info: ConflictInfo)
    | Invalid

  /** A root that was built from the text it spells. */
  ghost predicate IsDocument(cfg: Config, h: Hash)
    requires cfg.Valid()
  {
    h == BuildRoot(cfg, TextOf(h))
  }

  lemma BuiltIsDocument(cfg: Config, t: Bytes)
    requires cfg.Valid()
    ensures IsDocument(cfg, BuildRoot(cfg, t)) && TextOf(BuildRoot(cfg, t)) == t
  {
    var _ := BuiltRoot(cfg, t);
  }

  ghost predicate Held(st: MemStorage, cfg: Config, h: Hash)
    requires cfg.Valid()
    reads st`chunks, st`nodes
  {
    h in st.Stored() && IsDocument(cfg, h)
  }

  /** The root of every file is a stored document. */
  ghost predicate AllHeld(st: MemStorage, cfg: Config)
    requires cfg.Valid()
    reads st`chunks, st`nodes, st`roots
  {
    st.Sound() && forall f | f in st.roots :: Held(st, cfg, st.roots[f].0)
  }

  /** What a committer that read root `cur` comes to propose: the outcome of its edits there. */
  datatype Proposal = Propose(root: Hash, kind: CommitKind) | Refuse(result: CommitResult)

  /** The edits applied to their own base, or rebased onto a document that moved. */
  ghost predicate Proposes(cfg: Config, base: Hash, cur: Hash, edits: seq<Edit>, version: nat, p: Proposal)
    requires cfg.Valid()
  {
    var t, u := TextOf(base), TextOf(cur);
    if cur == base then
      if Ascending(edits, 0, |t|) then p == Propose(BuildRoot(cfg, Splice(t, edits)), Direct) else p == Refuse(Invalid)
    else
      exists runs, r {:trigger RebasedAs(cfg, t, u, runs, edits, version, r)} ::
        Reported(cfg, t, u, runs) && RunsOf(t, u, runs) && RebasedAs(cfg, t, u, runs, edits, version, r)
          && p == ProposalOf(r)
  }

  function ProposalOf(r: RebaseOutcome): Proposal {
    match r
    case Rebased(root) => Propose(root, RebasedOnto)
    case Merged(root) => Propose(root, MergedOnto)
    case Conflicted(info) => Refuse(CommitResult.Conflict(info))
    case BadEdit => Refuse(Invalid)
  }

  method ComputeProposal(st: MemStorage, cfg: Config, base: Hash, cur: Hash, edits: seq<Edit>, version: nat,
      cached: Option<Hash>)
      returns (p: Proposal, cached': Option<Hash>)
    requires cfg.Valid() && st.Sound() && Held(st, cfg, base) && Held(st, cfg, cur)
    requires CachedOk(st, cfg, base, edits, cached)
    modifies st`chunks, st`chunkBytesWritten, st`nodes, st`nodeWrites
    ensures st.Sound() && old(st.Stored()) <= st.Stored()
    ensures Proposes(cfg, base, cur, edits, version, p)
    ensures p.Propose? ==> Held(st, cfg, p.root)
    ensures p.Refuse? ==> p.result.Conflict? || p.result.Invalid?
    ensures p.Propose? ==> !p.kind.NoOp?
    ensures CachedOk(st, cfg, base, edits, cached')
  {
    hide Ascending, BuildRoot, Reported, RunsOf, Settles, Splice, TextOf;
    cached' := cached;
    ghost var t, u := TextOf(base), TextOf(cur);
    if cur == base {
      if cached.Some? {
        p := Propose(cached.value, Direct);
      } else {
        var outcome := ApplyEditSet(st, cfg, base, edits, t);
        if outcome.InvalidEdit? {
          return Refuse(Invalid), cached;
        }
        cached' := Some(outcome.root);
        p := Propose(outcome.root, Direct);
      }
      BuiltIsDocument(cfg, Splice(t, edits));
    } else {
      var r, runs := Rebase(st, cfg, base, cur, edits, version, t, u);
      p := ProposalOf(r);
      RebasedIsDocument(cfg, t, u, runs, edits, version, r);
    }
  }

  lemma {:induction false} RebasedIsDocument(cfg: Config, t: Bytes, u: Bytes, runs: seq<ChangedRun>, edits: seq<Edit>,
      version: nat, r: RebaseOutcome)
    requires cfg.Valid() && RunsOf(t, u, runs) && RebasedAs(cfg, t, u, runs, edits, version, r)
    ensures r.Rebased? || r.Merged? ==> IsDocument(cfg, r.root)
  {
    hide RunsOf, Hits, RunEdits, MergedEdits, LeastRegion, Info, Splice, Ascending, BuildRoot, IsDocument;
    if Hits(t, runs, edits) == [] {
      if r.Rebased? {
        var text :| r.root == BuildRoot(cfg, text);
        BuiltIsDocument(cfg, text);
      }
    } else {
      var lo: nat, hi: nat :| MergeOutcome(cfg, t, u, runs, edits, lo, hi, version, r);
      MergedIsDocument(cfg, t, u, runs, edits, lo, hi, version, r);
    }
  }

  lemma {:induction false} MergedIsDocument(cfg: Config, t: Bytes, u: Bytes, runs: seq<ChangedRun>, edits: seq<Edit>,
      lo: nat, hi: nat, version: nat, r: RebaseOutcome)
    requires cfg.Valid() && RunsOf(t, u, runs) && MergeOutcome(cfg, t, u, runs, edits, lo, hi, version, r)
    ensures !r.Rebased? && (r.Merged? ==> IsDocument(cfg, r.root))
  {
    hide RunsOf, RunEdits, MergedEdits, Info, Splice, Ascending, BuildRoot, IsDocument;
    if r.Merged? {
      var text :| r.root == BuildRoot(cfg, text);
      BuiltIsDocument(cfg, text);
    }
  }

  // ----- the retry loop -----

  /** Swaps by other committers, one after another. */
  method Rival(st: MemStorage, cfg: Config, file: nat, swaps: seq<Hash>)
    requires cfg.Valid() && AllHeld(st, cfg) && file in st.roots
    requires forall h | h in swaps :: Held(st, cfg, h)
    modifies st`roots
    ensures AllHeld(st, cfg) && file in st.roots
    ensures OthersSame(old(st.roots), st.roots, file)
    ensures st.roots[file] == (LastRoot(old(st.roots)[file].0, swaps), old(st.roots)[file].1 + |swaps|)
  {
    hide IsDocument, Closed;
    var i := 0;
    while i < |swaps|
      invariant i <= |swaps| && AllHeld(st, cfg) && file in st.roots && OthersSame(old(st.roots), st.roots, file)
      invariant st.roots[file] == (LastRoot(old(st.roots)[file].0, swaps[..i]), old(st.roots)[file].1 + i)
    {
      assert swaps[i] in swaps && swaps[..i + 1][i] == swaps[i];
      var _ := st.CasRoot(file, Some(st.roots[file].0), swaps[i]);
      i := i + 1;
    }
    assert swaps[..i] == swaps;
  }

  /** What one attempt may end in that read root `read` at version `v`: `swaps` are those of others
      between its read and its swap, `now` what it leaves. The version returned is one above the one
      read, which is the version installed only when nobody swapped in between; and somebody did so
      twice or more if at all, for the root to be back. */
  ghost predicate AttemptShows(cfg: Config, base: Hash, edits: seq<Edit>, read: Hash, v: nat, swaps: seq<Hash>,
      now: (Hash, nat), attempt: nat, r: CommitResult)
    requires cfg.Valid()
  {
    match r
    case NotFound => false
    case Contention => false
    case Committed(version, root, kind, tries) =>
      tries == attempt &&
      if kind.NoOp? then
        root == read && version == v && now == (read, v) && exists k ::
          Proposes(cfg, base, read, edits, v, Propose(read, k))
      else
        && LastRoot(read, swaps) == read && |swaps| != 1 && root != read
        && version == v + 1 && now == (root, v + |swaps| + 1)
        && Proposes(cfg, base, read, edits, v, Propose(root, kind))
    case _ =>
      now == (read, v) && Proposes(cfg, base, read, edits, v, Refuse(r)) && (r.Conflict? ==> r.info.version == v)
  }

  /** A call's result: contention when others beat every attempt allowed, and otherwise what the first
      attempt that they did not beat ended in. */
  ghost predicate CommitShows(cfg: Config, base: Hash, edits: seq<Edit>, retries: nat, first: (Hash, nat),
      windows: seq<Window>, now: (Hash, nat), r: CommitResult)
    requires cfg.Valid()
  {
    if r.Contention? then
      && Beaten(first.0, windows, retries + 1)
      && now == (RootAt(first.0, windows, retries + 1), VersionAt(first.1, windows, retries + 1))
    else exists k: nat {:trigger WindowAt(windows, k)} ::
      && k <= retries && Beaten(first.0, windows, k)
      && AttemptShows(cfg, base, edits, ReadAt(first.0, windows, k), VersionRead(first.1, windows, k),
           WindowAt(windows, k).beforeSwap, now, k, r)
  }

  /** No other file's root changed. */
  predicate OthersSame(before: map<nat, (Hash, nat)>, now: map<nat, (Hash, nat)>, file: nat) {
    forall f | f in before && f != file :: f in now && now[f] == before[f]
  }

  /** Whatever others swap in is a stored document. */
  ghost predicate WindowIn(stored: set<Hash>, cfg: Config, w: Window)
    requires cfg.Valid()
  {
    forall h | h in w.beforeRead || h in w.beforeSwap :: h in stored && IsDocument(cfg, h)
  }

  ghost predicate WindowsIn(stored: set<Hash>, cfg: Config, windows: seq<Window>)
    requires cfg.Valid()
  {
    forall k | 0 <= k < |windows| :: WindowIn(stored, cfg, windows[k])
  }

  lemma WindowHeld(stored: set<Hash>, cfg: Config, windows: seq<Window>, k: nat)
    requires cfg.Valid() && WindowsIn(stored, cfg, windows)
    ensures WindowIn(stored, cfg, WindowAt(windows, k))
  {
  }

  lemma WindowsStay(stored: set<Hash>, stored': set<Hash>, cfg: Config, windows: seq<Window>)
    requires cfg.Valid() && WindowsIn(stored, cfg, windows) && stored <= stored'
    ensures WindowsIn(stored', cfg, windows)
  {
    forall k | 0 <= k < |windows| ensures WindowIn(stored', cfg, windows[k]) {
      assert WindowIn(stored, cfg, windows[k]);
    }
  }

  lemma OthersStillSame(a: map<nat, (Hash, nat)>, b: map<nat, (Hash, nat)>, c: map<nat, (Hash, nat)>, file: nat)
    requires OthersSame(a, b, file) && OthersSame(b, c, file)
    ensures OthersSame(a, c, file)
  {
  }

  /** The edits applied to their base, computed once. */
  ghost predicate CachedOk(st: MemStorage, cfg: Config, base: Hash, edits: seq<Edit>, cached: Option<Hash>)
    requires cfg.Valid()
    reads st`chunks, st`nodes
  {
    cached.Some? ==>
      && cached.value in st.Stored() && Ascending(edits, 0, |TextOf(base)|)
      && cached.value == BuildRoot(cfg, Splice(TextOf(base), edits))
  }

  /** Read the root and compute what to make of it. */
  method ReadAndCompute(st: MemStorage, cfg: Config, file: nat, base: Hash, edits: seq<Edit>, cached: Option<Hash>)
      returns (cur: Hash, v: nat, p: Proposal, cached': Option<Hash>)
    requires cfg.Valid() && AllHeld(st, cfg) && Held(st, cfg, base) && file in st.roots
    requires CachedOk(st, cfg, base, edits, cached)
    modifies st`chunks, st`chunkBytesWritten, st`nodes, st`nodeWrites
    ensures AllHeld(st, cfg) && old(st.Stored()) <= st.Stored() && CachedOk(st, cfg, base, edits, cached')
    ensures st.roots[file] == (cur, v) && Proposes(cfg, base, cur, edits, v, p)
    ensures p.Propose? ==> Held(st, cfg, p.root) && !p.kind.NoOp?
    ensures p.Refuse? ==> p.result.Conflict? || p.result.Invalid?
  {
    hide Proposes, IsDocument, Closed, CachedOk;
    cur, v := st.roots[file].0, st.roots[file].1;
    p, cached' := ComputeProposal(st, cfg, base, cur, edits, v, cached);
  }

  /** Swap the root in, unless another one is there by now. */
  method Swap(st: MemStorage, cfg: Config, file: nat, cur: Hash, root: Hash) returns (ok: bool)
    requires cfg.Valid() && AllHeld(st, cfg) && Held(st, cfg, root) && file in st.roots
    modifies st`roots
    ensures AllHeld(st, cfg) && file in st.roots && ok == (old(st.roots)[file].0 == cur)
    ensures st.roots == if ok then old(st.roots)[file := (root, old(st.roots)[file].1 + 1)] else old(st.roots)
  {
    hide IsDocument, Closed;
    ok := st.CasRoot(file, Some(cur), root);
  }

  /** One attempt: nothing when another swap came first. */
  method Attempt(st: MemStorage, cfg: Config, file: nat, base: Hash, edits: seq<Edit>, w: Window, attempt: nat,
      cached: Option<Hash>) returns (r: Option<CommitResult>, cached': Option<Hash>)
    requires cfg.Valid() && AllHeld(st, cfg) && Held(st, cfg, base) && file in st.roots
    requires WindowIn(st.Stored(), cfg, w) && CachedOk(st, cfg, base, edits, cached)
    requires Chain(LastRoot(st.roots[file].0, w.beforeRead), w.beforeSwap)
    modifies st
    ensures AllHeld(st, cfg) && old(st.Stored()) <= st.Stored() && file in st.roots
    ensures CachedOk(st, cfg, base, edits, cached') && OthersSame(old(st.roots), st.roots, file)
    ensures var read, v := LastRoot(old(st.roots)[file].0, w.beforeRead), old(st.roots)[file].1 + |w.beforeRead|;
      if r.Some? then AttemptShows(cfg, base, edits, read, v, w.beforeSwap, st.roots[file], attempt, r.value)
      else st.roots[file] == (LastRoot(read, w.beforeSwap), v + |w.beforeSwap|) && LastRoot(read, w.beforeSwap) != read
  {
    hide Proposes, IsDocument, Closed, CachedOk, AllHeld, AttemptShows, OthersSame, Chain, LastRoot;
    ghost var roots0 := st.roots;
    RivalsHeld(st, cfg, w);
    Rival(st, cfg, file, w.beforeRead);
    ghost var roots1 := st.roots;
    var cur, v, p;
    cur, v, p, cached' := ReadAndCompute(st, cfg, file, base, edits, cached);
    if p.Refuse? {
      r := Some(p.result);
      RefusalShows(cfg, base, edits, cur, v, w.beforeSwap, attempt, p.result);
      return;
    }
    if p.root == cur {
      r := Some(Committed(v, cur, NoOp, attempt));
      NoOpShows(cfg, base, edits, cur, v, w.beforeSwap, attempt, p.kind);
      return;
    }
    RivalsHeld(st, cfg, w);
    Rival(st, cfg, file, w.beforeSwap);
    ghost var roots2 := st.roots;
    OthersStillSame(roots0, roots1, roots2, file);
    var swapped := Swap(st, cfg, file, cur, p.root);
    SwapOthers(roots2, st.roots, file, swapped, p.root);
    OthersStillSame(roots0, roots2, st.roots, file);
    if swapped {
      r := Some(Committed(v + 1, p.root, p.kind, attempt));
      SwapShows(cfg, base, edits, cur, v, w.beforeSwap, attempt, p);
    } else {
      r := None;
    }
  }

  lemma RivalsHeld(st: MemStorage, cfg: Config, w: Window)
    requires cfg.Valid() && WindowIn(st.Stored(), cfg, w)
    ensures forall h | h in w.beforeRead || h in w.beforeSwap :: Held(st, cfg, h)
  {
  }

  lemma SwapOthers(before: map<nat, (Hash, nat)>, now: map<nat, (Hash, nat)>, file: nat, ok: bool, root: Hash)
    requires file in before && now == if ok then before[file := (root, before[file].1 + 1)] else before
    ensures OthersSame(before, now, file)
  {
  }

  lemma RefusalShows(cfg: Config, base: Hash, edits: seq<Edit>, read: Hash, v: nat, swaps: seq<Hash>, attempt: nat,
      r: CommitResult)
    requires cfg.Valid() && Proposes(cfg, base, read, edits, v, Refuse(r)) && (r.Conflict? || r.Invalid?)
    ensures AttemptShows(cfg, base, edits, read, v, swaps, (read, v), attempt, r)
  {
    hide Proposes;
    ConflictVersion(cfg, base, read, edits, v, r);
  }

  /** A conflict names the version that was read. */
  lemma {:induction false} ConflictVersion(cfg: Config, base: Hash, cur: Hash, edits: seq<Edit>, v: nat,
      r: CommitResult)
    requires cfg.Valid() && Proposes(cfg, base, cur, edits, v, Refuse(r))
    ensures r.Conflict? ==> r.info.version == v
  {
    hide Reported, RunsOf, RebasedAs, TextOf, BuildRoot, Splice, Ascending;
    var t, u := TextOf(base), TextOf(cur);
    if cur != base {
      var runs, o :| Reported(cfg, t, u, runs) && RunsOf(t, u, runs) && RebasedAs(cfg, t, u, runs, edits, v, o)
        && Refuse(r) == ProposalOf(o);
      RebasedVersion(cfg, t, u, runs, edits, v, o);
    }
  }

  lemma {:induction false} RebasedVersion(cfg: Config, t: Bytes, u: Bytes, runs: seq<ChangedRun>, edits: seq<Edit>,
      v: nat, r: RebaseOutcome)
    requires cfg.Valid() && RunsOf(t, u, runs) && RebasedAs(cfg, t, u, runs, edits, v, r)
    ensures r.Conflicted? ==> r.info.version == v
  {
    hide RunsOf, RunEdits, Hits, ShiftAll, MergeOutcome, LeastRegion, BuildRoot, Splice, Ascending;
    if Hits(t, runs, edits) != [] {
      var lo: nat, hi: nat :| MergeOutcome(cfg, t, u, runs, edits, lo, hi, v, r);
      MergeVersion(cfg, t, u, runs, edits, lo, hi, v, r);
    }
  }

  lemma {:induction false} MergeVersion(cfg: Config, t: Bytes, u: Bytes, runs: seq<ChangedRun>, edits: seq<Edit>,
      lo: nat, hi: nat, v: nat, r: RebaseOutcome)
    requires cfg.Valid() && RunsOf(t, u, runs) && MergeOutcome(cfg, t, u, runs, edits, lo, hi, v, r)
    ensures r.Conflicted? ==> r.info.version == v
  {
    hide RunsOf, RunEdits, MergedEdits, Diff3, CurrentOf, LineOf, Part, EditedPart, BuildRoot, Splice, Ascending;
  }

  lemma NoOpShows(cfg: Config, base: Hash, edits: seq<Edit>, read: Hash, v: nat, swaps: seq<Hash>, attempt: nat,
      kind: CommitKind)
    requires cfg.Valid() && Proposes(cfg, base, read, edits, v, Propose(read, kind))
    ensures AttemptShows(cfg, base, edits, read, v, swaps, (read, v), attempt, Committed(v, read, NoOp, attempt))
  {
    hide Proposes;
  }

  lemma SwapShows(cfg: Config, base: Hash, edits: seq<Edit>, read: Hash, v: nat, swaps: seq<Hash>, attempt: nat,
      p: Proposal)
    requires cfg.Valid() && p.Propose? && Proposes(cfg, base, read, edits, v, p) && !p.kind.NoOp? && p.root != read
    requires LastRoot(read, swaps) == read && Chain(read, swaps)
    ensures AttemptShows(cfg, base, edits, read, v, swaps, (p.root, v + |swaps| + 1), attempt,
      Committed(v + 1, p.root, p.kind, attempt))
  {
    AwayAndBack(read, swaps);
    hide Proposes;
  }

  /** Commit edits made against `base`, with the swaps others make in the meantime given. */
  method Commit(st: MemStorage, cfg: Config, file: nat, base: Hash, edits: seq<Edit>, retries: nat,
      windows: seq<Window>)
      returns (r: CommitResult)
    requires cfg.Valid() && AllHeld(st, cfg) && Held(st, cfg, base)
    requires WindowsIn(st.Stored(), cfg, windows) && (file in st.roots ==> Fits(st.roots[file].0, windows))
    modifies st
    ensures AllHeld(st, cfg) && old(st.Stored()) <= st.Stored()
    ensures r.NotFound? <==> file !in old(st.roots)
    ensures file !in old(st.roots) ==> st.roots == old(st.roots)
    ensures OthersSame(old(st.roots), st.roots, file)
    ensures file in old(st.roots) ==>
      file in st.roots && CommitShows(cfg, base, edits, retries, old(st.roots)[file], windows, st.roots[file], r)
  {
    hide *;
    if file !in st.roots {
      OthersUnchanged(st.roots, file);
      return NotFound;
    }
    ghost var first := st.roots[file];
    var attempt: nat := 0;
    var cached: Option<Hash> := None;
    NothingCached(st, cfg, base, edits);
    AtFirst(first, windows);
    OthersUnchanged(st.roots, file);
    while true
      invariant AllHeld(st, cfg) && old(st.Stored()) <= st.Stored() && file in st.roots
      invariant CachedOk(st, cfg, base, edits, cached)
      invariant OthersSame(old(st.roots), st.roots, file)
      invariant Held(st, cfg, base) && WindowsIn(st.Stored(), cfg, windows)
      invariant attempt <= retries && Beaten(first.0, windows, attempt)
      invariant st.roots[file] == (RootAt(first.0, windows, attempt), VersionAt(first.1, windows, attempt))
      decreases retries - attempt
    {
      ghost var roots := st.roots;
      var done;
      done, cached := Turn(st, cfg, file, base, edits, retries, windows, attempt, cached, first);
      OthersStillSame(old(st.roots), roots, st.roots, file);
      if done.Some? {
        return done.value;
      }
      attempt := attempt + 1;
      if attempt > retries {
        AllBeaten(cfg, base, edits, retries, first, windows);
        return Contention;
      }
    }
  }

  /** One turn of the loop. */
  method Turn(st: MemStorage, cfg: Config, file: nat, base: Hash, edits: seq<Edit>, retries: nat, windows: seq<Window>,
      attempt: nat, cached: Option<Hash>, ghost first: (Hash, nat))
        returns (done: Option<CommitResult>, cached': Option<Hash>)
    requires cfg.Valid() && AllHeld(st, cfg) && Held(st, cfg, base) && file in st.roots
    requires WindowsIn(st.Stored(), cfg, windows) && Fits(first.0, windows) && CachedOk(st, cfg, base, edits, cached)
    requires attempt <= retries && Beaten(first.0, windows, attempt)
    requires st.roots[file] == (RootAt(first.0, windows, attempt), VersionAt(first.1, windows, attempt))
    modifies st
    ensures AllHeld(st, cfg) && old(st.Stored()) <= st.Stored() && file in st.roots && Held(st, cfg, base)
    ensures WindowsIn(st.Stored(), cfg, windows) && CachedOk(st, cfg, base, edits, cached')
    ensures OthersSame(old(st.roots), st.roots, file)
    ensures done.Some? ==>
      !done.value.NotFound? && CommitShows(cfg, base, edits, retries, first, windows, st.roots[file], done.value)
    ensures done.None? ==>
      && Beaten(first.0, windows, attempt + 1)
      && st.roots[file] == (RootAt(first.0, windows, attempt + 1), VersionAt(first.1, windows, attempt + 1))
  {
    hide AttemptShows, IsDocument, Closed, CachedOk, AllHeld, CommitShows, OthersSame, WindowsIn, WindowIn, Beaten,
      ReadAt,
      RootAt, VersionAt, VersionRead, WindowAt, Fits, Chain, LastRoot;
    WindowHeld(st.Stored(), cfg, windows, attempt);
    ghost var stored := st.Stored();
    var w := WindowAt(windows, attempt);
    FitsAt(first.0, windows, attempt);
    AttemptReads(first, windows, attempt);
    done, cached' := Attempt(st, cfg, file, base, edits, w, attempt, cached);
    WindowsStay(stored, st.Stored(), cfg, windows);
    if done.Some? {
      FirstUnbeaten(cfg, base, edits, retries, first, windows, st.roots[file], attempt, done.value);
    } else {
      BeatenOnce(first.0, windows, attempt);
    }
  }

  lemma AtFirst(first: (Hash, nat), windows: seq<Window>)
    ensures Beaten(first.0, windows, 0)
    ensures first == (RootAt(first.0, windows, 0), VersionAt(first.1, windows, 0))
  {
  }

  /** What an attempt reads, and what it leaves when it is beaten. */
  lemma AttemptReads(first: (Hash, nat), windows: seq<Window>, k: nat)
    ensures var w, read, v := WindowAt(windows, k), ReadAt(first.0, windows, k), VersionRead(first.1, windows, k);
      && read == LastRoot(RootAt(first.0, windows, k), w.beforeRead)
      && v == VersionAt(first.1, windows, k) + |w.beforeRead|
      && RootAt(first.0, windows, k + 1) == LastRoot(read, w.beforeSwap)
      && VersionAt(first.1, windows, k + 1) == v + |w.beforeSwap|
  {
  }

  lemma FirstUnbeaten(cfg: Config, base: Hash, edits: seq<Edit>, retries: nat, first: (Hash, nat), windows: seq<Window>,
      now: (Hash, nat), k: nat, r: CommitResult)
    requires cfg.Valid() && k <= retries && Beaten(first.0, windows, k)
    requires AttemptShows(cfg, base, edits, ReadAt(first.0, windows, k), VersionRead(first.1, windows, k),
      WindowAt(windows, k).beforeSwap, now, k, r)
    ensures !r.NotFound? && CommitShows(cfg, base, edits, retries, first, windows, now, r)
  {
    hide Proposes;
  }

  lemma AllBeaten(cfg: Config, base: Hash, edits: seq<Edit>, retries: nat, first: (Hash, nat), windows: seq<Window>)
    requires cfg.Valid() && Beaten(first.0, windows, retries + 1)
    ensures CommitShows(cfg, base, edits, retries, first, windows,
      (RootAt(first.0, windows, retries + 1), VersionAt(first.1, windows, retries + 1)), Contention)
  {
  }

  lemma OthersUnchanged(roots: map<nat, (Hash, nat)>, file: nat)
    ensures OthersSame(roots, roots, file)
  {
  }

  lemma NothingCached(st: MemStorage, cfg: Config, base: Hash, edits: seq<Edit>)
    requires cfg.Valid()
    ensures CachedOk(st, cfg, base, edits, None)
  {
  }

  // ----- appends -----

  /** What one attempt at an append may end in, as `AttemptShows` has it for edits. */
  ghost predicate AppendShows(tail: Bytes, read: Hash, v: nat, swaps: seq<Hash>, now: (Hash, nat), attempt: nat,
      r: CommitResult)
  {
    r.Committed? && r.retries == attempt && TextOf(r.root) == TextOf(read) + tail &&
    if r.kind.NoOp? then
      r.root == read && r.version == v && now == (read, v) && tail == []
    else
      && r.kind == (if attempt == 0 then Direct else RebasedOnto) && tail != []
      && LastRoot(read, swaps) == read && |swaps| != 1
      && r.version == v + 1 && now == (r.root, v + |swaps| + 1)
  }

  lemma AppendText(t: Bytes, tail: Bytes)
    ensures Ascending([Edit(|t|, |t|, tail)], 0, |t|) && Splice(t, [Edit(|t|, |t|, tail)]) == t + tail
  {
    var none: seq<Edit> := [];
    var e := Edit(|t|, |t|, tail);
    assert [e][1..] == none;
    assert SpliceFrom(t, none, |t|) == [] && t[0..|t|] == t;
    assert Splice(t, [e]) == t[0..|t|] + tail + SpliceFrom(t, none, |t|);
  }

  /** The tail behind a document. */
  method ComputeAppend(st: MemStorage, cfg: Config, cur: Hash, tail: Bytes) returns (root: Hash)
    requires cfg.Valid() && st.Sound() && Held(st, cfg, cur)
    modifies st`chunks, st`chunkBytesWritten, st`nodes, st`nodeWrites
    ensures st.Sound() && old(st.Stored()) <= st.Stored()
    ensures root == BuildRoot(cfg, TextOf(cur) + tail) && Held(st, cfg, root) && TextOf(root) == TextOf(cur) + tail
    ensures root == cur <==> tail == []
  {
    hide Reads, Closed;
    ghost var t := TextOf(cur);
    ghost var top := CanonicalReads(st, cfg, cur, t);
    var len, _ := Totals(st, cur, top, t);
    AppendText(t, tail);
    BuiltIsDocument(cfg, t + tail);
    RootsNameDocuments(cfg, t + tail, t);
    assert t + tail == t <==> tail == [] by {
      assert |t + tail| == |t| + |tail|;
    }
    var outcome := ApplyEditSet(st, cfg, cur, [Edit(len, len, tail)], t);
    root := outcome.root;
  }

  /** Read the root and put the tail behind it. */
  method ReadAndAppend(st: MemStorage, cfg: Config, file: nat, tail: Bytes) returns (cur: Hash, v: nat, root: Hash)
    requires cfg.Valid() && AllHeld(st, cfg) && file in st.roots
    modifies st`chunks, st`chunkBytesWritten, st`nodes, st`nodeWrites
    ensures AllHeld(st, cfg) && old(st.Stored()) <= st.Stored()
    ensures st.roots[file] == (cur, v) && Held(st, cfg, root) && TextOf(root) == TextOf(cur) + tail
    ensures root == cur <==> tail == []
  {
    hide IsDocument, Closed, TextOf, BuildRoot;
    cur, v := st.roots[file].0, st.roots[file].1;
    root := ComputeAppend(st, cfg, cur, tail);
  }

  lemma AppendNoOpShows(tail: Bytes, read: Hash, v: nat, swaps: seq<Hash>, attempt: nat)
    requires tail == []
    ensures AppendShows(tail, read, v, swaps, (read, v), attempt, Committed(v, read, NoOp, attempt))
  {
    assert TextOf(read) + tail == TextOf(read);
  }

  lemma AppendSwapShows(tail: Bytes, read: Hash, v: nat, swaps: seq<Hash>, attempt: nat, root: Hash)
    requires tail != [] && TextOf(root) == TextOf(read) + tail && LastRoot(read, swaps) == read && Chain(read, swaps)
    ensures AppendShows(tail, read, v, swaps, (root, v + |swaps| + 1), attempt,
      Committed(v + 1, root, if attempt == 0 then Direct else RebasedOnto, attempt))
  {
    AwayAndBack(read, swaps);
  }

  method AttemptAppend(st: MemStorage, cfg: Config, file: nat, tail: Bytes, w: Window, attempt: nat)
      returns (r: Option<CommitResult>)
    requires cfg.Valid() && AllHeld(st, cfg) && file in st.roots && WindowIn(st.Stored(), cfg, w)
    requires Chain(LastRoot(st.roots[file].0, w.beforeRead), w.beforeSwap)
    modifies st
    ensures AllHeld(st, cfg) && old(st.Stored()) <= st.Stored() && file in st.roots
    ensures OthersSame(old(st.roots), st.roots, file)
    ensures var read, v := LastRoot(old(st.roots)[file].0, w.beforeRead), old(st.roots)[file].1 + |w.beforeRead|;
      if r.Some? then AppendShows(tail, read, v, w.beforeSwap, st.roots[file], attempt, r.value)
      else st.roots[file] == (LastRoot(read, w.beforeSwap), v + |w.beforeSwap|) && LastRoot(read, w.beforeSwap) != read
  {
    hide IsDocument, Closed, TextOf, OthersSame, Chain, LastRoot, BuildRoot, AllHeld, AppendShows;
    ghost var roots0 := st.roots;
    RivalsHeld(st, cfg, w);
    Rival(st, cfg, file, w.beforeRead);
    ghost var roots1 := st.roots;
    var cur, v, root := ReadAndAppend(st, cfg, file, tail);
    if root == cur {
      AppendNoOpShows(tail, cur, v, w.beforeSwap, attempt);
      return Some(Committed(v, cur, NoOp, attempt));
    }
    RivalsHeld(st, cfg, w);
    Rival(st, cfg, file, w.beforeSwap);
    ghost var roots2 := st.roots;
    OthersStillSame(roots0, roots1, roots2, file);
    var swapped := Swap(st, cfg, file, cur, root);
    SwapOthers(roots2, st.roots, file, swapped, root);
    OthersStillSame(roots0, roots2, st.roots, file);
    if swapped {
      AppendSwapShows(tail, cur, v, w.beforeSwap, attempt, root);
      r := Some(Committed(v + 1, root, if attempt == 0 then Direct else RebasedOnto, attempt));
    } else {
      r := None;
    }
  }

  /** An append never conflicts: it lands behind whatever the document has become, or gives up after
      `retries + 1` attempts that were all beaten. */
  ghost predicate AppendResult(tail: Bytes, retries: nat, first: (Hash, nat), windows: seq<Window>, now: (Hash, nat),
      r: CommitResult)
  {
    if r.Contention? then
      && Beaten(first.0, windows, retries + 1)
      && now == (RootAt(first.0, windows, retries + 1), VersionAt(first.1, windows, retries + 1))
    else exists k: nat {:trigger WindowAt(windows, k)} ::
      && k <= retries && Beaten(first.0, windows, k)
      && AppendShows(tail, ReadAt(first.0, windows, k), VersionRead(first.1, windows, k),
           WindowAt(windows, k).beforeSwap, now, k, r)
  }

  /** Put `tail` behind the document, whatever it has become by then. */
  method CommitAppend(st: MemStorage, cfg: Config, file: nat, tail: Bytes, retries: nat, windows: seq<Window>)
      returns (r: CommitResult)
    requires cfg.Valid() && AllHeld(st, cfg)
    requires WindowsIn(st.Stored(), cfg, windows) && (file in st.roots ==> Fits(st.roots[file].0, windows))
    modifies st
    ensures AllHeld(st, cfg) && old(st.Stored()) <= st.Stored()
    ensures r.NotFound? <==> file !in old(st.roots)
    ensures file !in old(st.roots) ==> st.roots == old(st.roots)
    ensures OthersSame(old(st.roots), st.roots, file)
    ensures file in old(st.roots) ==>
      file in st.roots && AppendResult(tail, retries, old(st.roots)[file], windows, st.roots[file], r)
  {
    if file !in st.roots {
      OthersUnchanged(st.roots, file);
      return NotFound;
    }
    r := AppendLoop(st, cfg, file, tail, retries, windows);
  }

  method AppendLoop(st: MemStorage, cfg: Config, file: nat, tail: Bytes, retries: nat, windows: seq<Window>)
      returns (r: CommitResult)
    requires cfg.Valid() && AllHeld(st, cfg) && WindowsIn(st.Stored(), cfg, windows)
    requires file in st.roots && Fits(st.roots[file].0, windows)
    modifies st
    ensures AllHeld(st, cfg) && old(st.Stored()) <= st.Stored() && !r.NotFound?
    ensures OthersSame(old(st.roots), st.roots, file) && file in st.roots
    ensures AppendResult(tail, retries, old(st.roots)[file], windows, st.roots[file], r)
  {
    hide *;
    ghost var first := st.roots[file];
    var attempt: nat := 0;
    AtFirst(first, windows);
    OthersUnchanged(st.roots, file);
    while true
      invariant AllHeld(st, cfg) && old(st.Stored()) <= st.Stored() && file in st.roots
      invariant OthersSame(old(st.roots), st.roots, file) && WindowsIn(st.Stored(), cfg, windows)
      invariant attempt <= retries && Beaten(first.0, windows, attempt)
      invariant st.roots[file] == (RootAt(first.0, windows, attempt), VersionAt(first.1, windows, attempt))
      decreases retries - attempt
    {
      ghost var roots := st.roots;
      var done := AppendTurn(st, cfg, file, tail, retries, windows, attempt, first);
      OthersStillSame(old(st.roots), roots, st.roots, file);
      if done.Some? {
        return done.value;
      }
      attempt := attempt + 1;
      if attempt > retries {
        AppendBeaten(tail, retries, first, windows);
        return Contention;
      }
    }
  }

  method AppendTurn(st: MemStorage, cfg: Config, file: nat, tail: Bytes, retries: nat, windows: seq<Window>,
      attempt: nat, ghost first: (Hash, nat)) returns (done: Option<CommitResult>)
    requires cfg.Valid() && AllHeld(st, cfg) && file in st.roots
    requires WindowsIn(st.Stored(), cfg, windows) && Fits(first.0, windows)
    requires attempt <= retries && Beaten(first.0, windows, attempt)
    requires st.roots[file] == (RootAt(first.0, windows, attempt), VersionAt(first.1, windows, attempt))
    modifies st
    ensures AllHeld(st, cfg) && old(st.Stored()) <= st.Stored() && file in st.roots
    ensures WindowsIn(st.Stored(), cfg, windows) && OthersSame(old(st.roots), st.roots, file)
    ensures done.Some? ==>
      !done.value.NotFound? && AppendResult(tail, retries, first, windows, st.roots[file], done.value)
    ensures done.None? ==>
      && Beaten(first.0, windows, attempt + 1)
      && st.roots[file] == (RootAt(first.0, windows, attempt + 1), VersionAt(first.1, windows, attempt + 1))
  {
    hide AppendShows, IsDocument, Closed, AllHeld, AppendResult, OthersSame, WindowsIn, WindowIn, Beaten, ReadAt,
      RootAt, VersionAt, VersionRead, WindowAt, Fits, Chain, LastRoot;
    WindowHeld(st.Stored(), cfg, windows, attempt);
    ghost var stored := st.Stored();
    var w := WindowAt(windows, attempt);
    FitsAt(first.0, windows, attempt);
    AttemptReads(first, windows, attempt);
    done := AttemptAppend(st, cfg, file, tail, w, attempt);
    WindowsStay(stored, st.Stored(), cfg, windows);
    if done.Some? {
      AppendUnbeaten(tail, retries, first, windows, st.roots[file], attempt, done.value);
    } else {
      BeatenOnce(first.0, windows, attempt);
    }
  }

  lemma AppendUnbeaten(tail: Bytes, retries: nat, first: (Hash, nat), windows: seq<Window>, now: (Hash, nat), k: nat,
      r: CommitResult)
    requires k <= retries && Beaten(first.0, windows, k)
    requires AppendShows(tail, ReadAt(first.0, windows, k), VersionRead(first.1, windows, k),
      WindowAt(windows, k).beforeSwap, now, k, r)
    ensures r.Committed? && AppendResult(tail, retries, first, windows, now, r)
  {
  }

  lemma AppendBeaten(tail: Bytes, retries: nat, first: (Hash, nat), windows: seq<Window>)
    requires Beaten(first.0, windows, retries + 1)
    ensures AppendResult(tail, retries, first, windows,
      (RootAt(first.0, windows, retries + 1), VersionAt(first.1, windows, retries + 1)), Contention)
  {
  }
}
