/** Many committers on one document, every interleaving of their steps. */
module Protocol {
  import opened Text
  import opened Nodes
  import opened Tree
  import opened Splicing
  import opened Rebasing
  import opened Reports
  import opened Regions
  import opened Shifting
  import opened Committing

  datatype Request = EditRequest(base: Hash, edits: seq<Edit>) | AppendRequest(tail: Bytes)

  /** Where a committer is in its loop: about to read; holding what it read, and how many swaps had
      been made by then; ready to swap; or done. */
  datatype Phase =
    | Reading
    | Holding(cur: Hash, version: nat, seen: nat)
    | Ready(cur: Hash, version: nat, seen: nat, next: Hash, kind: CommitKind)
    | Finished(result: CommitResult)

  /** `attempt` is the loop's counter; `swaps` counts the compare-and-swaps tried. */
  datatype Client = Client(request: Request, retries: nat, attempt: nat, swaps: nat, phase: Phase)

  /** A swap that succeeded: whose, which root it replaced, and by which. */
  datatype Swapped = Swapped(client: nat, onto: Hash, root: Hash)

  datatype State = State(stored: set<Hash>, root: Hash, version: nat, clients: seq<Client>, log: seq<Swapped>)

  /** What a request makes of the root that was read. */
  ghost predicate Answers(cfg: Config, request: Request, cur: Hash, version: nat, attempt: nat, p: Proposal)
    requires cfg.Valid()
  {
    match request
    case EditRequest(base, edits) => Proposes(cfg, base, cur, edits, version, p)
    case AppendRequest(tail) =>
      p == Propose(BuildRoot(cfg, TextOf(cur) + tail), if attempt == 0 then Direct else RebasedOnto)
  }

  ghost predicate OnlyClient(s: State, s': State, i: nat) {
    |s'.clients| == |s.clients| && i < |s.clients| && s'.clients == s.clients[i := s'.clients[i]]
  }

  ghost predicate ReadStep(s: State, s': State, i: nat) {
    && OnlyClient(s, s', i) && s.clients[i].phase.Reading?
    && s' == s.(clients := s'.clients)
    && s'.clients[i] == s.clients[i].(phase := Holding(s.root, s.version, |s.log|))
  }

  /** Computing stores content and touches nothing else. */
  ghost predicate ComputeStep(cfg: Config, s: State, s': State, i: nat, p: Proposal)
    requires cfg.Valid()
  {
    && OnlyClient(s, s', i) && s.clients[i].phase.Holding?
    && s' == s.(clients := s'.clients, stored := s'.stored) && s.stored <= s'.stored && Closed(s'.stored)
    && var c := s.clients[i];
    var h := c.phase;
    && Answers(cfg, c.request, h.cur, h.version, c.attempt, p)
    && (p.Propose? ==> p.root in s'.stored)
    && s'.clients[i] == c.(phase :=
         if p.Refuse? then Finished(p.result)
         else if p.root == h.cur then Finished(Committed(h.version, h.cur, NoOp, c.attempt))
         else Ready(h.cur, h.version, h.seen, p.root, p.kind))
  }

  ghost predicate SwapStep(s: State, s': State, i: nat) {
    && OnlyClient(s, s', i) && s.clients[i].phase.Ready?
    && var c := s.clients[i];
    var r := c.phase;
    if s.root == r.cur then
      && s' == s.(clients := s'.clients, root := r.next, version := s.version + 1,
           log := s.log + [Swapped(i, r.cur, r.next)])
      && s'.clients[i] ==
           c.(swaps := c.swaps + 1, phase := Finished(Committed(r.version + 1, r.next, r.kind, c.attempt)))
    else
      && s' == s.(clients := s'.clients)
      && s'.clients[i] == c.(swaps := c.swaps + 1, attempt := c.attempt + 1,
           phase := if c.attempt + 1 > c.retries then Finished(Contention) else Reading)
  }

  ghost predicate Next(cfg: Config, s: State, s': State)
    requires cfg.Valid()
  {
    exists i: nat :: Moves(cfg, s, s', i)
  }

  ghost predicate Moves(cfg: Config, s: State, s': State, i: nat)
    requires cfg.Valid()
  {
    ReadStep(s, s', i) || SwapStep(s, s', i) || exists p :: ComputeStep(cfg, s, s', i, p)
  }

  ghost predicate DocumentIn(cfg: Config, stored: set<Hash>, h: Hash)
    requires cfg.Valid()
  {
    h in stored && IsDocument(cfg, h)
  }

  ghost predicate Start(cfg: Config, s: State)
    requires cfg.Valid()
  {
    && Closed(s.stored) && DocumentIn(cfg, s.stored, s.root) && s.log == []
    && (forall i | 0 <= i < |s.clients| ::
         s.clients[i].phase.Reading? && s.clients[i].attempt == 0 && s.clients[i].swaps == 0)
    && (forall i | 0 <= i < |s.clients| && s.clients[i].request.EditRequest? ::
         DocumentIn(cfg, s.stored, s.clients[i].request.base))
  }

  /** A run: states from a start, each a step from the one before. */
  ghost predicate Run(cfg: Config, run: seq<State>)
    requires cfg.Valid()
  {
    run != [] && Start(cfg, run[0]) && forall k | 0 <= k < |run| - 1 :: Next(cfg, run[k], run[k + 1])
  }

  // ----- what every step keeps -----

  /** The root before the k-th swap. */
  function RootBefore(first: Hash, log: seq<Swapped>, k: nat): Hash
    requires k <= |log|
  {
    if k == 0 then first else log[k - 1].root
  }

  /** A swap replaced exactly the root that the client's edits were applied or rebased onto, by a
      stored document. */
  ghost predicate SwapOk(cfg: Config, first: Hash, s: State, k: nat)
    requires cfg.Valid() && k < |s.log|
  {
    var w := s.log[k];
    && w.onto == RootBefore(first, s.log, k) && w.root != w.onto
    && DocumentIn(cfg, s.stored, w.root) && w.client < |s.clients|
    && exists v: nat, a: nat, kind :: Answers(cfg, s.clients[w.client].request, w.onto, v, a, Propose(w.root, kind))
  }

  /** The root and version that were there when `seen` swaps had been made. */
  ghost predicate ReadThen(first: Hash, s: State, cur: Hash, v: nat, seen: nat) {
    seen <= |s.log| && cur == RootBefore(first, s.log, seen) && v + (|s.log| - seen) == s.version
  }

  ghost predicate ClientOk(cfg: Config, first: Hash, s: State, c: Client)
    requires cfg.Valid()
  {
    && (c.request.EditRequest? ==> DocumentIn(cfg, s.stored, c.request.base))
    && c.swaps <= c.retries + 1
    && match c.phase
       case Reading => c.swaps == c.attempt <= c.retries && c.attempt <= |s.log|
       case Holding(cur, v, seen) =>
         c.swaps == c.attempt <= c.retries && c.attempt <= seen <= |s.log|
         && DocumentIn(cfg, s.stored, cur) && ReadThen(first, s, cur, v, seen)
       case Ready(cur, v, seen, next, kind) =>
         c.swaps == c.attempt <= c.retries && c.attempt <= seen <= |s.log|
         && DocumentIn(cfg, s.stored, cur) && ReadThen(first, s, cur, v, seen)
         && next != cur && DocumentIn(cfg, s.stored, next) && !kind.NoOp?
         && Answers(cfg, c.request, cur, v, c.attempt, Propose(next, kind))
       case Finished(r) =>
         && (r.Committed? ==> r.retries <= c.retries)
         && (r.Contention? ==> c.swaps == c.retries + 1 <= |s.log|)
         && (c.request.AppendRequest? ==> r.Committed? || r.Contention?)
  }

  ghost predicate Inv(cfg: Config, first: Hash, s: State)
    requires cfg.Valid()
  {
    && Closed(s.stored) && DocumentIn(cfg, s.stored, first)
    && DocumentIn(cfg, s.stored, s.root) && s.root == RootBefore(first, s.log, |s.log|)
    && (forall k | 0 <= k < |s.log| :: SwapOk(cfg, first, s, k))
    && (forall i | 0 <= i < |s.clients| :: ClientOk(cfg, first, s, s.clients[i]))
  }

  /** Nothing stored is dropped, no swap is forgotten, and nobody's request changes. */
  ghost predicate Onward(s: State, s': State) {
    && s.stored <= s'.stored && s.log <= s'.log && |s'.clients| == |s.clients|
    && forall i | 0 <= i < |s.clients| ::
         s'.clients[i].request == s.clients[i].request && s'.clients[i].retries == s.clients[i].retries
  }

  lemma ProposedIsDocument(cfg: Config, request: Request, cur: Hash, version: nat, attempt: nat, p: Proposal)
    requires cfg.Valid() && Answers(cfg, request, cur, version, attempt, p) && p.Propose?
    ensures IsDocument(cfg, p.root) && !p.kind.NoOp?
  {
    match request
    case AppendRequest(tail) =>
      BuiltIsDocument(cfg, TextOf(cur) + tail);
    case EditRequest(base, edits) =>
      EditedIsDocument(cfg, base, cur, edits, version, p);
  }

  lemma {:induction false} EditedIsDocument(cfg: Config, base: Hash, cur: Hash, edits: seq<Edit>, version: nat,
      p: Proposal)
    requires cfg.Valid() && Proposes(cfg, base, cur, edits, version, p) && p.Propose?
    ensures IsDocument(cfg, p.root) && !p.kind.NoOp?
  {
    var t, u := TextOf(base), TextOf(cur);
    hide RebasedAs, IsDocument, TextOf;
    if cur == base {
      BuiltIsDocument(cfg, Splice(t, edits));
    } else {
      var runs, r :| Reported(cfg, t, u, runs) && RunsOf(t, u, runs)
        && RebasedAs(cfg, t, u, runs, edits, version, r) && p == ProposalOf(r);
      RebasedIsDocument(cfg, t, u, runs, edits, version, r);
    }
  }

  /** A client that did not move is still fine. */
  lemma {:induction false} BystanderOk(cfg: Config, first: Hash, s: State, s': State, c: Client)
    requires cfg.Valid() && ClientOk(cfg, first, s, c) && s.stored <= s'.stored && s.log <= s'.log
    requires s'.version - s.version == |s'.log| - |s.log|
    ensures ClientOk(cfg, first, s', c)
  {
    hide Answers, IsDocument;
  }

  lemma {:induction false} SwapStillOk(cfg: Config, first: Hash, s: State, s': State, k: nat)
    requires cfg.Valid() && k < |s.log| && SwapOk(cfg, first, s, k) && Onward(s, s')
    ensures k < |s'.log| && SwapOk(cfg, first, s', k)
  {
    hide Answers, IsDocument;
    assert s'.log[k] == s.log[k];
    assert k > 0 ==> s'.log[k - 1] == s.log[k - 1];
    var w := s.log[k];
    var v: nat, a: nat, kind :| Answers(cfg, s.clients[w.client].request, w.onto, v, a, Propose(w.root, kind));
    assert Answers(cfg, s'.clients[w.client].request, w.onto, v, a, Propose(w.root, kind));
  }

  /** All clients but the one that moved are still fine, and so are the swaps already made. */
  lemma {:induction false} OthersOk(cfg: Config, first: Hash, s: State, s': State, i: nat)
    requires cfg.Valid() && Inv(cfg, first, s) && OnlyClient(s, s', i) && Onward(s, s')
    requires s'.version - s.version == |s'.log| - |s.log|
    requires ClientOk(cfg, first, s', s'.clients[i])
    ensures forall j | 0 <= j < |s'.clients| :: ClientOk(cfg, first, s', s'.clients[j])
    ensures forall k | 0 <= k < |s.log| :: SwapOk(cfg, first, s', k)
  {
    hide ClientOk, SwapOk;
    forall j | 0 <= j < |s'.clients| ensures ClientOk(cfg, first, s', s'.clients[j]) {
      if j != i {
        BystanderOk(cfg, first, s, s', s.clients[j]);
      }
    }
    forall k | 0 <= k < |s.log| ensures SwapOk(cfg, first, s', k) {
      SwapStillOk(cfg, first, s, s', k);
    }
  }

  lemma {:induction false} ReadKeeps(cfg: Config, first: Hash, s: State, s': State, i: nat)
    requires cfg.Valid() && Inv(cfg, first, s) && ReadStep(s, s', i)
    ensures Inv(cfg, first, s') && Onward(s, s')
  {
    hide Answers, IsDocument, SwapOk;
    assert ClientOk(cfg, first, s, s.clients[i]);
    OthersOk(cfg, first, s, s', i);
  }

  lemma {:induction false} ComputeKeeps(cfg: Config, first: Hash, s: State, s': State, i: nat, p: Proposal)
    requires cfg.Valid() && Inv(cfg, first, s) && ComputeStep(cfg, s, s', i, p)
    ensures Inv(cfg, first, s') && Onward(s, s')
  {
    hide Answers, IsDocument, SwapOk, TextOf;
    ComputedOk(cfg, first, s, s', i, p);
    hide ClientOk;
    OthersOk(cfg, first, s, s', i);
  }

  lemma {:induction false} ComputedOk(cfg: Config, first: Hash, s: State, s': State, i: nat, p: Proposal)
    requires cfg.Valid() && ComputeStep(cfg, s, s', i, p) && ClientOk(cfg, first, s, s.clients[i])
    ensures ClientOk(cfg, first, s', s'.clients[i])
  {
    hide Answers, IsDocument, TextOf, Closed;
    var c := s.clients[i];
    BystanderOk(cfg, first, s, s', c);
    if p.Refuse? {
      Refusals(cfg, c.request, c.phase.cur, c.phase.version, c.attempt, p);
      FinishedOk(cfg, first, s', c, p.result);
    } else if p.root == c.phase.cur {
      FinishedOk(cfg, first, s', c, Committed(c.phase.version, c.phase.cur, NoOp, c.attempt));
    } else {
      ReadyOk(cfg, first, s', c, p);
    }
  }

  lemma {:induction false} FinishedOk(cfg: Config, first: Hash, s: State, c: Client, r: CommitResult)
    requires cfg.Valid() && c.phase.Holding? && ClientOk(cfg, first, s, c) && !r.Contention?
    requires r.Committed? ==> r.retries == c.attempt
    requires c.request.AppendRequest? ==> r.Committed?
    ensures ClientOk(cfg, first, s, c.(phase := Finished(r)))
  {
    hide IsDocument;
  }

  lemma {:induction false} ReadyOk(cfg: Config, first: Hash, s: State, c: Client, p: Proposal)
    requires cfg.Valid() && c.phase.Holding? && ClientOk(cfg, first, s, c) && p.Propose? && p.root != c.phase.cur
    requires p.root in s.stored
    requires Answers(cfg, c.request, c.phase.cur, c.phase.version, c.attempt, p)
    ensures ClientOk(cfg, first, s, c.(phase := Ready(c.phase.cur, c.phase.version, c.phase.seen, p.root, p.kind)))
  {
    hide IsDocument, Answers;
    ProposedIsDocument(cfg, c.request, c.phase.cur, c.phase.version, c.attempt, p);
    assert p == Propose(p.root, p.kind);
  }

  lemma {:induction false} Refusals(cfg: Config, request: Request, cur: Hash, version: nat, attempt: nat, p: Proposal)
    requires cfg.Valid() && Answers(cfg, request, cur, version, attempt, p) && p.Refuse?
    ensures request.EditRequest? && (p.result.Conflict? || p.result.Invalid?)
  {
    hide RebasedAs, Reported, RunsOf, BuildRoot, Splice, Ascending, TextOf;
  }

  lemma {:induction false} LostSwapKeeps(cfg: Config, first: Hash, s: State, s': State, i: nat)
    requires cfg.Valid() && Inv(cfg, first, s) && SwapStep(s, s', i) && s.root != s.clients[i].phase.cur
    ensures Inv(cfg, first, s') && Onward(s, s')
  {
    hide Answers, IsDocument, SwapOk;
    assert ClientOk(cfg, first, s, s.clients[i]);
    OthersOk(cfg, first, s, s', i);
  }

  lemma {:induction false} WonSwapKeeps(cfg: Config, first: Hash, s: State, s': State, i: nat)
    requires cfg.Valid() && Inv(cfg, first, s) && SwapStep(s, s', i) && s.root == s.clients[i].phase.cur
    ensures Inv(cfg, first, s') && Onward(s, s')
  {
    hide Answers, IsDocument;
    var c := s.clients[i];
    assert ClientOk(cfg, first, s, c);
    OthersOk(cfg, first, s, s', i);
    hide ClientOk;
    var k := |s.log|;
    assert s'.log[k] == Swapped(i, c.phase.cur, c.phase.next);
    assert s'.clients[i].request == c.request;
    assert Answers(cfg, s'.clients[i].request, c.phase.cur, c.phase.version, c.attempt,
      Propose(c.phase.next, c.phase.kind));
    assert k > 0 ==> s'.log[k - 1] == s.log[k - 1];
    assert SwapOk(cfg, first, s', k);
    hide SwapOk;
    forall l | 0 <= l < |s'.log| ensures SwapOk(cfg, first, s', l) {
    }
  }

  lemma {:induction false} NextKeeps(cfg: Config, first: Hash, s: State, s': State)
    requires cfg.Valid() && Inv(cfg, first, s) && Next(cfg, s, s')
    ensures Inv(cfg, first, s') && Onward(s, s')
  {
    hide Inv, Onward, ReadStep, ComputeStep;
    var i: nat :| Moves(cfg, s, s', i);
    if ReadStep(s, s', i) {
      ReadKeeps(cfg, first, s, s', i);
    } else if SwapStep(s, s', i) {
      if s.root == s.clients[i].phase.cur {
        WonSwapKeeps(cfg, first, s, s', i);
      } else {
        LostSwapKeeps(cfg, first, s, s', i);
      }
    } else {
      var p :| ComputeStep(cfg, s, s', i, p);
      ComputeKeeps(cfg, first, s, s', i, p);
    }
  }

  // ----- runs -----

  lemma {:induction false} RunPrefix(cfg: Config, run: seq<State>, n: nat)
    requires cfg.Valid() && Run(cfg, run) && 0 < n <= |run|
    ensures Run(cfg, run[..n])
  {
    hide Next, Start;
    forall k | 0 <= k < n - 1 ensures Next(cfg, run[..n][k], run[..n][k + 1]) {
      assert Next(cfg, run[k], run[k + 1]);
    }
  }

  /** Over every run: each installed root is a stored document, each swap replaced exactly the root its
      edits were applied or rebased onto, and no call tries more than `retries + 1` swaps. */
  lemma {:induction false} EveryRun(cfg: Config, run: seq<State>)
    requires cfg.Valid() && Run(cfg, run)
    ensures forall n | 0 <= n < |run| :: Inv(cfg, run[0].root, run[n]) && Onward(run[0], run[n])
    decreases |run|
  {
    hide Next, Inv, Onward;
    var last := |run| - 1;
    if last == 0 {
      StartInv(cfg, run[0]);
    } else {
      RunPrefix(cfg, run, last);
      EveryRun(cfg, run[..last]);
      assert Inv(cfg, run[..last][0].root, run[..last][last - 1]) && Onward(run[..last][0], run[..last][last - 1]);
      assert Next(cfg, run[last - 1], run[last]);
      NextKeeps(cfg, run[0].root, run[last - 1], run[last]);
      OnwardOn(run[0], run[last - 1], run[last]);
      forall n | 0 <= n < |run| ensures Inv(cfg, run[0].root, run[n]) && Onward(run[0], run[n]) {
        if n < last {
          assert run[..last][n] == run[n];
        }
      }
    }
  }

  lemma {:induction false} StartInv(cfg: Config, s: State)
    requires cfg.Valid() && Start(cfg, s)
    ensures Inv(cfg, s.root, s) && Onward(s, s)
  {
    hide IsDocument;
  }

  lemma {:induction false} OnwardOn(a: State, b: State, c: State)
    requires Onward(a, b) && Onward(b, c)
    ensures Onward(a, c)
  {
  }

  lemma {:induction false} RunOnward(cfg: Config, run: seq<State>, m: nat, n: nat)
    requires cfg.Valid() && Run(cfg, run) && m <= n < |run|
    ensures Onward(run[m], run[n])
    decreases n - m
  {
    hide Inv, Next;
    if m < n {
      RunOnward(cfg, run, m, n - 1);
      EveryRun(cfg, run);
      assert Inv(cfg, run[0].root, run[n - 1]) && Next(cfg, run[n - 1], run[n]);
      NextKeeps(cfg, run[0].root, run[n - 1], run[n]);
      hide Onward;
      OnwardOn(run[m], run[n - 1], run[n]);
    }
  }

  /** What was installed stays readable, to the same bytes, in every later state of the run. */
  lemma {:induction false} InstalledForEver(cfg: Config, run: seq<State>, m: nat, n: nat, k: nat)
    requires cfg.Valid() && Run(cfg, run) && m <= n < |run| && k < |run[m].log|
    ensures k < |run[n].log| && run[n].log[k] == run[m].log[k]
    ensures DocumentIn(cfg, run[n].stored, run[m].log[k].root) && Closed(run[n].stored)
  {
    hide Next, Start, SwapOk, ClientOk, IsDocument;
    RunOnward(cfg, run, m, n);
    EveryRun(cfg, run);
    assert Inv(cfg, run[0].root, run[n]);
    assert run[n].log[k] == run[m].log[k];
    InstalledDocument(cfg, run[0].root, run[n], k);
  }

  lemma {:induction false} InstalledDocument(cfg: Config, first: Hash, s: State, k: nat)
    requires cfg.Valid() && Inv(cfg, first, s) && k < |s.log|
    ensures DocumentIn(cfg, s.stored, s.log[k].root)
  {
    hide IsDocument, Answers;
    assert SwapOk(cfg, first, s, k);
  }

  // ----- who swapped -----

  /** The call got a new root in. */
  ghost predicate Landed(c: Client) {
    c.phase.Finished? && c.phase.result.Committed? && !c.phase.result.kind.NoOp?
  }

  /** The log is the list of the calls that landed, each once, with the root it returned. */
  ghost predicate LogOfLanded(s: State) {
    && (forall k | 0 <= k < |s.log| :: s.log[k].client < |s.clients| && Landed(s.clients[s.log[k].client])
         && s.clients[s.log[k].client].phase.result.root == s.log[k].root)
    && (forall k, l | 0 <= k < l < |s.log| :: s.log[k].client != s.log[l].client)
    && (forall i | 0 <= i < |s.clients| && Landed(s.clients[i]) :: InLog(s, i))
  }

  ghost predicate InLog(s: State, i: nat) {
    exists k :: 0 <= k < |s.log| && s.log[k].client == i
  }

  lemma {:induction false} NextKeepsLog(cfg: Config, first: Hash, s: State, s': State)
    requires cfg.Valid() && Inv(cfg, first, s) && Next(cfg, s, s') && LogOfLanded(s)
    ensures LogOfLanded(s')
  {
    hide Inv, ReadStep, SwapStep, ComputeStep, LogOfLanded;
    var i: nat :| Moves(cfg, s, s', i);
    if SwapStep(s, s', i) {
      SwapKeepsLog(cfg, first, s, s', i);
    } else if ReadStep(s, s', i) {
      ReadKeepsLog(s, s', i);
    } else {
      var p :| ComputeStep(cfg, s, s', i, p);
      ComputeKeepsLog(cfg, s, s', i, p);
    }
  }

  lemma {:induction false} ReadKeepsLog(s: State, s': State, i: nat)
    requires ReadStep(s, s', i) && LogOfLanded(s)
    ensures LogOfLanded(s')
  {
    SameLog(s, s', i);
  }

  lemma {:induction false} ComputeKeepsLog(cfg: Config, s: State, s': State, i: nat, p: Proposal)
    requires cfg.Valid() && ComputeStep(cfg, s, s', i, p) && LogOfLanded(s)
    ensures LogOfLanded(s')
  {
    hide Closed, LogOfLanded;
    if p.Refuse? {
      Refusals(cfg, s.clients[i].request, s.clients[i].phase.cur, s.clients[i].phase.version, s.clients[i].attempt, p);
    }
    hide Answers;
    SameLog(s, s', i);
  }

  /** A step of a client that had not landed and does not land keeps the log as it is. */
  lemma {:induction false} SameLog(s: State, s': State, i: nat)
    requires OnlyClient(s, s', i) && s'.log == s.log && !Landed(s.clients[i]) && !Landed(s'.clients[i])
    requires LogOfLanded(s)
    ensures LogOfLanded(s')
  {
    forall j | 0 <= j < |s'.clients| && Landed(s'.clients[j]) ensures InLog(s', j) {
      assert Landed(s.clients[j]) && InLog(s, j);
    }
  }

  lemma {:induction false} SwapKeepsLog(cfg: Config, first: Hash, s: State, s': State, i: nat)
    requires cfg.Valid() && Inv(cfg, first, s) && SwapStep(s, s', i) && LogOfLanded(s)
    ensures LogOfLanded(s')
  {
    hide Answers, IsDocument, Closed, SwapOk, RootBefore;
    assert ClientOk(cfg, first, s, s.clients[i]);
    if s.root == s.clients[i].phase.cur {
      var k := |s.log|;
      assert s'.log[k].client == i;
      forall j | 0 <= j < |s'.clients| && Landed(s'.clients[j]) ensures InLog(s', j) {
        if j != i {
          assert InLog(s, j);
          var l :| 0 <= l < |s.log| && s.log[l].client == j;
          assert s'.log[l] == s.log[l];
        }
      }
    } else {
      SameLog(s, s', i);
    }
  }

  /** Over every run, the log is the calls that landed: each of them once, and nobody else. */
  lemma {:induction false} LandedOnce(cfg: Config, run: seq<State>, n: nat)
    requires cfg.Valid() && Run(cfg, run) && n < |run|
    ensures LogOfLanded(run[n])
    decreases n
  {
    hide Inv, Next;
    if n > 0 {
      LandedOnce(cfg, run, n - 1);
      EveryRun(cfg, run);
      assert Inv(cfg, run[0].root, run[n - 1]) && Next(cfg, run[n - 1], run[n]);
      NextKeepsLog(cfg, run[0].root, run[n - 1], run[n]);
    }
  }

  /** At most `retries + 1` swaps are tried by a call; and it gives up only after at least that many
      swaps were made, all of them by others. */
  lemma {:induction false} BoundedAttempts(cfg: Config, run: seq<State>, n: nat, i: nat)
    requires cfg.Valid() && Run(cfg, run) && n < |run| && i < |run[n].clients|
    ensures run[n].clients[i].swaps <= run[n].clients[i].retries + 1
    ensures run[n].clients[i].phase == Finished(Contention) ==>
      && |run[n].log| >= run[n].clients[i].retries + 1
      && forall k | 0 <= k < |run[n].log| :: run[n].log[k].client != i
  {
    hide Next, Start;
    EveryRun(cfg, run);
    assert Inv(cfg, run[0].root, run[n]);
    assert ClientOk(cfg, run[0].root, run[n], run[n].clients[i]);
    LandedOnce(cfg, run, n);
  }

  /** The swaps a call has lost are its attempts so far; when it is done it reports them, having won one more
      unless there was nothing to do. */
  predicate Counted(c: Client) {
    match c.phase
    case Finished(Committed(_, _, kind, retries)) =>
      retries == c.attempt <= c.retries && c.swaps == if kind.NoOp? then retries else retries + 1
    case Finished(Contention) => c.swaps == c.attempt == c.retries + 1
    case Ready(_, _, _, _, kind) => c.swaps == c.attempt <= c.retries && !kind.NoOp?
    case _ => c.swaps == c.attempt <= c.retries
  }

  ghost predicate AllCounted(s: State) {
    forall i | 0 <= i < |s.clients| :: Counted(s.clients[i])
  }

  lemma {:induction false} ComputeCounts(cfg: Config, s: State, s': State, i: nat, p: Proposal)
    requires cfg.Valid() && ComputeStep(cfg, s, s', i, p) && Counted(s.clients[i])
    ensures Counted(s'.clients[i])
  {
    hide Answers, Closed;
    var c := s.clients[i];
    if p.Refuse? {
      Refusals(cfg, c.request, c.phase.cur, c.phase.version, c.attempt, p);
    } else {
      ProposedIsDocument(cfg, c.request, c.phase.cur, c.phase.version, c.attempt, p);
    }
  }

  /** The number of retries a commit reports is that of the swaps it lost. */
  lemma {:induction false} RetriesAreLost(cfg: Config, run: seq<State>, n: nat)
    requires cfg.Valid() && Run(cfg, run) && n < |run|
    ensures AllCounted(run[n])
    decreases n
  {
    hide ComputeStep, Closed, DocumentIn, Counted;
    if n == 0 {
      StartCounted(cfg, run[0]);
    } else {
      RetriesAreLost(cfg, run, n - 1);
      var s, s' := run[n - 1], run[n - 1 + 1];
      assert Next(cfg, s, s');
      var i: nat :| Moves(cfg, s, s', i);
      StepCounted(cfg, s, s', i);
    }
  }

  lemma StartCounted(cfg: Config, s: State)
    requires cfg.Valid() && Start(cfg, s)
    ensures AllCounted(s)
  {
  }

  lemma {:induction false} StepCounted(cfg: Config, s: State, s': State, i: nat)
    requires cfg.Valid() && Moves(cfg, s, s', i) && AllCounted(s)
    ensures AllCounted(s')
  {
    hide Answers, Closed;
    assert Counted(s.clients[i]);
    if !ReadStep(s, s', i) && !SwapStep(s, s', i) {
      var p :| ComputeStep(cfg, s, s', i, p);
      ComputeCounts(cfg, s, s', i, p);
    }
    forall k | 0 <= k < |s'.clients| ensures Counted(s'.clients[k]) {
      assert Counted(s.clients[k]);
    }
  }

  // ----- appends only -----

  /** The tails of the swaps, in order. */
  function Tails(clients: seq<Client>, log: seq<Swapped>): Bytes
    requires forall k | 0 <= k < |log| :: log[k].client < |clients|
  {
    if log == [] then []
    else
      var w := log[|log| - 1];
      assert log[|log| - 1].client < |clients|;
      var r := clients[w.client].request;
      assert forall k | 0 <= k < |log| - 1 :: log[..|log| - 1][k] == log[k];
      Tails(clients, log[..|log| - 1]) + if r.AppendRequest? then r.tail else []
  }

  ghost predicate LogInRange(s: State) {
    forall k | 0 <= k < |s.log| :: s.log[k].client < |s.clients|
  }

  lemma {:induction false} AppendedSoFar(cfg: Config, first: Hash, s: State, n: nat)
    requires cfg.Valid() && Inv(cfg, first, s) && n <= |s.log| && LogInRange(s)
    requires forall i | 0 <= i < |s.clients| :: s.clients[i].request.AppendRequest?
    ensures forall k | 0 <= k < n :: s.log[..n][k].client < |s.clients|
    ensures TextOf(RootBefore(first, s.log, n)) == TextOf(first) + Tails(s.clients, s.log[..n])
    decreases n
  {
    hide IsDocument, ClientOk, TextOf;
    if n == 0 {
      assert s.log[..0] == [];
    } else {
      AppendedSoFar(cfg, first, s, n - 1);
      AppendedByOne(cfg, first, s, n - 1);
      var w := s.log[n - 1];
      assert s.log[..n] == s.log[..n - 1] + [w];
      TailsSnoc(s.clients, s.log[..n - 1], w);
      AssocTails(TextOf(first), Tails(s.clients, s.log[..n - 1]), s.clients[w.client].request.tail);
    }
  }

  lemma AssocTails(a: Bytes, b: Bytes, c: Bytes)
    ensures (a + b) + c == a + (b + c)
  {
  }

  lemma {:induction false} AppendedByOne(cfg: Config, first: Hash, s: State, k: nat)
    requires cfg.Valid() && Inv(cfg, first, s) && k < |s.log|
    requires forall i | 0 <= i < |s.clients| :: s.clients[i].request.AppendRequest?
    ensures s.log[k].client < |s.clients|
    ensures TextOf(s.log[k].root) == TextOf(RootBefore(first, s.log, k)) + s.clients[s.log[k].client].request.tail
  {
    assert SwapOk(cfg, first, s, k);
    var w := s.log[k];
    BuiltIsDocument(cfg, TextOf(w.onto) + s.clients[w.client].request.tail);
  }

  lemma {:induction false} TailsSnoc(clients: seq<Client>, log: seq<Swapped>, w: Swapped)
    requires (forall k | 0 <= k < |log| :: log[k].client < |clients|) && w.client < |clients|
    requires clients[w.client].request.AppendRequest?
    ensures forall k | 0 <= k < |log + [w]| :: (log + [w])[k].client < |clients|
    ensures Tails(clients, log + [w]) == Tails(clients, log) + clients[w.client].request.tail
  {
    assert (log + [w])[..|log|] == log;
  }

  /** In any interleaving made only of appends, the text is the initial text and then the committed tails
      in swap order, and no append is refused. */
  lemma {:induction false} AppendsOnly(cfg: Config, run: seq<State>, n: nat)
    requires cfg.Valid() && Run(cfg, run) && n < |run|
    requires forall i | 0 <= i < |run[0].clients| :: run[0].clients[i].request.AppendRequest?
    ensures LogInRange(run[n]) && TextOf(run[n].root) == TextOf(run[0].root) + Tails(run[n].clients, run[n].log)
    ensures LogOfLanded(run[n])
    ensures forall i | 0 <= i < |run[n].clients| && run[n].clients[i].phase.Finished? ::
      run[n].clients[i].phase.result.Committed? || run[n].clients[i].phase.result.Contention?
  {
    EveryRun(cfg, run);
    LandedOnce(cfg, run, n);
    var s := run[n];
    assert Inv(cfg, run[0].root, s) && Onward(run[0], s);
    hide LogOfLanded;
    forall k | 0 <= k < |s.log| ensures s.log[k].client < |s.clients| {
      assert SwapOk(cfg, run[0].root, s, k);
    }
    AppendedSoFar(cfg, run[0].root, s, |s.log|);
    assert s.log[..|s.log|] == s.log;
    forall i | 0 <= i < |s.clients| && s.clients[i].phase.Finished?
      ensures s.clients[i].phase.result.Committed? || s.clients[i].phase.result.Contention? {
      assert ClientOk(cfg, run[0].root, s, s.clients[i]);
    }
  }

  // ----- the version returned -----

  /** The version a swap returns is behind the one it installs by the number of swaps made since its
      read. It is the one installed exactly when there were none; and there was never just one, since
      one swap does not bring a document back to the root that was read. */
  lemma {:induction false} ReturnedVersion(cfg: Config, run: seq<State>, n: nat, i: nat)
    requires cfg.Valid() && Run(cfg, run) && n + 1 < |run| && SwapStep(run[n], run[n + 1], i)
    requires run[n].root == run[n].clients[i].phase.cur
    ensures run[n + 1].clients[i].phase.Finished? && run[n + 1].clients[i].phase.result.Committed?
    ensures var behind := run[n + 1].version - run[n + 1].clients[i].phase.result.version;
      && behind == |run[n].log| - run[n].clients[i].phase.seen
      && (behind == 0 <==> run[n].clients[i].phase.seen == |run[n].log|) && behind >= 0 && behind != 1
  {
    EveryRun(cfg, run);
    SwapVersion(cfg, run[0].root, run[n], run[n + 1], i);
  }

  lemma {:induction false} SwapVersion(cfg: Config, first: Hash, s: State, s': State, i: nat)
    requires cfg.Valid() && Inv(cfg, first, s) && SwapStep(s, s', i) && s.root == s.clients[i].phase.cur
    ensures s'.clients[i].phase.Finished? && s'.clients[i].phase.result.Committed?
    ensures s'.version - s'.clients[i].phase.result.version == |s.log| - s.clients[i].phase.seen
    ensures s.clients[i].phase.seen <= |s.log| && |s.log| - s.clients[i].phase.seen != 1
  {
    hide Answers, IsDocument, Closed;
    var c := s.clients[i];
    assert ClientOk(cfg, first, s, c);
    assert c.phase.seen < |s.log| ==> SwapOk(cfg, first, s, c.phase.seen);
  }

  // ----- a version that falls behind -----

  /** The state after client `i` moved on to `phase`, having tried `swaps` swaps. */
  function Moved(s: State, i: nat, phase: Phase, swaps: nat): State
    requires i < |s.clients|
  {
    s.(clients := s.clients[i := s.clients[i].(phase := phase, swaps := swaps)])
  }

  lemma {:induction false} ReadMoves(cfg: Config, s: State, i: nat) returns (s': State)
    requires cfg.Valid() && i < |s.clients| && s.clients[i].phase.Reading?
    ensures s' == Moved(s, i, Holding(s.root, s.version, |s.log|), s.clients[i].swaps) && Next(cfg, s, s')
  {
    s' := Moved(s, i, Holding(s.root, s.version, |s.log|), s.clients[i].swaps);
    assert ReadStep(s, s', i);
    assert Moves(cfg, s, s', i);
  }

  lemma {:induction false} ComputeMoves(cfg: Config, s: State, i: nat, root: Hash) returns (s': State)
    requires cfg.Valid() && Closed(s.stored) && i < |s.clients| && s.clients[i].phase.Holding?
    requires root in s.stored && root != s.clients[i].phase.cur
    requires var c := s.clients[i];
      Answers(cfg, c.request, c.phase.cur, c.phase.version, c.attempt, Propose(root, Direct))
    ensures var c := s.clients[i];
      s' == Moved(s, i, Ready(c.phase.cur, c.phase.version, c.phase.seen, root, Direct), c.swaps) && Next(cfg, s, s')
  {
    hide Answers, Closed;
    var c := s.clients[i];
    s' := Moved(s, i, Ready(c.phase.cur, c.phase.version, c.phase.seen, root, Direct), c.swaps);
    assert ComputeStep(cfg, s, s', i, Propose(root, Direct));
    assert Moves(cfg, s, s', i);
  }

  lemma {:induction false} SwapMoves(cfg: Config, s: State, i: nat) returns (s': State)
    requires cfg.Valid() && i < |s.clients| && s.clients[i].phase.Ready? && s.root == s.clients[i].phase.cur
    ensures var c := s.clients[i];
      var r := c.phase;
      && s' == Moved(s, i, Finished(Committed(r.version + 1, r.next, r.kind, c.attempt)), c.swaps + 1).(
           root := r.next, version := s.version + 1, log := s.log + [Swapped(i, r.cur, r.next)])
      && SwapStep(s, s', i) && Next(cfg, s, s')
  {
    var c := s.clients[i];
    var r := c.phase;
    s' := Moved(s, i, Finished(Committed(r.version + 1, r.next, r.kind, c.attempt)), c.swaps + 1).(
      root := r.next, version := s.version + 1, log := s.log + [Swapped(i, r.cur, r.next)]);
    assert SwapStep(s, s', i);
    assert Moves(cfg, s, s', i);
  }

  /** One call's read, computation and swap, nobody in between. */
  lemma {:induction false} WholeCall(cfg: Config, s: State, i: nat, root: Hash) returns (s1: State, s2: State,
      s3: State)
    requires cfg.Valid() && Closed(s.stored) && i < |s.clients| && s.clients[i].phase.Reading?
    requires root in s.stored && root != s.root
    requires Answers(cfg, s.clients[i].request, s.root, s.version, s.clients[i].attempt, Propose(root, Direct))
    ensures Next(cfg, s, s1) && Next(cfg, s1, s2) && Next(cfg, s2, s3)
    ensures s3.stored == s.stored && s3.root == root && s3.version == s.version + 1 && |s3.log| == |s.log| + 1
    ensures |s3.clients| == |s.clients| && forall j | 0 <= j < |s.clients| && j != i :: s3.clients[j] == s.clients[j]
  {
    hide Answers, Closed, Next, SwapStep;
    s1 := ReadMoves(cfg, s, i);
    s2 := ComputeMoves(cfg, s1, i, root);
    s3 := SwapMoves(cfg, s2, i);
  }

  /** Three documents to swap between, and calls that do: one that was read for, one there, one back. */
  ghost predicate ThreeCalls(cfg: Config, s: State, r0: Hash, r1: Hash, r2: Hash)
    requires cfg.Valid()
  {
    && Start(cfg, s) && s.root == r0 && r0 != r1 && r0 != r2 && {r0, r1, r2} <= s.stored
    && |s.clients| == 3
    && Answers(cfg, s.clients[0].request, r0, s.version, 0, Propose(r2, Direct))
    && Answers(cfg, s.clients[1].request, r0, s.version, 0, Propose(r1, Direct))
    && Answers(cfg, s.clients[2].request, r1, s.version + 1, 0, Propose(r0, Direct))
  }

  /** The first call has returned, two versions below the one that is there. */
  ghost predicate FallsBehind(s: State) {
    && |s.clients| > 0 && s.clients[0].phase.Finished? && s.clients[0].phase.result.Committed?
    && s.clients[0].phase.result.version + 2 == s.version && s.clients[0].phase.result.root == s.root
  }

  lemma {:induction false} ThreeSwaps(cfg: Config, s: State, r0: Hash, r1: Hash, r2: Hash) returns (run: seq<State>)
    requires cfg.Valid() && ThreeCalls(cfg, s, r0, r1, r2)
    ensures |run| == 10 && run[0] == s && Run(cfg, run) && SwapStep(run[8], run[9], 0) && |run[9].log| == 3
    ensures FallsBehind(run[9])
  {
    hide Answers, Closed, Next, SwapStep, DocumentIn;
    var a := ReadMoves(cfg, s, 0);
    var b := ComputeMoves(cfg, a, 0, r2);
    var c1, c2, c3 := WholeCall(cfg, b, 1, r1);
    var d1, d2, d3 := WholeCall(cfg, c3, 2, r0);
    var e := SwapMoves(cfg, d3, 0);
    run := [s, a, b, c1, c2, c3, d1, d2, d3, e];
  }

  /** There are three calls such that the version the first one returns is two below the one it
      installs: it read a document that the second emptied out of its way and the third put back. */
  lemma {:induction false} VersionFallsBehind(cfg: Config, version: nat) returns (run: seq<State>)
    requires cfg.Valid()
    ensures |run| == 10 && Run(cfg, run) && run[0].version == version && SwapStep(run[8], run[9], 0)
    ensures |run[9].log| == 3
    ensures FallsBehind(run[9])
  {
    hide Next, Answers, SwapStep, Run;
    var s, r0, r1, r2 := ThreeCallers(cfg, version);
    run := ThreeSwaps(cfg, s, r0, r1, r2);
  }

  lemma {:induction false} ThreeCallers(cfg: Config, version: nat) returns (s: State, r0: Hash, r1: Hash, r2: Hash)
    requires cfg.Valid()
    ensures ThreeCalls(cfg, s, r0, r1, r2) && s.version == version
  {
    hide Closed, TextOf, BuildRoot, Below;
    var t0: Bytes, t1: Bytes, t2: Bytes := [], [97], [120];
    var back := [Edit(0, 1, [])];
    r0, r1, r2 := BuildRoot(cfg, t0), BuildRoot(cfg, t1), BuildRoot(cfg, t2);
    BuiltIsDocument(cfg, t0);
    BuiltIsDocument(cfg, t1);
    BuiltIsDocument(cfg, t2);
    RootsNameDocuments(cfg, t0, t1);
    RootsNameDocuments(cfg, t0, t2);
    var stored := Below(r0) + Below(r1) + Below(r2);
    BelowClosed(r0);
    BelowClosed(r1);
    BelowClosed(r2);
    ClosedUnion(Below(r0), Below(r1));
    ClosedUnion(Below(r0) + Below(r1), Below(r2));
    EmptiesIt();
    assert t0 + t1 == t1 && t0 + t2 == t2;
    s := State(stored, r0, version, [
      Client(AppendRequest(t2), 0, 0, 0, Reading),
      Client(AppendRequest(t1), 0, 0, 0, Reading),
      Client(EditRequest(r1, back), 0, 0, 0, Reading)], []);
  }

  lemma EmptiesIt()
    ensures var t: Bytes, back := [97], [Edit(0, 1, [])]; Ascending(back, 0, |t|) && Splice(t, back) == []
  {
    var t: Bytes := [97];
    SpliceSingle(t, Edit(0, 1, []));
  }
}
