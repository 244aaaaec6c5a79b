/** A store with one committer at work on it is a state of the protocol, and what the committer's
    methods do to it are the protocol's steps. */
module Committers {
  import opened Text
  import opened Nodes
  import opened Storage
  import opened Tree
  import opened Rebasing
  import opened Committing
  import opened Protocol

  /** The store holds what the state says it does, with the file at the state's root and version. */
  ghost predicate Shows(st: MemStorage, file: nat, s: State)
    reads st
  {
    st.Sound() && file in st.roots && st.Stored() == s.stored && st.roots[file] == (s.root, s.version)
  }

  /** Reading the root is the protocol's read step. */
  method Read(st: MemStorage, file: nat, ghost s: State, ghost i: nat) returns (cur: Hash, v: nat, ghost s': State)
    requires Shows(st, file, s) && i < |s.clients| && s.clients[i].phase.Reading?
    ensures ReadStep(s, s', i) && Shows(st, file, s') && s'.clients[i].phase == Holding(cur, v, |s.log|)
  {
    cur, v := st.roots[file].0, st.roots[file].1;
    s' := s.(clients := s.clients[i := s.clients[i].(phase := Holding(cur, v, |s.log|))]);
  }

  /** Where a committer that holds a root goes with its proposal. */
  function PhaseAfter(h: Phase, attempt: nat, p: Proposal): Phase
    requires h.Holding?
  {
    if p.Refuse? then Finished(p.result)
    else if p.root == h.cur then Finished(Committed(h.version, h.cur, NoOp, attempt))
    else Ready(h.cur, h.version, h.seen, p.root, p.kind)
  }

  /** Computing a proposal is the protocol's compute step: the store grows, and its roots stay. */
  method Compute(st: MemStorage, cfg: Config, file: nat, c: Client, ghost first: Hash, ghost s: State, ghost i: nat)
      returns (p: Proposal, ghost s': State)
    requires cfg.Valid() && Shows(st, file, s) && Inv(cfg, first, s)
    requires i < |s.clients| && c == s.clients[i] && c.phase.Holding?
    modifies st`chunks, st`chunkBytesWritten, st`nodes, st`nodeWrites
    ensures ComputeStep(cfg, s, s', i, p) && Shows(st, file, s') && Inv(cfg, first, s')
    ensures s'.clients[i].phase == PhaseAfter(c.phase, c.attempt, p)
  {
    hide BuildRoot, IsDocument, Leaves, Proposes, SwapOk, TextOf;
    assert ClientOk(cfg, first, s, s.clients[i]);
    match c.request {
      case EditRequest(base, edits) =>
        NothingCached(st, cfg, base, edits);
        var cached;
        p, cached := ComputeProposal(st, cfg, base, c.phase.cur, edits, c.phase.version, None);
      case AppendRequest(tail) =>
        var root := ComputeAppend(st, cfg, c.phase.cur, tail);
        p := Propose(root, if c.attempt == 0 then Direct else RebasedOnto);
    }
    s' := s.(stored := st.Stored(), clients := s.clients[i := c.(phase := PhaseAfter(c.phase, c.attempt, p))]);
    hide Closed, Inv, ClientOk;
    assert ComputeStep(cfg, s, s', i, p);
    ComputeKeeps(cfg, first, s, s', i, p);
  }

  /** The compare-and-swap is the protocol's swap step, won or lost. */
  method TrySwap(st: MemStorage, file: nat, c: Client, ghost s: State, ghost i: nat) returns (ok: bool, ghost s': State)
    requires Shows(st, file, s) && i < |s.clients| && c == s.clients[i] && c.phase.Ready?
    modifies st`roots
    ensures SwapStep(s, s', i) && Shows(st, file, s') && ok == (s.root == c.phase.cur)
  {
    hide Closed;
    ok := st.CasRoot(file, Some(c.phase.cur), c.phase.next);
    if ok {
      s' := s.(root := c.phase.next, version := s.version + 1, log := s.log + [Swapped(i, c.phase.cur, c.phase.next)],
        clients := s.clients[i := c.(swaps := c.swaps + 1,
          phase := Finished(Committed(c.phase.version + 1, c.phase.next, c.phase.kind, c.attempt)))]);
    } else {
      s' := s.(clients := s.clients[i := c.(swaps := c.swaps + 1, attempt := c.attempt + 1,
        phase := if c.attempt + 1 > c.retries then Finished(Contention) else Reading)]);
    }
  }

  /** A root installed by state `m` of a run can be read from a store in any later state, and reads as
      the same bytes. */
  method ReadInstalled(st: MemStorage, cfg: Config, file: nat, root: Hash, ghost run: seq<State>, ghost m: nat,
      ghost n: nat, ghost k: nat) returns (bytes: Bytes)
    requires cfg.Valid() && Run(cfg, run) && m <= n < |run| && Shows(st, file, run[n])
    requires k < |run[m].log| && root == run[m].log[k].root
    ensures bytes == TextOf(root)
  {
    hide Run, BuildRoot, Closed;
    InstalledForEver(cfg, run, m, n, k);
    ghost var top := CanonicalReads(st, cfg, root, TextOf(root));
    WellFormedFlags(top, root.node.children);
    assert Node(root.node.children) == root.node;
    bytes := Materialize(st, root);
  }
}
